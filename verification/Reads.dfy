/** What a read means: the newest entry of a key that a sequence number may see,
    among a plain set of entries. */
module Reads {
  import opened Keys

  ghost function EntrySet(es: seq<Entry>): set<Entry> {
    set e | e in es
  }

  predicate Sees(e: Entry, u: UserKey, s: nat) {
    e.k.user == u && e.k.sn <= s
  }

  /** No two entries of one user key share a sequence number. */
  ghost predicate Distinct(S: set<Entry>) {
    forall a, b :: a in S && b in S && a.k.user == b.k.user && a.k.sn == b.k.sn ==> a == b
  }

  ghost predicate IsNewest(S: set<Entry>, u: UserKey, s: nat, e: Entry) {
    e in S && Sees(e, u, s) && forall d :: d in S && Sees(d, u, s) ==> d.k.sn <= e.k.sn
  }

  function Answer(e: Entry): Option<Bytes> {
    if e.k.kind == Value then Some(e.value) else None
  }

  /** The value u has at sequence s; None when it is absent or deleted. */
  ghost function Lookup(S: set<Entry>, u: UserKey, s: nat): Option<Bytes> {
    if e: Entry :| IsNewest(S, u, s, e) then Answer(e) else None
  }

  lemma LookupIs(S: set<Entry>, u: UserKey, s: nat, e: Entry)
    requires Distinct(S) && IsNewest(S, u, s, e)
    ensures Lookup(S, u, s) == Answer(e)
  {
  }

  /** A key some entry of which is visible has a newest visible entry. */
  lemma {:induction false} NewestExists(S: set<Entry>, u: UserKey, s: nat) returns (found: bool, e: Entry)
    ensures found ==> IsNewest(S, u, s, e)
    ensures !found ==> forall d :: d in S ==> !Sees(d, u, s)
  {
    if d :| d in S && Sees(d, u, s) {
      found, e := true, d;
      if exists c :: c in S && Sees(c, u, s) && c.k.sn > d.k.sn {
        var rest := set c | c in S && c.k.sn > d.k.sn;
        assert d !in rest;
        assert rest < S;
        found, e := NewestExists(rest, u, s);
      }
    } else {
      found, e := false, Entry(IKey(0.0, 0, Deletion), []);
    }
  }

  /** Sets with the same visible entries of u answer alike. */
  lemma LookupAgree(S: set<Entry>, T: set<Entry>, u: UserKey, s: nat)
    requires Distinct(S) && Distinct(T)
    requires forall e :: Sees(e, u, s) ==> (e in S <==> e in T)
    ensures Lookup(S, u, s) == Lookup(T, u, s)
  {
    var found, e := NewestExists(S, u, s);
    if found {
      assert IsNewest(T, u, s, e);
      LookupIs(S, u, s, e);
      LookupIs(T, u, s, e);
    }
  }
}
