/** The memtable (memtable.cc): a skip list of entries.  A reader at a sequence number
    reads the entries there were when it began, whatever the writer inserts meanwhile. */
module MemTable {
  import opened Keys
  import opened Reads
  import opened Cursors
  import opened Get
  import opened Db
  import opened SkipList

  ghost predicate HoldsKey(es: seq<Entry>, k: IKey) {
    exists e :: e in es && e.k == k
  }

  /** The skip list's keys are those of the entries, each node with its entry's value. */
  ghost predicate Holds(keys: set<IKey>, values: map<IKey, Bytes>, es: seq<Entry>) {
    && SortedEntries(es) && (forall k :: k in keys <==> HoldsKey(es, k))
    && forall e :: e in es ==> e.k in values && values[e.k] == e.value
  }

  /** Every key that comes in later is too new for a reader at s. */
  ghost predicate NewerCome(h: seq<Moment>, t: nat, s: nat)
    requires History(h) && t < |h|
  {
    forall i, k :: t <= i < |h| && k in h[i].lists[0] ==> k in h[t].lists[0] || k.sn > s
  }

  /** The least key not below the lookup key in a later memory tells what the lookup
      among the entries tells. */
  lemma CeilingTells(keys: set<IKey>, later: set<IKey>, values: map<IKey, Bytes>, es: seq<Entry>, u: UserKey, s: nat,
                     r: Option<IKey>)
    requires Holds(keys, values, es) && keys <= later && (forall k :: k in later ==> k in keys || k.sn > s)
    requires IsCeiling(later, SeekKey(u, s), r)
    ensures GetFrom(es, u, s) == if r.Some? && r.value.user == u && r.value in values
                                 then OutcomeOf(Entry(r.value, values[r.value])) else NotFound
    ensures r.Some? && r.value.user == u ==> r.value in values
  {
    var target := SeekKey(u, s);
    var i := SeekIndex(es, target);
    if i < |es| {
      assert HoldsKey(es, es[i].k) && es[i].k in later;
    }
    if r.Some? && r.value.user == u {
      CeilingAt(keys, values, es, target, r.value, i);
    }
  }

  lemma CeilingAt(keys: set<IKey>, values: map<IKey, Bytes>, es: seq<Entry>, target: IKey, q: IKey, i: nat)
    requires Holds(keys, values, es) && q in keys && !Less(q, target) && i == SeekIndex(es, target)
    requires forall k :: k in keys && !Less(k, target) ==> !Less(k, q)
    ensures i < |es| && es[i].k == q && q in values && values[q] == es[i].value
  {
    assert HoldsKey(es, q);
    var e :| e in es && e.k == q;
    var j :| 0 <= j < |es| && es[j] == e;
    assert i <= j;
    assert es[i] in es && HoldsKey(es, es[i].k);
  }

  /** MemTable::Get, with the writer inserting at the same time. */
  method GetConcurrently(ghost h: seq<Moment>, ghost when: nat -> nat, load: nat -> Memory, values: map<IKey, Bytes>,
                         u: UserKey, s: nat, ghost es: seq<Entry>)
    returns (r: Outcome)
    requires History(h) && Clock(when, h) && forall i :: load(i) == h[when(i)].m
    requires Holds(h[when(0)].lists[0], values, es) && NewerCome(h, when(0), s)
    ensures r == GetFrom(es, u, s)
  {
    var k, prev;
    ghost var at, ats;
    k, prev, at, ats := FindGreaterOrEqual(h, when, load, SeekKey(u, s));
    assert Grows(h[when(0)], h[at]);
    CeilingTells(h[when(0)].lists[0], h[at].lists[0], values, es, u, s, k);
    r := NotFound;
    if k.Some? && k.value.user == u {
      r := OutcomeOf(Entry(k.value, values[k.value]));
    }
  }

  class MemTable {
    const table: SkipList
    /** The value each node's memory holds after its key. */
    var values: map<IKey, Bytes>
    ghost var entries: seq<Entry>

    ghost predicate Valid()
      reads this, table
    {
      table.Valid() && Holds(table.Lists()[0], values, entries)
    }

    constructor ()
      ensures Valid() && entries == [] && fresh(table)
    {
      table := new SkipList();
      values, entries := map[], [];
    }

    /** Add: the entries gain this one at its place. */
    method Add(e: Entry, height: nat)
      requires Valid() && !HoldsKey(entries, e.k) && 1 <= height <= MAX_HEIGHT
      modifies this, table
      ensures Valid() && entries == MemInsert(old(entries), e)
      ensures old(table.history) <= table.history
    {
      AddHolds(table.Lists()[0], values, entries, e);
      table.Insert(e.k, height);
      values, entries := values[e.k := e.value], MemInsert(entries, e);
    }

    /** Get when nobody writes. */
    method Get(u: UserKey, s: nat) returns (r: Outcome)
      requires Valid()
      ensures r == GetFrom(entries, u, s)
    {
      var now := table.Now();
      ghost var h, last := table.history, |table.history| - 1;
      r := GetConcurrently(h, _ => last, _ => now, values, u, s, entries);
    }

    /** MemTableInserter over a batch: the entries a DBImpl's memtable then has. */
    method InsertInto(batch: seq<Entry>, heights: nat -> nat)
      requires Valid() && Distinct(EntrySet(entries) + EntrySet(batch))
      requires forall i :: 0 <= i < |batch| ==> batch[i] !in entries && batch[i] !in batch[..i]
      requires forall i :: 1 <= heights(i) <= MAX_HEIGHT
      modifies this, table
      ensures Valid() && EntrySet(entries) == EntrySet(old(entries)) + EntrySet(batch)
      ensures forall es :: SortedEntries(es) && EntrySet(es) == EntrySet(old(entries)) + EntrySet(batch) ==>
                es == entries
    {
      ghost var before := entries;
      for i := 0 to |batch|
        invariant Valid() && EntrySet(entries) == EntrySet(before) + EntrySet(batch[..i])
      {
        var e := batch[i];
        assert batch[..i + 1] == batch[..i] + [e];
        BatchNew(before, batch, i, entries);
        MemInsertSorted(entries, e);
        Add(e, heights(i));
      }
      assert batch[..|batch|] == batch;
      forall es | SortedEntries(es) && EntrySet(es) == EntrySet(entries) ensures es == entries {
        SortedSame(es, entries);
      }
    }
  }

  lemma BatchNew(before: seq<Entry>, batch: seq<Entry>, i: nat, es: seq<Entry>)
    requires i < |batch| && Distinct(EntrySet(before) + EntrySet(batch))
    requires EntrySet(es) == EntrySet(before) + EntrySet(batch[..i])
    requires batch[i] !in before && batch[i] !in batch[..i]
    ensures !HoldsKey(es, batch[i].k)
    ensures forall d :: d in es ==> d.k != batch[i].k
  {
    var e := batch[i];
    forall d | d in es ensures d.k != e.k {
      assert d in EntrySet(es) && e in EntrySet(batch);
      assert d in EntrySet(batch[..i]) ==> d in EntrySet(batch);
    }
  }

  lemma AddHolds(keys: set<IKey>, values: map<IKey, Bytes>, es: seq<Entry>, e: Entry)
    requires Holds(keys, values, es) && !HoldsKey(es, e.k)
    ensures e.k !in keys && Holds(keys + {e.k}, values[e.k := e.value], MemInsert(es, e))
  {
    assert forall d :: d in es ==> HoldsKey(es, d.k);
    MemInsertSorted(es, e);
    var r := MemInsert(es, e);
    forall k ensures k in keys + {e.k} <==> HoldsKey(r, k) {
      if k == e.k {
        assert e in r;
      } else if HoldsKey(es, k) {
        var d :| d in es && d.k == k;
        assert d in r;
      }
    }
  }

  /** Sorted lists of the same entries are the same list. */
  lemma {:induction false} SortedSame(a: seq<Entry>, b: seq<Entry>)
    requires SortedEntries(a) && SortedEntries(b) && EntrySet(a) == EntrySet(b)
    ensures a == b
    decreases |a|
  {
    NoEntries(a);
    NoEntries(b);
    if a != [] {
      FirstSame(a, b);
      RestSame(a, b);
      SortedSame(a[1..], b[1..]);
      assert a == [a[0]] + a[1..] && b == [b[0]] + b[1..];
    }
  }

  lemma NoEntries(es: seq<Entry>)
    ensures EntrySet(es) == {} <==> es == []
  {
    if es != [] {
      assert es[0] in EntrySet(es);
    }
  }

  lemma FirstSame(a: seq<Entry>, b: seq<Entry>)
    requires SortedEntries(a) && SortedEntries(b) && EntrySet(a) == EntrySet(b) && a != [] && b != []
    ensures a[0] == b[0]
  {
    assert a[0] in EntrySet(b) && b[0] in EntrySet(a);
    var i :| 0 <= i < |b| && b[i] == a[0];
    var j :| 0 <= j < |a| && a[j] == b[0];
    assert i > 0 ==> Less(b[0].k, b[i].k);
    assert j > 0 ==> Less(a[0].k, a[j].k);
  }

  lemma RestSame(a: seq<Entry>, b: seq<Entry>)
    requires SortedEntries(a) && SortedEntries(b) && EntrySet(a) == EntrySet(b) && a != [] && b != [] && a[0] == b[0]
    ensures EntrySet(a[1..]) == EntrySet(b[1..])
  {
    RestOf(a);
    RestOf(b);
  }

  lemma RestOf(a: seq<Entry>)
    requires SortedEntries(a) && a != []
    ensures EntrySet(a[1..]) == EntrySet(a) - {a[0]}
  {
    forall e | e in EntrySet(a) - {a[0]} ensures e in a[1..] {
      var i :| 0 <= i < |a| && a[i] == e;
      assert a[1..][i - 1] == e;
    }
    forall e | e in a[1..] ensures e != a[0] {
      var i :| 0 <= i < |a| - 1 && a[1..][i] == e;
      assert Less(a[0].k, a[i + 1].k);
    }
  }
}
