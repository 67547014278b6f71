/** What the two drop rules of a compaction do to reads. */
module Drops {
  import opened Keys
  import opened Reads
  import opened Levels

  /** Compaction::IsBaseLevelForKey, checked from scratch: no deeper file's range
      holds u. */
  ghost predicate Base(files: Files, L: nat, u: UserKey)
    requires |files| == LEVELS
  {
    forall l, f :: L + 2 <= l < LEVELS && f in files[l] ==> !(f.smallest.user <= u <= f.largest.user)
  }

  /** Rule (A): a newer entry of the key, itself old enough for every reader. */
  ghost predicate Hidden(ins: set<Entry>, snap: nat, e: Entry) {
    exists d :: d in ins && d.k.user == e.k.user && e.k.sn < d.k.sn <= snap
  }

  ghost predicate Dropped(files: Files, L: nat, ins: set<Entry>, snap: nat, e: Entry)
    requires |files| == LEVELS
  {
    || Hidden(ins, snap, e)
    || (e.k.kind == Deletion && e.k.sn <= snap && Base(files, L, e.k.user))
  }

  ghost function Kept(files: Files, L: nat, ins: set<Entry>, snap: nat): set<Entry>
    requires |files| == LEVELS
  {
    set e | e in ins && !Dropped(files, L, ins, snap, e)
  }

  /** A file of a level deeper than L+1 has u in its range. */
  ghost predicate Covered(files: Files, L: nat, u: UserKey)
    requires |files| == LEVELS
  {
    exists l, f :: L + 2 <= l < LEVELS && f in files[l] && f.smallest.user <= u <= f.largest.user
  }

  /** What a compaction owes its readers and its disk: of what every reader has in
      sight, per user key the newest entry and no other, and that only if it is a value
      or hides something deeper; of what is newer, everything. */
  ghost predicate Compacted(files: Files, L: nat, ins: set<Entry>, outs: set<Entry>, snap: nat)
    requires |files| == LEVELS
  {
    && outs <= ins
    && (forall e :: e in ins && e.k.sn > snap ==> e in outs)
    && (forall d, e :: d in outs && e in outs && d.k.user == e.k.user && d.k.sn <= snap && e.k.sn <= snap ==> d == e)
    && (forall e :: e in outs && e.k.sn <= snap ==> IsNewest(ins, e.k.user, snap, e))
    && (forall e :: e in outs && e.k.sn <= snap && e.k.kind == Deletion ==> Covered(files, L, e.k.user))
    && (forall e: Entry :: IsNewest(ins, e.k.user, snap, e) && (e.k.kind == Value || Covered(files, L, e.k.user)) ==>
          e in outs)
  }

  /** The two drop rules do that. */
  lemma RulesCompact(files: Files, L: nat, ins: set<Entry>, snap: nat)
    requires |files| == LEVELS && Distinct(ins)
    ensures Compacted(files, L, ins, Kept(files, L, ins, snap), snap)
  {
    var outs := Kept(files, L, ins, snap);
    forall e | e in outs && e.k.sn <= snap ensures IsNewest(ins, e.k.user, snap, e) {
      assert !Hidden(ins, snap, e);
    }
    forall u ensures Base(files, L, u) <==> !Covered(files, L, u) {
    }
  }

  lemma DroppedMeans(files: Files, L: nat, ins: set<Entry>, snap: nat, e: Entry)
    requires |files| == LEVELS && e in ins
    ensures Dropped(files, L, ins, snap, e) <==>
              e.k.sn <= snap && (!IsNewest(ins, e.k.user, snap, e)
                                 || (e.k.kind == Deletion && !Covered(files, L, e.k.user)))
  {
    if e.k.sn <= snap && !IsNewest(ins, e.k.user, snap, e) {
      var d :| d in ins && Sees(d, e.k.user, snap) && d.k.sn > e.k.sn;
      assert Hidden(ins, snap, e);
    }
  }

  /** And this leaves no choice of what to put out. */
  lemma CompactedUnique(files: Files, L: nat, ins: set<Entry>, outs: set<Entry>, outs': set<Entry>, snap: nat)
    requires |files| == LEVELS && Compacted(files, L, ins, outs, snap) && Compacted(files, L, ins, outs', snap)
    ensures outs == outs'
  {
  }

  /** Level L+1 files a compaction leaves in place. */
  ghost function LeftBehind(files: Files, L: nat, in1: set<File>): set<Entry>
    requires L + 1 < |files|
  {
    Contents(files[L + 1] - in1)
  }

  /** Everything in force when a compaction of level L installs its outputs:
      `upper` is what the memtables hold. */
  ghost predicate Compacts(upper: set<Entry>, files: Files, L: nat, in0: set<File>, in1: set<File>,
                           lo: UserKey, hi: UserKey, outs: set<File>, snap: nat) {
    && Good(files) && Distinct(upper + InFiles(files))
    && (forall l, f {:trigger NewerSet(upper, f), f in files[l]} :: 0 <= l < LEVELS && f in files[l] ==>
      NewerSet(upper, f))
    && Chosen(files, L, in0, in1, lo, hi)
    && Outputs(files, outs, Kept(files, L, Contents(in0 + in1), snap))
  }

  /** The one way a compaction can change a read of u: the entry readers see is a
      tombstone among the inputs that rule (B) drops, and a level L+1 file that is
      not an input holds an older value. */
  ghost predicate Resurrects(upper: set<Entry>, files: Files, L: nat, in0: set<File>, in1: set<File>, snap: nat,
                             u: UserKey)
    requires |files| == LEVELS && L + 1 < |files|
  {
    && Base(files, L, u)
    && exists d :: d in Contents(in0 + in1) && d.k.kind == Deletion
                && IsNewest(upper + InFiles(files), u, snap, d)
                && Lookup(LeftBehind(files, L, in1), u, d.k.sn).Some?
  }

  lemma InLevel(files: Files, l: nat, f: File, e: Entry)
    requires l < |files| && f in files[l] && e in f.entries
    ensures e in InFiles(files)
  {
  }

  /** An entry is in one file of one level only. */
  lemma OneHome(files: Files, l: nat, f: File, m: nat, g: File, e: Entry)
    requires Good(files) && l < LEVELS && m < LEVELS && f in files[l] && g in files[m]
    requires e in f.entries && e in g.entries
    ensures l == m && f == g
  {
    assert SameNumber(f, g) ==> l == m && f == g;
    assert l < m ==> NewerFile(f, g);
    assert m < l ==> NewerFile(g, f);
    assert l == m == 0 && f.number > g.number ==> NewerFile(f, g);
    assert l == m == 0 && g.number > f.number ==> NewerFile(g, f);
    Bounded(f, e);
    Bounded(g, e);
    assert l == m >= 1 && f != g ==> Apart(f, g);
  }

  /** The level and file an input entry comes from. */
  lemma InputHome(files: Files, L: nat, in0: set<File>, in1: set<File>, lo: UserKey, hi: UserKey, e: Entry)
    returns (l: nat, f: File)
    requires WellFormed(files) && Chosen(files, L, in0, in1, lo, hi)
    requires e in Contents(in0 + in1)
    ensures l < LEVELS && e in f.entries && f in files[l] && ((l == L && f in in0) || (l == L + 1 && f in in1))
    ensures e in InFiles(files)
  {
    f := FromInput(files, L, in0, in1, lo, hi, e);
    l := if f in in0 then L else L + 1;
    InLevel(files, l, f, e);
  }

  /** An entry of a file that is not an input is not an input entry. */
  lemma NotInput(files: Files, L: nat, in0: set<File>, in1: set<File>, lo: UserKey, hi: UserKey, l: nat, f: File,
                 e: Entry)
    requires Good(files) && Chosen(files, L, in0, in1, lo, hi)
    requires l < LEVELS && f in files[l] && e in f.entries
    requires !(l == L && f in in0) && !(l == L + 1 && f in in1)
    ensures e !in Contents(in0 + in1)
  {
    if e in Contents(in0 + in1) {
      var m, g := InputHome(files, L, in0, in1, lo, hi, e);
      OneHome(files, l, f, m, g, e);
    }
  }

  lemma OlderThanInput(files: Files, L: nat, in0: set<File>, in1: set<File>, lo: UserKey, hi: UserKey,
                       lf: nat, f: File, e: Entry, l: nat, g: File, d: Entry)
    requires Good(files) && Chosen(files, L, in0, in1, lo, hi)
    requires (lf == L && f in in0) || (lf == L + 1 && f in in1)
    requires l < LEVELS && g in files[l] && !(l == L && g in in0)
    requires e in f.entries && d in g.entries && d.k.user == e.k.user && d.k.sn <= e.k.sn
    ensures l > L
  {
    assert f in files[lf];
    assert l < lf ==> NewerFile(g, f);
    assert l == lf == L ==> NewerFile(g, f);
  }

  /** Besides the inputs, only deeper data can hold an older or equal entry of a
      key the inputs hold. */
  lemma OlderIsDeeper(upper: set<Entry>, files: Files, L: nat, in0: set<File>, in1: set<File>,
                      lo: UserKey, hi: UserKey, e: Entry, d: Entry)
    requires Good(files) && Chosen(files, L, in0, in1, lo, hi)
    requires forall l, f {:trigger NewerSet(upper, f), f in files[l]} :: 0 <= l < LEVELS && f in files[l] ==>
               NewerSet(upper, f)
    requires e in Contents(in0 + in1) && d in upper + InFiles(files) && d !in Contents(in0 + in1)
    requires d.k.user == e.k.user && d.k.sn <= e.k.sn
    ensures d in LeftBehind(files, L, in1) || !Base(files, L, e.k.user)
  {
    var lf, f := InputHome(files, L, in0, in1, lo, hi, e);
    assert d in InFiles(files) by {
      assert NewerSet(upper, f);
    }
    var l, g := HomeOf(files, d);
    assert g !in in0 + in1;
    OlderThanInput(files, L, in0, in1, lo, hi, lf, f, e, l, g, d);
    if l == L + 1 {
      assert g in files[L + 1] - in1;
    } else {
      Bounded(g, d);
    }
  }

  lemma HomeOf(files: Files, d: Entry) returns (l: nat, g: File)
    requires d in InFiles(files)
    ensures l < |files| && g in files[l] && d in g.entries
  {
    l, g :| 0 <= l < |files| && g in files[l] && d in g.entries;
  }

  lemma InputNotUpper(upper: set<Entry>, files: Files, L: nat, in0: set<File>, in1: set<File>, lo: UserKey, hi: UserKey,
                      e: Entry)
    requires WellFormed(files) && Chosen(files, L, in0, in1, lo, hi)
    requires forall l, f {:trigger NewerSet(upper, f), f in files[l]} :: 0 <= l < LEVELS && f in files[l] ==>
               NewerSet(upper, f)
    requires e in Contents(in0 + in1)
    ensures e !in upper
  {
    var l, f := InputHome(files, L, in0, in1, lo, hi, e);
    assert NewerSet(upper, f);
  }

  lemma StillThere(files: Files, L: nat, in0: set<File>, in1: set<File>, lo: UserKey, hi: UserKey, outs: set<File>,
                   snap: nat, e: Entry)
    requires Good(files) && Chosen(files, L, in0, in1, lo, hi)
    requires Outputs(files, outs, Kept(files, L, Contents(in0 + in1), snap))
    requires e in InFiles(files) && !(e in Contents(in0 + in1) && Dropped(files, L, Contents(in0 + in1), snap, e))
    ensures e in InFiles(Replace(files, L, in0, in1, outs))
  {
    var after := Replace(files, L, in0, in1, outs);
    if e in Contents(in0 + in1) {
      assert e in Contents(outs);
      var o :| o in outs && e in o.entries;
      assert o in after[L + 1];
      InLevel(after, L + 1, o, e);
    } else {
      var l, f :| 0 <= l < LEVELS && f in files[l] && e in f.entries;
      assert f !in in0 + in1;
      assert f in after[l];
      InLevel(after, l, f, e);
    }
  }

  lemma WasThere(files: Files, L: nat, in0: set<File>, in1: set<File>, lo: UserKey, hi: UserKey, outs: set<File>,
                 snap: nat, e: Entry)
    requires Good(files) && Chosen(files, L, in0, in1, lo, hi)
    requires Outputs(files, outs, Kept(files, L, Contents(in0 + in1), snap))
    requires e in InFiles(Replace(files, L, in0, in1, outs))
    ensures e in InFiles(files) && !(e in Contents(in0 + in1) && Dropped(files, L, Contents(in0 + in1), snap, e))
  {
    var after := Replace(files, L, in0, in1, outs);
    var l, g: File :| 0 <= l < LEVELS && g in after[l] && e in g.entries;
    if g in outs {
      assert e in Contents(outs);
      var m, f := InputHome(files, L, in0, in1, lo, hi, e);
    } else {
      InLevel(files, l, g, e);
      NotInput(files, L, in0, in1, lo, hi, l, g, e);
    }
  }

  /** A compaction removes exactly the dropped inputs. */
  lemma RemovesDropped(upper: set<Entry>, files: Files, L: nat, in0: set<File>, in1: set<File>,
                       lo: UserKey, hi: UserKey, outs: set<File>, snap: nat, e: Entry)
    requires Compacts(upper, files, L, in0, in1, lo, hi, outs, snap)
    ensures e in upper + InFiles(Replace(files, L, in0, in1, outs)) <==>
              e in upper + InFiles(files)
                && !(e in Contents(in0 + in1) && Dropped(files, L, Contents(in0 + in1), snap, e))
    ensures e in upper + InFiles(files) && e !in upper + InFiles(Replace(files, L, in0, in1, outs)) <==>
              e in Contents(in0 + in1) && e.k.sn <= snap
                && (!IsNewest(Contents(in0 + in1), e.k.user, snap, e)
                    || (e.k.kind == Deletion && !Covered(files, L, e.k.user)))
  {
    if e in Contents(in0 + in1) {
      DroppedMeans(files, L, Contents(in0 + in1), snap, e);
      var l, f := InputHome(files, L, in0, in1, lo, hi, e);
    }
    if e in Contents(in0 + in1) {
      InputNotUpper(upper, files, L, in0, in1, lo, hi, e);
    }
    if e in InFiles(Replace(files, L, in0, in1, outs)) {
      WasThere(files, L, in0, in1, lo, hi, outs, snap, e);
    } else if e in InFiles(files) && !(e in Contents(in0 + in1) && Dropped(files, L, Contents(in0 + in1), snap, e)) {
      StillThere(files, L, in0, in1, lo, hi, outs, snap, e);
    }
  }

  /** If the entry a reader at s sees is dropped, then by rule (B). */
  lemma DroppedNewest(upper: set<Entry>, files: Files, L: nat, in0: set<File>, in1: set<File>,
                      lo: UserKey, hi: UserKey, outs: set<File>, snap: nat, u: UserKey, s: nat, n: Entry)
    requires Compacts(upper, files, L, in0, in1, lo, hi, outs, snap) && s >= snap
    requires IsNewest(upper + InFiles(files), u, s, n)
    requires n in Contents(in0 + in1) && Dropped(files, L, Contents(in0 + in1), snap, n)
    ensures n.k.kind == Deletion && n.k.sn <= snap && Base(files, L, u)
    ensures IsNewest(upper + InFiles(files), u, snap, n)
  {
    var ins := Contents(in0 + in1);
    if Hidden(ins, snap, n) {
      var d :| d in ins && d.k.user == u && n.k.sn < d.k.sn <= snap;
      var l, f := InputHome(files, L, in0, in1, lo, hi, d);
    }
  }

  /** Then an entry the reader can see afterwards was left behind. */
  lemma SeenAfter(upper: set<Entry>, files: Files, L: nat, in0: set<File>, in1: set<File>,
                  lo: UserKey, hi: UserKey, outs: set<File>, snap: nat, u: UserKey, s: nat, n: Entry, e: Entry)
    requires Compacts(upper, files, L, in0, in1, lo, hi, outs, snap) && s >= snap
    requires IsNewest(upper + InFiles(files), u, s, n)
    requires n in Contents(in0 + in1) && Dropped(files, L, Contents(in0 + in1), snap, n)
    ensures e in upper + InFiles(Replace(files, L, in0, in1, outs)) && Sees(e, u, s)
       <==> e in LeftBehind(files, L, in1) && Sees(e, u, n.k.sn)
  {
    var ins := Contents(in0 + in1);
    DroppedNewest(upper, files, L, in0, in1, lo, hi, outs, snap, u, s, n);
    RemovesDropped(upper, files, L, in0, in1, lo, hi, outs, snap, e);
    if e in upper + InFiles(Replace(files, L, in0, in1, outs)) && Sees(e, u, s) {
      assert e.k.sn <= n.k.sn;
      assert e in ins ==> e == n || Hidden(ins, snap, e);
      OlderIsDeeper(upper, files, L, in0, in1, lo, hi, n, e);
    }
    if e in LeftBehind(files, L, in1) {
      var f :| f in files[L + 1] - in1 && e in f.entries;
      InLevel(files, L + 1, f, e);
      NotInput(files, L, in0, in1, lo, hi, L + 1, f, e);
    }
  }

  lemma LeftDistinct(upper: set<Entry>, files: Files, L: nat, in1: set<File>)
    requires L + 1 < |files| && Distinct(upper + InFiles(files))
    ensures Distinct(LeftBehind(files, L, in1))
  {
    forall e | e in LeftBehind(files, L, in1)
      ensures e in upper + InFiles(files)
    {
      var f :| f in files[L + 1] - in1 && e in f.entries;
      InLevel(files, L + 1, f, e);
    }
  }

  lemma AfterDistinct(upper: set<Entry>, files: Files, L: nat, in0: set<File>, in1: set<File>,
                      lo: UserKey, hi: UserKey, outs: set<File>, snap: nat)
    requires Compacts(upper, files, L, in0, in1, lo, hi, outs, snap)
    ensures upper + InFiles(Replace(files, L, in0, in1, outs)) <= upper + InFiles(files)
    ensures Distinct(upper + InFiles(Replace(files, L, in0, in1, outs)))
  {
    forall e | e in upper + InFiles(Replace(files, L, in0, in1, outs))
      ensures e in upper + InFiles(files)
    {
      RemovesDropped(upper, files, L, in0, in1, lo, hi, outs, snap, e);
    }
  }

  /** When a reader's entry is dropped, what the reader sees afterwards is what
      the files left behind answer. */
  lemma DroppedRead(upper: set<Entry>, files: Files, L: nat, in0: set<File>, in1: set<File>,
                    lo: UserKey, hi: UserKey, outs: set<File>, snap: nat, u: UserKey, s: nat, n: Entry)
    requires Compacts(upper, files, L, in0, in1, lo, hi, outs, snap) && s >= snap
    requires IsNewest(upper + InFiles(files), u, s, n)
    requires n in Contents(in0 + in1) && Dropped(files, L, Contents(in0 + in1), snap, n)
    ensures Lookup(upper + InFiles(Replace(files, L, in0, in1, outs)), u, s)
              == Lookup(LeftBehind(files, L, in1), u, n.k.sn)
  {
    var left := LeftBehind(files, L, in1);
    var T := upper + InFiles(Replace(files, L, in0, in1, outs));
    LeftDistinct(upper, files, L, in1);
    AfterDistinct(upper, files, L, in0, in1, lo, hi, outs, snap);
    forall e ensures e in T && Sees(e, u, s) <==> e in left && Sees(e, u, n.k.sn) {
      SeenAfter(upper, files, L, in0, in1, lo, hi, outs, snap, u, s, n, e);
    }
    VisibleAgree(T, left, u, s, n.k.sn);
  }

  lemma VisibleAgree(S: set<Entry>, T: set<Entry>, u: UserKey, s: nat, t: nat)
    requires Distinct(S) && Distinct(T)
    requires forall e :: e in S && Sees(e, u, s) <==> e in T && Sees(e, u, t)
    ensures Lookup(S, u, s) == Lookup(T, u, t)
  {
    var found, e := NewestExists(S, u, s);
    if found {
      assert IsNewest(T, u, t, e);
      LookupIs(S, u, s, e);
      LookupIs(T, u, t, e);
    }
  }

  lemma ReadResurrected(upper: set<Entry>, files: Files, L: nat, in0: set<File>, in1: set<File>,
                        lo: UserKey, hi: UserKey, outs: set<File>, snap: nat, u: UserKey)
    requires Compacts(upper, files, L, in0, in1, lo, hi, outs, snap)
    requires Resurrects(upper, files, L, in0, in1, snap, u)
    ensures Lookup(upper + InFiles(Replace(files, L, in0, in1, outs)), u, snap) != Lookup(upper + InFiles(files), u,
              snap)
  {
    var d :| d in Contents(in0 + in1) && d.k.kind == Deletion && IsNewest(upper + InFiles(files), u, snap, d)
          && Lookup(LeftBehind(files, L, in1), u, d.k.sn).Some?;
    DroppedRead(upper, files, L, in0, in1, lo, hi, outs, snap, u, snap, d);
    LookupIs(upper + InFiles(files), u, snap, d);
  }

  lemma ReadKept(upper: set<Entry>, files: Files, L: nat, in0: set<File>, in1: set<File>,
                 lo: UserKey, hi: UserKey, outs: set<File>, snap: nat, u: UserKey, s: nat)
    requires Compacts(upper, files, L, in0, in1, lo, hi, outs, snap) && s >= snap
    requires !Resurrects(upper, files, L, in0, in1, snap, u)
    ensures Lookup(upper + InFiles(Replace(files, L, in0, in1, outs)), u, s) == Lookup(upper + InFiles(files), u, s)
  {
    var S := upper + InFiles(files);
    var T := upper + InFiles(Replace(files, L, in0, in1, outs));
    AfterDistinct(upper, files, L, in0, in1, lo, hi, outs, snap);
    var found, n := NewestExists(S, u, s);
    if found {
      LookupIs(S, u, s, n);
      if n in Contents(in0 + in1) && Dropped(files, L, Contents(in0 + in1), snap, n) {
        DroppedNewest(upper, files, L, in0, in1, lo, hi, outs, snap, u, s, n);
        DroppedRead(upper, files, L, in0, in1, lo, hi, outs, snap, u, s, n);
      } else {
        RemovesDropped(upper, files, L, in0, in1, lo, hi, outs, snap, n);
        assert IsNewest(T, u, s, n);
        LookupIs(T, u, s, n);
      }
    }
  }

  /** A compaction changes no read of u at or above the smallest snapshot,
      exactly when it resurrects nothing of u. */
  lemma CompactionPreservesReads(upper: set<Entry>, files: Files, L: nat, in0: set<File>, in1: set<File>,
                                 lo: UserKey, hi: UserKey, outs: set<File>, snap: nat, u: UserKey)
    requires Compacts(upper, files, L, in0, in1, lo, hi, outs, snap)
    ensures (forall s :: s >= snap ==>
               Lookup(upper + InFiles(Replace(files, L, in0, in1, outs)), u, s) == Lookup(upper + InFiles(files), u, s))
       <==> !Resurrects(upper, files, L, in0, in1, snap, u)
  {
    if Resurrects(upper, files, L, in0, in1, snap, u) {
      ReadResurrected(upper, files, L, in0, in1, lo, hi, outs, snap, u);
    } else {
      forall s | s >= snap
        ensures Lookup(upper + InFiles(Replace(files, L, in0, in1, outs)), u, s) == Lookup(upper + InFiles(files), u, s)
      {
        ReadKept(upper, files, L, in0, in1, lo, hi, outs, snap, u, s);
      }
    }
  }

  /** No file left at level L+1 begins with the user key a chosen one ends with:
      what AddBoundaryInputs would establish for inputs_[1]. */
  ghost predicate BoundaryClosed(files: Files, L: nat, in1: set<File>)
    requires L + 1 < |files|
  {
    forall f, g :: f in in1 && g in files[L + 1] && g !in in1 ==>
      !(g.smallest.user == f.largest.user && Less(f.largest, g.smallest))
  }

  /** On a shared user key, boundary-closed inputs leave only newer data behind. */
  lemma ClosedLeavesNewer(files: Files, L: nat, in0: set<File>, in1: set<File>, lo: UserKey, hi: UserKey, d: Entry,
                          e: Entry)
    requires Good(files) && Chosen(files, L, in0, in1, lo, hi) && BoundaryClosed(files, L, in1)
    requires d in Contents(in0 + in1) && e in LeftBehind(files, L, in1)
    requires d.k.user == e.k.user
    ensures e.k.sn >= d.k.sn && e != d && e in InFiles(files)
  {
    var l, f := InputHome(files, L, in0, in1, lo, hi, d);
    var g :| g in files[L + 1] - in1 && e in g.entries;
    InLevel(files, L + 1, g, e);
    NotInput(files, L, in0, in1, lo, hi, L + 1, g, e);
    Bounded(f, d);
    Bounded(g, e);
    assert f in in1 ==> Apart(f, g);
  }

  /** Boundary-closed level L+1 inputs rule resurrection out. */
  lemma ClosedNeverResurrects(upper: set<Entry>, files: Files, L: nat, in0: set<File>, in1: set<File>,
                              lo: UserKey, hi: UserKey, snap: nat, u: UserKey)
    requires Good(files) && Distinct(upper + InFiles(files)) && Chosen(files, L, in0, in1, lo, hi)
    requires BoundaryClosed(files, L, in1)
    ensures !Resurrects(upper, files, L, in0, in1, snap, u)
  {
    if Resurrects(upper, files, L, in0, in1, snap, u) {
      var left := LeftBehind(files, L, in1);
      var d :| d in Contents(in0 + in1) && d.k.kind == Deletion
            && IsNewest(upper + InFiles(files), u, snap, d) && Lookup(left, u, d.k.sn).Some?;
      var e :| IsNewest(left, u, d.k.sn, e);
      ClosedLeavesNewer(files, L, in0, in1, lo, hi, d, e);
    }
  }
}
