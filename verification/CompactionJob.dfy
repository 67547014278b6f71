/** The compaction loop: Compaction::IsBaseLevelForKey (version_set.cc, lines
    1533-1552) and DBImpl::DoCompactionWork (db_impl.cc, lines 786-996). */
module CompactionJob {
  import opened Keys
  import opened Reads
  import opened Levels
  import opened Drops
  import opened FileSearch
  import opened Inputs
  import opened Setup

  /** What the byte counts decide at one entry: whether ShouldStopBefore closes
      the current output first, and whether it is full afterwards; and the size
      of the table if it is finished here. */
  datatype Cut = Cut(stopBefore: bool, full: bool, size: nat)

  /** The loop's memory of the previous entry of the current user key. */
  ghost predicate Remembers(input: seq<Entry>, i: nat, has: bool, user: UserKey, last: nat)
    requires i <= |input|
  {
    if i == 0 then !has && last == MAX_SEQ else has && user == input[i - 1].k.user && last == input[i - 1].k.sn
  }

  /** Looking at the previous entry only decides rule (A) for the whole input. */
  lemma HiddenByPrevious(input: seq<Entry>, i: nat, snap: nat)
    requires SortedEntries(input) && Distinct(EntrySet(input)) && i < |input|
    ensures Hidden(EntrySet(input), snap, input[i])
       <==> i > 0 && input[i - 1].k.user == input[i].k.user && input[i - 1].k.sn <= snap
  {
    var e := input[i];
    if d :| d in EntrySet(input) && d.k.user == e.k.user && e.k.sn < d.k.sn <= snap {
      var j :| 0 <= j < |input| && input[j] == d;
      assert j < i by { assert i < j ==> Less(e.k, d.k); }
      assert j < i - 1 ==> Less(d.k, input[i - 1].k);
      assert Less(input[i - 1].k, e.k);
    }
    if i > 0 && input[i - 1].k.user == e.k.user && input[i - 1].k.sn <= snap {
      assert Less(input[i - 1].k, e.k);
      assert input[i - 1] in EntrySet(input) && e in EntrySet(input);
    }
  }

  /** The entries among the first i that are kept, in order. */
  ghost function KeptOf(files: Files, L: nat, input: seq<Entry>, i: nat, snap: nat): seq<Entry>
    requires |files| == LEVELS && i <= |input|
  {
    if i == 0 then []
    else
      KeptOf(files, L, input, i - 1, snap)
      + if Dropped(files, L, EntrySet(input), snap, input[i - 1]) then [] else [input[i - 1]]
  }

  lemma {:induction false} KeptOfMembers(files: Files, L: nat, input: seq<Entry>, i: nat, snap: nat, e: Entry)
    requires |files| == LEVELS && i <= |input|
    ensures e in KeptOf(files, L, input, i, snap) <==> e in input[..i] && !Dropped(files, L, EntrySet(input), snap, e)
  {
    if i > 0 {
      KeptOfMembers(files, L, input, i - 1, snap, e);
      assert input[..i] == input[..i - 1] + [input[i - 1]];
    }
  }

  lemma KeptThenNext(files: Files, L: nat, input: seq<Entry>, i: nat, snap: nat)
    requires |files| == LEVELS && i < |input| && SortedEntries(input)
    ensures SortedEntries(KeptOf(files, L, input, i, snap) + [input[i]])
  {
    KeptOfSorted(files, L, input, i, snap);
    forall e | e in KeptOf(files, L, input, i, snap) ensures Less(e.k, input[i].k) {
      KeptOfMembers(files, L, input, i, snap, e);
    }
  }

  lemma {:induction false} KeptOfSorted(files: Files, L: nat, input: seq<Entry>, i: nat, snap: nat)
    requires |files| == LEVELS && i <= |input| && SortedEntries(input)
    ensures SortedEntries(KeptOf(files, L, input, i, snap))
  {
    if i > 0 {
      KeptOfSorted(files, L, input, i - 1, snap);
      forall e | e in KeptOf(files, L, input, i - 1, snap) ensures Less(e.k, input[i - 1].k) {
        KeptOfMembers(files, L, input, i - 1, snap, e);
      }
    }
  }

  // ---------- output tables ----------

  function Concat(fs: seq<File>): seq<Entry> {
    if fs == [] then [] else Concat(fs[..|fs| - 1]) + fs[|fs| - 1].entries
  }

  /** FinishCompactionOutputFile: a table whose bounds are its first and last key. */
  function FinishTable(number: nat, size: nat, entries: seq<Entry>): File
    requires entries != []
  {
    File(number, size, entries[0].k, entries[|entries| - 1].k, entries)
  }

  /** Finished tables: valid, numbered upwards from `first`, all below `next`. */
  ghost predicate Finished(outs: seq<File>, first: nat, next: nat) {
    && (forall i :: 0 <= i < |outs| ==> ValidFile(outs[i]) && first <= outs[i].number < next)
    && (forall i, j :: 0 <= i < j < |outs| ==> outs[i].number < outs[j].number)
  }

  lemma {:induction false} ConcatMembers(fs: seq<File>, e: Entry)
    ensures e in Concat(fs) <==> e in Contents(ToSet(fs))
  {
    if fs != [] {
      var n := |fs| - 1;
      ConcatMembers(fs[..n], e);
      assert fs == fs[..n] + [fs[n]];
      if e in Contents(ToSet(fs)) {
        var f :| f in ToSet(fs) && e in f.entries;
        if f != fs[n] {
          assert f in ToSet(fs[..n]);
        }
      }
      if e in Contents(ToSet(fs[..n])) {
        var f :| f in ToSet(fs[..n]) && e in f.entries;
        assert f in ToSet(fs);
      }
      assert fs[n] in ToSet(fs);
    }
  }

  lemma SortedParts(a: seq<Entry>, b: seq<Entry>)
    requires SortedEntries(a + b)
    ensures SortedEntries(a) && SortedEntries(b)
    ensures forall d, e :: d in a && e in b ==> Less(d.k, e.k)
  {
    assert forall i :: 0 <= i < |a| ==> (a + b)[i] == a[i];
    assert forall i :: 0 <= i < |b| ==> (a + b)[|a| + i] == b[i];
  }

  /** Tables cut one after the other from sorted entries do not overlap. */
  lemma {:induction false} ConcatApart(fs: seq<File>)
    requires SortedEntries(Concat(fs)) && forall i :: 0 <= i < |fs| ==> ValidFile(fs[i])
    ensures forall i, j :: 0 <= i < j < |fs| ==> Less(fs[i].largest, fs[j].smallest)
  {
    if fs != [] {
      var n := |fs| - 1;
      SortedParts(Concat(fs[..n]), fs[n].entries);
      ConcatApart(fs[..n]);
      forall i | 0 <= i < n ensures Less(fs[i].largest, fs[n].smallest) {
        assert fs[i] == fs[..n][i];
        assert fs[i] in ToSet(fs[..n]) && fs[i].entries[|fs[i].entries| - 1] in fs[i].entries;
        ConcatMembers(fs[..n], fs[i].entries[|fs[i].entries| - 1]);
        assert fs[n].entries[0] in fs[n].entries;
      }
    }
  }

  /** Finished tables that hold the kept entries are a compaction's outputs. */
  lemma FinishedOutputs(v: FileLists, L: nat, input: seq<Entry>, snap: nat, outs: seq<File>, first: nat, next: nat)
    requires Rep(v) && WellFormed(Abs(v)) && AllNumbersBelow(Abs(v), first)
    requires SortedEntries(input) && Finished(outs, first, next)
    requires Concat(outs) == KeptOf(Abs(v), L, input, |input|, snap)
    ensures Outputs(Abs(v), ToSet(outs), Kept(Abs(v), L, EntrySet(input), snap))
  {
    KeptOfSorted(Abs(v), L, input, |input|, snap);
    ConcatApart(outs);
    forall e ensures e in Contents(ToSet(outs)) <==> e in Kept(Abs(v), L, EntrySet(input), snap) {
      ConcatMembers(outs, e);
      KeptOfMembers(Abs(v), L, input, |input|, snap, e);
      assert input[..|input|] == input;
    }
    forall f, g | f in ToSet(outs) && g in ToSet(outs) && f != g ensures !SameNumber(f, g) && Apart(f, g) {
      var i :| 0 <= i < |outs| && outs[i] == f;
      var j :| 0 <= j < |outs| && outs[j] == g;
    }
  }

  // ---------- the job ----------

  class Compaction {
    const level: nat
    const inputVersion: FileLists
    /** level_ptrs_: how far into each deeper level the search has moved. */
    var levelPtrs: array<nat>
    ghost var asked: Bound

    /** Every file the pointers passed ends before the last key asked about. */
    ghost predicate Valid()
      reads this, levelPtrs
    {
      && Rep(inputVersion) && level + 1 < LEVELS && levelPtrs.Length == LEVELS
      && (forall l :: level + 2 <= l < LEVELS ==> levelPtrs[l] <= |inputVersion[l]|)
      && (forall l, i :: level + 2 <= l < LEVELS && 0 <= i < levelPtrs[l] ==>
            asked.Some? && inputVersion[l][i].largest.user < asked.value)
    }

    constructor (version: FileLists, L: nat)
      requires Rep(version) && L + 1 < LEVELS
      ensures Valid() && fresh(levelPtrs) && inputVersion == version && level == L && asked == None
    {
      inputVersion, level, asked := version, L, None;
      levelPtrs := new nat[LEVELS](_ => 0);
    }

    /** Move level lvl's pointer to the first file that does not end before u. */
    method Advance(lvl: nat, u: UserKey)
      requires Valid() && level + 2 <= lvl < LEVELS && asked == Some(u)
      modifies levelPtrs
      ensures Valid()
      ensures forall i :: 0 <= i < levelPtrs[lvl] ==> inputVersion[lvl][i].largest.user < u
      ensures levelPtrs[lvl] < |inputVersion[lvl]| ==> u <= inputVersion[lvl][levelPtrs[lvl]].largest.user
    {
      while levelPtrs[lvl] < |inputVersion[lvl]| && inputVersion[lvl][levelPtrs[lvl]].largest.user < u
        invariant Valid()
        decreases |inputVersion[lvl]| - levelPtrs[lvl]
      {
        levelPtrs[lvl] := levelPtrs[lvl] + 1;
      }
    }

    /** The pointers only move forward, yet the answer is that of a full check, as
        long as keys are asked about in order. */
    method IsBaseLevelForKey(u: UserKey) returns (r: bool)
      requires Valid() && (asked.Some? ==> asked.value <= u)
      modifies levelPtrs, `asked
      ensures Valid() && asked == Some(u)
      ensures r <==> Base(Abs(inputVersion), level, u)
    {
      asked := Some(u);
      var lvl := level + 2;
      while lvl < LEVELS
        invariant level + 2 <= lvl && Valid() && asked == Some(u)
        invariant forall l, f :: level + 2 <= l < lvl && l < LEVELS && f in inputVersion[l] ==>
          !(f.smallest.user <= u <= f.largest.user)
      {
        Advance(lvl, u);
        var p := levelPtrs[lvl];
        if p < |inputVersion[lvl]| {
          if u >= inputVersion[lvl][p].smallest.user {
            assert inputVersion[lvl][p] in Abs(inputVersion)[lvl];
            return false;
          }
          PastAll(inputVersion[lvl], p, u);
        }
        lvl := lvl + 1;
      }
      return true;
    }

    /** The drop rules at one entry: lines 936-963. */
    method ShouldDrop(ghost input: seq<Entry>, ghost i: nat, ikey: IKey, snap: nat, has: bool, user: UserKey, last: nat)
      returns (drop: bool)
      requires Valid() && SortedEntries(input) && Distinct(EntrySet(input)) && snap < MAX_SEQ
      requires i < |input| && ikey == input[i].k && Remembers(input, i, has, user, last)
      requires asked.Some? ==> i > 0 && asked.value <= input[i - 1].k.user
      modifies levelPtrs, `asked
      ensures Valid() && (asked.Some? ==> asked.value <= ikey.user)
      ensures drop <==> Dropped(Abs(inputVersion), level, EntrySet(input), snap, input[i])
    {
      assert i > 0 ==> Less(input[i - 1].k, input[i].k);
      HiddenByPrevious(input, i, snap);
      var lastSequenceForKey := last;
      if !has || ikey.user != user {
        lastSequenceForKey := MAX_SEQ;
      }
      drop := false;
      if lastSequenceForKey <= snap {
        drop := true;
      } else if ikey.kind == Deletion && ikey.sn <= snap {
        drop := IsBaseLevelForKey(ikey.user);
      }
    }

    /** One turn of the loop: lines 920-996. */
    method ProcessEntry(input: seq<Entry>, i: nat, cut: Cut, snap: nat, has: bool, user: UserKey, last: nat,
                        state: CompactionState)
      requires Valid() && state.Valid() && i < |input| && snap < MAX_SEQ
      requires SortedEntries(input) && Distinct(EntrySet(input)) && Remembers(input, i, has, user, last)
      requires asked.Some? ==> i > 0 && asked.value <= input[i - 1].k.user
      requires SortedEntries(state.Emitted() + [input[i]])
      modifies levelPtrs, `asked, state
      ensures Valid() && state.Valid()
      ensures asked.Some? ==> asked.value <= input[i].k.user
      ensures state.Emitted() == old(state.Emitted())
                + if Dropped(Abs(inputVersion), level, EntrySet(input), snap, input[i]) then [] else [input[i]]
    {
      state.StopBefore(cut);
      var drop := ShouldDrop(input, i, input[i].k, snap, has, user, last);
      state.Emit(input[i], drop, cut);
    }

    /** Merge the inputs, drop what no reader can see, and cut the rest into
        tables. */
    method DoCompactionWork(input: seq<Entry>, snap: nat, cuts: seq<Cut>, state: CompactionState)
      requires Valid() && asked == None && WellFormed(Abs(inputVersion))
      requires AllNumbersBelow(Abs(inputVersion), state.first)
      requires SortedEntries(input) && Distinct(EntrySet(input)) && |cuts| == |input| && snap < MAX_SEQ
      requires state.Valid() && state.Emitted() == []
      modifies levelPtrs, `asked, state
      ensures state.Valid() && state.building == None
      ensures Outputs(Abs(inputVersion), ToSet(state.outputs), Kept(Abs(inputVersion), level, EntrySet(input), snap))
      ensures Compacted(Abs(inputVersion), level, EntrySet(input), Contents(ToSet(state.outputs)), snap)
    {
      var hasCurrentUserKey := false;
      var currentUserKey: UserKey := 0.0;
      var lastSequenceForKey: nat := MAX_SEQ;
      var i := 0;
      while i < |input|
        invariant i <= |input| && Valid() && state.Valid()
        invariant asked.Some? ==> i > 0 && asked.value <= input[i - 1].k.user
        invariant Remembers(input, i, hasCurrentUserKey, currentUserKey, lastSequenceForKey)
        invariant state.Emitted() == KeptOf(Abs(inputVersion), level, input, i, snap)
      {
        KeptThenNext(Abs(inputVersion), level, input, i, snap);
        ProcessEntry(input, i, cuts[i], snap, hasCurrentUserKey, currentUserKey, lastSequenceForKey, state);
        hasCurrentUserKey, currentUserKey, lastSequenceForKey := true, input[i].k.user, input[i].k.sn;
        i := i + 1;
      }
      if state.building.Some? {
        state.FinishOutputFile(if |cuts| > 0 then cuts[|cuts| - 1].size else 0);
      }
      FinishedOutputs(inputVersion, level, input, snap, state.outputs, state.first, state.next);
      RulesCompact(Abs(inputVersion), level, EntrySet(input), snap);
    }
  }

  /** The tables a compaction has finished, and the one it is building. */
  class CompactionState {
    const first: nat
    var outputs: seq<File>
    var building: Option<nat>
    var current: seq<Entry>
    var next: nat

    ghost predicate Valid()
      reads this
    {
      && Finished(outputs, first, next) && SortedEntries(current) && first <= next
      && (building.Some? <==> current != [])
      && (building.Some? ==> first <= building.value < next && forall i :: 0 <= i < |outputs| ==>
        outputs[i].number < building.value)
    }

    /** All entries emitted so far, in order. */
    ghost function Emitted(): seq<Entry>
      reads this
    {
      Concat(outputs) + current
    }

    constructor (first: nat)
      ensures Valid() && Emitted() == [] && this.first == first && building == None
    {
      this.first, outputs, building, current, next := first, [], None, [], first;
    }

    /** Open an output table if none is open, and append the entry to it. */
    method Add(e: Entry)
      requires Valid() && SortedEntries(Emitted() + [e])
      modifies this
      ensures Valid() && Emitted() == old(Emitted()) + [e] && building.Some?
    {
      assert Concat(outputs) + (current + [e]) == Emitted() + [e];
      SortedParts(Concat(outputs), current + [e]);
      if building == None {
        building, next := Some(next), next + 1;
      }
      current := current + [e];
    }

    method StopBefore(cut: Cut)
      requires Valid()
      modifies this
      ensures Valid() && Emitted() == old(Emitted())
    {
      if cut.stopBefore && building.Some? {
        FinishOutputFile(cut.size);
      }
    }

    /** Keep the entry unless it is dropped, and finish a table that is full. */
    method Emit(e: Entry, drop: bool, cut: Cut)
      requires Valid() && (!drop ==> SortedEntries(Emitted() + [e]))
      modifies this
      ensures Valid() && Emitted() == old(Emitted()) + if drop then [] else [e]
    {
      if !drop {
        Add(e);
        if cut.full {
          FinishOutputFile(cut.size);
        }
      }
    }

    method FinishOutputFile(size: nat)
      requires Valid() && building.Some?
      modifies this
      ensures Valid() && Emitted() == old(Emitted()) && building == None
    {
      var f := FinishTable(building.value, size, current);
      assert (outputs + [f])[..|outputs|] == outputs;
      outputs, building, current := outputs + [f], None, [];
    }
  }

  /** In an ordered level, a file that begins past u is followed by such files only. */
  lemma PastAll(files: seq<File>, p: nat, u: UserKey)
    requires SortedLevel(files) && p < |files| && u < files[p].smallest.user
    ensures forall i :: p <= i < |files| ==> u < files[i].smallest.user
  {
    Bounded(files[p], files[p].entries[0]);
  }
}
