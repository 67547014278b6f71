/** What the manifest holds along a run: each step writes at most one record, and the
    edits of the records, applied in order, are the table files of the version
    (VersionSet::LogAndApply, version_set.cc lines 801-884). */
module Manifests {
  import opened Keys
  import opened Reads
  import opened Levels
  import opened Drops
  import opened Store
  import opened StoreRecover
  import opened Runs
  import opened Inputs
  import opened Edits
  import opened Db

  /** A manifest record: its file changes, and the log number, the next file number
      and the last sequence number when it has them. */
  datatype Numbers = Numbers(logNumber: nat, nextFile: nat, lastSequence: nat)
  datatype Mark = Mark(edit: Edit, numbers: Option<Numbers>)

  function EditsOf(ms: seq<Mark>): (es: seq<Edit>)
    ensures |es| == |ms| && forall i :: 0 <= i < |ms| ==> es[i] == ms[i].edit
  {
    seq(|ms|, i requires 0 <= i < |ms| => ms[i].edit)
  }

  /** No number the edit adds at a level was added there or deeper before. */
  ghost predicate Unseen(es: seq<Edit>, e: Edit) {
    forall l, m, f, g {:trigger SameNumber(f, g), f in AddedAt(e, l), g in BuilderAdded(es, m)} ::
      0 <= l <= m < LEVELS && f in AddedAt(e, l) && g in BuilderAdded(es, m) ==> !SameNumber(f, g)
  }

  /** A file's number was never added to a level deeper than the file's own. */
  ghost predicate NeverDeeper(es: seq<Edit>, files: Files) {
    forall l, m, f, g {:trigger SameNumber(f, g), f in files[l], g in BuilderAdded(es, m)} ::
      0 <= l < m < LEVELS && l < |files| && f in files[l] && g in BuilderAdded(es, m) ==> !SameNumber(f, g)
  }

  ghost predicate AddedBelow(es: seq<Edit>, next: nat) {
    forall l, g {:trigger g in BuilderAdded(es, l)} ::
      0 <= l < LEVELS && g in BuilderAdded(es, l) ==> g.number < next
  }

  /** The edits give these files, and add nothing twice. */
  ghost predicate Give(es: seq<Edit>, files: Files) {
    && |files| == LEVELS && (forall e :: e in es ==> EditOk(e))
    && (forall l :: 0 <= l < LEVELS ==> AddedOnce({}, es, l))
    && (forall l :: 0 <= l < LEVELS ==> ApplyEach({}, es, l) == files[l])
  }

  /** The edits give these files, and every number in them is below `next`. */
  ghost predicate Restores(es: seq<Edit>, files: Files, next: nat) {
    Give(es, files) && NeverDeeper(es, files) && AddedBelow(es, next)
  }

  /** The manifest holds what is durable of the state. */
  ghost predicate Durable(ms: seq<Mark>, s: State) {
    && Restores(EditsOf(ms), s.files, s.manifestNext)
    && ms != [] && ms[|ms| - 1].numbers == Some(Numbers(s.logNumber, s.manifestNext, s.manifestSeq))
  }

  // ---------- one more edit ----------

  lemma GiveMore(es: seq<Edit>, files: Files, e: Edit, after: Files)
    requires Give(es, files) && EditOk(e) && Unseen(es, e) && |after| == LEVELS
    requires forall l :: 0 <= l < LEVELS ==> ApplyOne(files[l], e, l) == after[l]
    ensures Give(es + [e], after)
  {
    assert (es + [e])[..|es|] == es;
    forall l | 0 <= l < LEVELS ensures AddedOnce({}, es + [e], l) {
      assert {} + BuilderAdded(es, l) == BuilderAdded(es, l);
      forall n | n in Numbered(AddedAt(e, l)) ensures n !in Numbered(BuilderAdded(es, l)) {
        var f :| f in AddedAt(e, l) && f.number == n;
        forall g | g in BuilderAdded(es, l) ensures g.number != n {
          assert !SameNumber(f, g);
        }
      }
    }
  }

  lemma DeeperMore(es: seq<Edit>, files: Files, e: Edit, after: Files)
    requires NeverDeeper(es, files) && Unseen(es, e) && |files| == LEVELS && WellFormed(after)
    requires forall l :: 0 <= l < LEVELS ==> ApplyOne(files[l], e, l) == after[l]
    ensures NeverDeeper(es + [e], after)
  {
    forall l, m, f, g | 0 <= l < m < LEVELS && f in after[l] && g in BuilderAdded(es + [e], m)
      ensures !SameNumber(f, g)
    {
      BuilderSnoc(es, e, m);
      assert f in ApplyOne(files[l], e, l);
      if g in AddedAt(e, m) {
        assert g.number in Numbered(AddedAt(e, m));
        assert g in ApplyOne(files[m], e, m);
        assert g in after[m];
      }
    }
  }

  lemma BelowMore(es: seq<Edit>, e: Edit, next: nat, next': nat)
    requires AddedBelow(es, next) && next <= next'
    requires forall l, f :: 0 <= l < LEVELS && f in AddedAt(e, l) ==> f.number < next'
    ensures AddedBelow(es + [e], next')
  {
    forall l, g | 0 <= l < LEVELS && g in BuilderAdded(es + [e], l) ensures g.number < next' {
      BuilderSnoc(es, e, l);
    }
  }

  /** A record is written for the step from s to t. */
  lemma RecordMore(ms: seq<Mark>, s: State, e: Edit, t: State) returns (ms': seq<Mark>)
    requires Restores(EditsOf(ms), s.files, s.manifestNext) && EditOk(e) && Unseen(EditsOf(ms), e)
    requires WellFormed(t.files)
    requires forall l :: 0 <= l < LEVELS ==> ApplyOne(s.files[l], e, l) == t.files[l]
    requires s.manifestNext <= t.manifestNext
    requires forall l, f :: 0 <= l < LEVELS && f in AddedAt(e, l) ==> f.number < t.manifestNext
    ensures ms' == ms + [Mark(e, Some(Numbers(t.logNumber, t.manifestNext, t.manifestSeq)))] && Durable(ms', t)
  {
    var es := EditsOf(ms);
    ms' := ms + [Mark(e, Some(Numbers(t.logNumber, t.manifestNext, t.manifestSeq)))];
    assert EditsOf(ms') == es + [e];
    GiveMore(es, s.files, e, t.files);
    DeeperMore(es, s.files, e, t.files);
    BelowMore(es, e, s.manifestNext, t.manifestNext);
  }

  /** Numbers the manifest has not reached are unseen. */
  lemma FreshUnseen(es: seq<Edit>, e: Edit, next: nat)
    requires AddedBelow(es, next)
    requires forall l, f :: 0 <= l < LEVELS && f in AddedAt(e, l) ==> f.number >= next
    ensures Unseen(es, e)
  {
  }

  // ---------- the steps that write one ----------

  lemma FlushWrites(ms: seq<Mark>, s: State, t: State, f: File, level: nat) returns (ms': seq<Mark>)
    requires Durable(ms, s) && FilesOk(s) && FilesOk(t) && Flush(s, t, f, level)
    ensures Durable(ms', t) && |ms'| == |ms| + 1 && ms <= ms'
  {
    var e := FlushEdit(level, f);
    forall l | 0 <= l < LEVELS
      ensures ApplyOne(s.files[l], e, l) == t.files[l] && AddedAt(e, l) == if l == level then {f} else {}
    {
      FlushApplies(s.files, level, f, l);
    }
    FreshUnseen(EditsOf(ms), e, s.manifestNext);
    ms' := RecordMore(ms, s, e, t);
  }

  /** A record with counters only. */
  lemma EmptyWrites(ms: seq<Mark>, s: State, t: State) returns (ms': seq<Mark>)
    requires Durable(ms, s) && FilesOk(s) && t.files == s.files && s.manifestNext <= t.manifestNext
    ensures Durable(ms', t) && |ms'| == |ms| + 1 && ms <= ms'
  {
    var e := Edit({}, []);
    assert forall l :: AddedAt(e, l) == {};
    ms' := RecordMore(ms, s, e, t);
  }

  lemma ListOf<T>(fs: set<T>) returns (r: seq<T>)
    ensures forall f :: f in r <==> f in fs
  {
    r := [];
    var left := fs;
    while left != {}
      invariant left <= fs && forall f :: f in r <==> f in fs - left
    {
      var f :| f in left;
      r, left := r + [f], left - {f};
    }
  }

  lemma CompactWrites(ms: seq<Mark>, s: State, t: State, L: nat, in0: set<File>, in1: set<File>, lo: UserKey,
                      hi: UserKey, outs: set<File>, next: nat)
    returns (ms': seq<Mark>)
    requires Durable(ms, s) && FilesOk(s) && FilesOk(t) && Compact(s, t, L, in0, in1, lo, hi, outs, next)
    ensures Durable(ms', t) && |ms'| == |ms| + 1 && ms <= ms'
  {
    var a := ListOf(in0);
    var b := ListOf(in1);
    var o := ListOf(outs);
    assert ToSet(a) == in0 && ToSet(b) == in1 && ToSet(o) == outs;
    var e := CompactionEdit(L, a, b, o);
    CompactionOk(L, a, b, o, outs, s.files);
    forall l | 0 <= l < LEVELS
      ensures ApplyOne(s.files[l], e, l) == t.files[l] && AddedAt(e, l) == if l == L + 1 then outs else {}
    {
      CompactionApplies(s.files, L, a, b, o, l);
      CompactionAdds(L, a, b, o, l);
    }
    FreshUnseen(EditsOf(ms), e, s.manifestNext);
    ms' := RecordMore(ms, s, e, t);
  }

  lemma CompactionOk(L: nat, a: seq<File>, b: seq<File>, o: seq<File>, outs: set<File>, files: Files)
    requires L + 1 < LEVELS && ToSet(o) == outs
    requires forall f, g :: f in outs && g in outs && f != g ==> !SameNumber(f, g)
    ensures EditOk(CompactionEdit(L, a, b, o))
  {
    var e := CompactionEdit(L, a, b, o);
    forall x, y | x in e.added && y in e.added && x.0 == y.0 && x.1.number == y.1.number ensures x == y {
      assert x.1 in ToSet(o) && y.1 in ToSet(o);
      assert x.1 != y.1 ==> !SameNumber(x.1, y.1);
    }
  }

  lemma MoveWrites(ms: seq<Mark>, s: State, t: State, L: nat, f: File, lo: UserKey, hi: UserKey)
    returns (ms': seq<Mark>)
    requires Durable(ms, s) && FilesOk(s) && FilesOk(t) && TrivialMove(s, t, L, f, lo, hi)
    ensures Durable(ms', t) && |ms'| == |ms| + 1 && ms <= ms'
  {
    var e := CompactionEdit(L, [f], [], [f]);
    assert ToSet([f]) == {f} && ToSet([]) == {};
    assert f in s.files[L];
    assert forall g :: g in s.files[L + 1] ==> !SameNumber(g, f);
    forall l | 0 <= l < LEVELS
      ensures ApplyOne(s.files[l], e, l) == t.files[l] && AddedAt(e, l) == if l == L + 1 then {f} else {}
    {
      CompactionApplies(s.files, L, [f], [], [f], l);
      CompactionAdds(L, [f], [], [f], l);
    }
    ms' := RecordMore(ms, s, e, t);
  }

  // ---------- a new manifest ----------

  /** WriteSnapshot: every file of a version in one edit. */
  lemma SnapshotEdit(files: Files) returns (e: Edit)
    requires WellFormed(files)
    ensures EditOk(e) && forall l :: 0 <= l < LEVELS ==> AddedAt(e, l) == files[l] && ApplyOne({}, e, l) == files[l]
  {
    var all: set<(nat, File)> := set l: nat, f | 0 <= l < LEVELS && f in files[l] :: (l, f);
    var added := ListOf(all);
    e := Edit({}, added);
    forall l: nat, f | l < LEVELS ensures f in AddedAt(e, l) <==> f in files[l] {
      if f in AddedAt(e, l) {
        var i :| 0 <= i < |e.added| && e.added[i].0 == l && e.added[i].1 == f;
        assert e.added[i] in all;
      }
      if f in files[l] {
        assert (l, f) in all;
        assert (l, f) in added;
        var i :| 0 <= i < |added| && added[i] == (l, f);
      }
    }
    forall x, y | x in e.added && y in e.added && x.0 == y.0 && x.1.number == y.1.number ensures x == y {
      assert x in all && y in all && SameNumber(x.1, y.1);
    }
  }

  lemma SnapshotRestores(files: Files, next: nat) returns (e: Edit)
    requires WellFormed(files) && AllNumbersBelow(files, next)
    ensures Restores([e], files, next)
  {
    e := SnapshotEdit(files);
    var none := seq(LEVELS, _ => {});
    assert [] + [e] == [e];
    assert forall l :: 0 <= l < LEVELS ==> ApplyOne(none[l], e, l) == files[l];
    GiveMore([], none, e, files);
    DeeperMore([], none, e, files);
    BelowMore([], e, 0, next);
  }

  /** DB::Open after recovery: a manifest with a snapshot of the version before, then
      the record that adds the recovered tables. */
  lemma RecoverWrites(s: State, t: State, chunks: seq<seq<Entry>>, tables: seq<File>) returns (ms': seq<Mark>)
    requires FilesOk(s) && FilesOk(t) && Recover(s, t, chunks, tables)
    ensures Durable(ms', t) && |ms'| == 2
  {
    var snapshot := SnapshotRestores(s.files, s.manifestNext);
    var start := Mark(snapshot, None);
    assert EditsOf([start]) == [snapshot];
    var e := Edit({}, seq(|tables|, i requires 0 <= i < |tables| => (0, tables[i])));
    TablesAdded(s.files, t.files, tables, e);
    assert forall f :: f in tables ==> s.manifestNext <= f.number < t.nextFile;
    FreshUnseen([snapshot], e, s.manifestNext);
    ms' := RecordMore([start], s, e, t);
  }

  lemma AddedTables(tables: seq<File>, e: Edit, l: nat)
    requires e == Edit({}, seq(|tables|, i requires 0 <= i < |tables| => (0, tables[i])))
    ensures AddedAt(e, l) == if l == 0 then set f | f in tables else {}
  {
    forall f | f in tables ensures f in AddedAt(e, 0) {
      var i :| 0 <= i < |tables| && tables[i] == f;
      assert e.added[i] == (0, f);
    }
  }

  lemma TablesAdded(files: Files, after: Files, tables: seq<File>, e: Edit)
    requires |files| == LEVELS && after == files[0 := files[0] + (set f | f in tables)]
    requires forall i, j :: 0 <= i < j < |tables| ==> tables[i].number < tables[j].number
    requires e == Edit({}, seq(|tables|, i requires 0 <= i < |tables| => (0, tables[i])))
    ensures EditOk(e)
    ensures forall l :: 0 <= l < LEVELS ==> AddedAt(e, l) == if l == 0 then set f | f in tables else {}
    ensures forall l :: 0 <= l < LEVELS ==> ApplyOne(files[l], e, l) == after[l]
  {
    forall l | 0 <= l < LEVELS
      ensures AddedAt(e, l) == if l == 0 then set f | f in tables else {}
      ensures ApplyOne(files[l], e, l) == after[l]
    {
      AddedTables(tables, e, l);
    }
  }

  // ---------- whole runs ----------

  /** Only a few steps write to the manifest, one record each; recovery starts a new one. */
  lemma StepWrites(ms: seq<Mark>, s: State, t: State, step: Step) returns (ms': seq<Mark>)
    requires Durable(ms, s) && FilesOk(s) && FilesOk(t) && Next(s, t, step)
    ensures Durable(ms', t)
    ensures step.RecoverStep? || ms' == ms || (ms <= ms' && |ms'| == |ms| + 1)
  {
    ms' := ms;
    match step
    case FlushStep(f, level) => ms' := FlushWrites(ms, s, t, f, level);
    case FlushEmptyStep => ms' := EmptyWrites(ms, s, t);
    case MoveStep(L, f, lo, hi) => ms' := MoveWrites(ms, s, t, L, f, lo, hi);
    case CompactStep(L, in0, in1, lo, hi, outs, next) =>
      ms' := CompactWrites(ms, s, t, L, in0, in1, lo, hi, outs, next);
    case RecoverStep(chunks, tables) => ms' := RecoverWrites(s, t, chunks, tables);
    case _ =>
  }

  lemma InitWrites(s: State) returns (ms: seq<Mark>)
    requires Init(s) && FilesOk(s)
    ensures Durable(ms, s)
  {
    var e := SnapshotRestores(s.files, s.manifestNext);
    ms := [Mark(e, Some(Numbers(s.logNumber, s.manifestNext, s.manifestSeq)))];
    assert EditsOf(ms) == [e];
  }

  lemma RunFiles(states: seq<State>, steps: seq<Step>, i: nat)
    requires Run(states, steps) && i < |states|
    ensures FilesOk(states[i])
  {
    RunInv(states, steps, i);
  }

  lemma RunWrites(states: seq<State>, steps: seq<Step>, i: nat, before: seq<Mark>) returns (ms: seq<Mark>)
    requires Run(states, steps) && i < |steps| && Durable(before, states[i])
    ensures Durable(ms, states[i + 1])
  {
    RunFiles(states, steps, i);
    RunFiles(states, steps, i + 1);
    assert Next(states[i], states[i + 1], steps[i]);
    ms := StepWrites(before, states[i], states[i + 1], steps[i]);
  }

  /** In every state of a run there is a manifest that holds what is durable of it. */
  lemma {:induction false} RunDurable(states: seq<State>, steps: seq<Step>, i: nat) returns (ms: seq<Mark>)
    requires Run(states, steps) && i < |states|
    ensures Durable(ms, states[i])
  {
    if i == 0 {
      RunFiles(states, steps, 0);
      ms := InitWrites(states[0]);
    } else {
      var before := RunDurable(states, steps, i - 1);
      ms := RunWrites(states, steps, i - 1, before);
    }
  }
}
