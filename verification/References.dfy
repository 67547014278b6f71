/** What is held stays held: along a run a snapshot is served, and the tables of an
    iterator's version are kept, from the step that takes the reference until the step
    that gives back that very reference, or a crash. */
module References {
  import opened Keys
  import opened Reads
  import opened Levels
  import opened Store
  import opened Runs

  /** The place after removing place i of a list, of what stood at place p. */
  function AfterRemoval(p: nat, i: nat): Option<nat> {
    if i == p then None else if i < p then Some(p - 1) else Some(p)
  }

  /** Where the snapshot at place p of state i stands in the list of state j; None once
      it has been released, or lost in a crash. */
  function SnapshotPlace(steps: seq<Step>, i: nat, p: nat, j: nat): Option<nat>
    requires i <= j <= |steps|
    decreases j
  {
    if i == j then Some(p)
    else match SnapshotPlace(steps, i, p, j - 1)
    case None => None
    case Some(r) =>
      match steps[j - 1]
      case ReleaseSnapshotStep(k) => AfterRemoval(r, k)
      case RecoverStep(_, _) => None
      case _ => Some(r)
  }

  /** The same of a reference to a version. */
  function PinPlace(steps: seq<Step>, i: nat, p: nat, j: nat): Option<nat>
    requires i <= j <= |steps|
    decreases j
  {
    if i == j then Some(p)
    else match PinPlace(steps, i, p, j - 1)
    case None => None
    case Some(r) =>
      match steps[j - 1]
      case UnpinStep(k) => AfterRemoval(r, k)
      case RecoverStep(_, _) => None
      case _ => Some(r)
  }

  // ---------- one step ----------

  lemma SnapshotStays(s: State, t: State, step: Step, p: nat)
    requires Next(s, t, step) && p < |s.snapshots|
    ensures var r := match step
                     case ReleaseSnapshotStep(k) => AfterRemoval(p, k)
                     case RecoverStep(_, _) => None
                     case _ => Some(p);
            r.Some? ==> r.value < |t.snapshots| && t.snapshots[r.value] == s.snapshots[p]
  {
  }

  lemma PinStays(s: State, t: State, step: Step, p: nat)
    requires Next(s, t, step) && p < |s.pins|
    ensures var r := match step
                     case UnpinStep(k) => AfterRemoval(p, k)
                     case RecoverStep(_, _) => None
                     case _ => Some(p);
            r.Some? ==> r.value < |t.pins| && t.pins[r.value] == s.pins[p]
  {
  }

  // ---------- runs ----------

  lemma {:induction false} SnapshotFollowed(states: seq<State>, steps: seq<Step>, i: nat, p: nat, j: nat)
    requires Run(states, steps) && i <= j <= |steps| && p < |states[i].snapshots|
    ensures var r := SnapshotPlace(steps, i, p, j);
            r.Some? ==> r.value < |states[j].snapshots| && states[j].snapshots[r.value] == states[i].snapshots[p]
    decreases j
  {
    if i < j {
      SnapshotFollowed(states, steps, i, p, j - 1);
      var r := SnapshotPlace(steps, i, p, j - 1);
      if r.Some? {
        RunStep(states, steps, j - 1);
        SnapshotStays(states[j - 1], states[j], steps[j - 1], r.value);
      }
    }
  }

  lemma {:induction false} PinFollowed(states: seq<State>, steps: seq<Step>, i: nat, p: nat, j: nat)
    requires Run(states, steps) && i <= j <= |steps| && p < |states[i].pins|
    ensures var r := PinPlace(steps, i, p, j);
            r.Some? ==> r.value < |states[j].pins| && states[j].pins[r.value] == states[i].pins[p]
    decreases j
  {
    if i < j {
      PinFollowed(states, steps, i, p, j - 1);
      var r := PinPlace(steps, i, p, j - 1);
      if r.Some? {
        RunStep(states, steps, j - 1);
        PinStays(states[j - 1], states[j], steps[j - 1], r.value);
      }
    }
  }

  lemma Taken(s: State, t: State)
    requires Next(s, t, TakeSnapshotStep)
    ensures |t.snapshots| == |s.snapshots| + 1 && t.snapshots[|s.snapshots|] == s.lastSeq == t.lastSeq
    ensures All(t) == All(s)
  {
  }

  /** A snapshot taken at step i is the last one of state i + 1 and is served until its
      own release or a crash: no state in between has moved its oldest snapshot past it. */
  lemma SnapshotServed(states: seq<State>, steps: seq<Step>, i: nat, j: nat)
    requires Run(states, steps) && i < j <= |steps| && steps[i] == TakeSnapshotStep
    requires SnapshotPlace(steps, i + 1, |states[i].snapshots|, j).Some?
    ensures states[i].lastSeq in states[j].snapshots
    ensures OldestSnapshot(states[j]) <= states[i].lastSeq <= states[j].lastSeq
  {
    RunStep(states, steps, i);
    Taken(states[i], states[i + 1]);
    SnapshotFollowed(states, steps, i + 1, |states[i].snapshots|, j);
    RunInv(states, steps, j);
    HeldServed(states[j], states[i].lastSeq);
  }

  /** So a read at it answers in state j what it answered when it was taken, if no
      compaction of the run resurrects the key. */
  lemma SnapshotReads(states: seq<State>, steps: seq<Step>, i: nat, j: nat, u: UserKey)
    requires SafeRun(states, steps, u) && i < j <= |steps| && steps[i] == TakeSnapshotStep
    requires SnapshotPlace(steps, i + 1, |states[i].snapshots|, j).Some?
    ensures Lookup(All(states[j]), u, states[i].lastSeq) == Lookup(All(states[i]), u, states[i].lastSeq)
  {
    RunStep(states, steps, i);
    Taken(states[i], states[i + 1]);
    SnapshotServed(states, steps, i, i + 1);
    SnapshotServed(states, steps, i, j);
    SnapshotStability(states, steps, u);
    assert Alike(states[i + 1], states[j], u);
  }

  lemma Pinned(s: State, t: State)
    requires Next(s, t, PinStep)
    ensures |t.pins| == |s.pins| + 1
    ensures forall l, f :: 0 <= l < |s.files| && f in s.files[l] ==> f.number in t.pins[|s.pins|]
  {
  }

  /** The tables of the version an iterator was made over at step i are on disk until
      its own release or a crash, whatever is compacted and collected in between. */
  lemma PinnedTablesStay(states: seq<State>, steps: seq<Step>, i: nat, j: nat, l: nat, f: File)
    requires Run(states, steps) && i < j <= |steps| && steps[i] == PinStep
    requires PinPlace(steps, i + 1, |states[i].pins|, j).Some?
    requires l < |states[i].files| && f in states[i].files[l]
    ensures f.number in states[j].tables
  {
    RunStep(states, steps, i);
    Pinned(states[i], states[i + 1]);
    PinFollowed(states, steps, i + 1, |states[i].pins|, j);
    RunInv(states, steps, j);
    PinnedOnDisk(states[j], PinPlace(steps, i + 1, |states[i].pins|, j).value);
  }

  lemma PinnedOnDisk(s: State, p: nat)
    requires TablesOk(s) && p < |s.pins|
    ensures s.pins[p] <= s.tables
  {
  }
}
