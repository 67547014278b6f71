/** Whole runs of the store: what holds in every reachable state, across crashes. */
module Runs {
  import opened Keys
  import opened Reads
  import opened Levels
  import opened Drops
  import opened Store
  import opened StoreInv
  import opened StoreRecover

  datatype Step =
    | LogGroupStep(group: seq<Entry>)
    | PublishStep
    | TearStep
    | RotateStep
    | FlushStep(f: File, level: nat)
    | FlushEmptyStep
    | TakeSnapshotStep
    | ReleaseSnapshotStep(i: nat)
    | PinStep
    | UnpinStep(i: nat)
    | DeleteObsoleteStep
    | MoveStep(L: nat, f: File, lo: UserKey, hi: UserKey)
    | CompactStep(L: nat, in0: set<File>, in1: set<File>, lo: UserKey, hi: UserKey, outs: set<File>, next: nat)
    | RecoverStep(chunks: seq<seq<Entry>>, tables: seq<File>)

  ghost predicate Next(s: State, t: State, step: Step) {
    match step
    case LogGroupStep(group) => LogGroup(s, t, group)
    case PublishStep => Publish(s, t)
    case TearStep => Tear(s, t)
    case RotateStep => Rotate(s, t)
    case FlushStep(f, level) => Flush(s, t, f, level)
    case FlushEmptyStep => FlushEmpty(s, t)
    case TakeSnapshotStep => TakeSnapshot(s, t)
    case ReleaseSnapshotStep(i) => Store.ReleaseSnapshot(s, t, i)
    case PinStep => Pin(s, t)
    case UnpinStep(i) => Unpin(s, t, i)
    case DeleteObsoleteStep => DeleteObsolete(s, t)
    case MoveStep(L, f, lo, hi) => TrivialMove(s, t, L, f, lo, hi)
    case CompactStep(L, in0, in1, lo, hi, outs, next) => Compact(s, t, L, in0, in1, lo, hi, outs, next)
    case RecoverStep(chunks, tables) => Recover(s, t, chunks, tables)
  }

  /** The step is not a compaction that brings a deleted value of u back. */
  ghost predicate Safe(s: State, step: Step, u: UserKey) {
    step.CompactStep? && |s.files| == LEVELS && step.L + 1 < LEVELS ==>
      !Resurrects(Upper(s), s.files, step.L, step.in0, step.in1, OldestSnapshot(s), u)
  }

  ghost predicate Run(states: seq<State>, steps: seq<Step>) {
    && |states| == |steps| + 1 && Init(states[0])
    && forall i {:trigger Next(states[i], states[i + 1], steps[i])} ::
         0 <= i < |steps| ==> Next(states[i], states[i + 1], steps[i])
  }

  ghost predicate SafeRun(states: seq<State>, steps: seq<Step>, u: UserKey) {
    && Run(states, steps)
    && forall i {:trigger Safe(states[i], steps[i], u)} :: 0 <= i < |steps| ==> Safe(states[i], steps[i], u)
  }

  lemma InitInv(s: State)
    requires Init(s)
    ensures Inv(s) && forall u :: Faithful(s, u)
  {
    assert forall l :: 0 <= l < LEVELS ==> s.files[l] == {};
    assert All(s) == {} && Numbers(s.files) == {};
    assert Replay(s.logs, s.logNumber) == [] && Flatten(s.logs[0].batches) == [];
    assert EntrySet(s.pending) == {};
  }

  /** Every step keeps the invariant, and reads of a key stay faithful exactly when
      the step does not resurrect it. */
  lemma StepExact(s: State, t: State, step: Step)
    requires Inv(s) && Next(s, t, step)
    ensures Inv(t)
    ensures forall u :: Faithful(s, u) ==> (Safe(s, step, u) <==> Faithful(t, u))
  {
    match step
    case LogGroupStep(group) => LogGroupKeeps(s, t, group);
    case PublishStep => PublishKeeps(s, t);
    case TearStep => TearKeeps(s, t);
    case RotateStep => RotateKeeps(s, t);
    case FlushStep(f, level) => FlushKeeps(s, t, f, level);
    case FlushEmptyStep => FlushEmptyKeeps(s, t);
    case TakeSnapshotStep => TakeSnapshotKeeps(s, t);
    case ReleaseSnapshotStep(i) => ReleaseSnapshotKeeps(s, t, i);
    case PinStep => PinKeeps(s, t);
    case UnpinStep(i) => UnpinKeeps(s, t, i);
    case DeleteObsoleteStep => DeleteObsoleteKeeps(s, t);
    case MoveStep(L, f, lo, hi) => TrivialMoveKeeps(s, t, L, f, lo, hi);
    case CompactStep(L, in0, in1, lo, hi, outs, next) => CompactKeeps(s, t, L, in0, in1, lo, hi, outs, next);
    case RecoverStep(chunks, tables) => RecoverKeeps(s, t, chunks, tables);
  }

  /** Every state of every run satisfies the invariant. */
  lemma {:induction false} RunInv(states: seq<State>, steps: seq<Step>, i: nat)
    requires Run(states, steps) && i < |states|
    ensures Inv(states[i])
  {
    if i == 0 {
      InitInv(states[0]);
    } else {
      RunInv(states, steps, i - 1);
      RunStep(states, steps, i - 1);
      StepExact(states[i - 1], states[i], steps[i - 1]);
    }
  }

  lemma RunStep(states: seq<State>, steps: seq<Step>, i: nat)
    requires Run(states, steps) && i < |steps|
    ensures Next(states[i], states[i + 1], steps[i])
  {
  }

  /** Step i from a state with faithful reads of u. */
  lemma StepAt(states: seq<State>, steps: seq<Step>, i: nat, u: UserKey)
    requires Run(states, steps) && i < |steps| && Faithful(states[i], u)
    ensures Safe(states[i], steps[i], u) <==> Faithful(states[i + 1], u)
  {
    RunInv(states, steps, i);
    RunStep(states, steps, i);
    StepExact(states[i], states[i + 1], steps[i]);
  }

  lemma StartFaithful(states: seq<State>, steps: seq<Step>, u: UserKey)
    requires Run(states, steps)
    ensures Faithful(states[0], u)
  {
    InitInv(states[0]);
  }

  lemma {:induction false} SafeFaithful(states: seq<State>, steps: seq<Step>, i: nat, u: UserKey)
    requires SafeRun(states, steps, u) && i < |states|
    ensures Faithful(states[i], u)
  {
    if i == 0 {
      StartFaithful(states, steps, u);
    } else {
      SafeFaithful(states, steps, i - 1, u);
      assert Safe(states[i - 1], steps[i - 1], u);
      StepAt(states, steps, i - 1, u);
    }
  }

  ghost predicate AllFaithful(states: seq<State>, u: UserKey) {
    forall j {:trigger Faithful(states[j], u)} :: 0 <= j < |states| ==> Faithful(states[j], u)
  }

  /** Exactly the runs in which no compaction resurrects u keep every read of u at
      or above the oldest snapshot true to what was written, in every state. */
  lemma RunExact(states: seq<State>, steps: seq<Step>, u: UserKey)
    requires Run(states, steps)
    ensures SafeRun(states, steps, u) <==> AllFaithful(states, u)
  {
    if SafeRun(states, steps, u) {
      forall i | 0 <= i < |states| ensures Faithful(states[i], u) {
        SafeFaithful(states, steps, i, u);
      }
    } else if AllFaithful(states, u) {
      forall i | 0 <= i < |steps| ensures Safe(states[i], steps[i], u) {
        assert Faithful(states[i], u) && Faithful(states[i + 1], u);
        StepAt(states, steps, i, u);
      }
    }
  }

  /** History only grows, by entries newer than everything acknowledged. */
  ghost predicate Extends(s: State, t: State) {
    && s.lastSeq <= t.lastSeq && s.written <= t.written
    && forall e :: e in t.written && e !in s.written ==> e.k.sn > s.lastSeq
  }

  lemma NextExtends(s: State, t: State, step: Step)
    requires Inv(s) && Next(s, t, step)
    ensures Extends(s, t)
  {
    PendingNew(s);
    if step.RecoverStep? {
      RecoverLastSeq(s);
      UpperInReplay(s);
    }
  }

  lemma UpperInReplay(s: State)
    requires HistoryOk(s) && SeqOk(s) && LogsOk(s)
    ensures s.lastSeq <= Max(s.manifestSeq, MaxSeq(Replay(s.logs, s.logNumber)))
  {
    RecoverLastSeq(s);
    if s.lastSeq != s.manifestSeq {
      var e :| e in Upper(s) && e.k.sn == s.lastSeq;
      assert e in All(s);
    }
  }

  lemma RunStepExtends(states: seq<State>, steps: seq<Step>, i: nat)
    requires Run(states, steps) && i < |steps|
    ensures Extends(states[i], states[i + 1])
  {
    RunInv(states, steps, i);
    RunStep(states, steps, i);
    NextExtends(states[i], states[i + 1], steps[i]);
  }

  lemma {:induction false} RunExtends(states: seq<State>, steps: seq<Step>, i: nat, j: nat)
    requires Run(states, steps) && i <= j < |states|
    ensures Extends(states[i], states[j])
    decreases j
  {
    if i < j {
      RunExtends(states, steps, i, j - 1);
      RunStepExtends(states, steps, j - 1);
      ExtendsTransitive(states[i], states[j - 1], states[j]);
    }
  }

  lemma ExtendsTransitive(a: State, b: State, c: State)
    requires Extends(a, b) && Extends(b, c)
    ensures Extends(a, c)
  {
  }

  lemma ExtendsLookup(s: State, t: State, u: UserKey, q: nat)
    requires Extends(s, t) && Distinct(t.written) && q <= s.lastSeq
    ensures Lookup(s.written, u, q) == Lookup(t.written, u, q)
  {
    LookupAgree(s.written, t.written, u, q);
  }

  /** Two states that both still serve sequence q answer a read of u at q alike. */
  ghost predicate Alike(s: State, t: State, u: UserKey) {
    forall q :: OldestSnapshot(s) <= q <= s.lastSeq && OldestSnapshot(t) <= q ==>
      Lookup(All(s), u, q) == Lookup(All(t), u, q)
  }

  ghost predicate Stable(states: seq<State>, u: UserKey) {
    forall i, j {:trigger Alike(states[i], states[j], u)} :: 0 <= i <= j < |states| ==> Alike(states[i], states[j], u)
  }

  lemma FaithfulAlike(s: State, t: State, u: UserKey)
    requires Faithful(s, u) && Faithful(t, u) && Extends(s, t) && HistoryOk(t)
    ensures Alike(s, t, u)
  {
    forall q | OldestSnapshot(s) <= q <= s.lastSeq && OldestSnapshot(t) <= q
      ensures Lookup(All(s), u, q) == Lookup(All(t), u, q)
    {
      ExtendsLookup(s, t, u, q);
    }
  }

  /** A compaction after which reads are as before it has kept them faithful. */
  lemma AlikeFaithful(s: State, t: State, u: UserKey)
    requires HistoryOk(s) && HistoryOk(t) && SnapshotsOk(s) && Faithful(s, u) && Alike(s, t, u)
    requires t.written == s.written && t.lastSeq == s.lastSeq && t.snapshots == s.snapshots
    ensures Faithful(t, u)
  {
    forall q | q >= OldestSnapshot(t) ensures Lookup(All(t), u, q) == Lookup(t.written, u, q) {
      var r := if q <= s.lastSeq then q else s.lastSeq;
      UpperSettled(t);
      if r != q {
        LookupSettled(All(t), u, q, r);
        LookupSettled(t.written, u, q, r);
      }
      assert Lookup(All(s), u, r) == Lookup(s.written, u, r);
    }
  }

  lemma StableStep(states: seq<State>, steps: seq<Step>, k: nat, u: UserKey)
    requires Run(states, steps) && Stable(states, u) && k < |steps| && Faithful(states[k], u)
    ensures Faithful(states[k + 1], u)
  {
    if steps[k].CompactStep? {
      RunInv(states, steps, k);
      RunInv(states, steps, k + 1);
      RunStep(states, steps, k);
      assert Alike(states[k], states[k + 1], u);
      AlikeFaithful(states[k], states[k + 1], u);
    } else {
      StepAt(states, steps, k, u);
    }
  }

  lemma {:induction false} StableFaithful(states: seq<State>, steps: seq<Step>, i: nat, u: UserKey)
    requires Run(states, steps) && Stable(states, u) && i < |states|
    ensures Faithful(states[i], u)
  {
    if i == 0 {
      StartFaithful(states, steps, u);
    } else {
      StableFaithful(states, steps, i - 1, u);
      StableStep(states, steps, i - 1, u);
    }
  }

  /** Snapshot stability: exactly the runs in which no compaction resurrects u answer
      reads of u at a sequence number that is still served alike in all their states,
      whatever was written, flushed, moved, compacted, garbage collected or recovered
      in between. */
  lemma SnapshotStability(states: seq<State>, steps: seq<Step>, u: UserKey)
    requires Run(states, steps)
    ensures SafeRun(states, steps, u) <==> Stable(states, u)
  {
    RunExact(states, steps, u);
    if SafeRun(states, steps, u) {
      forall i, j | 0 <= i <= j < |states| ensures Alike(states[i], states[j], u) {
        RunInv(states, steps, j);
        RunExtends(states, steps, i, j);
        assert Faithful(states[i], u) && Faithful(states[j], u);
        FaithfulAlike(states[i], states[j], u);
      }
    } else if Stable(states, u) {
      forall i | 0 <= i < |states| ensures Faithful(states[i], u) {
        StableFaithful(states, steps, i, u);
      }
    }
  }

  lemma HeldServed(s: State, q: nat)
    requires SnapshotsOk(s) && q in s.snapshots
    ensures OldestSnapshot(s) <= q <= s.lastSeq
  {
  }

  /** A held snapshot is such a sequence number. */
  lemma HeldSnapshotStability(states: seq<State>, steps: seq<Step>, i: nat, j: nat, u: UserKey, q: nat)
    requires SafeRun(states, steps, u) && i <= j < |states|
    requires q in states[i].snapshots && q in states[j].snapshots
    ensures Lookup(All(states[i]), u, q) == Lookup(All(states[j]), u, q)
  {
    RunInv(states, steps, i);
    RunInv(states, steps, j);
    HeldServed(states[i], q);
    HeldServed(states[j], q);
    SnapshotStability(states, steps, u);
    assert Alike(states[i], states[j], u);
  }

  /** Two states that store the same answer the latest read alike. */
  lemma SameStoredSameAnswer(s: State, t: State, u: UserKey)
    requires HistoryOk(s) && HistoryOk(t) && All(s) == All(t)
    ensures Lookup(All(s), u, s.lastSeq) == Lookup(All(t), u, t.lastSeq)
  {
    UpperSettled(s);
    UpperSettled(t);
    LookupSettled(All(t), u, s.lastSeq, t.lastSeq);
  }

  lemma PublishStores(s: State, p: State)
    requires Publish(s, p)
    ensures All(p) == All(s) + EntrySet(s.pending)
  {
  }

  /** Crash recovery: the recovered store answers the latest read exactly as the
      crashed one would have after acknowledging the logged group: nothing
      acknowledged is lost, and the group in flight survives whole. */
  lemma CrashRecovery(s: State, t: State, p: State, chunks: seq<seq<Entry>>, tables: seq<File>, u: UserKey)
    requires Inv(s) && Recover(s, t, chunks, tables) && Publish(s, p)
    ensures Inv(t) && Inv(p) && All(t) == All(p)
    ensures Lookup(All(t), u, t.lastSeq) == Lookup(All(p), u, p.lastSeq)
  {
    RecoverKeeps(s, t, chunks, tables);
    RecoverAll(s, t, chunks, tables);
    PublishKeeps(s, p);
    PublishStores(s, p);
    SameStoredSameAnswer(t, p, u);
  }

  lemma QuietStores(s: State, t: State, chunks: seq<seq<Entry>>, tables: seq<File>)
    requires LogsOk(s) && Recover(s, t, chunks, tables) && s.pending == []
    ensures All(t) == All(s)
  {
    RecoverAll(s, t, chunks, tables);
    assert EntrySet(s.pending) == {};
  }

  /** With no group in flight a crash changes no latest read at all. */
  lemma QuietCrashRecovery(s: State, t: State, chunks: seq<seq<Entry>>, tables: seq<File>, u: UserKey)
    requires Inv(s) && Recover(s, t, chunks, tables) && s.pending == []
    ensures All(t) == All(s) && Lookup(All(t), u, t.lastSeq) == Lookup(All(s), u, s.lastSeq)
  {
    RecoverKeeps(s, t, chunks, tables);
    QuietStores(s, t, chunks, tables);
    SameStoredSameAnswer(t, s, u);
  }

  /** When the crash tears the record of the group in flight, no latest read
      changes: the group is not there at all. */
  lemma TornCrashRecovery(s: State, m: State, t: State, chunks: seq<seq<Entry>>, tables: seq<File>, u: UserKey)
    requires Inv(s) && Tear(s, m) && Recover(m, t, chunks, tables)
    ensures All(t) == All(s) && Lookup(All(t), u, t.lastSeq) == Lookup(All(s), u, s.lastSeq)
  {
    TearKeeps(s, m);
    QuietCrashRecovery(m, t, chunks, tables, u);
  }
}
