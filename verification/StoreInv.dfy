/** Every step of the store keeps every part of the invariant. */
module StoreInv {
  import opened Keys
  import opened Reads
  import opened Levels
  import opened Drops
  import opened Store
  import opened StoreLogs

  // ---------- reads ----------

  /** Adding entries newer than all others keeps a stored set faithful. */
  lemma GrowFaithful(S: set<Entry>, W: set<Entry>, P: set<Entry>, u: UserKey, q: nat)
    requires S <= W && Distinct(W + P)
    requires Lookup(S, u, q) == Lookup(W, u, q)
    requires forall w, p :: w in W && p in P ==> w.k.sn < p.k.sn
    ensures Lookup(S + P, u, q) == Lookup(W + P, u, q)
  {
    var found, n := NewestExists(P, u, q);
    if found {
      assert IsNewest(S + P, u, q, n) && IsNewest(W + P, u, q, n);
      LookupIs(S + P, u, q, n);
      LookupIs(W + P, u, q, n);
    } else {
      LookupAgree(S, S + P, u, q);
      LookupAgree(W, W + P, u, q);
    }
  }

  /** Once every entry is visible, a later sequence number sees no more. */
  lemma LookupSettled(S: set<Entry>, u: UserKey, q: nat, r: nat)
    requires Distinct(S) && forall e :: e in S ==> e.k.sn <= q && e.k.sn <= r
    ensures Lookup(S, u, q) == Lookup(S, u, r)
  {
    VisibleAgree(S, S, u, q, r);
  }

  /** What HistoryOk says of one stored or acknowledged entry. */
  ghost predicate Settled(S: set<Entry>, q: nat) {
    forall e :: e in S ==> e.k.sn <= q
  }

  lemma UpperSettled(s: State)
    requires HistoryOk(s)
    ensures Settled(Upper(s), s.lastSeq) && Settled(All(s), s.lastSeq)
  {
    assert Upper(s) <= All(s);
  }

  /** A file stays newer-than-nothing when entries above lastSeq join the memtable. */
  lemma NewerGrow(S: set<Entry>, P: set<Entry>, files: Files, q: nat)
    requires |files| == LEVELS && Settled(InFiles(files), q) && forall p :: p in P ==> q < p.k.sn
    requires forall l, f {:trigger NewerSet(S, f), f in files[l]} :: 0 <= l < LEVELS && f in files[l] ==> NewerSet(S, f)
    ensures forall l, f :: 0 <= l < LEVELS && f in files[l] ==> NewerSet(S + P, f)
  {
    forall l, f | 0 <= l < LEVELS && f in files[l] ensures NewerSet(S + P, f) {
      assert NewerSet(S, f);
      forall e | e in f.entries ensures e.k.sn <= q { InLevel(files, l, f, e); }
    }
  }

  // ---------- logging and publishing a group ----------

  lemma EntrySetConcat(a: seq<Entry>, b: seq<Entry>)
    ensures EntrySet(a + b) == EntrySet(a) + EntrySet(b)
  {
  }

  lemma RisingConcat(r: seq<Entry>, group: seq<Entry>, q: nat)
    requires Rising(r) && Settled(EntrySet(r), q)
    requires forall i :: 0 <= i < |group| ==> group[i].k.sn == q + 1 + i
    ensures Rising(r + group)
  {
    forall i | 0 <= i < |r| ensures r[i].k.sn <= q {
      assert r[i] in EntrySet(r);
    }
  }

  lemma LogGroupReplay(s: State, t: State, group: seq<Entry>)
    requires LogsOk(s) && LogGroup(s, t, group)
    ensures Replay(t.logs, t.logNumber) == Replay(s.logs, s.logNumber) + group
    ensures Flatten(CurrentLog(t).batches) == Flatten(CurrentLog(s).batches) + group
    ensures LogsOrdered(t.logs)
  {
    ReplayAppend(s.logs, group, s.logNumber);
    FlattenSnoc(CurrentLog(s).batches, group);
  }

  lemma LogGroupLogs(s: State, t: State, group: seq<Entry>)
    requires LogsOk(s) && Settled(Upper(s), s.lastSeq) && LogGroup(s, t, group)
    ensures LogsOk(t)
  {
    LogGroupReplay(s, t, group);
    assert EntrySet(s.pending) == {};
    RisingConcat(Replay(s.logs, s.logNumber), group, s.lastSeq);
    EntrySetConcat(Replay(s.logs, s.logNumber), group);
    EntrySetConcat(Flatten(CurrentLog(s).batches), group);
  }

  lemma LogGroupKeeps(s: State, t: State, group: seq<Entry>)
    requires Inv(s) && LogGroup(s, t, group)
    ensures Inv(t) && KeepsReads(s, t)
  {
    UpperSettled(s);
    LogGroupLogs(s, t, group);
  }

  /** Without its last group the newest log, and with it the replay, ends earlier. */
  lemma TearReplay(s: State, t: State)
    requires LogsOk(s) && Tear(s, t)
    ensures Replay(s.logs, s.logNumber) == Replay(t.logs, t.logNumber) + s.pending
    ensures Flatten(CurrentLog(s).batches) == Flatten(CurrentLog(t).batches) + s.pending
    ensures LogsOrdered(t.logs)
  {
    var bs := CurrentLog(s).batches;
    assert bs == CurrentLog(t).batches + [s.pending];
    ReplayAppend(t.logs, s.pending, t.logNumber);
    FlattenSnoc(CurrentLog(t).batches, s.pending);
    assert s.logs == t.logs[|t.logs| - 1 := CurrentLog(t).(batches := bs)];
  }

  lemma OldPart(r: seq<Entry>, group: seq<Entry>, held: set<Entry>, q: nat)
    requires Rising(r + group) && EntrySet(r + group) == held + EntrySet(group) && Settled(held, q)
    requires group != [] && forall i :: 0 <= i < |group| ==> group[i].k.sn == q + 1 + i
    ensures Rising(r) && EntrySet(r) == held
  {
    var all := r + group;
    assert forall i :: 0 <= i < |r| ==> all[i] == r[i];
    assert all[|r|] == group[0] && forall e :: e in group ==> e.k.sn > q;
    forall e | e in r ensures e in held {
      var i :| 0 <= i < |r| && r[i] == e;
      assert all[i].k.sn < all[|r|].k.sn;
      assert e in EntrySet(all);
    }
    forall e | e in held ensures e in r {
      assert e in EntrySet(all);
    }
  }

  lemma TearLogs(s: State, t: State)
    requires LogsOk(s) && Settled(Upper(s), s.lastSeq) && Tear(s, t)
    ensures LogsOk(t)
  {
    TearReplay(s, t);
    OldPart(Replay(t.logs, t.logNumber), s.pending, Upper(s), s.lastSeq);
    MemSettled(s);
    RisingEnd(s.logs, s.logNumber);
    OldPart(Flatten(CurrentLog(t).batches), s.pending, s.mem, s.lastSeq);
    assert EntrySet(t.pending) == {};
  }

  lemma TearKeeps(s: State, t: State)
    requires Inv(s) && Tear(s, t)
    ensures Inv(t) && KeepsReads(s, t) && All(t) == All(s) && t.lastSeq == s.lastSeq && t.pending == []
  {
    UpperSettled(s);
    TearLogs(s, t);
    assert Upper(t) == Upper(s);
    FaithfulSame(s, t);
  }

  lemma MemSettled(s: State)
    requires Settled(Upper(s), s.lastSeq)
    ensures Settled(s.mem, s.lastSeq)
  {
  }

  lemma PendingNew(s: State)
    requires LogsOk(s)
    ensures forall e :: e in EntrySet(s.pending) ==> s.lastSeq < e.k.sn <= s.lastSeq + |s.pending| < MAX_SEQ
    ensures Distinct(EntrySet(s.pending))
  {
  }

  lemma PublishHistory(s: State, t: State)
    requires HistoryOk(s) && LogsOk(s) && Publish(s, t)
    ensures HistoryOk(t)
  {
    PendingNew(s);
    assert Upper(t) == Upper(s) + EntrySet(s.pending) && All(t) == All(s) + EntrySet(s.pending);
  }

  lemma PublishFiles(s: State, t: State)
    requires FilesOk(s) && Settled(All(s), s.lastSeq) && LogsOk(s) && Publish(s, t)
    ensures FilesOk(t)
  {
    PendingNew(s);
    assert Upper(t) == Upper(s) + EntrySet(s.pending);
    NewerGrow(Upper(s), EntrySet(s.pending), s.files, s.lastSeq);
  }

  lemma PublishReads(s: State, t: State, u: UserKey)
    requires HistoryOk(s) && HistoryOk(t) && SnapshotsOk(s) && LogsOk(s) && Faithful(s, u) && Publish(s, t)
    ensures Faithful(t, u)
  {
    var P := EntrySet(s.pending);
    assert All(t) == All(s) + P;
    PendingNew(s);
    forall q | q >= OldestSnapshot(t)
      ensures Lookup(All(t), u, q) == Lookup(t.written, u, q)
    {
      GrowFaithful(All(s), s.written, P, u, q);
    }
  }

  lemma PublishKeeps(s: State, t: State)
    requires Inv(s) && Publish(s, t)
    ensures Inv(t) && KeepsReads(s, t)
  {
    UpperSettled(s);
    PublishFiles(s, t);
    PublishHistory(s, t);
    PublishSeq(s, t);
    forall u | Faithful(s, u) ensures Faithful(t, u) {
      PublishReads(s, t, u);
    }
    assert EntrySet(t.pending) == {};
  }

  lemma PublishSeq(s: State, t: State)
    requires SeqOk(s) && LogsOk(s) && Publish(s, t)
    ensures SeqOk(t) && Upper(t) == Upper(s) + EntrySet(s.pending)
  {
    assert Upper(t) == Upper(s) + EntrySet(s.pending);
    if s.pending != [] {
      assert s.pending[|s.pending| - 1] in EntrySet(s.pending);
    } else if s.lastSeq != s.manifestSeq {
      var e :| e in Upper(s) && e.k.sn == s.lastSeq;
      assert e in Upper(t);
    }
  }

  // ---------- rotating and flushing the memtable ----------

  lemma RotateKeeps(s: State, t: State)
    requires Inv(s) && Rotate(s, t)
    ensures Inv(t) && KeepsReads(s, t)
  {
    assert Upper(t) == Upper(s) && All(t) == All(s);
    ReplaySnoc(s.logs, Log(s.nextFile, []), s.logNumber);
    assert Replay(t.logs, t.logNumber) == Replay(s.logs, s.logNumber);
    assert EntrySet(t.pending) == {};
  }

  /** After a flush the logs from the current one on hold just the memtable. */
  lemma FlushLogs(s: State, t: State)
    requires LogsOk(s) && t.logs == s.logs && t.logNumber == CurrentLog(s).number && t.pending == s.pending
    requires t.mem == s.mem && t.imm == None && t.lastSeq == s.lastSeq && t.nextFile >= s.nextFile
    ensures LogsOk(t)
  {
    ReplayCurrent(s.logs);
    RisingEnd(s.logs, s.logNumber);
    assert Upper(t) == s.mem;
    assert CurrentLog(t) == CurrentLog(s);
  }

  lemma RisingEnd(logs: seq<Log>, from: nat)
    requires |logs| > 0 && logs[|logs| - 1].number >= from && Rising(Replay(logs, from))
    ensures Rising(Flatten(logs[|logs| - 1].batches))
  {
    RisingSuffix(Replay(logs[..|logs| - 1], from), Flatten(logs[|logs| - 1].batches));
  }

  lemma FlushFiles(s: State, t: State, f: File, level: nat)
    requires FilesOk(s) && Flush(s, t, f, level)
    ensures FilesOk(t) && All(t) == All(s) && Numbers(t.files) == Numbers(s.files) + {f.number}
  {
    forall l, g | 0 <= l < LEVELS && g in s.files[l] ensures NewerFile(f, g) {
      assert NewerSet(Upper(s), g);
      assert forall e :: e in f.entries ==> e in Imm(s);
    }
    AddFileGood(s.files, level, f);
    AddFileContents(s.files, level, f);
    var after := AddFile(s.files, level, f);
    forall l, g | 0 <= l < LEVELS && g in after[l] ensures NewerSet(s.mem, g) {
      if g == f {
        assert forall e :: e in f.entries ==> e in Imm(s);
      } else {
        assert NewerSet(Upper(s), g);
      }
    }
    assert Upper(t) == s.mem;
    AddFileNumberSet(s.files, level, f);
  }

  lemma AddFileNumberSet(files: Files, level: nat, f: File)
    requires level < |files|
    ensures Numbers(AddFile(files, level, f)) == Numbers(files) + {f.number}
  {
    var after := AddFile(files, level, f);
    assert f in after[level];
    forall n | n in Numbers(files) ensures n in Numbers(after) {
      var l, g :| 0 <= l < |files| && g in files[l] && g.number == n;
      assert g in after[l];
    }
  }

  /** A manifest record covers everything acknowledged so far. */
  lemma ManifestHistory(s: State, t: State)
    requires HistoryOk(s) && All(t) <= All(s) && t.written == s.written
    requires t.lastSeq == s.lastSeq == t.manifestSeq
    ensures HistoryOk(t)
  {
  }

  lemma FaithfulSame(s: State, t: State)
    requires All(t) == All(s) && t.written == s.written && OldestSnapshot(t) >= OldestSnapshot(s)
    ensures KeepsReads(s, t)
  {
  }

  lemma TablesGrow(s: State, t: State, added: set<nat>)
    requires TablesOk(s) && t.pins == s.pins && t.tables == s.tables + added
    requires Numbers(t.files) <= Numbers(s.files) + added
    ensures TablesOk(t)
  {
  }

  lemma FlushKeeps(s: State, t: State, f: File, level: nat)
    requires Inv(s) && Flush(s, t, f, level)
    ensures Inv(t) && KeepsReads(s, t)
  {
    FlushFiles(s, t, f, level);
    FlushRest(s, t, f, level);
  }

  lemma FlushRest(s: State, t: State, f: File, level: nat)
    requires HistoryOk(s) && SnapshotsOk(s) && LogsOk(s) && TablesOk(s) && Flush(s, t, f, level)
    requires All(t) == All(s) && Numbers(t.files) == Numbers(s.files) + {f.number}
    ensures HistoryOk(t) && SnapshotsOk(t) && LogsOk(t) && TablesOk(t) && KeepsReads(s, t)
  {
    FlushLogs(s, t);
    ManifestHistory(s, t);
    TablesGrow(s, t, {f.number});
    FaithfulSame(s, t);
  }

  lemma FlushEmptyKeeps(s: State, t: State)
    requires Inv(s) && FlushEmpty(s, t)
    ensures Inv(t) && KeepsReads(s, t)
  {
    assert Upper(t) == Upper(s) && All(t) == All(s);
    FlushLogs(s, t);
  }

  // ---------- snapshots, references, garbage collection ----------

  lemma TakeSnapshotKeeps(s: State, t: State)
    requires Inv(s) && TakeSnapshot(s, t)
    ensures Inv(t) && KeepsReads(s, t)
  {
    FaithfulSame(s, t);
  }

  lemma ReleaseSnapshotKeeps(s: State, t: State, i: nat)
    requires Inv(s) && Store.ReleaseSnapshot(s, t, i)
    ensures Inv(t) && KeepsReads(s, t)
  {
    FaithfulSame(s, t);
  }

  lemma PinKeeps(s: State, t: State)
    requires Inv(s) && Pin(s, t)
    ensures Inv(t) && KeepsReads(s, t)
  {
    FaithfulSame(s, t);
  }

  lemma UnpinKeeps(s: State, t: State, i: nat)
    requires Inv(s) && Unpin(s, t, i)
    ensures Inv(t) && KeepsReads(s, t)
  {
    FaithfulSame(s, t);
  }

  lemma DeleteObsoleteLogs(s: State, t: State)
    requires LogsOk(s) && DeleteObsolete(s, t)
    ensures LogsOk(t)
  {
    KeepLogsReplay(s.logs, s.logNumber);
    KeepLogsOrdered(s.logs, s.logNumber);
    LogsSame(s, t);
  }

  lemma LogsSame(s: State, t: State)
    requires LogsOk(s) && LogsOrdered(t.logs) && |t.logs| > 0 && CurrentLog(t) == CurrentLog(s)
    requires Replay(t.logs, t.logNumber) == Replay(s.logs, s.logNumber) && t.logNumber == s.logNumber
    requires t.mem == s.mem && t.imm == s.imm && t.pending == s.pending && t.lastSeq == s.lastSeq
    requires t.nextFile >= s.nextFile
    ensures LogsOk(t)
  {
  }

  lemma DeleteObsoleteKeeps(s: State, t: State)
    requires Inv(s) && DeleteObsolete(s, t)
    ensures Inv(t) && KeepsReads(s, t)
  {
    DeleteObsoleteLogs(s, t);
    assert All(t) == All(s) && Upper(t) == Upper(s);
    assert TablesOk(t);
  }

  // ---------- compactions ----------

  lemma ReplaceNumbers(files: Files, L: nat, in0: set<File>, in1: set<File>, outs: set<File>)
    requires L + 1 < |files|
    ensures Numbers(Replace(files, L, in0, in1, outs)) <= Numbers(files) + (set o | o in outs :: o.number)
  {
    var after := Replace(files, L, in0, in1, outs);
    forall n | n in Numbers(after)
      ensures n in Numbers(files) + (set o | o in outs :: o.number)
    {
      var l, g: File :| 0 <= l < |files| && g in after[l] && g.number == n;
      assert g in outs || g in files[l];
    }
  }

  lemma TrivialMoveFiles(s: State, t: State, L: nat, f: File, lo: UserKey, hi: UserKey)
    requires FilesOk(s) && TrivialMove(s, t, L, f, lo, hi)
    ensures FilesOk(t) && All(t) == All(s) && Numbers(t.files) <= Numbers(s.files)
  {
    var after := Replace(s.files, L, {f}, {}, {f});
    MoveGood(s.files, L, f, lo, hi);
    MoveContents(s.files, L, f);
    ReplaceNumbers(s.files, L, {f}, {}, {f});
    assert f in s.files[L];
    forall l, g | 0 <= l < LEVELS && g in after[l]
      ensures NewerSet(Upper(s), g) && g.number < s.nextFile
    {
      assert g in s.files[if g == f then L else l];
    }
  }

  lemma TrivialMoveKeeps(s: State, t: State, L: nat, f: File, lo: UserKey, hi: UserKey)
    requires Inv(s) && TrivialMove(s, t, L, f, lo, hi)
    ensures Inv(t) && KeepsReads(s, t)
  {
    TrivialMoveFiles(s, t, L, f, lo, hi);
    ManifestHistory(s, t);
    FaithfulSame(s, t);
    assert LogsOk(t) && TablesOk(t);
  }

  lemma CompactFiles(s: State, t: State, L: nat, in0: set<File>, in1: set<File>, lo: UserKey, hi: UserKey,
                     outs: set<File>, next: nat)
    requires FilesOk(s) && Compact(s, t, L, in0, in1, lo, hi, outs, next)
    ensures FilesOk(t)
  {
    var kept := Kept(s.files, L, Contents(in0 + in1), OldestSnapshot(s));
    var after := Replace(s.files, L, in0, in1, outs);
    ReplaceGood(s.files, L, in0, in1, lo, hi, outs, kept);
    forall l, g | 0 <= l < LEVELS && g in after[l]
      ensures NewerSet(Upper(s), g) && g.number < next
    {
      if g in outs {
        forall a, b | a in Upper(s) && b in g.entries && a.k.user == b.k.user
          ensures a.k.sn > b.k.sn
        {
          assert b in Contents(outs);
          var m, f := InputHome(s.files, L, in0, in1, lo, hi, b);
          assert NewerSet(Upper(s), f);
        }
      } else {
        assert g in s.files[l];
      }
    }
  }

  lemma CompactStored(s: State, t: State, L: nat, in0: set<File>, in1: set<File>, lo: UserKey, hi: UserKey,
                      outs: set<File>, next: nat)
    requires FilesOk(s) && HistoryOk(s) && Compact(s, t, L, in0, in1, lo, hi, outs, next)
    ensures All(t) <= All(s) && Compacts(Upper(s), s.files, L, in0, in1, lo, hi, outs, OldestSnapshot(s))
    ensures All(t) == Upper(s) + InFiles(Replace(s.files, L, in0, in1, outs))
  {
    AfterDistinct(Upper(s), s.files, L, in0, in1, lo, hi, outs, OldestSnapshot(s));
  }

  /** Reads of a key stay faithful exactly when the compaction does not resurrect it. */
  lemma CompactReads(s: State, t: State, L: nat, in0: set<File>, in1: set<File>, lo: UserKey, hi: UserKey,
                     outs: set<File>, next: nat, u: UserKey)
    requires FilesOk(s) && HistoryOk(s) && Faithful(s, u) && Compact(s, t, L, in0, in1, lo, hi, outs, next)
    ensures Faithful(t, u) <==> !Resurrects(Upper(s), s.files, L, in0, in1, OldestSnapshot(s), u)
  {
    CompactStored(s, t, L, in0, in1, lo, hi, outs, next);
    CompactionPreservesReads(Upper(s), s.files, L, in0, in1, lo, hi, outs, OldestSnapshot(s), u);
  }

  lemma CompactKeeps(s: State, t: State, L: nat, in0: set<File>, in1: set<File>, lo: UserKey, hi: UserKey,
                     outs: set<File>, next: nat)
    requires Inv(s) && Compact(s, t, L, in0, in1, lo, hi, outs, next)
    ensures Inv(t)
    ensures forall u :: Faithful(s, u) ==>
              (Faithful(t, u) <==> !Resurrects(Upper(s), s.files, L, in0, in1, OldestSnapshot(s), u))
  {
    forall u | Faithful(s, u)
      ensures Faithful(t, u) <==> !Resurrects(Upper(s), s.files, L, in0, in1, OldestSnapshot(s), u)
    {
      CompactReads(s, t, L, in0, in1, lo, hi, outs, next, u);
    }
    CompactedInv(s, t, L, in0, in1, lo, hi, outs, next);
  }

  lemma CompactedInv(s: State, t: State, L: nat, in0: set<File>, in1: set<File>, lo: UserKey, hi: UserKey,
                     outs: set<File>, next: nat)
    requires Inv(s) && Compact(s, t, L, in0, in1, lo, hi, outs, next)
    ensures Inv(t)
  {
    CompactFiles(s, t, L, in0, in1, lo, hi, outs, next);
    CompactStored(s, t, L, in0, in1, lo, hi, outs, next);
    ReplaceNumbers(s.files, L, in0, in1, outs);
    ManifestHistory(s, t);
    LogsSame(s, t);
    TablesGrow(s, t, set o | o in outs :: o.number);
  }
}
