/** DBImpl: the store as an object.  Every method is a step of the state machine
    of module Store, and Get answers from the whole of it (db_impl.cc). */
module DbImpl {
  import opened Keys
  import opened Reads
  import opened Levels
  import opened Drops
  import opened Store
  import opened StoreInv
  import opened StoreRecover
  import opened Runs
  import opened FileSearch
  import opened Inputs
  import opened Setup
  import opened Edits
  import opened Get
  import opened Db
  import opened Recovery
  import opened InputMerge
  import opened StoreView
  import opened DbIter
  import opened WriteBatch
  import Job = CompactionJob

  lemma SoundFromInv(files: FileLists, s: State)
    requires Rep(files) && s.files == Abs(files) && FilesOk(s) && HistoryOk(s)
    ensures Sound(files)
    ensures forall l :: 1 <= l < LEVELS ==> Packable(files[l])
  {
    assert InFiles(s.files) <= All(s);
    forall l, i | 1 <= l < LEVELS && 0 <= i < |files[l]| ensures files[l][i].largest.sn <= MAX_SEQ {
      var f := files[l][i];
      assert f in files[l] && f in Abs(files)[l];
      assert f.entries[|f.entries| - 1] in f.entries;
      InLevel(s.files, l, f, f.entries[|f.entries| - 1]);
    }
  }

  /** The counters of VersionSet, and what the manifest last made durable. */
  datatype Counters = Counters(lastSequence: nat, nextFile: nat, logNumber: nat, manifestSequence: nat,
    manifestNextFile: nat)

  /** The files on disk: write-ahead logs, and table numbers. */
  datatype Disk = Disk(logs: seq<Log>, tables: set<nat>)

  class DBImpl {
    const targetFileSize: nat
    var mem: seq<Entry>
    var imm: Option<seq<Entry>>
    var files: FileLists
    var versions: Counters
    var disk: Disk
    var snapshots: seq<nat>
    var pending: seq<Entry>
    var pins: seq<set<nat>>
    ghost var written: set<Entry>

    ghost function St(): State
      reads this
    {
      State(EntrySet(mem), if imm.Some? then Some(EntrySet(imm.value)) else None, Abs(files),
            versions.lastSequence, snapshots, versions.nextFile, disk.logs, versions.logNumber,
            versions.manifestSequence, versions.manifestNextFile, pending, pins, disk.tables, written)
    }

    /** Lists are in the order their uses rely on. */
    ghost predicate Shape()
      reads this
    {
      && SortedEntries(mem) && (imm.Some? ==> SortedEntries(imm.value))
      && Rep(files) && Ordered(files)
    }

    ghost predicate Valid()
      reads this
    {
      Shape() && Inv(St())
    }

    /** A fresh database (NewDB, then Open). */
    constructor (targetFileSize: nat)
      ensures Valid() && Init(St())
    {
      this.targetFileSize := targetFileSize;
      mem, imm, files := [], None, seq(LEVELS, _ => []);
      versions, disk := Counters(0, 4, 3, 0, 4), Disk([Log(3, [])], {});
      snapshots, pending, pins, written := [], [], [], {};
      new;
      assert forall l :: 0 <= l < LEVELS ==> ToSet(files[l]) == {};
      assert Abs(files) == seq(LEVELS, _ => {});
      InitInv(St());
    }

    // ---------- writes ----------

    /** DBImpl::Write: the leader's group goes to the log. */
    method AddRecord(us: seq<Update>)
      requires Valid() && pending == [] && versions.lastSequence + |us| < MAX_SEQ
      modifies `disk, `pending
      ensures Valid() && pending == EntriesOf(versions.lastSequence + 1, us)
      ensures LogGroup(old(St()), St(), pending)
      ensures |disk.logs| == |old(disk.logs)| && LastBatches() == old(LastBatches()) + [pending]
    {
      ghost var s := St();
      var group := EntriesOf(versions.lastSequence + 1, us);
      LoggedKeeps(s, group);
      WriteLog(group);
    }

    /** The batches in the log that is being written. */
    function LastBatches(): seq<seq<Entry>>
      reads this
    {
      if disk.logs == [] then [] else disk.logs[|disk.logs| - 1].batches
    }

    method WriteLog(group: seq<Entry>)
      requires Shape() && |disk.logs| > 0
      modifies `disk, `pending
      ensures Shape() && pending == group && St() == Logged(old(St()), group)
      ensures |disk.logs| == |old(disk.logs)| && LastBatches() == old(LastBatches()) + [group]
    {
      disk, pending := disk.(logs := AppendBatch(disk.logs, group)), group;
    }

    /** A crash cuts the record in flight off the log; Recover follows. */
    method LoseRecord()
      requires Valid() && pending != []
      modifies `disk, `pending
      ensures Valid() && Tear(old(St()), St())
      ensures pending == [] && LastBatches() + [old(pending)] == old(LastBatches())
    {
      ghost var s := St();
      var n := |disk.logs| - 1;
      var log := disk.logs[n];
      assert LastLogged(s, pending);
      disk := disk.(logs := disk.logs[n := log.(batches := log.batches[..|log.batches| - 1])]);
      pending := [];
      assert Tear(s, St());
      TearKeeps(s, St());
    }

    /** InsertInto the memtable, then SetLastSequence. */
    method InsertInto()
      requires Valid()
      modifies `mem, `versions, `pending, `written
      ensures Valid() && Publish(old(St()), St())
      ensures pending == [] && EntrySet(mem) == EntrySet(old(mem)) + EntrySet(old(pending))
      ensures versions.lastSequence == old(versions).lastSequence + |old(pending)|
    {
      ghost var s := St();
      PendingNew(s);
      UpperSettled(s);
      mem := InsertBatch(mem, pending);
      written := written + EntrySet(pending);
      versions := versions.(lastSequence := versions.lastSequence + |pending|);
      pending := [];
      assert Publish(s, St());
      PublishKeeps(s, St());
    }

    /** MakeRoomForWrite: switch to a new memtable and a new log. */
    method SwitchMemTable()
      requires Valid() && imm == None && pending == []
      modifies `mem, `imm, `disk, `versions
      ensures Valid() && Rotate(old(St()), St())
      ensures mem == [] && imm == Some(old(mem))
      ensures disk.logs == old(disk.logs) + [Log(old(versions).nextFile, [])] && disk.tables == old(disk.tables)
    {
      ghost var s := St();
      imm, mem := Some(mem), [];
      disk := disk.(logs := disk.logs + [Log(versions.nextFile, [])]);
      versions := versions.(nextFile := versions.nextFile + 1);
      assert EntrySet(mem) == {};
      assert Rotate(s, St());
      RotateKeeps(s, St());
    }

    // ---------- snapshots ----------

    method GetSnapshot() returns (q: nat)
      requires Valid()
      modifies `snapshots
      ensures Valid() && q == versions.lastSequence && TakeSnapshot(old(St()), St())
      ensures snapshots == old(snapshots) + [q]
    {
      ghost var s := St();
      q := versions.lastSequence;
      snapshots := snapshots + [q];
      TakeSnapshotKeeps(s, St());
    }

    method ReleaseSnapshot(i: nat)
      requires Valid() && i < |snapshots|
      modifies `snapshots
      ensures Valid() && Store.ReleaseSnapshot(old(St()), St(), i)
      ensures snapshots == old(snapshots)[..i] + old(snapshots)[i + 1..]
    {
      ghost var s := St();
      snapshots := snapshots[..i] + snapshots[i + 1..];
      ReleaseSnapshotKeeps(s, St(), i);
    }

    // ---------- the background thread ----------

    /** CompactMemTable: the immutable memtable becomes a table at the level
        PickLevelForMemTableOutput chooses; an empty one becomes none. */
    method CompactMemTable(size: nat) returns (ghost f: File, ghost level: nat)
      requires Valid() && imm.Some?
      modifies `imm, `files, `versions, `disk
      ensures Valid()
      ensures if old(imm).value == [] then FlushEmpty(old(St()), St()) else Flush(old(St()), St(), f, level)
      ensures imm == None && InFiles(Abs(files)) == InFiles(Abs(old(files))) + EntrySet(old(imm).value)
    {
      ghost var s := St();
      f, level := Job.FinishTable(0, 0, [Entry(IKey(0.0, 0, Value), [])]), 0;
      if imm.value == [] {
        DropEmptyMemTable();
      } else {
        var table := Job.FinishTable(versions.nextFile, size, imm.value);
        var w, lvl := AddTable(files, St(), table, targetFileSize);
        f, level := table, lvl;
        InstallTable(table, lvl, w);
        FlushMeans(s, St(), f, level);
      }
    }

    /** The manifest record of a flush: LogAndApply with the current log's number. */
    function FlushCounters(): Counters
      requires |disk.logs| > 0
      reads this
    {
      Counters(versions.lastSequence, versions.nextFile + 1, disk.logs[|disk.logs| - 1].number,
               versions.lastSequence, versions.nextFile + 1)
    }

    method DropEmptyMemTable()
      requires Valid() && imm == Some([])
      modifies `imm, `versions
      ensures Valid() && FlushEmpty(old(St()), St())
    {
      ghost var s := St();
      assert EntrySet(imm.value) == {};
      versions, imm := FlushCounters(), None;
      assert FlushEmpty(s, St());
      FlushEmptyKeeps(s, St());
    }

    method InstallTable(f: File, level: nat, w: FileLists)
      requires Valid() && imm.Some?
      requires f.number == versions.nextFile && ValidFile(f) && EntrySet(f.entries) == EntrySet(imm.value)
      requires LevelFree(Abs(files), level, f) && Rep(w) && Ordered(w) && Abs(w) == AddFile(Abs(files), level, f)
      modifies `imm, `files, `versions, `disk
      ensures Valid() && Flush(old(St()), St(), f, level)
    {
      ghost var s := St();
      UseTable(f, level, w);
      FlushedKeeps(s, f, level);
    }

    method UseTable(f: File, ghost level: nat, w: FileLists)
      requires Shape() && |disk.logs| > 0 && level < LEVELS && f.number == versions.nextFile
      requires Rep(w) && Ordered(w) && Abs(w) == AddFile(Abs(files), level, f)
      modifies `imm, `files, `versions, `disk
      ensures Shape() && St() == Flushed(old(St()), f, level)
    {
      files, versions, imm := w, FlushCounters(), None;
      disk := disk.(tables := disk.tables + {f.number});
    }

    /** LogAndApply: a manifest record, then the new version becomes current. */
    method LogAndApply(w: FileLists, next: nat, tables: set<nat>)
      requires Rep(w) && Ordered(w) && Shape()
      modifies `files, `versions, `disk
      ensures Shape() && versions.nextFile == next && files == w
      ensures St() == Manifest(old(St()).(nextFile := next), Abs(w)).(tables := old(disk.tables) + tables)
    {
      files := w;
      versions := versions.(nextFile := next, manifestSequence := versions.lastSequence, manifestNextFile := next);
      disk := disk.(tables := disk.tables + tables);
    }

    /** The trivial move: one file goes down a level as it is. */
    method MoveFile(L: nat, f: File, ghost lo: UserKey, ghost hi: UserKey)
      requires Valid() && L + 1 < LEVELS && f in files[L] && Chosen(Abs(files), L, {f}, {}, lo, hi)
      modifies `files, `versions, `disk
      ensures Valid() && TrivialMove(old(St()), St(), L, f, lo, hi) && KeepsReads(old(St()), St())
      ensures Changed(old(files), files, L, {f}, {}, {f})
    {
      ghost var s := St();
      var w := MovedLists(files, L, f, lo, hi);
      ReplaceChanged(files, w, L, {f}, {}, {f});
      LogAndApply(w, versions.nextFile, {});
      assert TrivialMove(s, St(), L, f, lo, hi);
      TrivialMoveKeeps(s, St(), L, f, lo, hi);
    }

    /** DoCompactionWork on the chosen inputs, then InstallCompactionResults. */
    method RunCompaction(L: nat, in0: seq<File>, in1: seq<File>, cuts: nat -> Job.Cut, ghost lo: UserKey,
                         ghost hi: UserKey)
      returns (ghost outs: set<File>)
      requires Valid() && L + 1 < LEVELS && Chosen(Abs(files), L, ToSet(in0), ToSet(in1), lo, hi)
      requires InOrder(files, L, in0, in1)
      modifies `files, `versions, `disk
      ensures Valid() && Compact(old(St()), St(), L, ToSet(in0), ToSet(in1), lo, hi, outs, versions.nextFile)
      ensures forall u :: Faithful(old(St()), u) ==>
                (Faithful(St(), u) <==> !Returns(old(St()), L, ToSet(in0), ToSet(in1), u))
      ensures Changed(old(files), files, L, ToSet(in0), ToSet(in1), outs)
      ensures Compacted(Abs(old(files)), L, Contents(ToSet(in0) + ToSet(in1)), Contents(outs),
                if snapshots == [] then versions.lastSequence else snapshots[0])
    {
      SoundFromInv(files, St());
      var snap := if snapshots == [] then versions.lastSequence else snapshots[0];
      var outputs, next, w := CompactedLists(files, versions.nextFile, L, in0, in1, snap, cuts, lo, hi);
      outs := ToSet(outputs);
      ReplaceChanged(files, w, L, ToSet(in0), ToSet(in1), outs);
      ghost var s := St();
      LogAndApply(w, next, set o | o in outputs :: o.number);
      CompactInstalled(s, St(), L, ToSet(in0), ToSet(in1), lo, hi, outputs, next);
    }

    /** BackgroundCompaction from PickCompaction's seed file files[L][i]. */
    method BackgroundCompaction(L: nat, i: nat, cuts: nat -> Job.Cut)
      returns (moved: bool, ghost in0: set<File>, ghost in1: set<File>, ghost lo: UserKey, ghost hi: UserKey,
        ghost outs: set<File>)
      requires Valid() && L + 1 < LEVELS && i < |files[L]|
      modifies `files, `versions, `disk
      ensures old(files[L][i]) in in0
      ensures moved ==> in1 == {} && FewGrandparents(old(files), L, old(files[L][i]), 10 * targetFileSize)
      ensures Changed(old(files), files, L, in0, in1, if moved then in0 else outs)
      ensures !moved ==> Compacted(Abs(old(files)), L, Contents(in0 + in1), Contents(outs),
                           if snapshots == [] then versions.lastSequence else snapshots[0])
      ensures if moved then in0 == {old(files[L][i])} && TrivialMove(old(St()), St(), L, old(files[L][i]), lo, hi)
              else Compact(old(St()), St(), L, in0, in1, lo, hi, outs, versions.nextFile)
      ensures Valid() && forall u :: Faithful(old(St()), u) ==>
                (Faithful(St(), u) <==> moved || !Returns(old(St()), L, in0, in1, u))
    {
      SoundFromInv(files, St());
      var inputs0, inputs1;
      moved, inputs0, inputs1, lo, hi := PickOrMove(files, L, i, targetFileSize);
      in0, in1, outs := ToSet(inputs0), ToSet(inputs1), {};
      if moved {
        MoveFile(L, inputs0[0], lo, hi);
      } else {
        outs := RunCompaction(L, inputs0, inputs1, cuts, lo, hi);
      }
    }

    /** A manual compaction of what CompactRange selects; never a trivial move. */
    method ManualCompaction(L: nat, begin: Bound, end: Bound, cuts: nat -> Job.Cut)
      returns (done: bool, ghost in0: set<File>, ghost in1: set<File>, ghost lo: UserKey, ghost hi: UserKey,
        ghost outs: set<File>)
      requires Valid() && L + 1 < LEVELS
      modifies `files, `versions, `disk
      ensures done <==> forall f :: f in old(files[L]) ==> !Meets(f, begin, end)
      ensures !done ==> Changed(old(files), files, L, in0, in1, outs)
      ensures !done ==> Compacted(Abs(old(files)), L, Contents(in0 + in1), Contents(outs),
                          if snapshots == [] then versions.lastSequence else snapshots[0])
      ensures if done then St() == old(St())
              else Compact(old(St()), St(), L, in0, in1, lo, hi, outs, versions.nextFile)
      ensures Valid() && forall u :: Faithful(old(St()), u) ==>
                (Faithful(St(), u) <==> done || !Returns(old(St()), L, in0, in1, u))
    {
      SoundFromInv(files, St());
      var some, inputs0, inputs1;
      some, inputs0, inputs1, lo, hi := CompactRange(files, L, begin, end, targetFileSize);
      done := !some;
      in0, in1, outs := ToSet(inputs0), ToSet(inputs1), {};
      if some {
        outs := RunCompaction(L, inputs0, inputs1, cuts, lo, hi);
      }
    }

    /** DeleteObsoleteFiles. */
    method DeleteObsoleteFiles()
      requires Valid()
      modifies `disk
      ensures Valid() && DeleteObsolete(old(St()), St())
      ensures forall n :: n in disk.tables <==>
                n in old(disk.tables) && ((exists l, f :: 0 <= l < LEVELS && f in files[l] && f.number == n)
                                          || exists i :: 0 <= i < |pins| && n in pins[i])
      ensures forall log :: log in disk.logs <==> log in old(disk.logs) && log.number >= versions.logNumber
    {
      LiveMeans(files, pins);
      KeepLogsMembers(disk.logs, versions.logNumber);
      CollectedKeeps(St(), files);
      KeepFiles(LiveTables(files, pins));
    }

    method KeepFiles(live: set<nat>)
      requires Shape()
      modifies `disk
      ensures Shape() && St() == Collected(old(St()), live)
      ensures disk == Disk(KeepLogs(old(disk).logs, versions.logNumber), set n | n in old(disk).tables && n in live)
    {
      disk := Disk(KeepLogs(disk.logs, versions.logNumber), set n | n in disk.tables && n in live);
    }

    // ---------- crash and recovery ----------

    /** A crash, then DBImpl::Recover and the end of DB::Open: what was in memory
        is gone, and the store comes back from the manifest and the logs. */
    method Recover(full: seq<Entry> -> bool, size: nat -> nat)
      returns (ghost chunks: seq<seq<Entry>>, ghost tables: seq<File>)
      requires Valid()
      modifies this
      ensures Valid() && Store.Recover(old(St()), St(), chunks, tables)
      ensures mem == [] && imm == None && snapshots == [] && pins == [] && pending == []
      ensures InFiles(Abs(files)) == All(old(St())) + EntrySet(old(pending))
    {
      ghost var s := St();
      var p;
      p, chunks := RecoverLogFiles(disk.logs, versions.logNumber, versions.manifestNextFile, full, size);
      tables := p.tables;
      RecoveredGood(s, p, chunks);
      var w := AddRecovered(files, p.tables, versions.manifestNextFile);
      Reopen(w, p);
      Recovered(s, St(), p, chunks);
    }

    method Reopen(w: FileLists, p: Progress)
      requires Rep(w) && Ordered(w)
      modifies this
      ensures Shape() && St() == Reopened(old(St()), Abs(w), p)
      ensures files == w && mem == [] && imm == None && snapshots == [] && pins == [] && pending == []
    {
      written := written + EntrySet(pending);
      files, mem, imm, snapshots, pins, pending := w, [], None, [], [], [];
      versions, disk := OpenCounters(versions, p), OpenDisk(disk, p);
    }

    // ---------- reads ----------

    /** DBImpl::NewIterator: over the memtables and the current version, which it keeps
        alive.  Its rows are exactly the keys and values that Get finds. */
    method NewIterator(snapshot: Option<nat>) returns (iter: DBIter)
      requires Valid()
      modifies `pins
      ensures Valid() && Pin(old(St()), St())
      ensures |pins| == |old(pins)| + 1 && pins[..|old(pins)|] == old(pins)
      ensures forall n :: n in pins[|old(pins)|] <==> exists l, f :: 0 <= l < LEVELS && f in files[l] && f.number == n
      ensures iter.Good() && fresh(iter)
                && iter.sequence == if snapshot.Some? then snapshot.value else versions.lastSequence
      ensures IsView(iter.iter.merged, iter.sequence, St())
    {
      ghost var s := St();
      SoundFromInv(files, s);
      LiveMeans(files, []);
      pins := pins + [FileNumbers(files)];
      NumbersOfFiles(files);
      assert Pin(s, St());
      PinKeeps(s, St());
      iter := NewDBIterator(mem, imm, files, if snapshot.Some? then snapshot.value else versions.lastSequence, St());
    }

    /** CleanupIteratorState: the iterator's version is let go. */
    method CleanupIterator(i: nat)
      requires Valid() && i < |pins|
      modifies `pins
      ensures Valid() && Unpin(old(St()), St(), i)
      ensures pins == old(pins)[..i] + old(pins)[i + 1..]
    {
      ghost var s := St();
      pins := pins[..i] + pins[i + 1..];
      assert Unpin(s, St(), i);
      UnpinKeeps(s, St(), i);
    }

    /** DBImpl::Get: memtable, immutable memtable, then the current version; the
        answer is that of the newest visible entry of the whole store. */
    method Get(u: UserKey, snapshot: Option<nat>) returns (value: Option<Bytes>)
      requires Valid()
      ensures value == Lookup(All(St()), u, if snapshot.Some? then snapshot.value else versions.lastSequence)
    {
      SoundFromInv(files, St());
      var s := if snapshot.Some? then snapshot.value else versions.lastSequence;
      var r := GetLayers(mem, imm, files, u, s, St());
      value := if r.Found? then Some(r.value) else None;
    }
  }

  lemma LoggedKeeps(s: State, group: seq<Entry>)
    requires Inv(s) && s.pending == [] && s.lastSeq + |group| < MAX_SEQ
    requires forall i :: 0 <= i < |group| ==> group[i].k.sn == s.lastSeq + 1 + i
    ensures LogGroup(s, Logged(s, group), group) && Inv(Logged(s, group))
  {
    LogGroupKeeps(s, Logged(s, group), group);
  }

  lemma FlushedKeeps(s: State, f: File, level: nat)
    requires Inv(s) && s.imm.Some? && f.number == s.nextFile && ValidFile(f) && EntrySet(f.entries) == Imm(s)
    requires LevelFree(s.files, level, f)
    ensures Flush(s, Flushed(s, f, level), f, level) && Inv(Flushed(s, f, level))
  {
    FlushKeeps(s, Flushed(s, f, level), f, level);
  }

  lemma FlushMeans(s: State, t: State, f: File, level: nat)
    requires Flush(s, t, f, level)
    ensures t.imm == None && InFiles(t.files) == InFiles(s.files) + Imm(s)
  {
    AddFileContents(s.files, level, f);
  }

  /** What a move or a compaction does to the file lists. */
  ghost predicate Changed(v: FileLists, w: FileLists, L: nat, in0: set<File>, in1: set<File>, outs: set<File>) {
    |v| == |w| == LEVELS && forall l :: 0 <= l < LEVELS ==>
      ToSet(w[l]) == if l == L then ToSet(v[l]) - in0 else if l == L + 1 then ToSet(v[l]) - in1 + outs else ToSet(v[l])
  }

  lemma ReplaceChanged(v: FileLists, w: FileLists, L: nat, in0: set<File>, in1: set<File>, outs: set<File>)
    requires |v| == |w| == LEVELS && L + 1 < LEVELS && Abs(w) == Replace(Abs(v), L, in0, in1, outs)
    ensures Changed(v, w, L, in0, in1, outs)
  {
    forall l | 0 <= l < LEVELS ensures ToSet(w[l]) == Replace(Abs(v), L, in0, in1, outs)[l] {
      assert Abs(w)[l] == ToSet(w[l]) && Abs(v)[l] == ToSet(v[l]);
    }
  }

  lemma RecoveredAll(s: State, t: State, chunks: seq<seq<Entry>>, tables: seq<File>)
    requires LogsOk(s) && Store.Recover(s, t, chunks, tables)
    ensures InFiles(t.files) == All(s) + EntrySet(s.pending)
  {
    RecoverAll(s, t, chunks, tables);
    assert Upper(t) == {};
  }

  /** The state with only the files of these numbers, and the logs still needed, on disk. */
  function Collected(s: State, live: set<nat>): State {
    s.(tables := (set n | n in s.tables && n in live), logs := KeepLogs(s.logs, s.logNumber))
  }

  lemma CollectedKeeps(s: State, v: FileLists)
    requires Inv(s) && s.files == Abs(v)
    ensures var t := Collected(s, LiveTables(v, s.pins)); DeleteObsolete(s, t) && Inv(t)
  {
    var t := Collected(s, LiveTables(v, s.pins));
    LiveNumbers(v, s);
    assert DeleteObsolete(s, t);
    DeleteObsoleteKeeps(s, t);
  }

  /** DB::Open after recovery: a new log, and one manifest record. */
  function OpenCounters(v: Counters, p: Progress): Counters {
    var last := Max(v.manifestSequence, p.maxSequence);
    Counters(last, p.next + 1, p.next, last, p.next + 1)
  }

  function OpenDisk(d: Disk, p: Progress): Disk {
    Disk(d.logs + [Log(p.next, [])], d.tables + set f | f in p.tables :: f.number)
  }

  /** The state DB::Open leaves: one new log, and one manifest record. */
  ghost function Reopened(s: State, files: Files, p: Progress): State {
    var last := Max(s.manifestSeq, p.maxSequence);
    State({}, None, files, last, [], p.next + 1, s.logs + [Log(p.next, [])], p.next, last, p.next + 1,
          [], [], s.tables + (set f | f in p.tables :: f.number), s.written + EntrySet(s.pending))
  }

  lemma Recovered(s: State, t: State, p: Progress, chunks: seq<seq<Entry>>)
    requires Inv(s) && At(p, s.manifestNext, chunks, [], Replay(s.logs, s.logNumber))
    requires forall i :: 0 <= i < |s.logs| && s.logs[i].number >= s.logNumber ==> s.logs[i].number < p.next
    requires t == Reopened(s, AddTables(s.files, p.tables), p)
    ensures Store.Recover(s, t, chunks, p.tables) && Inv(t) && InFiles(t.files) == All(s) + EntrySet(s.pending)
  {
    assert Flatten(chunks) + [] == Flatten(chunks);
    assert Store.Recover(s, t, chunks, p.tables);
    RecoverKeeps(s, t, chunks, p.tables);
    RecoveredAll(s, t, chunks, p.tables);
  }

  lemma RecoveredGood(s: State, p: Progress, chunks: seq<seq<Entry>>)
    requires FilesOk(s) && HistoryOk(s) && LogsOk(s) && At(p, s.manifestNext, chunks, [], Replay(s.logs, s.logNumber))
    ensures Flatten(chunks) == Replay(s.logs, s.logNumber) && Good(AddTables(s.files, p.tables))
  {
    assert Flatten(chunks) + [] == Flatten(chunks);
    RecoverNewer(s);
    RecoverGood(s.files, chunks, p.tables, s.manifestNext, Upper(s) + EntrySet(s.pending));
  }

  /** The edit of a recovery: every recovered table at level 0. */
  method AddRecovered(v: FileLists, tables: seq<File>, first: nat) returns (w: FileLists)
    requires Rep(v) && Ordered(v) && AllNumbersBelow(Abs(v), first) && Good(AddTables(Abs(v), tables))
    requires forall i :: 0 <= i < |tables| ==> first <= tables[i].number
    requires forall i, j :: 0 <= i < j < |tables| ==> tables[i].number < tables[j].number
    ensures Rep(w) && Ordered(w) && Abs(w) == AddTables(Abs(v), tables)
  {
    var e := Edit({}, seq(|tables|, i requires 0 <= i < |tables| => (0, tables[i])));
    FreshEdit(v, e, first);
    forall l | 0 <= l < LEVELS
      ensures ApplyEach(ToSet(v[l]), [e], l) == AddTables(Abs(v), tables)[l]
    {
      OneEdit(ToSet(v[l]), e, l);
      forall f | f in tables ensures f in AddedAt(e, 0) {
        var i :| 0 <= i < |tables| && tables[i] == f;
        assert e.added[i] == (0, f);
      }
    }
    w := ApplyEdit(v, e);
    OrderedRep(w, AddTables(Abs(v), tables));
  }

  /** The compaction brings a deleted value of u back. */
  ghost predicate Returns(s: State, L: nat, in0: set<File>, in1: set<File>, u: UserKey)
    requires |s.files| == LEVELS && L + 1 < LEVELS
  {
    Resurrects(Upper(s), s.files, L, in0, in1, OldestSnapshot(s), u)
  }

  lemma CompactInstalled(s: State, t: State, L: nat, in0: set<File>, in1: set<File>, lo: UserKey, hi: UserKey,
                         outs: seq<File>, next: nat)
    requires Inv(s) && L + 1 < LEVELS && Chosen(s.files, L, in0, in1, lo, hi)
    requires Outputs(s.files, ToSet(outs), Kept(s.files, L, Contents(in0 + in1), OldestSnapshot(s)))
    requires s.nextFile <= next && forall o :: o in ToSet(outs) ==> s.nextFile <= o.number < next
    requires t == Manifest(s.(nextFile := next), Replace(s.files, L, in0, in1, ToSet(outs)))
                    .(tables := s.tables + set o | o in outs :: o.number)
    ensures Compact(s, t, L, in0, in1, lo, hi, ToSet(outs), next)
    ensures Inv(t) && forall u :: Faithful(s, u) ==> (Faithful(t, u) <==> !Returns(s, L, in0, in1, u))
  {
    assert (set o | o in outs :: o.number) == (set o | o in ToSet(outs) :: o.number);
    CompactKeeps(s, t, L, in0, in1, lo, hi, ToSet(outs), next);
  }

  lemma FreeLevel(v: FileLists, level: nat, f: File)
    requires Rep(v) && WellFormed(Abs(v)) && ValidFile(f) && level <= MAX_MEM_LEVEL
    requires level > 0 ==> forall l, g :: 0 <= l <= level && g in v[l] ==> !Overlaps(g, f.smallest.user, f.largest.user)
    ensures LevelFree(Abs(v), level, f)
  {
    assert forall l, g :: 0 <= l <= level && g in Abs(v)[l] ==> g in v[l];
  }

  /** A flushed memtable keeps the version good. */
  lemma FlushedGood(s: State, f: File, level: nat)
    requires FilesOk(s) && s.imm.Some? && ValidFile(f) && EntrySet(f.entries) == Imm(s)
    requires s.nextFile <= f.number && LevelFree(s.files, level, f)
    ensures Good(AddFile(s.files, level, f))
  {
    forall l, g | 0 <= l < LEVELS && g in s.files[l] ensures NewerFile(f, g) {
      assert NewerSet(Upper(s), g);
      assert forall e :: e in f.entries ==> e in Imm(s);
    }
    AddFileGood(s.files, level, f);
  }

  /** An edit that only adds numbers the version has not reached yet. */
  lemma FreshEdit(v: FileLists, e: Edit, n: nat)
    requires |v| == LEVELS && AllNumbersBelow(Abs(v), n) && forall a :: a in e.added ==> a.1.number >= n
    ensures forall l :: 0 <= l < LEVELS ==> Numbered(AddedAt(e, l)) !! Numbered(ToSet(v[l]))
  {
    forall l, f | 0 <= l < LEVELS && f in AddedAt(e, l) ensures f.number >= n {
      var i :| 0 <= i < |e.added| && e.added[i].0 == l && e.added[i].1 == f;
      assert e.added[i] in e.added;
    }
    forall l, g | 0 <= l < LEVELS && g in ToSet(v[l]) ensures g.number < n {
      assert g in Abs(v)[l];
    }
  }

  /** WriteLevel0Table's choice of level, and the version that results. */
  method AddTable(v: FileLists, ghost s: State, f: File, targetFileSize: nat) returns (w: FileLists, level: nat)
    requires Rep(v) && Ordered(v) && Abs(v) == s.files && FilesOk(s) && HistoryOk(s)
    requires s.imm.Some? && ValidFile(f) && EntrySet(f.entries) == Imm(s) && s.nextFile <= f.number
    ensures Rep(w) && Ordered(w) && LevelFree(Abs(v), level, f) && Abs(w) == AddFile(Abs(v), level, f)
  {
    SoundFromInv(v, s);
    level := PickLevelForMemTableOutput(v, f.smallest.user, f.largest.user, targetFileSize);
    FreeLevel(v, level, f);
    FlushedGood(s, f, level);
    FreshEdit(v, FlushEdit(level, f), f.number);
    w := ApplyEdit(v, FlushEdit(level, f));
    FlushEditMeans(v, level, f);
    OrderedRep(w, AddFile(Abs(v), level, f));
  }

  /** AddLiveFiles: the tables of the current and of every pinned version. */
  function FileNumbers(v: FileLists): set<nat> {
    set l, f | 0 <= l < |v| && f in v[l] :: f.number
  }

  lemma NumbersOfFiles(v: FileLists)
    ensures FileNumbers(v) == Numbers(Abs(v))
  {
    var files := Abs(v);
    forall l, f | 0 <= l < |v| && f in v[l] ensures f in files[l] {
    }
    forall l, f | 0 <= l < |v| && f in files[l] ensures f in v[l] {
    }
  }

  /** The tables of this version, and of those still referred to. */
  lemma LiveMeans(v: FileLists, pins: seq<set<nat>>)
    ensures forall n :: n in LiveTables(v, pins) <==>
              (exists l, f :: 0 <= l < |v| && f in v[l] && f.number == n) || exists i :: 0 <= i < |pins| && n in pins[i]
    ensures pins == [] ==> LiveTables(v, pins) == FileNumbers(v)
  {
  }

  lemma {:induction false} KeepLogsMembers(logs: seq<Log>, from: nat)
    ensures forall log :: log in KeepLogs(logs, from) <==> log in logs && log.number >= from
  {
    if logs != [] {
      KeepLogsMembers(logs[..|logs| - 1], from);
      assert logs == logs[..|logs| - 1] + [logs[|logs| - 1]];
    }
  }

  function LiveTables(v: FileLists, pins: seq<set<nat>>): set<nat> {
    FileNumbers(v) + (set i, n | 0 <= i < |pins| && n in pins[i] :: n)
  }

  lemma LiveNumbers(v: FileLists, s: State)
    requires s.files == Abs(v)
    ensures forall n: nat :: n in LiveTables(v, s.pins) <==> Live(s, n)
  {
    forall n: nat ensures n in LiveTables(v, s.pins) <==> Live(s, n) {
      if n in Numbers(s.files) {
        var l, f :| 0 <= l < |v| && f in s.files[l] && f.number == n;
        assert f in v[l];
      }
      if l, f :| 0 <= l < |v| && f in v[l] && f.number == n {
        assert f in s.files[l];
      }
    }
  }

  /** The version after a trivial move. */
  method MovedLists(v: FileLists, L: nat, f: File, ghost lo: UserKey, ghost hi: UserKey) returns (w: FileLists)
    requires Rep(v) && Ordered(v) && Good(Abs(v)) && L + 1 < LEVELS && f in v[L]
    requires Chosen(Abs(v), L, {f}, {}, lo, hi)
    ensures Rep(w) && Ordered(w) && Abs(w) == Replace(Abs(v), L, {f}, {}, {f})
  {
    var e := CompactionEdit(L, [f], [], [f]);
    forall g | g in v[L + 1] ensures !SameNumber(g, f) {
      assert f in Abs(v)[L] && g in Abs(v)[L + 1];
    }
    assert ToSet([f]) == {f} && ToSet([]) == {};
    forall l | 0 <= l < LEVELS ensures ApplyEach(ToSet(v[l]), [e], l) == Replace(Abs(v), L, {f}, {}, {f})[l] {
      CompactionEditMeans(v, L, [f], [], [f], l);
    }
    forall l | 0 <= l < LEVELS ensures Numbered(AddedAt(e, l)) !! Numbered(ToSet(v[l])) {
      CompactionAdds(L, [f], [], [f], l);
      assert forall g :: g in v[L + 1] && g.number == f.number ==> SameNumber(g, f);
    }
    MoveGood(Abs(v), L, f, lo, hi);
    w := ApplyEdit(v, e);
    OrderedRep(w, Replace(Abs(v), L, {f}, {}, {f}));
  }

  /** InstallCompactionResults: the edit that replaces the inputs by the outputs. */
  method InstallOutputs(v: FileLists, L: nat, in0: seq<File>, in1: seq<File>, outs: seq<File>, ghost first: nat,
                        ghost next: nat,
                        ghost lo: UserKey, ghost hi: UserKey, ghost kept: set<Entry>)
    returns (w: FileLists)
    requires Rep(v) && Ordered(v) && Good(Abs(v)) && AllNumbersBelow(Abs(v), first)
    requires L + 1 < LEVELS && Chosen(Abs(v), L, ToSet(in0), ToSet(in1), lo, hi)
    requires Job.Finished(outs, first, next) && Outputs(Abs(v), ToSet(outs), kept)
    requires kept <= Contents(ToSet(in0) + ToSet(in1))
    ensures Rep(w) && Ordered(w) && Abs(w) == Replace(Abs(v), L, ToSet(in0), ToSet(in1), ToSet(outs))
  {
    var e := CompactionEdit(L, in0, in1, outs);
    forall a | a in e.added ensures a.1.number >= first && a.1 in outs && a.0 == L + 1 {
      var i :| 0 <= i < |e.added| && e.added[i] == a;
    }
    FreshEdit(v, e, first);
    forall f | f in in0 ensures f in v[L] { assert f in ToSet(in0); }
    forall f | f in in1 ensures f in v[L + 1] { assert f in ToSet(in1); }
    forall o, f | o in outs && f in v[L + 1] ensures !SameNumber(f, o) {
      assert o in ToSet(outs) && f in Abs(v)[L + 1];
    }
    forall l | 0 <= l < LEVELS
      ensures ApplyEach(ToSet(v[l]), [e], l) == Replace(Abs(v), L, ToSet(in0), ToSet(in1), ToSet(outs))[l]
    {
      CompactionEditMeans(v, L, in0, in1, outs, l);
    }
    assert EditOk(e);
    w := ApplyEdit(v, e);
    ReplaceGood(Abs(v), L, ToSet(in0), ToSet(in1), lo, hi, ToSet(outs), kept);
    OrderedRep(w, Replace(Abs(v), L, ToSet(in0), ToSet(in1), ToSet(outs)));
  }

  /** The outputs of a compaction and the version that results. */
  method CompactedLists(v: FileLists, first: nat, L: nat, in0: seq<File>, in1: seq<File>, snap: nat,
                        cuts: nat -> Job.Cut,
                        ghost lo: UserKey, ghost hi: UserKey)
    returns (outs: seq<File>, next: nat, w: FileLists)
    requires Sound(v) && Ordered(v) && AllNumbersBelow(Abs(v), first) && snap < MAX_SEQ
    requires L + 1 < LEVELS && Chosen(Abs(v), L, ToSet(in0), ToSet(in1), lo, hi) && InOrder(v, L, in0, in1)
    ensures first <= next && forall o :: o in ToSet(outs) ==> first <= o.number < next
    ensures Outputs(Abs(v), ToSet(outs), Kept(Abs(v), L, Contents(ToSet(in0) + ToSet(in1)), snap))
    ensures Compacted(Abs(v), L, Contents(ToSet(in0) + ToSet(in1)), Contents(ToSet(outs)), snap)
    ensures Rep(w) && Ordered(w) && Abs(w) == Replace(Abs(v), L, ToSet(in0), ToSet(in1), ToSet(outs))
  {
    InputsReady(v, L, in0, in1, lo, hi);
    var input := MergeInputs(L, in0, in1);
    var state := new Job.CompactionState(first);
    var job := new Job.Compaction(v, L);
    job.DoCompactionWork(input, snap, seq(|input|, cuts), state);
    outs, next := state.outputs, state.next;
    w := InstallOutputs(v, L, in0, in1, outs, first, next, lo, hi, Kept(Abs(v), L, EntrySet(input), snap));
  }

  /** The memtables' part of Get: the first one that has an entry answers. */
  method GetFromMems(mem: seq<Entry>, imm: Option<seq<Entry>>, u: UserKey, s: nat) returns (r: Outcome)
    requires SortedEntries(mem) && (imm.Some? ==> SortedEntries(imm.value))
    ensures Tells(EntrySet(mem), u, s, r)
         || (imm.Some? && Tells(EntrySet(mem) + EntrySet(imm.value), u, s, r))
    ensures r == NotFound ==> Tells(EntrySet(mem) + if imm.Some? then EntrySet(imm.value) else {}, u, s, r)
  {
    r := GetFrom(mem, u, s);
    GetFromTells(mem, u, s);
    if r == NotFound && imm.Some? {
      r := GetFrom(imm.value, u, s);
      GetFromTells(imm.value, u, s);
    }
  }

  /** Get from the layers of the store t, newest first. */
  method GetLayers(mem: seq<Entry>, imm: Option<seq<Entry>>, files: FileLists, u: UserKey, s: nat, ghost t: State)
    returns (r: Outcome)
    requires SortedEntries(mem) && (imm.Some? ==> SortedEntries(imm.value)) && Sound(files)
    requires t.mem == EntrySet(mem) && t.imm == (if imm.Some? then Some(EntrySet(imm.value)) else None)
    requires t.files == Abs(files) && FilesOk(t) && HistoryOk(t)
    ensures Lookup(All(t), u, s) == if r.Found? then Some(r.value) else None
  {
    r := GetFromMems(mem, imm, u, s);
    if r == NotFound {
      r := VersionGet(files, u, s);
      NewestOfLayers(t, Upper(t) + InFiles(t.files), u, s, r);
    } else if Tells(EntrySet(mem), u, s, r) {
      NewestOfLayers(t, t.mem, u, s, r);
    } else {
      NewestOfLayers(t, Upper(t), u, s, r);
    }
  }

  /** What the first layer with an answer says is what the whole store says. */
  lemma NewestOfLayers(t: State, here: set<Entry>, u: UserKey, s: nat, r: Outcome)
    requires FilesOk(t) && HistoryOk(t) && Tells(here, u, s, r)
    requires here == t.mem || here == Upper(t) || here == All(t)
    requires r == NotFound ==> here == All(t)
    ensures Lookup(All(t), u, s) == if r.Found? then Some(r.value) else None
  {
    if r != NotFound {
      var e :| IsNewest(here, u, s, e) && r == OutcomeOf(e);
      forall d | d in All(t) && Sees(d, u, s)
        ensures d.k.sn <= e.k.sn
      {
        if d in InFiles(t.files) && d !in here {
          var l, f :| 0 <= l < LEVELS && f in t.files[l] && d in f.entries;
          assert NewerSet(Upper(t), f);
        }
      }
      assert IsNewest(All(t), u, s, e);
      LookupIs(All(t), u, s, e);
    }
  }
}
