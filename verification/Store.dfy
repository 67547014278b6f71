/** The store as a state machine: memtables, table files, write-ahead logs, the
    manifest's durable numbers, snapshots, and crash recovery. */
module Store {
  import opened Keys
  import opened Reads
  import opened Levels
  import opened Drops

  /** A write-ahead log: its file number and the batches appended to it. */
  datatype Log = Log(number: nat, batches: seq<seq<Entry>>)

  /** `pending` is the write group that is in the log but not yet acknowledged;
      `pins` are the table numbers of versions readers still hold; `tables` are
      the table files on disk.  The history variable `written` holds every entry
      ever acknowledged, and no step reads it. */
  datatype State = State(
    mem: set<Entry>, imm: Option<set<Entry>>, files: Files,
    lastSeq: nat, snapshots: seq<nat>, nextFile: nat,
    logs: seq<Log>, logNumber: nat, manifestSeq: nat, manifestNext: nat,
    pending: seq<Entry>, pins: seq<set<nat>>, tables: set<nat>,
    written: set<Entry>)

  ghost function Imm(s: State): set<Entry> {
    if s.imm.Some? then s.imm.value else {}
  }

  ghost function Upper(s: State): set<Entry> {
    s.mem + Imm(s)
  }

  ghost function All(s: State): set<Entry> {
    Upper(s) + InFiles(s.files)
  }

  ghost function Numbers(files: Files): set<nat> {
    set l, f | 0 <= l < |files| && f in files[l] :: f.number
  }

  /** snapshots_.oldest(), or the last sequence when no snapshot is held. */
  function OldestSnapshot(s: State): nat {
    if s.snapshots == [] then s.lastSeq else s.snapshots[0]
  }

  // ---------- logs ----------

  function Flatten(batches: seq<seq<Entry>>): seq<Entry> {
    if batches == [] then [] else Flatten(batches[..|batches| - 1]) + batches[|batches| - 1]
  }

  /** What RecoverLogFile replays: logs numbered `from` and up, oldest first. */
  function Replay(logs: seq<Log>, from: nat): seq<Entry> {
    if logs == [] then []
    else
      var last := logs[|logs| - 1];
      Replay(logs[..|logs| - 1], from) + if last.number >= from then Flatten(last.batches) else []
  }

  ghost predicate LogsOrdered(logs: seq<Log>) {
    forall i, j :: 0 <= i < j < |logs| ==> logs[i].number < logs[j].number
  }

  /** Later in the log, later in sequence. */
  predicate Rising(es: seq<Entry>) {
    forall i, j :: 0 <= i < j < |es| ==> es[i].k.sn < es[j].k.sn
  }

  function CurrentLog(s: State): Log
    requires |s.logs| > 0
  {
    s.logs[|s.logs| - 1]
  }

  // ---------- invariant ----------

  /** Every file is older than the memtables, imm than mem; levels are good. */
  ghost predicate FilesOk(s: State) {
    && Good(s.files)
    && (forall l, f {:trigger NewerSet(Upper(s), f), f in s.files[l]} :: 0 <= l < LEVELS && f in s.files[l] ==>
      NewerSet(Upper(s), f))
    && (forall a, b :: a in s.mem && b in Imm(s) && a.k.user == b.k.user ==> a.k.sn > b.k.sn)
    && AllNumbersBelow(s.files, s.manifestNext) && s.manifestNext <= s.nextFile
  }

  /** What is stored was written; nothing written is newer than lastSeq; what the
      manifest's sequence number does not cover is still in a memtable. */
  ghost predicate HistoryOk(s: State) {
    && All(s) <= s.written && Distinct(s.written)
    && (forall e :: e in s.written ==> e.k.sn <= s.lastSeq)
    && (forall e :: e in s.written ==> e.k.sn <= s.manifestSeq || e in Upper(s))
    && s.manifestSeq <= s.lastSeq < MAX_SEQ
  }

  /** The last sequence number can be rebuilt: the manifest has it, or the entry
      that used it is still in a memtable, hence in a live log. */
  ghost predicate SeqOk(s: State) {
    s.lastSeq == s.manifestSeq || exists e :: e in Upper(s) && e.k.sn == s.lastSeq
  }

  ghost predicate SnapshotsOk(s: State) {
    && (forall i, j :: 0 <= i < j < |s.snapshots| ==> s.snapshots[i] <= s.snapshots[j])
    && (forall i :: 0 <= i < |s.snapshots| ==> s.snapshots[i] <= s.lastSeq)
  }

  /** The live logs hold exactly the memtables and the pending group, and the
      newest log exactly the active memtable and the pending group. */
  ghost predicate LogsOk(s: State) {
    && |s.logs| > 0 && LogsOrdered(s.logs)
    && s.logNumber <= CurrentLog(s).number < s.nextFile
    && Rising(Replay(s.logs, s.logNumber))
    && EntrySet(Replay(s.logs, s.logNumber)) == Upper(s) + EntrySet(s.pending)
    && EntrySet(Flatten(CurrentLog(s).batches)) == s.mem + EntrySet(s.pending)
    && (forall i :: 0 <= i < |s.pending| ==> s.pending[i].k.sn == s.lastSeq + 1 + i)
    && s.lastSeq + |s.pending| < MAX_SEQ
    && (s.pending != [] ==> LastLogged(s, s.pending))
  }

  /** The group is the newest log's last. */
  predicate LastLogged(s: State, group: seq<Entry>)
    requires |s.logs| > 0
  {
    var bs := CurrentLog(s).batches;
    bs != [] && bs[|bs| - 1] == group
  }

  /** No table a version needs has been deleted. */
  ghost predicate TablesOk(s: State) {
    && Numbers(s.files) <= s.tables
    && (forall i :: 0 <= i < |s.pins| ==> s.pins[i] <= s.tables)
  }

  ghost predicate Inv(s: State) {
    FilesOk(s) && HistoryOk(s) && SnapshotsOk(s) && LogsOk(s) && TablesOk(s) && SeqOk(s)
  }

  /** Reads of u at or above the oldest snapshot agree with the full history.  One
      step of the code does not keep this, so it is no part of the invariant. */
  ghost predicate Faithful(s: State, u: UserKey) {
    forall q :: q >= OldestSnapshot(s) ==> Lookup(All(s), u, q) == Lookup(s.written, u, q)
  }

  ghost predicate KeepsReads(s: State, t: State) {
    forall u {:trigger Faithful(t, u)} :: Faithful(s, u) ==> Faithful(t, u)
  }

  // ---------- steps ----------

  /** A fresh database: one empty log, no tables. */
  ghost predicate Init(s: State) {
    && s.mem == {} && s.imm == None && s.files == seq(LEVELS, _ => {})
    && s.lastSeq == 0 && s.snapshots == [] && s.pending == [] && s.pins == [] && s.tables == {} && s.written == {}
    && |s.logs| == 1 && s.logs[0].batches == []
    && s.manifestSeq == 0 && s.manifestNext <= s.nextFile
    && s.logNumber <= s.logs[0].number < s.nextFile
  }

  /** DBImpl::Write up to AddRecord: the leader logs one group of entries with
      consecutive sequence numbers. */
  ghost predicate LogGroup(s: State, t: State, group: seq<Entry>) {
    && s.pending == [] && |s.logs| > 0
    && (forall i :: 0 <= i < |group| ==> group[i].k.sn == s.lastSeq + 1 + i)
    && s.lastSeq + |group| < MAX_SEQ
    && t == Logged(s, group)
  }

  /** The record goes to the newest log. */
  function AppendBatch(logs: seq<Log>, group: seq<Entry>): seq<Log>
    requires |logs| > 0
  {
    var current := logs[|logs| - 1];
    logs[|logs| - 1 := current.(batches := current.batches + [group])]
  }

  function Logged(s: State, group: seq<Entry>): State
    requires |s.logs| > 0
  {
    s.(pending := group, logs := AppendBatch(s.logs, group))
  }

  /** InsertInto and SetLastSequence: the group becomes readable. */
  ghost predicate Publish(s: State, t: State) {
    t == s.(mem := s.mem + EntrySet(s.pending), lastSeq := s.lastSeq + |s.pending|,
            written := s.written + EntrySet(s.pending), pending := [])
  }

  /** A crash cuts the in-flight group's record off the log, wholly or in part. */
  ghost predicate Tear(s: State, t: State) {
    && s.pending != [] && |s.logs| > 0 && LastLogged(s, s.pending)
    && var log := CurrentLog(s);
       t == s.(pending := [], logs := s.logs[|s.logs| - 1 := log.(batches := log.batches[..|log.batches| - 1])])
  }

  /** MakeRoomForWrite: the memtable becomes immutable and a new log is opened. */
  ghost predicate Rotate(s: State, t: State) {
    && s.imm == None && s.pending == [] && |s.logs| > 0
    && t == s.(imm := Some(s.mem), mem := {}, logs := s.logs + [Log(s.nextFile, [])], nextFile := s.nextFile + 1)
  }

  /** LogAndApply: the manifest record makes the new files, the file counter and
      the last sequence durable. */
  function Manifest(s: State, files: Files): State {
    s.(files := files, manifestSeq := s.lastSeq, manifestNext := s.nextFile)
  }

  /** CompactMemTable: the immutable memtable becomes a table at a free level,
      and logs older than the current one are no longer needed. */
  ghost predicate Flush(s: State, t: State, f: File, level: nat) {
    && s.imm.Some? && |s.logs| > 0 && WellFormed(s.files)
    && f.number == s.nextFile && ValidFile(f) && EntrySet(f.entries) == Imm(s) && LevelFree(s.files, level, f)
    && t == Flushed(s, f, level)
  }

  function Flushed(s: State, f: File, level: nat): State
    requires |s.logs| > 0 && level < |s.files|
  {
    Manifest(s.(nextFile := s.nextFile + 1), AddFile(s.files, level, f))
      .(imm := None, logNumber := CurrentLog(s).number, tables := s.tables + {f.number})
  }

  /** CompactMemTable on an empty memtable writes no table. */
  ghost predicate FlushEmpty(s: State, t: State) {
    && s.imm == Some({}) && |s.logs| > 0
    && t == Manifest(s.(nextFile := s.nextFile + 1), s.files).(imm := None, logNumber := CurrentLog(s).number)
  }

  ghost predicate TakeSnapshot(s: State, t: State) {
    t == s.(snapshots := s.snapshots + [s.lastSeq])
  }

  ghost predicate ReleaseSnapshot(s: State, t: State, i: nat) {
    i < |s.snapshots| && t == s.(snapshots := s.snapshots[..i] + s.snapshots[i + 1..])
  }

  /** A reader takes, or drops, a reference to the current version. */
  ghost predicate Pin(s: State, t: State) {
    t == s.(pins := s.pins + [Numbers(s.files)])
  }

  ghost predicate Unpin(s: State, t: State, i: nat) {
    i < |s.pins| && t == s.(pins := s.pins[..i] + s.pins[i + 1..])
  }

  /** BackgroundCompaction's trivial move: one file, nothing to merge it with. */
  ghost predicate TrivialMove(s: State, t: State, L: nat, f: File, lo: UserKey, hi: UserKey) {
    && WellFormed(s.files) && Chosen(s.files, L, {f}, {}, lo, hi)
    && t == Manifest(s, Replace(s.files, L, {f}, {}, {f}))
  }

  /** DoCompactionWork and InstallCompactionResults. */
  ghost predicate Compact(s: State, t: State, L: nat, in0: set<File>, in1: set<File>, lo: UserKey, hi: UserKey,
                          outs: set<File>, next: nat) {
    && WellFormed(s.files) && Chosen(s.files, L, in0, in1, lo, hi)
    && Outputs(s.files, outs, Kept(s.files, L, Contents(in0 + in1), OldestSnapshot(s)))
    && (forall o :: o in outs ==> s.nextFile <= o.number < next) && s.nextFile <= next
    && t == Manifest(s.(nextFile := next), Replace(s.files, L, in0, in1, outs))
              .(tables := s.tables + (set o | o in outs :: o.number))
  }

  /** DeleteObsoleteFiles: keeps live tables, and logs from logNumber on. */
  ghost predicate Live(s: State, n: nat) {
    n in Numbers(s.files) || exists i :: 0 <= i < |s.pins| && n in s.pins[i]
  }

  function KeepLogs(logs: seq<Log>, from: nat): seq<Log> {
    if logs == [] then []
    else
      KeepLogs(logs[..|logs| - 1], from) + if logs[|logs| - 1].number >= from then [logs[|logs| - 1]] else []
  }

  ghost predicate DeleteObsolete(s: State, t: State) {
    t == s.(tables := (set n: nat | n in s.tables && Live(s, n)), logs := KeepLogs(s.logs, s.logNumber))
  }

  /** Crash, then VersionSet::Recover and DBImpl::Recover with reuse_logs off.
      The manifest gives the files; the live logs are replayed, cut into
      `chunks` by the write buffer limit, one level-0 table each; a new log is
      opened, and one manifest record makes all of it durable. */
  ghost predicate Recover(s: State, t: State, chunks: seq<seq<Entry>>, tables: seq<File>) {
    var replayed := Replay(s.logs, s.logNumber);
    && |s.files| == LEVELS && |s.logs| > 0
    && Flatten(chunks) == replayed && |tables| == |chunks|
    && (forall i :: 0 <= i < |tables| ==> ValidFile(tables[i]) && EntrySet(tables[i].entries) == EntrySet(chunks[i]))
    && (forall i :: 0 <= i < |tables| ==> s.manifestNext <= tables[i].number < t.nextFile)
    && (forall i, j :: 0 <= i < j < |tables| ==> tables[i].number < tables[j].number)
    && t.files == s.files[0 := s.files[0] + (set f | f in tables)]
    && t.lastSeq == Max(s.manifestSeq, MaxSeq(replayed)) == t.manifestSeq
    && t.mem == {} && t.imm == None && t.snapshots == [] && t.pending == [] && t.pins == []
    && |t.logs| == |s.logs| + 1 && t.logs[..|s.logs|] == s.logs && t.logs[|s.logs|].batches == []
    && CurrentLog(s).number < t.logs[|s.logs|].number == t.logNumber < t.nextFile
    && s.manifestNext <= t.nextFile == t.manifestNext
    && t.tables == s.tables + (set f | f in tables :: f.number)
    && t.written == s.written + EntrySet(s.pending)
  }

  function Max(a: nat, b: nat): nat {
    if a < b then b else a
  }

  /** The largest sequence number among replayed records. */
  function MaxSeq(es: seq<Entry>): nat {
    if es == [] then 0 else Max(MaxSeq(es[..|es| - 1]), es[|es| - 1].k.sn)
  }
}
