/** RecoverLogFile and the log loop of DBImpl::Recover: the live logs, replayed in
    order into memtables that become level-0 tables (db_impl.cc). */
module Recovery {
  import opened Sequences
  import opened Keys
  import opened Reads
  import opened Levels
  import opened Drops
  import opened Store
  import opened StoreLogs
  import opened StoreRecover
  import opened Db
  import Job = CompactionJob

  /** Tables written from `first` on, each holding one piece of the replay. */
  ghost predicate Written(tables: seq<File>, chunks: seq<seq<Entry>>, first: nat, next: nat) {
    TablesOf(chunks, tables, first) && first <= next && forall i :: 0 <= i < |tables| ==> tables[i].number < next
  }

  lemma {:induction false} ReplayPrefix(logs: seq<Log>, from: nat, i: nat)
    requires i <= |logs| && Rising(Replay(logs, from))
    ensures Rising(Replay(logs[..i], from))
    decreases |logs|
  {
    if i < |logs| {
      var n := |logs| - 1;
      RisingParts(Replay(logs[..n], from), if logs[n].number >= from then Flatten(logs[n].batches) else []);
      ReplayPrefix(logs[..n], from, i);
      assert logs[..n][..i] == logs[..i];
    } else {
      assert logs[..i] == logs;
    }
  }

  lemma {:induction false} MaxSeqConcat(a: seq<Entry>, b: seq<Entry>)
    ensures MaxSeq(a + b) == Max(MaxSeq(a), MaxSeq(b))
  {
    if b == [] {
      assert a + b == a;
    } else {
      var n := |b| - 1;
      assert (a + b)[..|a| + n] == a + b[..n];
      MaxSeqConcat(a, b[..n]);
    }
  }

  lemma MaxSeqLast(b: seq<Entry>)
    requires Rising(b) && b != []
    ensures MaxSeq(b) == b[|b| - 1].k.sn
  {
    MaxSeqBounds(b);
  }

  lemma InsertReady(mem: seq<Entry>, held: seq<Entry>, batch: seq<Entry>)
    requires Rising(held + batch) && EntrySet(mem) == EntrySet(held)
    ensures Distinct(EntrySet(mem) + EntrySet(batch))
    ensures forall i :: 0 <= i < |batch| ==> batch[i] !in mem && batch[i] !in batch[..i]
  {
    var all := held + batch;
    assert forall d :: d in mem <==> d in EntrySet(held);
    forall i | 0 <= i < |batch| ensures batch[i] !in mem && batch[i] !in batch[..i] {
      assert batch[i] == all[|held| + i];
      assert forall j :: 0 <= j < |held| ==> held[j] == all[j];
      assert forall j :: 0 <= j < i ==> batch[j] == all[|held| + j];
    }
    assert forall i, j :: 0 <= i < |all| && 0 <= j < |all| && all[i].k.sn == all[j].k.sn ==> i == j;
    assert EntrySet(all) == EntrySet(mem) + EntrySet(batch);
  }

  /** How far recovery has come: the tables written, the next file number, the
      largest sequence number seen, and the memtable being filled, if any. */
  datatype Progress = Progress(tables: seq<File>, next: nat, maxSequence: nat, mem: Option<seq<Entry>>)

  /** The entries `done` have been replayed: `chunks` are in tables and the rest,
      `held`, is in the memtable. */
  ghost predicate At(p: Progress, first: nat, chunks: seq<seq<Entry>>, held: seq<Entry>, done: seq<Entry>) {
    && Written(p.tables, chunks, first, p.next)
    && Flatten(chunks) + held == done && p.maxSequence == MaxSeq(done)
    && (if p.mem.Some? then SortedEntries(p.mem.value) && EntrySet(p.mem.value) == EntrySet(held) else held == [])
  }

  lemma MoreWritten(p: Progress, f: File, first: nat, chunks: seq<seq<Entry>>, held: seq<Entry>, done: seq<Entry>)
    requires At(p, first, chunks, held, done) && ValidFile(f) && f.number == p.next
    requires EntrySet(f.entries) == EntrySet(held)
    ensures At(Progress(p.tables + [f], p.next + 1, p.maxSequence, None), first, chunks + [held], [], done)
  {
    FlattenSnoc(chunks, held);
    assert done + [] == done;
  }

  /** WriteLevel0Table with no base version; an empty memtable makes no table,
      but uses up a file number. */
  method WriteLevel0Table(p: Progress, size: nat -> nat, ghost first: nat, ghost chunks: seq<seq<Entry>>,
                          ghost held: seq<Entry>,
                          ghost done: seq<Entry>)
    returns (q: Progress, ghost chunks': seq<seq<Entry>>)
    requires At(p, first, chunks, held, done) && p.mem.Some?
    ensures At(q, first, chunks', [], done) && q.mem == None && p.next <= q.next
  {
    if p.mem.value != [] {
      var f := Job.FinishTable(p.next, size(p.next), p.mem.value);
      MoreWritten(p, f, first, chunks, held, done);
      q, chunks' := Progress(p.tables + [f], p.next + 1, p.maxSequence, None), chunks + [held];
    } else {
      assert forall i :: 0 <= i < |held| ==> held[i] in EntrySet(held);
      q, chunks' := p.(next := p.next + 1, mem := None), chunks;
    }
  }

  /** One log record: into the memtable, which becomes a table when full. */
  method ReplayRecord(p: Progress, batch: seq<Entry>, full: seq<Entry> -> bool, size: nat -> nat,
                      ghost first: nat, ghost chunks: seq<seq<Entry>>, ghost held: seq<Entry>, ghost done: seq<Entry>)
    returns (q: Progress, ghost chunks': seq<seq<Entry>>, ghost held': seq<Entry>)
    requires At(p, first, chunks, held, done) && Rising(done + batch)
    ensures At(q, first, chunks', held', done + batch) && p.next <= q.next
  {
    var mem := if p.mem.Some? then p.mem.value else [];
    BatchReady(Flatten(chunks), held, batch, mem);
    mem := InsertBatch(mem, batch);
    var last := p.maxSequence;
    if batch != [] {
      last := Max(last, batch[|batch| - 1].k.sn);
    }
    q, chunks', held' := p.(maxSequence := last, mem := Some(mem)), chunks, held + batch;
    RecordDone(p, q, batch, first, chunks, held, done);
    if full(mem) {
      q, chunks' := WriteLevel0Table(q, size, first, chunks, held', done + batch);
      held' := [];
    }
  }

  lemma BatchReady(flat: seq<Entry>, held: seq<Entry>, batch: seq<Entry>, mem: seq<Entry>)
    requires Rising(flat + held + batch) && EntrySet(mem) == EntrySet(held)
    ensures Distinct(EntrySet(mem) + EntrySet(batch))
    ensures forall i :: 0 <= i < |batch| ==> batch[i] !in mem && batch[i] !in batch[..i]
  {
    assert flat + held + batch == flat + (held + batch);
    RisingSuffix(flat, held + batch);
    InsertReady(mem, held, batch);
  }

  lemma RecordDone(p: Progress, q: Progress, batch: seq<Entry>, first: nat, chunks: seq<seq<Entry>>, held: seq<Entry>,
                   done: seq<Entry>)
    requires At(p, first, chunks, held, done) && Rising(done + batch)
    requires q.mem.Some? && SortedEntries(q.mem.value)
    requires EntrySet(q.mem.value) == EntrySet(held) + EntrySet(batch)
    requires q == Progress(p.tables, p.next,
               if batch != [] then Max(p.maxSequence, batch[|batch| - 1].k.sn) else p.maxSequence, q.mem)
    ensures At(q, first, chunks, held + batch, done + batch)
  {
    RisingSuffix(done, batch);
    MaxSeqAppend(done, batch);
    Associate(Flatten(chunks), held, batch);
    assert EntrySet(held + batch) == EntrySet(held) + EntrySet(batch);
  }

  lemma MaxSeqAppend(done: seq<Entry>, batch: seq<Entry>)
    requires Rising(batch)
    ensures MaxSeq(done + batch) == if batch != [] then Max(MaxSeq(done), batch[|batch| - 1].k.sn) else MaxSeq(done)
  {
    MaxSeqConcat(done, batch);
    if batch != [] {
      MaxSeqLast(batch);
    }
  }

  /** RecoverLogFile: `full` says when a memtable has outgrown the write buffer. */
  method RecoverLogFile(p: Progress, log: Log, full: seq<Entry> -> bool, size: nat -> nat,
                        ghost first: nat, ghost chunks: seq<seq<Entry>>, ghost done: seq<Entry>)
    returns (q: Progress, ghost chunks': seq<seq<Entry>>)
    requires At(p, first, chunks, [], done) && p.mem == None && Rising(done + Flatten(log.batches))
    ensures At(q, first, chunks', [], done + Flatten(log.batches)) && q.mem == None && p.next <= q.next
  {
    q, chunks' := p, chunks;
    ghost var held: seq<Entry> := [];
    assert done + Flatten(log.batches[..0]) == done;
    for i := 0 to |log.batches|
      invariant At(q, first, chunks', held, done + Flatten(log.batches[..i])) && p.next <= q.next
    {
      UpTo(done, log.batches, i);
      q, chunks',
        held := ReplayRecord(q, log.batches[i], full, size, first, chunks', held, done + Flatten(log.batches[..i]));
    }
    assert log.batches[..|log.batches|] == log.batches;
    if q.mem.Some? {
      q, chunks' := WriteLevel0Table(q, size, first, chunks', held, done + Flatten(log.batches));
    }
  }

  lemma {:induction false} UpTo(done: seq<Entry>, batches: seq<seq<Entry>>, i: nat)
    requires i < |batches| && Rising(done + Flatten(batches))
    ensures done + Flatten(batches[..i + 1]) == done + Flatten(batches[..i]) + batches[i]
    ensures Rising(done + Flatten(batches[..i + 1]))
    decreases |batches|
  {
    var n := |batches| - 1;
    assert batches[..i + 1][..i] == batches[..i];
    if i < n {
      assert done + Flatten(batches) == done + Flatten(batches[..n]) + batches[n];
      RisingParts(done + Flatten(batches[..n]), batches[n]);
      UpTo(done, batches[..n], i);
      assert batches[..n][..i + 1] == batches[..i + 1] && batches[..n][..i] == batches[..i];
    } else {
      assert batches[..i + 1] == batches;
    }
  }

  lemma ReplayNext(logs: seq<Log>, from: nat, i: nat)
    requires i < |logs| && Rising(Replay(logs, from))
    ensures Replay(logs[..i + 1], from)
              == Replay(logs[..i], from) + if logs[i].number >= from then Flatten(logs[i].batches) else []
    ensures Rising(Replay(logs[..i + 1], from))
  {
    assert logs[..i + 1][..i] == logs[..i];
    ReplayPrefix(logs, from, i + 1);
  }

  /** The log loop of DBImpl::Recover, from the manifest's counters. */
  method RecoverLogFiles(logs: seq<Log>, minLog: nat, manifestNext: nat, full: seq<Entry> -> bool, size: nat -> nat)
    returns (p: Progress, ghost chunks: seq<seq<Entry>>)
    requires Rising(Replay(logs, minLog))
    ensures At(p, manifestNext, chunks, [], Replay(logs, minLog))
    ensures forall i :: 0 <= i < |logs| && logs[i].number >= minLog ==> logs[i].number < p.next
  {
    p, chunks := Progress([], manifestNext + 1, 0, None), [];
    for i := 0 to |logs|
      invariant At(p, manifestNext, chunks, [], Replay(logs[..i], minLog)) && p.mem == None
      invariant forall j :: 0 <= j < i && logs[j].number >= minLog ==> logs[j].number < p.next
    {
      ReplayNext(logs, minLog, i);
      p, chunks := RecoverOne(p, logs[i], minLog, full, size, manifestNext, chunks, Replay(logs[..i], minLog));
    }
    assert logs[..|logs|] == logs;
  }

  /** One log: replayed if it is not older than minLog, and its number marked as used. */
  method RecoverOne(p: Progress, log: Log, minLog: nat, full: seq<Entry> -> bool, size: nat -> nat,
                    ghost first: nat, ghost chunks: seq<seq<Entry>>, ghost done: seq<Entry>)
    returns (q: Progress, ghost chunks': seq<seq<Entry>>)
    requires At(p, first, chunks, [], done) && p.mem == None
    requires Rising(done + if log.number >= minLog then Flatten(log.batches) else [])
    ensures At(q, first, chunks', [], done + if log.number >= minLog then Flatten(log.batches) else []) && q.mem == None
    ensures p.next <= q.next && (log.number >= minLog ==> log.number < q.next)
  {
    q, chunks' := p, chunks;
    if log.number >= minLog {
      q, chunks' := RecoverLogFile(p, log, full, size, first, chunks, done);
      if q.next <= log.number {
        q := q.(next := log.number + 1);
      }
    } else {
      assert done + [] == done;
    }
  }
}
