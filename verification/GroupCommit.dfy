/** DBImpl::Write: the queue of writers, the leader's group, and what each writer is
    told (db_impl.cc).  The methods are what writers do while they hold the mutex;
    an interleaving of writers is a sequence of their calls. */
module GroupCommit {
  import opened Sequences
  import opened Keys
  import opened WriteBatch

  /** A writer: its batch, None to force a compaction, and whether it asked for sync. */
  datatype Writer = Writer(batch: Option<seq<Update>>, sync: bool)

  /** What a writer is told. */
  datatype Status = Ok | NoRoom | LogFailed | SyncFailed

  /** A log record: the sequence number of its first update, and its updates. */
  datatype Record = Record(first: nat, updates: seq<Update>)

  function UpdatesOf(w: Writer): seq<Update> {
    if w.batch.Some? then w.batch.value else []
  }

  /** A writer that has been answered: what it was told, where in the memtable its
      updates begin, their first sequence number, and its log record. */
  datatype Answer = Answer(writer: Writer, status: Status, start: nat, first: nat, record: nat)

  /** The updates of the writers told Ok, in order. */
  function Told(told: seq<Answer>): seq<Update> {
    if told == [] then [] else
      var a := told[|told| - 1];
      Told(told[..|told| - 1]) + if a.status == Ok then UpdatesOf(a.writer) else []
  }

  function Combined(ws: seq<Writer>): seq<Update> {
    if ws == [] then [] else Combined(ws[..|ws| - 1]) + UpdatesOf(ws[|ws| - 1])
  }

  function Unstamp(ss: seq<Stamped>): (us: seq<Update>)
    ensures |us| == |ss| && forall i :: 0 <= i < |us| ==> us[i] == ss[i].update
  {
    seq(|ss|, i requires 0 <= i < |ss| => ss[i].update)
  }

  // ---------- building a group ----------

  const BIG: nat := 0x10_0000
  const SMALL: nat := 0x2_0000

  function MaxSize(first: nat): nat {
    if first <= SMALL then first + SMALL else BIG
  }

  /** The bytes of the batches of the first n writers, but for the leader's. */
  function Extra(ws: seq<Writer>, n: nat, size: seq<Update> -> nat): nat
    requires n <= |ws|
  {
    if n <= 1 then 0 else Extra(ws, n - 1, size) + if ws[n - 1].batch.Some? then size(ws[n - 1].batch.value) else 0
  }

  /** The first n may ride together: none asks for sync unless the leader does, and
      with each of them the group is not too big. */
  ghost predicate Admits(ws: seq<Writer>, n: nat, size: seq<Update> -> nat)
    requires 1 <= n <= |ws| && ws[0].batch.Some?
  {
    && (forall i :: 0 <= i < n ==> ws[i].sync ==> ws[0].sync)
    && forall i :: 1 <= i < n ==> Roomy(ws, i, size)
  }

  /** With writer i the group is not too big. */
  ghost predicate Roomy(ws: seq<Writer>, i: nat, size: seq<Update> -> nat)
    requires i < |ws| && ws[0].batch.Some?
  {
    var own := size(ws[0].batch.value);
    ws[i].batch.Some? ==> own + Extra(ws, i + 1, size) <= MaxSize(own)
  }

  /** A group of the first n waiting writers: they may ride together, and not one more may. */
  ghost predicate IsGroup(ws: seq<Writer>, n: nat, size: seq<Update> -> nat)
    requires ws != [] && ws[0].batch.Some?
  {
    && 1 <= n <= |ws| && Admits(ws, n, size)
    && (n < |ws| ==> (ws[n].sync && !ws[0].sync) || !Roomy(ws, n, size))
  }

  lemma CombinedMore(ws: seq<Writer>, n: nat)
    requires n < |ws|
    ensures Combined(ws[..n + 1]) == Combined(ws[..n]) + UpdatesOf(ws[n])
  {
    assert ws[..n + 1][..n] == ws[..n];
  }

  /** BuildBatchGroup: the number of writers it takes, and their updates together. */
  method BuildBatchGroup(ws: seq<Writer>, byteSize: seq<Update> -> nat) returns (n: nat, result: seq<Update>)
    requires ws != [] && ws[0].batch.Some?
    ensures IsGroup(ws, n, byteSize) && result == Combined(ws[..n])
  {
    var size := byteSize(ws[0].batch.value);
    ghost var own := size;
    var maxSize := if size <= SMALL then size + SMALL else BIG;
    result := ws[0].batch.value;
    n := 1;
    assert ws[..1] == [ws[0]] && ws[..1][..0] == [];
    while n < |ws|
      invariant 1 <= n <= |ws| && result == Combined(ws[..n]) && size == own + Extra(ws, n, byteSize)
      invariant Admits(ws, n, byteSize)
    {
      var w := ws[n];
      CombinedMore(ws, n);
      if w.sync && !ws[0].sync {
        break;
      }
      if w.batch.Some? {
        size := size + byteSize(w.batch.value);
        if size > maxSize {
          break;
        }
        result := result + w.batch.value;
      }
      n := n + 1;
    }
  }

  // ---------- the memtable and the log ----------

  ghost predicate RisingBy(mem: seq<Stamped>, last: nat) {
    && (forall i, j :: 0 <= i < j < |mem| ==> mem[i].sn < mem[j].sn)
    && forall i :: 0 <= i < |mem| ==> mem[i].sn <= last
  }

  /** A writer told Ok has its updates in the memtable, together, numbered from `first` on. */
  ghost predicate Placed(a: Answer, mem: seq<Stamped>, last: nat) {
    a.status == Ok ==>
      var us := UpdatesOf(a.writer);
      && a.start + |us| <= |mem| && a.first + |us| <= last + 1
      && forall k :: a.start <= k < a.start + |us| ==> mem[k] == Stamped(a.first + (k - a.start), us[k - a.start])
  }

  /** b was answered after a: its range of sequence numbers comes after a's. */
  ghost predicate Follows(a: Answer, b: Answer) {
    a.status == Ok && b.status == Ok ==>
      var n := |UpdatesOf(a.writer)|; a.start + n <= b.start && a.first + n <= b.first
  }

  ghost predicate AllPlaced(told: seq<Answer>, mem: seq<Stamped>, last: nat) {
    && (forall i {:trigger told[i]} :: 0 <= i < |told| ==> Placed(told[i], mem, last))
    && forall i, j {:trigger Follows(told[i], told[j])} :: 0 <= i < j < |told| ==> Follows(told[i], told[j])
  }

  /** The memtable holds the batches of the writers told Ok, each once, in queue order,
      under rising sequence numbers, and each where its answer says. */
  ghost predicate MemOk(told: seq<Answer>, mem: seq<Stamped>, last: nat) {
    Unstamp(mem) == Told(told) && RisingBy(mem, last) && AllPlaced(told, mem, last)
  }

  /** A writer told Ok that asked for sync: the log has been synced past its record. */
  ghost predicate Synced(a: Answer, synced: nat) {
    a.status == Ok && a.writer.sync && a.writer.batch.Some? ==> a.record < synced
  }

  ghost predicate LogOk(told: seq<Answer>, records: nat, synced: nat) {
    synced <= records && forall i {:trigger told[i]} :: 0 <= i < |told| ==> Synced(told[i], synced)
  }

  /** What replaying the log inserts. */
  function Replay(log: seq<Record>): seq<Stamped> {
    if log == [] then [] else
      var r := log[|log| - 1];
      Replay(log[..|log| - 1]) + Stamp(r.updates, r.first)
  }

  /** Replaying the log gives the memtable, but for a last record whose sync failed. */
  ghost predicate ReplayOk(log: seq<Record>, mem: seq<Stamped>, failed: bool) {
    if failed then log != [] && Replay(log[..|log| - 1]) == mem else Replay(log) == mem
  }

  // ---------- answering ----------

  /** The answers to a group's writers. */
  function Served(gs: seq<Writer>, st: Status, start: nat, first: nat, record: nat): (r: seq<Answer>)
    ensures |r| == |gs| && forall i :: 0 <= i < |r| ==>
              r[i].writer == gs[i] && r[i].status == st && r[i].record == record
  {
    if gs == [] then [] else
      var n := |gs| - 1;
      var before := |Combined(gs[..n])|;
      Served(gs[..n], st, start, first, record) + [Answer(gs[n], st, start + before, first + before, record)]
  }

  lemma PlacedOne(told: seq<Answer>, mem: seq<Stamped>, last: nat, a: Answer, us: seq<Update>)
    requires AllPlaced(told, mem, last) && a.start == |mem| && a.first == last + 1 && us == UpdatesOf(a.writer)
    ensures AllPlaced(told + [a], mem + Stamp(us, last + 1), last + |us|)
  {
    var told', mem', last' := told + [a], mem + Stamp(us, last + 1), last + |us|;
    forall i | 0 <= i < |told'|
      ensures Placed(told'[i], mem', last') && (i < |told| ==> Follows(told[i], a))
    {
      if i < |told| {
        assert Placed(told[i], mem, last);
      }
    }
    forall i, j | 0 <= i < j < |told'| ensures Follows(told'[i], told'[j]) {
      if j < |told| {
        assert Follows(told[i], told[j]);
      }
    }
  }

  lemma UnstampMore(mem: seq<Stamped>, us: seq<Update>, first: nat)
    ensures Unstamp(mem + Stamp(us, first)) == Unstamp(mem) + us
  {
  }

  lemma RisingMore(mem: seq<Stamped>, last: nat, us: seq<Update>)
    requires RisingBy(mem, last)
    ensures RisingBy(mem + Stamp(us, last + 1), last + |us|)
  {
  }

  lemma ToldOne(told: seq<Answer>, a: Answer)
    ensures Told(told + [a]) == Told(told) + if a.status == Ok then UpdatesOf(a.writer) else []
  {
    assert (told + [a])[..|told|] == told;
  }

  lemma PlacedStep(told: seq<Answer>, served: seq<Answer>, mem: seq<Stamped>, front: seq<Update>, last: nat, a: Answer,
                   us: seq<Update>)
    requires AllPlaced(told + served, mem + Stamp(front, last + 1), last + |front|)
    requires a.start == |mem| + |front| && a.first == last + 1 + |front| && us == UpdatesOf(a.writer)
    ensures AllPlaced(told + (served + [a]), mem + Stamp(front + us, last + 1), last + |front + us|)
  {
    PlacedOne(told + served, mem + Stamp(front, last + 1), last + |front|, a, us);
    Associate(told, served, [a]);
    Associate(mem, Stamp(front, last + 1), Stamp(us, last + 1 + |front|));
    assert Stamp(front + us, last + 1) == Stamp(front, last + 1) + Stamp(us, last + 1 + |front|);
  }

  lemma {:induction false} PlacedServed(told: seq<Answer>, mem: seq<Stamped>, last: nat, gs: seq<Writer>, record: nat)
    requires AllPlaced(told, mem, last)
    ensures AllPlaced(told + Served(gs, Ok, |mem|, last + 1, record), mem + Stamp(Combined(gs), last + 1),
              last + |Combined(gs)|)
    decreases |gs|
  {
    if gs == [] {
      NoneServed(told, mem, last, gs, record);
    } else {
      var hs, w := gs[..|gs| - 1], gs[|gs| - 1];
      var front := Combined(hs);
      PlacedServed(told, mem, last, hs, record);
      PlacedStep(told, Served(hs, Ok, |mem|, last + 1, record), mem, front, last,
                 Answer(w, Ok, |mem| + |front|, last + 1 + |front|, record), UpdatesOf(w));
    }
  }

  lemma {:induction false} ToldServed(told: seq<Answer>, gs: seq<Writer>, start: nat, first: nat, record: nat)
    ensures Told(told + Served(gs, Ok, start, first, record)) == Told(told) + Combined(gs)
    decreases |gs|
  {
    if gs == [] {
      assert told + [] == told;
    } else {
      var hs, w := gs[..|gs| - 1], gs[|gs| - 1];
      var served, front := Served(hs, Ok, start, first, record), |Combined(hs)|;
      var a := Answer(w, Ok, start + front, first + front, record);
      ToldServed(told, hs, start, first, record);
      Associate(told, served, [a]);
      ToldOne(told + served, a);
      Associate(Told(told), Combined(hs), UpdatesOf(w));
    }
  }

  /** Writing for a group at once answers each of its writers as if it had written alone. */
  lemma MemServed(told: seq<Answer>, mem: seq<Stamped>, last: nat, gs: seq<Writer>, record: nat)
    requires MemOk(told, mem, last)
    ensures MemOk(told + Served(gs, Ok, |mem|, last + 1, record), mem + Stamp(Combined(gs), last + 1),
              last + |Combined(gs)|)
  {
    PlacedServed(told, mem, last, gs, record);
    ToldServed(told, gs, |mem|, last + 1, record);
    UnstampMore(mem, Combined(gs), last + 1);
    RisingMore(mem, last, Combined(gs));
  }

  lemma NoneServed(told: seq<Answer>, mem: seq<Stamped>, last: nat, gs: seq<Writer>, record: nat)
    requires gs == []
    ensures told + Served(gs, Ok, |mem|, last + 1, record) == told && mem + Stamp(Combined(gs), last + 1) == mem
    ensures Combined(gs) == []
  {
  }

  /** Answering writers anything else inserts nothing. */
  lemma MemRefused(told: seq<Answer>, mem: seq<Stamped>, last: nat, last': nat, more: seq<Answer>)
    requires MemOk(told, mem, last) && last <= last' && forall i :: 0 <= i < |more| ==> more[i].status != Ok
    ensures MemOk(told + more, mem, last')
  {
    NoneTold(told, more);
    PlacedRefused(told, mem, last, last', more);
  }

  lemma PlacedRefused(told: seq<Answer>, mem: seq<Stamped>, last: nat, last': nat, more: seq<Answer>)
    requires AllPlaced(told, mem, last) && last <= last' && forall i :: 0 <= i < |more| ==> more[i].status != Ok
    ensures AllPlaced(told + more, mem, last')
  {
    var told' := told + more;
    forall i, j | 0 <= i < j < |told'| ensures Follows(told'[i], told'[j]) {
      if j < |told| {
        assert Follows(told[i], told[j]);
      }
    }
    forall i | 0 <= i < |told'| ensures Placed(told'[i], mem, last') {
      if i < |told| {
        assert Placed(told[i], mem, last);
      }
    }
  }

  lemma {:induction false} NoneTold(told: seq<Answer>, more: seq<Answer>)
    requires forall i :: 0 <= i < |more| ==> more[i].status != Ok
    ensures Told(told + more) == Told(told)
  {
    if more == [] {
      assert told + more == told;
    } else {
      var n := |more| - 1;
      NoneTold(told, more[..n]);
      assert (told + more)[..|told| + n] == told + more[..n];
    }
  }

  /** Nobody who asked for sync is told Ok before the log is synced past its record. */
  lemma LogCommits(told: seq<Answer>, records: nat, synced: nat, records': nat, synced': nat, more: seq<Answer>)
    requires LogOk(told, records, synced) && synced <= synced' <= records'
    requires forall i {:trigger more[i]} :: 0 <= i < |more| ==> Synced(more[i], synced')
    ensures LogOk(told + more, records', synced')
  {
    var told' := told + more;
    forall i | 0 <= i < |told'| ensures Synced(told'[i], synced') {
      assert i < |told| ==> Synced(told[i], synced);
    }
  }

  lemma ReplayMore(log: seq<Record>, r: Record, mem: seq<Stamped>, st: Status)
    requires ReplayOk(log, mem, false) && st in {Ok, SyncFailed}
    ensures ReplayOk(log + [r], if st == Ok then mem + Stamp(r.updates, r.first) else mem, st == SyncFailed)
  {
    assert (log + [r])[..|log|] == log;
  }

  // ---------- the queue ----------

  /** The write in progress: how many waiting writers it serves, from which sequence
      number on, and their updates together. */
  datatype Group = Group(count: nat, first: nat, updates: seq<Update>)

  /** A group of waiting writers that one leader writes for. */
  ghost predicate Leads(waiting: seq<Writer>, last: nat, g: Group) {
    && 1 <= g.count <= |waiting| && g.first == last + 1 && g.updates == Combined(waiting[..g.count])
    && waiting[0].batch.Some?
    && forall i :: 0 <= i < g.count ==> waiting[i].sync ==> waiting[0].sync
  }

  /** What a commit does to the answers, the memtable and the log. */
  lemma MemCommits(told: seq<Answer>, mem: seq<Stamped>, last: nat, gs: seq<Writer>, st: Status, record: nat,
                   us: seq<Update>)
    requires MemOk(told, mem, last) && us == Combined(gs)
    ensures MemOk(told + Served(gs, st, |mem|, last + 1, record), if st == Ok then mem + Stamp(us, last + 1) else mem,
              last + |us|)
  {
    if st == Ok {
      MemServed(told, mem, last, gs, record);
    } else {
      MemRefused(told, mem, last, last + |us|, Served(gs, st, |mem|, last + 1, record));
    }
  }

  /** writers_; the writers that have left it, in order; the last sequence number, the
      log, the memtable, how many log records the last sync covered, and whether a
      sync has failed, so that every later write is refused. */
  datatype Queue = Queue(waiting: seq<Writer>, told: seq<Answer>, lastSequence: nat, log: seq<Record>,
    mem: seq<Stamped>,
                         synced: nat, failed: bool)

  ghost predicate QueueOk(q: Queue) {
    MemOk(q.told, q.mem, q.lastSequence) && LogOk(q.told, |q.log|, q.synced) && ReplayOk(q.log, q.mem, q.failed)
  }

  /** The front writer is told st at once. */
  function Dismiss(q: Queue, st: Status): Queue
    requires q.waiting != []
  {
    Queue(q.waiting[1..], q.told + [Answer(q.waiting[0], st, |q.mem|, q.lastSequence + 1, |q.log|)],
          q.lastSequence, q.log, q.mem, q.synced, q.failed)
  }

  /** The group's write comes to its outcome; its sequence numbers are used up
      whatever that is. */
  function Committed(q: Queue, g: Group, st: Status): Queue
    requires 1 <= g.count <= |q.waiting|
  {
    Queue(q.waiting[g.count..], q.told + Served(q.waiting[..g.count], st, |q.mem|, g.first, |q.log|),
          q.lastSequence + |g.updates|,
          if st == LogFailed then q.log else q.log + [Record(g.first, g.updates)],
          if st == Ok then q.mem + Stamp(g.updates, g.first) else q.mem,
          if st == Ok && q.waiting[0].sync then |q.log| + 1 else q.synced,
          st == SyncFailed)
  }

  lemma DismissOk(q: Queue, st: Status)
    requires QueueOk(q) && q.waiting != [] && (st == NoRoom || (st == Ok && q.waiting[0].batch == None))
    ensures QueueOk(Dismiss(q, st))
  {
    DismissedMem(q, st);
    DismissedLog(q, st);
    Assemble(Dismiss(q, st));
  }

  lemma DismissedMem(q: Queue, st: Status)
    requires MemOk(q.told, q.mem, q.lastSequence) && q.waiting != []
    requires st == NoRoom || (st == Ok && q.waiting[0].batch == None)
    ensures var t := Dismiss(q, st); MemOk(t.told, t.mem, t.lastSequence)
  {
    MemDismiss(q.told, q.mem, q.lastSequence, Answer(q.waiting[0], st, |q.mem|, q.lastSequence + 1, |q.log|));
  }

  lemma DismissedLog(q: Queue, st: Status)
    requires LogOk(q.told, |q.log|, q.synced) && q.waiting != []
    requires st == NoRoom || (st == Ok && q.waiting[0].batch == None)
    ensures var t := Dismiss(q, st); LogOk(t.told, |t.log|, t.synced)
  {
    LogDismiss(q.told, |q.log|, q.synced, Answer(q.waiting[0], st, |q.mem|, q.lastSequence + 1, |q.log|));
  }

  lemma LogDismiss(told: seq<Answer>, records: nat, synced: nat, a: Answer)
    requires LogOk(told, records, synced) && (a.status != Ok || a.writer.batch == None)
    ensures LogOk(told + [a], records, synced)
  {
    LogCommits(told, records, synced, records, synced, [a]);
  }

  lemma MemDismiss(told: seq<Answer>, mem: seq<Stamped>, last: nat, a: Answer)
    requires MemOk(told, mem, last) && a.start == |mem| && a.first == last + 1
    requires a.status == NoRoom || (a.status == Ok && a.writer.batch == None)
    ensures MemOk(told + [a], mem, last)
  {
    if a.status == Ok {
      PlacedOne(told, mem, last, a, []);
      ToldOne(told, a);
      assert mem + Stamp([], last + 1) == mem;
    } else {
      MemRefused(told, mem, last, last, [a]);
    }
  }

  lemma CommittedMem(q: Queue, g: Group, st: Status)
    requires MemOk(q.told, q.mem, q.lastSequence) && Leads(q.waiting, q.lastSequence, g)
    ensures var t := Committed(q, g, st); MemOk(t.told, t.mem, t.lastSequence)
  {
    MemCommits(q.told, q.mem, q.lastSequence, q.waiting[..g.count], st, |q.log|, g.updates);
  }

  lemma CommittedLog(q: Queue, g: Group, st: Status)
    requires LogOk(q.told, |q.log|, q.synced) && Leads(q.waiting, q.lastSequence, g)
    ensures var t := Committed(q, g, st); LogOk(t.told, |t.log|, t.synced)
  {
    var t := Committed(q, g, st);
    LogCommits(q.told, |q.log|, q.synced, |t.log|, t.synced,
      Served(q.waiting[..g.count], st, |q.mem|, g.first, |q.log|));
  }

  lemma CommittedReplay(q: Queue, g: Group, st: Status)
    requires ReplayOk(q.log, q.mem, false) && 1 <= g.count <= |q.waiting| && st != NoRoom
    ensures var t := Committed(q, g, st); ReplayOk(t.log, t.mem, t.failed)
  {
    if st != LogFailed {
      ReplayMore(q.log, Record(g.first, g.updates), q.mem, st);
    }
  }

  lemma Assemble(t: Queue)
    requires MemOk(t.told, t.mem, t.lastSequence) && LogOk(t.told, |t.log|, t.synced)
    requires ReplayOk(t.log, t.mem, t.failed)
    ensures QueueOk(t)
  {
  }

  /** Whatever a group's write comes to, the queue keeps its invariant. */
  lemma CommittedOk(q: Queue, g: Group, st: Status)
    requires QueueOk(q) && Leads(q.waiting, q.lastSequence, g) && !q.failed && st != NoRoom
    ensures QueueOk(Committed(q, g, st))
  {
    CommittedMem(q, g, st);
    CommittedLog(q, g, st);
    CommittedReplay(q, g, st);
    Assemble(Committed(q, g, st));
  }

  /** Who is told what by Commit. */
  lemma CommittedTold(q: Queue, g: Group, st: Status)
    requires 1 <= g.count <= |q.waiting|
    ensures var t, n, all := Committed(q, g, st), g.count, |q.told|;
            && t.waiting == q.waiting[n..] && |t.told| == all + n && t.told[..all] == q.told
            && forall i :: 0 <= i < n ==> t.told[all + i].writer == q.waiting[i] && t.told[all + i].status == st
  {
  }

  /** What is in the log and the memtable then. */
  lemma CommittedMore(q: Queue, g: Group, st: Status)
    requires Leads(q.waiting, q.lastSequence, g)
    ensures var t, us := Committed(q, g, st), g.updates;
            && t.lastSequence == q.lastSequence + |us|
            && t.log == q.log + (if st == LogFailed then [] else [Record(q.lastSequence + 1, us)])
            && |t.mem| == |q.mem| + (if st == Ok then |us| else 0) && t.mem[..|q.mem|] == q.mem
            && (forall i :: 0 <= i < |us| && st == Ok ==>
                  t.mem[|q.mem| + i] == Stamped(q.lastSequence + 1 + i, us[i]))
            && t.synced == (if st == Ok && q.waiting[0].sync then |t.log| else q.synced)
            && (t.failed <==> st == SyncFailed)
  {
    assert q.log + [] == q.log;
  }

  class WriteQueue {
    const byteSize: seq<Update> -> nat
    var q: Queue
    /** The write in progress. */
    var group: Option<Group>

    ghost predicate Valid()
      reads this
    {
      QueueOk(q) && (group.Some? ==> !q.failed && Leads(q.waiting, q.lastSequence, group.value))
    }

    constructor (byteSize: seq<Update> -> nat)
      ensures Valid() && q.waiting == [] && q.told == []
    {
      this.byteSize := byteSize;
      q, group := Queue([], [], 0, [], [], 0, false), None;
    }

    /** writers_.push_back. */
    method Enqueue(w: Writer)
      requires Valid()
      modifies `q
      ensures Valid() && q == old(q).(waiting := old(q).waiting + [w])
    {
      assert group.Some? ==> (q.waiting + [w])[..group.value.count] == q.waiting[..group.value.count];
      q := q.(waiting := q.waiting + [w]);
    }

    /** The front writer goes ahead; `room` is what MakeRoomForWrite answers.  It is
        told at once if there is no room or nothing to write; else it leads a group. */
    method Lead(room: bool)
      requires Valid() && group == None && q.waiting != [] && (q.failed ==> !room)
      modifies `q, `group
      ensures Valid()
      ensures !room || old(q).waiting[0].batch == None ==>
                && group == None && q == Dismiss(old(q), if room then Ok else NoRoom)
                && q.waiting == old(q).waiting[1..] && q.log == old(q).log && q.mem == old(q).mem
                && |q.told| == |old(q).told| + 1 && q.told[..|old(q).told|] == old(q).told
                && q.told[|old(q).told|].writer == old(q).waiting[0]
                && q.told[|old(q).told|].status == (if room then Ok else NoRoom)
      ensures room && old(q).waiting[0].batch.Some? ==>
                && q == old(q) && group.Some? && IsGroup(q.waiting, group.value.count, byteSize)
                && group.value.updates == Combined(q.waiting[..group.value.count])
    {
      if !room || q.waiting[0].batch == None {
        DismissOk(q, if room then Ok else NoRoom);
        q := Dismiss(q, if room then Ok else NoRoom);
      } else {
        var n, updates := BuildBatchGroup(q.waiting, byteSize);
        group := Some(Group(n, q.lastSequence + 1, updates));
      }
    }

    /** The leader has appended its record, synced the log if it asked for that, and
        inserted the updates; `outcome` says how far it came.  The group leaves. */
    method Commit(outcome: Status)
      requires Valid() && group.Some? && outcome != NoRoom && (outcome == SyncFailed ==> q.waiting[0].sync)
      modifies this
      ensures Valid() && group == None && q == Committed(old(q), old(group).value, outcome)
    {
      var t := Committed(q, group.value, outcome);
      CommittedOk(q, group.value, outcome);
      q, group := t, None;
    }
  }
}
