/** The queue of writers over the store: a committed group is a LogGroup and a Publish
    step, and what a read answers is what the writers told Ok wrote last
    (DBImpl::Write, db_impl.cc lines 1185-1256). */
module WritePath {
  import opened Keys
  import opened Reads
  import opened WriteBatch
  import opened GroupCommit
  import opened Drops
  import opened Levels
  import opened Store
  import opened StoreInv
  import opened StoreRecover
  import opened Runs

  /** What the last update of a key left there. */
  function Latest(us: seq<Update>, key: Bytes): Option<Bytes> {
    if us == [] then None else
      var u := us[|us| - 1];
      if u.key != key then Latest(us[..|us| - 1], key) else if u.Put? then Some(u.value) else None
  }

  // ---------- reading numbered updates ----------

  lemma EntriesMore(ss: seq<Stamped>, more: seq<Stamped>)
    ensures EntrySet(Entries(ss + more)) == EntrySet(Entries(ss)) + EntrySet(Entries(more))
  {
    var all, a, b := Entries(ss + more), Entries(ss), Entries(more);
    assert all == a + b;
  }

  lemma EntriesDistinct(ss: seq<Stamped>, last: nat)
    requires RisingBy(ss, last)
    ensures Distinct(EntrySet(Entries(ss))) && forall e :: e in EntrySet(Entries(ss)) ==> e.k.sn <= last
  {
    var es := Entries(ss);
    forall a, b | a in EntrySet(es) && b in EntrySet(es) && a.k.sn == b.k.sn ensures a == b {
      var i :| 0 <= i < |es| && es[i] == a;
      var j :| 0 <= j < |es| && es[j] == b;
    }
  }

  /** The newest visible entry of a key is its last update. */
  lemma {:induction false} LookupLatest(ss: seq<Stamped>, last: nat, key: Bytes)
    requires RisingBy(ss, last)
    ensures Lookup(EntrySet(Entries(ss)), Rank(key), last) == Latest(Unstamp(ss), key)
  {
    if ss == [] {
      assert EntrySet(Entries(ss)) == {};
    } else {
      LookupLatest(ss[..|ss| - 1], last, key);
      LastUpdate(ss, last, key);
    }
  }

  /** The last update decides on its own key and says nothing of others. */
  lemma LastUpdate(ss: seq<Stamped>, last: nat, key: Bytes)
    requires ss != [] && RisingBy(ss, last)
    ensures var front, x := ss[..|ss| - 1], ss[|ss| - 1];
            && Unstamp(ss)[..|ss| - 1] == Unstamp(front)
            && Lookup(EntrySet(Entries(ss)), Rank(key), last)
               == if x.update.key == key then Reads.Answer(EntryOf(x))
                  else Lookup(EntrySet(Entries(front)), Rank(key), last)
  {
    var front, x := ss[..|ss| - 1], ss[|ss| - 1];
    var S := EntrySet(Entries(front));
    EntriesDistinct(ss, last);
    SplitLast(ss);
    RankOrder(x.update.key, key);
    forall e | e in S ensures e.k.sn < x.sn {
      var i :| 0 <= i < |front| && Entries(front)[i] == e;
      assert ss[i].sn < x.sn;
    }
    LastDecides(S, EntryOf(x), Rank(key), last);
  }

  lemma SplitLast(ss: seq<Stamped>)
    requires ss != []
    ensures EntrySet(Entries(ss)) == EntrySet(Entries(ss[..|ss| - 1])) + {EntryOf(ss[|ss| - 1])}
  {
    var front, x := ss[..|ss| - 1], ss[|ss| - 1];
    assert ss == front + [x];
    EntriesMore(front, [x]);
    assert Entries([x]) == [EntryOf(x)];
  }

  lemma LastDecides(S: set<Entry>, x: Entry, u: UserKey, s: nat)
    requires x.k.sn <= s && Distinct(S + {x})
    ensures x.k.user != u ==> Lookup(S + {x}, u, s) == Lookup(S, u, s)
    ensures x.k.user == u && (forall e :: e in S ==> e.k.sn < x.k.sn) ==> Lookup(S + {x}, u, s) == Reads.Answer(x)
  {
    if x.k.user != u {
      LookupAgree(S, S + {x}, u, s);
    } else if forall e :: e in S ==> e.k.sn < x.k.sn {
      assert IsNewest(S + {x}, u, s, x);
      LookupIs(S + {x}, u, s, x);
    }
  }

  // ---------- queue and store together ----------

  /** The store holds what the queue's memtable was given; after a failed sync the
      record that was not acknowledged is still in the log. */
  ghost predicate Shows(q: Queue, s: State) {
    && s.written == EntrySet(Entries(q.mem))
    && q.lastSequence == s.lastSeq + |s.pending| && (s.pending != [] ==> q.failed)
  }

  ghost predicate Joined(q: Queue, s: State) {
    QueueOk(q) && Inv(s) && Shows(q, s)
  }

  datatype Event =
    | Arrive(w: Writer)
    | Answered(st: Status)
    | Written(g: Group, st: Status)
    | Behind(step: Step)

  /** One thing that happens: a writer joins the queue; the front writer is told at
      once that there is no room or nothing to write; a group is written; or a step
      of the background work, of a reader, or a crash with recovery while no
      sync has failed. */
  ghost predicate Happens(q: Queue, s: State, q': Queue, s': State, ev: Event) {
    match ev
    case Arrive(w) => q' == q.(waiting := q.waiting + [w]) && s' == s
    case Answered(st) =>
      && q.waiting != [] && (st == NoRoom || (st == Ok && q.waiting[0].batch == None))
      && q' == Dismiss(q, st) && s' == s
    case Written(g, st) =>
      && Leads(q.waiting, q.lastSequence, g) && !q.failed && (st == Ok || st == SyncFailed)
      && q' == Committed(q, g, st) && Commits(s, s', EntriesOf(g.first, g.updates), st)
    case Behind(step) =>
      && !step.LogGroupStep? && !step.PublishStep? && !step.TearStep? && (step.RecoverStep? ==> !q.failed)
      && Next(s, s', step) && q' == if step.RecoverStep? then q.(waiting := []) else q
  }

  /** A group goes to the log, and unless syncing the log fails to the memtable. */
  ghost predicate Commits(s: State, s': State, group: seq<Entry>, st: Status) {
    exists m :: LogGroup(s, m, group) && if st == Ok then Publish(m, s') else s' == m
  }

  lemma ArriveKeeps(q: Queue, w: Writer)
    requires QueueOk(q)
    ensures QueueOk(q.(waiting := q.waiting + [w]))
  {
  }

  lemma WrittenShows(q: Queue, s: State, s': State, g: Group, st: Status)
    requires Shows(q, s) && s.pending == [] && g.first == q.lastSequence + 1 && 1 <= g.count <= |q.waiting|
    requires st == Ok || st == SyncFailed
    requires Commits(s, s', EntriesOf(g.first, g.updates), st)
    ensures Shows(Committed(q, g, st), s')
  {
    EntriesMore(q.mem, Stamp(g.updates, g.first));
  }

  lemma WrittenKeeps(q: Queue, s: State, s': State, g: Group, st: Status)
    requires Inv(s) && (st == Ok || st == SyncFailed)
    requires Commits(s, s', EntriesOf(g.first, g.updates), st)
    ensures Inv(s') && KeepsReads(s, s')
  {
    var group := EntriesOf(g.first, g.updates);
    var m :| LogGroup(s, m, group) && if st == Ok then Publish(m, s') else s' == m;
    LogGroupKeeps(s, m, group);
    if st == Ok {
      PublishKeeps(m, s');
    }
  }

  /** A step behind the queue's back writes nothing. */
  lemma BehindShows(q: Queue, s: State, s': State, step: Step)
    requires Inv(s) && Shows(q, s) && Next(s, s', step)
    requires !step.LogGroupStep? && !step.PublishStep? && !step.TearStep? && (step.RecoverStep? ==> !q.failed)
    ensures Shows(q, s')
  {
    if step.RecoverStep? {
      RecoverSame(s, s', step.chunks, step.tables);
    }
  }

  /** With no group in flight recovery comes back to the same last sequence number. */
  lemma RecoverSame(s: State, t: State, chunks: seq<seq<Entry>>, tables: seq<File>)
    requires HistoryOk(s) && SeqOk(s) && LogsOk(s) && s.pending == [] && Recover(s, t, chunks, tables)
    ensures t.lastSeq == s.lastSeq && t.written == s.written && t.pending == []
  {
    UpperInReplay(s);
    ReplayedSeq(s);
    assert EntrySet(s.pending) == {};
  }

  /** Nothing replayed is newer than the last sequence number. */
  lemma ReplayedSeq(s: State)
    requires HistoryOk(s) && LogsOk(s) && s.pending == []
    ensures Max(s.manifestSeq, MaxSeq(Store.Replay(s.logs, s.logNumber))) <= s.lastSeq
  {
    UpperSettled(s);
    assert EntrySet(s.pending) == {};
    MaxSeqSettled(Store.Replay(s.logs, s.logNumber), s.lastSeq);
  }

  /** Whatever happens, queue and store stay joined, and reads of a key stay
      faithful unless a compaction resurrects it. */
  lemma HappensKeeps(q: Queue, s: State, q': Queue, s': State, ev: Event)
    requires Joined(q, s) && Happens(q, s, q', s', ev)
    ensures Joined(q', s')
    ensures forall u :: Faithful(s, u) && (ev.Behind? ==> Safe(s, ev.step, u)) ==> Faithful(s', u)
  {
    match ev
    case Arrive(w) => ArriveKeeps(q, w);
    case Answered(st) => DismissOk(q, st);
    case Written(g, st) =>
      CommittedOk(q, g, st);
      WrittenShows(q, s, s', g, st);
      WrittenKeeps(q, s, s', g, st);
    case Behind(step) =>
      BehindShows(q, s, s', step);
      StepExact(s, s', step);
  }

  /** The store answers the latest read of a key with what the writers told Ok wrote
      there last, in the order they were answered. */
  lemma ReadsTold(q: Queue, s: State, key: Bytes)
    requires Joined(q, s) && Faithful(s, Rank(key))
    ensures Lookup(All(s), Rank(key), s.lastSeq) == Latest(Told(q.told), key)
  {
    LookupLatest(q.mem, q.lastSequence, key);
    EntriesDistinct(q.mem, q.lastSequence);
    LookupSettled(s.written, Rank(key), s.lastSeq, q.lastSequence);
  }

  ghost predicate History(qs: seq<Queue>, ss: seq<State>, evs: seq<Event>) {
    && |qs| == |ss| == |evs| + 1 && Init(ss[0]) && qs[0] == Queue([], [], 0, [], [], 0, false)
    && forall i {:trigger Happens(qs[i], ss[i], qs[i + 1], ss[i + 1], evs[i])} ::
         0 <= i < |evs| ==> Happens(qs[i], ss[i], qs[i + 1], ss[i + 1], evs[i])
  }

  lemma HistoryAt(qs: seq<Queue>, ss: seq<State>, evs: seq<Event>, k: nat)
    requires History(qs, ss, evs) && k < |evs|
    ensures Happens(qs[k], ss[k], qs[k + 1], ss[k + 1], evs[k])
  {
  }

  /** No compaction of the history resurrects u. */
  ghost predicate Spares(ss: seq<State>, evs: seq<Event>, u: UserKey)
    requires |ss| == |evs| + 1
  {
    forall j :: 0 <= j < |evs| && evs[j].Behind? ==> Safe(ss[j], evs[j].step, u)
  }

  ghost predicate ReadsHold(q: Queue, s: State, u: UserKey) {
    Joined(q, s) && Faithful(s, u)
  }

  lemma HistoryStep(qs: seq<Queue>, ss: seq<State>, evs: seq<Event>, k: nat, u: UserKey)
    requires History(qs, ss, evs) && k < |evs| && Spares(ss, evs, u) && ReadsHold(qs[k], ss[k], u)
    ensures ReadsHold(qs[k + 1], ss[k + 1], u)
  {
    HistoryAt(qs, ss, evs, k);
    HappensKeeps(qs[k], ss[k], qs[k + 1], ss[k + 1], evs[k]);
  }

  lemma HistoryStart(q: Queue, s: State, u: UserKey)
    requires Init(s) && q == Queue([], [], 0, [], [], 0, false)
    ensures ReadsHold(q, s, u)
  {
    InitInv(s);
    assert EntrySet(Entries([])) == {};
  }

  lemma {:induction false} HistoryJoined(qs: seq<Queue>, ss: seq<State>, evs: seq<Event>, i: nat, u: UserKey)
    requires History(qs, ss, evs) && i < |ss| && Spares(ss, evs, u)
    ensures ReadsHold(qs[i], ss[i], u)
  {
    if i == 0 {
      HistoryStart(qs[0], ss[0], u);
    } else {
      HistoryJoined(qs, ss, evs, i - 1, u);
      HistoryStep(qs, ss, evs, i - 1, u);
    }
  }

  /** Along every history of writers, background work, readers and crashes, a latest
      read answers with the last write acknowledged. */
  lemma ReadYourWrites(qs: seq<Queue>, ss: seq<State>, evs: seq<Event>, i: nat, key: Bytes)
    requires History(qs, ss, evs) && i < |ss| && Spares(ss, evs, Rank(key))
    ensures Lookup(All(ss[i]), Rank(key), ss[i].lastSeq) == Latest(Told(qs[i].told), key)
  {
    HistoryJoined(qs, ss, evs, i, Rank(key));
    ReadsTold(qs[i], ss[i], key);
  }
}
