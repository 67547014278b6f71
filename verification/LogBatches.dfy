/** From log bytes to batches: what RecoverLogFile reads from a log file that a crash
    may have cut off (db_impl.cc, log_reader.cc, write_batch.cc). */
module LogBatches {
  import opened Keys
  import opened Reads
  import opened Coding
  import opened WriteBatch
  import opened LogFile
  import opened LogFragments
  import opened LogReader
  import opened Store
  import opened Runs
  import opened GroupCommit

  ghost predicate Loggable(g: Record) {
    |g.updates| < U32 && g.first < U64 && forall u :: u in g.updates ==> Small(u)
  }

  /** The log record of each group. */
  function Records(gs: seq<Record>): (rs: seq<Bytes>)
    ensures |rs| == |gs| && forall i :: 0 <= i < |gs| ==> rs[i] == Encode(gs[i].first, gs[i].updates)
  {
    seq(|gs|, i requires 0 <= i < |gs| => Encode(gs[i].first, gs[i].updates))
  }

  function Batches(gs: seq<Record>): (bs: seq<seq<Entry>>)
    ensures |bs| == |gs| && forall i :: 0 <= i < |gs| ==> bs[i] == EntriesOf(gs[i].first, gs[i].updates)
  {
    seq(|gs|, i requires 0 <= i < |gs| => EntriesOf(gs[i].first, gs[i].updates))
  }

  /** What is inserted for a record that was read, without paranoid checks: nothing for
      one too short, and otherwise its updates, up to where its bytes stop being updates. */
  function BatchIn(record: Bytes): Option<seq<Entry>> {
    if |record| < 12 then None
    else Some(EntriesOf(Unfixed(record[..8]), UpdatesIn(record[12..])))
  }

  function BatchesIn(records: seq<Bytes>): seq<seq<Entry>> {
    Chosen(BatchIn, records)
  }

  /** What f gives for the members of a list that it gives something for. */
  function Chosen<A, B>(f: A -> Option<B>, xs: seq<A>): seq<B> {
    if xs == [] then []
    else
      var n := |xs| - 1;
      Chosen(f, xs[..n]) + if f(xs[n]).Some? then [f(xs[n]).value] else []
  }

  lemma {:induction false} ChosenFrom<A, B>(f: A -> Option<B>, xs: seq<A>, y: B) returns (x: A)
    requires y in Chosen(f, xs)
    ensures x in xs && f(x) == Some(y)
  {
    var n := |xs| - 1;
    if y in Chosen(f, xs[..n]) {
      x := ChosenFrom(f, xs[..n], y);
    } else {
      x := xs[n];
    }
  }

  lemma {:induction false} AllChosen<A, B>(f: A -> Option<B>, xs: seq<A>, ys: seq<B>)
    requires |xs| == |ys| && forall i :: 0 <= i < |xs| ==> f(xs[i]) == Some(ys[i])
    ensures Chosen(f, xs) == ys
  {
    if xs != [] {
      var n := |xs| - 1;
      AllChosen(f, xs[..n], ys[..n]);
      assert ys == ys[..n] + [ys[n]];
    }
  }

  /** The record of a group is its batch. */
  lemma GroupIn(g: Record)
    requires Loggable(g)
    ensures BatchIn(Encode(g.first, g.updates)) == Some(EntriesOf(g.first, g.updates))
  {
    EncodeParts(g.first, g.updates);
    UpdatesBack(g.updates);
    AllIn(Body(g.updates));
  }

  lemma GroupsIn(gs: seq<Record>, n: nat)
    requires n <= |gs| && forall g :: g in gs ==> Loggable(g)
    ensures BatchesIn(Records(gs)[..n]) == Batches(gs)[..n]
  {
    var rs, bs := Records(gs)[..n], Batches(gs)[..n];
    forall i | 0 <= i < n ensures BatchIn(rs[i]) == Some(bs[i]) {
      assert gs[i] in gs;
      GroupIn(gs[i]);
    }
    AllChosen(BatchIn, rs, bs);
  }

  method ReadBatch(record: Bytes) returns (batch: Option<seq<Entry>>)
    ensures batch == BatchIn(record)
  {
    if |record| < 12 {
      return None;
    }
    var ok, updates := Iterate(record, 0, []);
    batch := Some(EntriesOf(Unfixed(record[..8]), updates));
  }

  /** Each record to its batch. */
  method ReadEach(records: seq<Bytes>) returns (batches: seq<seq<Entry>>)
    ensures batches == BatchesIn(records)
  {
    batches := [];
    for i := 0 to |records|
      invariant batches == BatchesIn(records[..i])
    {
      assert records[..i + 1][..i] == records[..i];
      var batch := ReadBatch(records[i]);
      if batch.Some? {
        batches := batches + [batch.value];
      }
    }
    assert records[..|records|] == records;
  }

  /** RecoverLogFile's loop over the bytes of a log, without paranoid checks.  Whatever the
      bytes are, each batch comes from a record that is there with its checksums; of a log
      that was cut off anywhere, the batches of the groups whose records are there whole. */
  method ReadBatches(sum: Bytes -> word, file: Bytes, ghost gs: seq<Record>) returns (batches: seq<seq<Entry>>)
    ensures forall b :: b in batches ==> exists r :: Genuine(sum, file, r) && BatchIn(r) == Some(b)
    ensures file <= LogBytes(sum, Records(gs)) && (forall g :: g in gs ==> Loggable(g)) ==>
              batches == Batches(gs)[..Whole(sum, Records(gs), |file|)]
  {
    var records, drops := ReadAll(sum, file, Records(gs));
    batches := ReadEach(records);
    forall b | b in batches ensures exists r :: Genuine(sum, file, r) && BatchIn(r) == Some(b) {
      var r := ChosenFrom(BatchIn, records, b);
      assert Genuine(sum, file, r);
    }
    if file <= LogBytes(sum, Records(gs)) && forall g :: g in gs ==> Loggable(g) {
      GroupsIn(gs, Whole(sum, Records(gs), |file|));
    }
  }

  /** A cut inside the last record, or just before it, loses that group and no other. */
  lemma CutInLast(sum: Bytes -> word, gs: seq<Record>, file: Bytes)
    requires gs != [] && file <= LogBytes(sum, Records(gs)) && |file| < |LogBytes(sum, Records(gs))|
    requires |LogBytes(sum, Records(gs[..|gs| - 1]))| <= |file|
    ensures Whole(sum, Records(gs), |file|) == |gs| - 1
  {
    RecordsBut(gs);
    AllButLast(sum, Records(gs), |file|);
  }

  lemma RecordsBut(gs: seq<Record>)
    requires gs != []
    ensures Records(gs)[..|gs| - 1] == Records(gs[..|gs| - 1])
  {
  }

  /** A log whose bytes end inside the record of the group in flight is recovered as if
      that group had never been written: no latest read changes. */
  lemma CutLogRecovers(s: State, m: State, t: State, chunks: seq<seq<Entry>>, tables: seq<File>, u: UserKey,
                       sum: Bytes -> word, gs: seq<Record>, file: Bytes)
    requires Inv(s) && s.pending != [] && CurrentLog(s).batches == Batches(gs)
    requires file <= LogBytes(sum, Records(gs)) && |file| < |LogBytes(sum, Records(gs))|
    requires gs != [] && |LogBytes(sum, Records(gs[..|gs| - 1]))| <= |file|
    requires var read := Batches(gs)[..Whole(sum, Records(gs), |file|)];
             m == s.(pending := [], logs := s.logs[|s.logs| - 1 := CurrentLog(s).(batches := read)])
    requires Recover(m, t, chunks, tables)
    ensures Lookup(All(t), u, t.lastSeq) == Lookup(All(s), u, s.lastSeq)
  {
    CutInLast(sum, gs, file);
    TornCrashRecovery(s, m, t, chunks, tables, u);
  }
}
