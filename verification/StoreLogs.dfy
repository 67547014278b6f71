/** Facts about replaying write-ahead logs. */
module StoreLogs {
  import opened Keys
  import opened Store

  lemma FlattenSnoc(bs: seq<seq<Entry>>, b: seq<Entry>)
    ensures Flatten(bs + [b]) == Flatten(bs) + b
  {
    assert (bs + [b])[..|bs|] == bs;
  }

  lemma ReplaySnoc(logs: seq<Log>, l: Log, from: nat)
    ensures Replay(logs + [l], from) == Replay(logs, from) + if l.number >= from then Flatten(l.batches) else []
  {
    assert (logs + [l])[..|logs|] == logs;
  }

  /** Appending a batch to the newest log appends it to the replay. */
  lemma ReplayAppend(logs: seq<Log>, b: seq<Entry>, from: nat)
    requires |logs| > 0 && logs[|logs| - 1].number >= from
    ensures var l := logs[|logs| - 1];
            Replay(logs[|logs| - 1 := l.(batches := l.batches + [b])], from) == Replay(logs, from) + b
  {
    var l := logs[|logs| - 1];
    var logs' := logs[|logs| - 1 := l.(batches := l.batches + [b])];
    assert logs'[..|logs'| - 1] == logs[..|logs| - 1];
    FlattenSnoc(l.batches, b);
    assert Replay(logs', from) == Replay(logs[..|logs| - 1], from) + (Flatten(l.batches) + b);
  }

  lemma {:induction false} ReplayNothing(logs: seq<Log>, from: nat)
    requires forall i :: 0 <= i < |logs| ==> logs[i].number < from
    ensures Replay(logs, from) == []
  {
    if logs != [] {
      ReplayNothing(logs[..|logs| - 1], from);
    }
  }

  /** From its own number on, only the newest log is replayed. */
  lemma ReplayCurrent(logs: seq<Log>)
    requires |logs| > 0 && LogsOrdered(logs)
    ensures Replay(logs, logs[|logs| - 1].number) == Flatten(logs[|logs| - 1].batches)
  {
    ReplayNothing(logs[..|logs| - 1], logs[|logs| - 1].number);
  }

  /** Deleting logs below the bound changes nothing that is replayed. */
  lemma {:induction false} KeepLogsReplay(logs: seq<Log>, from: nat)
    ensures Replay(KeepLogs(logs, from), from) == Replay(logs, from)
  {
    if logs != [] {
      var init, last := logs[..|logs| - 1], logs[|logs| - 1];
      KeepLogsReplay(init, from);
      if last.number >= from {
        ReplaySnoc(KeepLogs(init, from), last, from);
      } else {
        assert KeepLogs(logs, from) == KeepLogs(init, from);
      }
    }
  }

  /** It deletes only those logs, keeps the others in order, and keeps the newest. */
  lemma {:induction false} KeepLogsOrdered(logs: seq<Log>, from: nat)
    requires LogsOrdered(logs)
    ensures LogsOrdered(KeepLogs(logs, from))
    ensures forall l :: l in KeepLogs(logs, from) ==> l in logs
    ensures |logs| > 0 && logs[|logs| - 1].number >= from ==>
              |KeepLogs(logs, from)| > 0 && KeepLogs(logs, from)[|KeepLogs(logs, from)| - 1] == logs[|logs| - 1]
  {
    if logs != [] {
      var init, last := logs[..|logs| - 1], logs[|logs| - 1];
      KeepLogsOrdered(init, from);
      var kept := KeepLogs(init, from);
      forall i | 0 <= i < |kept| ensures kept[i].number < last.number {
        assert kept[i] in init;
      }
    }
  }

  lemma {:induction false} MaxSeqBounds(es: seq<Entry>)
    ensures forall i :: 0 <= i < |es| ==> es[i].k.sn <= MaxSeq(es)
    ensures es == [] || exists i :: 0 <= i < |es| && es[i].k.sn == MaxSeq(es)
  {
    if es != [] {
      var n := |es| - 1;
      MaxSeqBounds(es[..n]);
      if es[n].k.sn < MaxSeq(es[..n]) {
        assert es[..n] != [];
        var i :| 0 <= i < n && es[..n][i].k.sn == MaxSeq(es[..n]);
        assert es[i].k.sn == MaxSeq(es);
      }
    }
  }

  lemma RisingSuffix(a: seq<Entry>, b: seq<Entry>)
    requires Rising(a + b)
    ensures Rising(b)
  {
    assert forall i :: 0 <= i < |b| ==> (a + b)[|a| + i] == b[i];
  }
}
