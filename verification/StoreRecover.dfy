/** Crash recovery keeps the invariant, and with it every acknowledged write. */
module StoreRecover {
  import opened Keys
  import opened Reads
  import opened Levels
  import opened Drops
  import opened Store
  import opened StoreLogs
  import opened StoreInv

  ghost function AddTables(files: Files, tables: seq<File>): Files
    requires |files| > 0
  {
    files[0 := files[0] + (set f | f in tables)]
  }

  /** Tables cut from the replay in order, numbered in that order above `next`. */
  ghost predicate TablesOf(chunks: seq<seq<Entry>>, tables: seq<File>, next: nat) {
    && |tables| == |chunks|
    && (forall i :: 0 <= i < |tables| ==> ValidFile(tables[i]) && EntrySet(tables[i].entries) == EntrySet(chunks[i]))
    && (forall i :: 0 <= i < |tables| ==> next <= tables[i].number)
    && (forall i, j :: 0 <= i < j < |tables| ==> tables[i].number < tables[j].number)
  }

  lemma RisingParts(a: seq<Entry>, b: seq<Entry>)
    requires Rising(a + b)
    ensures Rising(a)
    ensures forall d, e :: d in a && e in b ==> d.k.sn < e.k.sn
  {
    assert forall i :: 0 <= i < |a| ==> (a + b)[i] == a[i];
    assert forall i :: 0 <= i < |b| ==> (a + b)[|a| + i] == b[i];
  }

  lemma AddTablesSnoc(files: Files, tables: seq<File>)
    requires |files| > 0 && |tables| > 0
    ensures AddTables(files, tables) == AddFile(AddTables(files, tables[..|tables| - 1]), 0, tables[|tables| - 1])
  {
    var n := |tables| - 1;
    assert tables == tables[..n] + [tables[n]];
    assert (set f | f in tables) == (set f | f in tables[..n]) + {tables[n]};
    assert files[0] + (set f | f in tables) == files[0] + (set f | f in tables[..n]) + {tables[n]};
  }

  lemma AddNoTables(files: Files, tables: seq<File>)
    requires |files| > 0 && tables == []
    ensures AddTables(files, tables) == files
  {
    assert files[0] + (set f | f in tables) == files[0];
  }

  /** Every table holds replayed entries only. */
  lemma TableEntries(chunks: seq<seq<Entry>>, tables: seq<File>, next: nat, f: File)
    requires TablesOf(chunks, tables, next) && f in tables
    ensures EntrySet(f.entries) <= EntrySet(Flatten(chunks))
    decreases |tables|
  {
    var n := |tables| - 1;
    EntrySetConcat(Flatten(chunks[..n]), chunks[n]);
    if f != tables[n] {
      assert f in tables[..n];
      TableEntries(chunks[..n], tables[..n], next, f);
    }
  }

  /** The last table is newer than a file or a table before it. */
  lemma LastTableNewest(chunks: seq<seq<Entry>>, tables: seq<File>, next: nat, U: set<Entry>, g: File)
    requires |tables| > 0
    requires TablesOf(chunks, tables, next) && Rising(Flatten(chunks)) && EntrySet(Flatten(chunks)) <= U
    requires NewerSet(U, g) || g in tables[..|tables| - 1]
    ensures NewerFile(tables[|tables| - 1], g)
  {
    var n := |chunks| - 1;
    var f := tables[n];
    RisingParts(Flatten(chunks[..n]), chunks[n]);
    EntrySetConcat(Flatten(chunks[..n]), chunks[n]);
    if g in tables[..n] {
      TableEntries(chunks[..n], tables[..n], next, g);
    }
    forall a, b | a in f.entries && b in g.entries && a.k.user == b.k.user
      ensures a.k.sn > b.k.sn
    {
      assert a in EntrySet(f.entries) && a in chunks[n] && a in U;
      assert b in EntrySet(g.entries);
    }
  }

  /** Adding the recovered tables keeps the levels good. */
  lemma {:induction false} RecoverGood(files: Files, chunks: seq<seq<Entry>>, tables: seq<File>, next: nat,
                                       U: set<Entry>)
    requires Good(files) && AllNumbersBelow(files, next)
    requires TablesOf(chunks, tables, next) && Rising(Flatten(chunks)) && EntrySet(Flatten(chunks)) <= U
    requires forall l, f {:trigger NewerSet(U, f), f in files[l]} :: 0 <= l < LEVELS && f in files[l] ==> NewerSet(U, f)
    ensures Good(AddTables(files, tables))
    ensures AllNumbersBelow(AddTables(files, tables), if tables == [] then next else tables[|tables| - 1].number + 1)
    decreases |tables|
  {
    if tables == [] {
      AddNoTables(files, tables);
    } else {
      var n := |tables| - 1;
      var before := AddTables(files, tables[..n]);
      RisingParts(Flatten(chunks[..n]), chunks[n]);
      EntrySetConcat(Flatten(chunks[..n]), chunks[n]);
      RecoverGood(files, chunks[..n], tables[..n], next, U);
      forall l, g | 0 <= l < LEVELS && g in before[l] ensures NewerFile(tables[n], g) {
        assert g in files[l] || g in tables[..n];
        LastTableNewest(chunks, tables, next, U, g);
      }
      AddTablesSnoc(files, tables);
      AddFileGood(before, 0, tables[n]);
    }
  }

  /** Adding the recovered tables adds the replayed entries. */
  lemma {:induction false} RecoverContents(files: Files, chunks: seq<seq<Entry>>, tables: seq<File>, next: nat)
    requires |files| > 0 && TablesOf(chunks, tables, next)
    ensures InFiles(AddTables(files, tables)) == InFiles(files) + EntrySet(Flatten(chunks))
    decreases |tables|
  {
    if tables == [] {
      AddNoTables(files, tables);
    } else {
      var n := |tables| - 1;
      EntrySetConcat(Flatten(chunks[..n]), chunks[n]);
      RecoverContents(files, chunks[..n], tables[..n], next);
      AddTablesSnoc(files, tables);
      AddFileContents(AddTables(files, tables[..n]), 0, tables[n]);
      assert EntrySet(tables[n].entries) == EntrySet(chunks[n]);
    }
  }

  lemma {:induction false} RecoverNumbers(files: Files, tables: seq<File>)
    requires |files| > 0
    ensures Numbers(AddTables(files, tables)) == Numbers(files) + (set f | f in tables :: f.number)
    decreases |tables|
  {
    if tables == [] {
      AddNoTables(files, tables);
    } else {
      var n := |tables| - 1;
      RecoverNumbers(files, tables[..n]);
      AddTablesSnoc(files, tables);
      AddFileNumberSet(AddTables(files, tables[..n]), 0, tables[n]);
      assert tables == tables[..n] + [tables[n]];
      assert (set f | f in tables :: f.number) == (set f | f in tables[..n] :: f.number) + {tables[n].number};
    }
  }

  /** Nothing is left to replay once the tables are in the manifest. */
  lemma RecoverLogs(s: State, t: State, newest: Log)
    requires |s.logs| > 0 && LogsOrdered(s.logs) && CurrentLog(s).number < newest.number < t.nextFile
    requires t.logs == s.logs + [newest] && newest.batches == [] && t.logNumber == newest.number
    requires t.mem == {} && t.imm == None && t.pending == [] && t.lastSeq < MAX_SEQ
    ensures LogsOk(t)
  {
    ReplayCurrent(t.logs);
  }

  /** The recovered last sequence covers every entry, pending ones included. */
  lemma RecoverLastSeq(s: State)
    requires HistoryOk(s) && LogsOk(s)
    ensures Settled(s.written + EntrySet(s.pending), Max(s.manifestSeq, MaxSeq(Replay(s.logs, s.logNumber))))
    ensures Max(s.manifestSeq, MaxSeq(Replay(s.logs, s.logNumber))) < MAX_SEQ
  {
    var r := Replay(s.logs, s.logNumber);
    ReplayMax(r);
    UpperSettled(s);
    PendingNew(s);
    MaxSeqSettled(r, MAX_SEQ - 1);
  }

  lemma ReplayMax(es: seq<Entry>)
    ensures Settled(EntrySet(es), MaxSeq(es))
  {
    MaxSeqBounds(es);
  }

  lemma MaxSeqSettled(es: seq<Entry>, q: nat)
    requires Settled(EntrySet(es), q)
    ensures MaxSeq(es) <= q
  {
    MaxSeqBounds(es);
    assert forall i :: 0 <= i < |es| ==> es[i] in EntrySet(es);
  }

  lemma PendingDistinct(s: State)
    requires HistoryOk(s) && LogsOk(s)
    ensures Distinct(s.written + EntrySet(s.pending))
  {
    PendingNew(s);
  }

  lemma RecoverHistory(s: State, t: State, chunks: seq<seq<Entry>>, tables: seq<File>)
    requires HistoryOk(s) && LogsOk(s) && Recover(s, t, chunks, tables)
    requires All(t) == All(s) + EntrySet(s.pending)
    ensures HistoryOk(t)
  {
    RecoverLastSeq(s);
    PendingDistinct(s);
    assert All(t) <= t.written;
  }

  lemma RecoverReads(s: State, t: State, u: UserKey)
    requires HistoryOk(s) && HistoryOk(t) && SnapshotsOk(s) && LogsOk(s) && Faithful(s, u)
    requires All(t) == All(s) + EntrySet(s.pending) && t.written == s.written + EntrySet(s.pending) && t.snapshots == []
    ensures Faithful(t, u)
  {
    var P := EntrySet(s.pending);
    PendingNew(s);
    forall q | q >= OldestSnapshot(t)
      ensures Lookup(All(t), u, q) == Lookup(t.written, u, q)
    {
      var r := Max(q, s.lastSeq);
      GrowFaithful(All(s), s.written, P, u, r);
      LookupSettled(All(t), u, q, r);
      LookupSettled(t.written, u, q, r);
    }
  }

  lemma RecoverNewer(s: State)
    requires FilesOk(s) && HistoryOk(s) && LogsOk(s)
    ensures forall l, f :: 0 <= l < LEVELS && f in s.files[l] ==> NewerSet(Upper(s) + EntrySet(s.pending), f)
  {
    UpperSettled(s);
    PendingNew(s);
    NewerGrow(Upper(s), EntrySet(s.pending), s.files, s.lastSeq);
  }

  lemma RecoverAll(s: State, t: State, chunks: seq<seq<Entry>>, tables: seq<File>)
    requires LogsOk(s) && Recover(s, t, chunks, tables)
    ensures t.files == AddTables(s.files, tables) && TablesOf(chunks, tables, s.manifestNext)
    ensures All(t) == All(s) + EntrySet(s.pending)
    ensures Numbers(t.files) == Numbers(s.files) + (set f | f in tables :: f.number)
  {
    RecoverContents(s.files, chunks, tables, s.manifestNext);
    RecoverNumbers(s.files, tables);
  }

  lemma RecoverFilesOk(s: State, t: State, chunks: seq<seq<Entry>>, tables: seq<File>)
    requires FilesOk(s) && HistoryOk(s) && LogsOk(s) && Recover(s, t, chunks, tables)
    requires t.files == AddTables(s.files, tables) && TablesOf(chunks, tables, s.manifestNext)
    ensures Good(t.files) && AllNumbersBelow(t.files, t.manifestNext)
  {
    RecoverNewer(s);
    RecoverGood(s.files, chunks, tables, s.manifestNext, Upper(s) + EntrySet(s.pending));
  }

  lemma RecoverKeeps(s: State, t: State, chunks: seq<seq<Entry>>, tables: seq<File>)
    requires Inv(s) && Recover(s, t, chunks, tables)
    ensures Inv(t) && KeepsReads(s, t)
  {
    RecoverAll(s, t, chunks, tables);
    RecoverFilesOk(s, t, chunks, tables);
    RecoverHistory(s, t, chunks, tables);
    RecoverNewLog(s, t, chunks, tables);
    RecoverRest(s, t, chunks, tables);
    forall u | Faithful(s, u) ensures Faithful(t, u) {
      RecoverReads(s, t, u);
    }
  }

  lemma RecoverNewLog(s: State, t: State, chunks: seq<seq<Entry>>, tables: seq<File>)
    requires LogsOk(s) && HistoryOk(t) && Recover(s, t, chunks, tables)
    ensures LogsOk(t)
  {
    assert t.logs == s.logs + [t.logs[|s.logs|]];
    RecoverLogs(s, t, t.logs[|s.logs|]);
  }

  lemma RecoverRest(s: State, t: State, chunks: seq<seq<Entry>>, tables: seq<File>)
    requires TablesOk(s) && Recover(s, t, chunks, tables) && Good(t.files) && AllNumbersBelow(t.files, t.manifestNext)
    requires Numbers(t.files) == Numbers(s.files) + (set f | f in tables :: f.number)
    ensures FilesOk(t) && TablesOk(t) && SnapshotsOk(t) && SeqOk(t)
  {
    assert Upper(t) == {};
  }
}
