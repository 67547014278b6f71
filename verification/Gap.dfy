/** SetupOtherInputs extends the level L inputs over shared boundary keys but not
    the level L+1 inputs.  A run of fourteen steps from the empty store shows that
    the omission can bring a deleted value back.

    Step 8 is a manual compaction of level 2 (DBImpl::TEST_CompactRange, db_impl.cc
    line 585): on its own FIRST, which meets no level 3 file, would be moved down as it
    is.  The options are a block size of 2 MB, a file size of 1 MB and no compression,
    all of which SanitizeOptions lets through. */
module Gap {
  import opened Keys
  import opened Reads
  import opened Levels
  import opened Drops
  import opened Store
  import opened Runs
  import opened Coding
  import opened Comparator
  import opened BlockFormat
  import opened TableBuilding

  const BLOCK_SIZE: nat := 0x20_0000
  const MAX_FILE_SIZE: nat := 0x10_0000
  const RESTART_INTERVAL: nat := 16

  /** The user keys [1] and [2]. */
  const KEY_A: UserKey := 2.0 / 258.0
  const KEY_B: UserKey := 3.0 / 258.0

  /** A value that all but fills a block. */
  function LongValue(): (v: Bytes)
    ensures |v| == 0x20_0000 - 30
  {
    seq(0x20_0000 - 30, _ => 0)
  }

  const PUT_A := Entry(IKey(KEY_A, 1, Value), LongValue())
  const PUT_B := Entry(IKey(KEY_B, 2, Value), [2])
  const DELETE_B := Entry(IKey(KEY_B, 3, Deletion), [])
  const PUT_A2 := Entry(IKey(KEY_A, 4, Value), [3])

  /** The flushed memtable; its two halves after a first compaction that a held
      snapshot stops from dropping anything; a later flush; the final output. */
  const FIRST := File(3, 0x20_0200, PUT_A.k, PUT_B.k, [PUT_A, DELETE_B, PUT_B])
  const LEFT := File(4, 0x20_0100, PUT_A.k, DELETE_B.k, [PUT_A, DELETE_B])
  const RIGHT := File(5, 0x100, PUT_B.k, PUT_B.k, [PUT_B])
  const SECOND := File(7, 0x100, PUT_A2.k, PUT_A2.k, [PUT_A2])
  const FINAL := File(8, 0x100, PUT_A2.k, PUT_A2.k, [PUT_A2])

  lemma KeysAreBytes()
    ensures KEY_A == Rank([1]) && KEY_B == Rank([2]) && KEY_A < KEY_B
  {
    assert [1][1..] == [] && [2][1..] == [];
  }

  function TablePair(user: Bytes, e: Entry): Pair {
    Pair(InternalKeyOf(user, Tag(e.k)), e.value)
  }

  /** The first compaction cuts its output after DELETE_B: PUT_A leaves room in its
      block, so nothing is written and the file counts as empty; with DELETE_B the
      block is full and written, and the file is large enough. */
  lemma CutAfterTombstone()
    ensures var a, b := TablePair([1], PUT_A), TablePair([2], DELETE_B);
            && SizeEstimate([a], RESTART_INTERVAL) < BLOCK_SIZE <= SizeEstimate([a, b], RESTART_INTERVAL)
            && |BlockBytes([a, b], RESTART_INTERVAL)| >= MAX_FILE_SIZE
  {
    var a, b := TablePair([1], PUT_A), TablePair([2], DELETE_B);
    BlockLength(a, b);
    assert |a.value| == 0x20_0000 - 30 && |a.key| == |b.key| == 9 && b.value == [];
    VarintLengths(|a.value|);
  }

  lemma VarintLengths(n: nat)
    requires 0x4000 <= n < 0x20_0000
    ensures |Varint(n)| == 3 && |Varint(9)| == |Varint(0)| == 1
  {
    assert Varint(n) == [n % 128 + 128] + Varint(n / 128);
    assert Varint(n / 128) == [n / 128 % 128 + 128] + Varint(n / 128 / 128);
  }

  /** The sizes of a block of two keys that share no prefix. */
  lemma BlockLength(a: Pair, b: Pair)
    requires a.key != [] && b.key != [] && a.key[0] != b.key[0]
    ensures var n := |Varint(0)| + |Varint(|a.key|)| + |Varint(|a.value|)| + |a.key| + |a.value|;
            && SizeEstimate([a], RESTART_INTERVAL) == n + 8
            && SizeEstimate([a, b], RESTART_INTERVAL) == |BlockBytes([a, b], RESTART_INTERVAL)|
                 == n + |Varint(0)| + |Varint(|b.key|)| + |Varint(|b.value|)| + |b.key| + |b.value| + 8
  {
    var es := [a, b];
    assert [a][..1] == [a];
    assert Buffer([a], RESTART_INTERVAL, 1) == [] + EntryBytes(0, a);
    assert SharedAt(es, RESTART_INTERVAL, 1) == 0;
    assert Buffer(es, RESTART_INTERVAL, 1) == [] + EntryBytes(0, a) && es[1] == b;
    assert Buffer(es, RESTART_INTERVAL, 2) == Buffer(es, RESTART_INTERVAL, 1) + EntryBytes(0, b);
    assert RestartEntries(RESTART_INTERVAL, 1) == [0];
    assert RestartEntries(RESTART_INTERVAL, 2) == [0];
  }

  // The table files along the run.

  function F0(): Files {
    [{}, {}, {}, {}, {}, {}, {}]
  }

  function F7(): Files {
    [{}, {}, {FIRST}, {}, {}, {}, {}]
  }

  function F8(): Files {
    [{}, {}, {}, {LEFT, RIGHT}, {}, {}, {}]
  }

  function F13(): Files {
    [{}, {}, {SECOND}, {LEFT, RIGHT}, {}, {}, {}]
  }

  function F14(): Files {
    [{}, {}, {}, {RIGHT, FINAL}, {}, {}, {}]
  }

  lemma SameFiles(a: Files, b: Files)
    requires |a| == |b| == 7
    requires a[0] == b[0] && a[1] == b[1] && a[2] == b[2] && a[3] == b[3] && a[4] == b[4] && a[5] == b[5]
    requires a[6] == b[6]
    ensures a == b
  {
    forall i | 0 <= i < 7 ensures a[i] == b[i] {
      assert i == 0 || i == 1 || i == 2 || i == 3 || i == 4 || i == 5 || i == 6;
    }
  }

  lemma FilesAlong()
    ensures AddFile(F0(), 2, FIRST) == F7() && Replace(F7(), 2, {FIRST}, {}, {LEFT, RIGHT}) == F8()
    ensures AddFile(F8(), 2, SECOND) == F13() && Replace(F13(), 2, {SECOND}, {LEFT}, {FINAL}) == F14()
  {
    SameFiles(AddFile(F0(), 2, FIRST), F7());
    SameFiles(Replace(F7(), 2, {FIRST}, {}, {LEFT, RIGHT}), F8());
    SameFiles(AddFile(F8(), 2, SECOND), F13());
    assert {LEFT, RIGHT} - {LEFT} + {FINAL} == {RIGHT, FINAL};
    SameFiles(Replace(F13(), 2, {SECOND}, {LEFT}, {FINAL}), F14());
  }

  // The states of the run.

  function S0(): State {
    State({}, None, F0(), 0, [], 2, [Log(1, [])], 1, 0, 2, [], [], {}, {})
  }

  function S1(): State {
    State({}, None, F0(), 0, [], 2, [Log(1, [[PUT_A, PUT_B]])], 1, 0, 2, [PUT_A, PUT_B], [], {}, {})
  }

  function S2(): State {
    State({PUT_A, PUT_B}, None, F0(), 2, [], 2, [Log(1, [[PUT_A, PUT_B]])], 1, 0, 2, [], [], {}, {PUT_A, PUT_B})
  }

  function S3(): State {
    State({PUT_A, PUT_B}, None, F0(), 2, [2], 2, [Log(1, [[PUT_A, PUT_B]])], 1, 0, 2, [], [], {}, {PUT_A, PUT_B})
  }

  function S4(): State {
    State({PUT_A, PUT_B}, None, F0(), 2, [2], 2, [Log(1, [[PUT_A, PUT_B], [DELETE_B]])], 1, 0, 2, [DELETE_B], [], {},
      {PUT_A, PUT_B})
  }

  function S5(): State {
    State({PUT_A, PUT_B, DELETE_B}, None, F0(), 3, [2], 2, [Log(1, [[PUT_A, PUT_B], [DELETE_B]])], 1, 0, 2, [], [], {},
          {PUT_A, PUT_B, DELETE_B})
  }

  function S6(): State {
    State({}, Some({PUT_A, PUT_B, DELETE_B}), F0(), 3, [2], 3, [Log(1, [[PUT_A, PUT_B], [DELETE_B]]), Log(2, [])], 1, 0,
      2, [], [], {},
          {PUT_A, PUT_B, DELETE_B})
  }

  function S7(): State {
    State({}, None, F7(), 3, [2], 4, [Log(1, [[PUT_A, PUT_B], [DELETE_B]]), Log(2, [])], 2, 3, 4, [], [], {3},
          {PUT_A, PUT_B, DELETE_B})
  }

  function S8(): State {
    State({}, None, F8(), 3, [2], 6, [Log(1, [[PUT_A, PUT_B], [DELETE_B]]), Log(2, [])], 2, 3, 6, [], [], {3, 4, 5},
          {PUT_A, PUT_B, DELETE_B})
  }

  function S9(): State {
    State({}, None, F8(), 3, [], 6, [Log(1, [[PUT_A, PUT_B], [DELETE_B]]), Log(2, [])], 2, 3, 6, [], [], {3, 4, 5},
          {PUT_A, PUT_B, DELETE_B})
  }

  function S10(): State {
    State({}, None, F8(), 3, [], 6, [Log(1, [[PUT_A, PUT_B], [DELETE_B]]), Log(2, [[PUT_A2]])], 2, 3, 6, [PUT_A2], [],
      {3, 4, 5},
          {PUT_A, PUT_B, DELETE_B})
  }

  function S11(): State {
    State({PUT_A2}, None, F8(), 4, [], 6, [Log(1, [[PUT_A, PUT_B], [DELETE_B]]), Log(2, [[PUT_A2]])], 2, 3, 6, [], [],
      {3, 4, 5},
          {PUT_A, PUT_B, DELETE_B, PUT_A2})
  }

  function S12(): State {
    State({}, Some({PUT_A2}), F8(), 4, [], 7, [Log(1, [[PUT_A, PUT_B], [DELETE_B]]), Log(2, [[PUT_A2]]), Log(6, [])], 2,
      3, 6,
          [], [], {3, 4, 5}, {PUT_A, PUT_B, DELETE_B, PUT_A2})
  }

  function S13(): State {
    State({}, None, F13(), 4, [], 8, [Log(1, [[PUT_A, PUT_B], [DELETE_B]]), Log(2, [[PUT_A2]]), Log(6, [])], 6, 4, 8,
          [], [], {3, 4, 5, 7}, {PUT_A, PUT_B, DELETE_B, PUT_A2})
  }

  function S14(): State {
    State({}, None, F14(), 4, [], 9, [Log(1, [[PUT_A, PUT_B], [DELETE_B]]), Log(2, [[PUT_A2]]), Log(6, [])], 6, 4, 9,
          [], [], {3, 4, 5, 7, 8}, {PUT_A, PUT_B, DELETE_B, PUT_A2})
  }

  function States(): seq<State> {
    [S0(), S1(), S2(), S3(), S4(), S5(), S6(), S7(), S8(), S9(), S10(), S11(), S12(), S13(), S14()]
  }

  function Steps(): seq<Step> {
    [LogGroupStep([PUT_A, PUT_B]), PublishStep, TakeSnapshotStep, LogGroupStep([DELETE_B]), PublishStep, RotateStep,
     FlushStep(FIRST, 2), CompactStep(2, {FIRST}, {}, KEY_A, KEY_B, {LEFT, RIGHT}, 6), ReleaseSnapshotStep(0),
     LogGroupStep([PUT_A2]), PublishStep, RotateStep, FlushStep(SECOND, 2),
     CompactStep(2, {SECOND}, {LEFT}, KEY_A, KEY_A, {FINAL}, 9)]
  }

  lemma Writing()
    ensures LogGroup(S0(), S1(), [PUT_A, PUT_B]) && Publish(S1(), S2()) && TakeSnapshot(S2(), S3())
    ensures LogGroup(S3(), S4(), [DELETE_B]) && Publish(S4(), S5()) && Rotate(S5(), S6())
  {
    assert EntrySet([PUT_A, PUT_B]) == {PUT_A, PUT_B} && EntrySet([DELETE_B]) == {DELETE_B};
    assert [] + [[PUT_A, PUT_B]] == [[PUT_A, PUT_B]];
    assert [[PUT_A, PUT_B]] + [[DELETE_B]] == [[PUT_A, PUT_B], [DELETE_B]];
    assert S1().logs == S0().logs[0 := Log(1, [[PUT_A, PUT_B]])]
      && S4().logs == S3().logs[0 := Log(1, [[PUT_A, PUT_B], [DELETE_B]])];
    assert S6().logs == S5().logs + [Log(2, [])];
    assert S3().snapshots == S2().snapshots + [2];
    assert {} + {PUT_A, PUT_B} == {PUT_A, PUT_B} && {PUT_A, PUT_B} + {DELETE_B} == {PUT_A, PUT_B, DELETE_B};
  }

  lemma WritingAgain()
    ensures Store.ReleaseSnapshot(S8(), S9(), 0)
    ensures LogGroup(S9(), S10(), [PUT_A2]) && Publish(S10(), S11()) && Rotate(S11(), S12())
  {
    assert EntrySet([PUT_A2]) == {PUT_A2};
    assert [] + [[PUT_A2]] == [[PUT_A2]];
    assert S10().logs == S9().logs[1 := Log(2, [[PUT_A2]])];
    assert S12().logs == S11().logs + [Log(6, [])];
    assert S9().snapshots == S8().snapshots[..0] + S8().snapshots[1..];
    assert {} + {PUT_A2} == {PUT_A2} && {PUT_A, PUT_B, DELETE_B} + {PUT_A2} == {PUT_A, PUT_B, DELETE_B, PUT_A2};
  }

  lemma FlushFirst()
    ensures Flush(S6(), S7(), FIRST, 2)
  {
    FilesAlong();
    assert EntrySet(FIRST.entries) == {PUT_A, DELETE_B, PUT_B};
  }

  /** The held snapshot 2 keeps every entry. */
  lemma KeptFirst()
    ensures Kept(F7(), 2, {PUT_A, DELETE_B, PUT_B}, 2) == {PUT_A, DELETE_B, PUT_B}
  {
    assert forall e :: e in {PUT_A, DELETE_B, PUT_B} ==> !Hidden({PUT_A, DELETE_B, PUT_B}, 2, e);
  }

  lemma ContentsOne(f: File)
    ensures Contents({f}) == EntrySet(f.entries)
  {
  }

  lemma ContentsTwo(f: File, g: File)
    ensures Contents({f, g}) == EntrySet(f.entries) + EntrySet(g.entries)
  {
    assert f in {f, g} && g in {f, g};
  }

  lemma OutputsFirst()
    ensures Outputs(F7(), {LEFT, RIGHT}, {PUT_A, DELETE_B, PUT_B})
  {
    ContentsTwo(LEFT, RIGHT);
    assert EntrySet(LEFT.entries) == {PUT_A, DELETE_B} && EntrySet(RIGHT.entries) == {PUT_B};
    assert Apart(LEFT, RIGHT) && Apart(RIGHT, LEFT) && !SameNumber(LEFT, RIGHT) && !SameNumber(RIGHT, LEFT);
  }

  lemma ChosenFirst()
    ensures Chosen(F7(), 2, {FIRST}, {}, KEY_A, KEY_B)
  {
  }

  lemma CompactFirstState()
    ensures S8() == Manifest(S7().(nextFile := 6), Replace(S7().files, 2, {FIRST}, {}, {LEFT, RIGHT}))
                      .(tables := S7().tables + (set o | o in {LEFT, RIGHT} :: o.number))
  {
    FilesAlong();
    assert LEFT in {LEFT, RIGHT} && RIGHT in {LEFT, RIGHT};
    assert (set o | o in {LEFT, RIGHT} :: o.number) == {4, 5};
    assert {3} + {4, 5} == {3, 4, 5};
  }

  lemma CompactFirst()
    ensures Compact(S7(), S8(), 2, {FIRST}, {}, KEY_A, KEY_B, {LEFT, RIGHT}, 6)
  {
    CompactFirstState();
    ContentsOne(FIRST);
    assert {FIRST} + {} == {FIRST} && EntrySet(FIRST.entries) == {PUT_A, DELETE_B, PUT_B};
    KeptFirst();
    OutputsFirst();
    ChosenFirst();
  }

  lemma FlushSecond()
    ensures Flush(S12(), S13(), SECOND, 2)
  {
    FilesAlong();
    assert EntrySet(SECOND.entries) == {PUT_A2};
    assert LevelFree(F8(), 2, SECOND);
  }

  /** With no snapshot left, rule (A) drops the old value of KEY_A and rule (B) the
      tombstone of KEY_B. */
  lemma KeptSecond()
    ensures Kept(F13(), 2, {PUT_A2, PUT_A, DELETE_B}, 4) == {PUT_A2}
  {
    var ins := {PUT_A2, PUT_A, DELETE_B};
    assert PUT_A2 in ins;
    assert Hidden(ins, 4, PUT_A) && !Hidden(ins, 4, PUT_A2);
    assert Base(F13(), 2, KEY_B);
    assert Dropped(F13(), 2, ins, 4, DELETE_B) && Dropped(F13(), 2, ins, 4, PUT_A)
      && !Dropped(F13(), 2, ins, 4, PUT_A2);
  }

  lemma OutputsSecond()
    ensures Outputs(F13(), {FINAL}, {PUT_A2})
  {
    ContentsOne(FINAL);
    assert EntrySet(FINAL.entries) == {PUT_A2};
  }

  /** The file RIGHT, which begins with the user key LEFT ends with, does not
      overlap KEY_A .. KEY_A and so is not an input. */
  lemma ChosenSecond()
    ensures Chosen(F13(), 2, {SECOND}, {LEFT}, KEY_A, KEY_A) && !BoundaryClosed(F13(), 2, {LEFT})
  {
    assert LEFT in {LEFT} && RIGHT in F13()[3];
  }

  lemma CompactSecondState()
    ensures S14() == Manifest(S13().(nextFile := 9), Replace(S13().files, 2, {SECOND}, {LEFT}, {FINAL}))
                       .(tables := S13().tables + (set o | o in {FINAL} :: o.number))
  {
    FilesAlong();
    assert (set o | o in {FINAL} :: o.number) == {8};
    assert {3, 4, 5, 7} + {8} == {3, 4, 5, 7, 8};
  }

  lemma InputsSecond()
    ensures Contents({SECOND} + {LEFT}) == {PUT_A2, PUT_A, DELETE_B}
  {
    ContentsTwo(SECOND, LEFT);
    assert {SECOND} + {LEFT} == {SECOND, LEFT};
    assert EntrySet(SECOND.entries) == {PUT_A2} && EntrySet(LEFT.entries) == {PUT_A, DELETE_B};
  }

  lemma CompactSecond()
    ensures Compact(S13(), S14(), 2, {SECOND}, {LEFT}, KEY_A, KEY_A, {FINAL}, 9)
  {
    CompactSecondState();
    InputsSecond();
    KeptSecond();
    OutputsSecond();
    ChosenSecond();
  }

  lemma StoredAtEnd()
    ensures InFiles(F14()) == {PUT_B, PUT_A2}
  {
    assert RIGHT in F14()[3] && FINAL in F14()[3];
    assert PUT_B in RIGHT.entries && PUT_A2 in FINAL.entries;
  }

  lemma FirstStep(i: nat)
    requires i < 6
    ensures Next(States()[i], States()[i + 1], Steps()[i])
  {
    Writing();
  }

  lemma EarlyStep(i: nat)
    requires 6 <= i < 8
    ensures Next(States()[i], States()[i + 1], Steps()[i])
  {
    if i == 6 {
      FlushFirst();
    } else {
      CompactFirst();
    }
  }

  lemma LateStep(i: nat)
    requires 8 <= i < 14
    ensures Next(States()[i], States()[i + 1], Steps()[i])
  {
    if i < 12 {
      WritingAgain();
    } else if i == 12 {
      FlushSecond();
    } else {
      CompactSecond();
    }
  }

  lemma ReadsAtEnd()
    ensures Lookup(S14().written, KEY_B, 4) == None && Lookup(All(S14()), KEY_B, 4) == Some([2])
  {
    StoredAtEnd();
    assert All(S14()) == {PUT_B, PUT_A2};
    LookupIs(S14().written, KEY_B, 4, DELETE_B);
    LookupIs({PUT_B, PUT_A2}, KEY_B, 4, PUT_B);
  }

  lemma RunOfSteps()
    ensures Run(States(), Steps())
  {
    forall i | 0 <= i < |Steps()| ensures Next(States()[i], States()[i + 1], Steps()[i]) {
      if i < 6 { FirstStep(i); } else if i < 8 { EarlyStep(i); } else { LateStep(i); }
    }
  }

  /** A run of the store as coded after which a deleted key reads as present. */
  lemma DeletedValueCanReturn()
    ensures Run(States(), Steps()) && !SafeRun(States(), Steps(), KEY_B)
    ensures KEY_B == Rank([2]) && States()[14].lastSeq == 4 && States()[14].snapshots == []
    ensures Lookup(States()[14].written, KEY_B, 4) == None && Lookup(All(States()[14]), KEY_B, 4) == Some([2])
  {
    RunOfSteps();
    ReadsAtEnd();
    KeysAreBytes();
    NotFaithful(S14());
    RunExact(States(), Steps(), KEY_B);
    assert States()[14] == S14();
  }

  lemma NotFaithful(s: State)
    requires OldestSnapshot(s) <= 4 && Lookup(s.written, KEY_B, 4) != Lookup(All(s), KEY_B, 4)
    ensures !Faithful(s, KEY_B)
  {
  }
}
