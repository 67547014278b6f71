/** VersionSet::MakeInputIterator: a compaction reads its inputs through a merging
    iterator over the level-0 files, each by itself, and over each other level as
    the concatenation of its files (version_set.cc). */
module InputMerge {
  import opened Keys
  import opened Coding
  import opened Reads
  import opened Cursors
  import opened Levels
  import opened Drops
  import opened FileSearch
  import opened Inputs
  import opened Setup
  import opened Edits
  import opened Db
  import opened TwoLevel
  import opened IteratorWrapper
  import opened Merger
  import opened CompactionJob

  lemma ConcatContents(fs: seq<File>)
    ensures EntrySet(Concat(fs)) == Contents(ToSet(fs))
  {
    forall e ensures e in Concat(fs) <==> e in Contents(ToSet(fs)) {
      ConcatMembers(fs, e);
    }
  }

  /** Files in key order, one after another, are entries in key order. */
  lemma {:induction false} ConcatSorted(fs: seq<File>)
    requires SortedLevel(fs)
    ensures SortedEntries(Concat(fs))
    ensures fs != [] ==> forall e :: e in Concat(fs) ==> !Less(fs[|fs| - 1].largest, e.k)
  {
    if fs != [] {
      var n := |fs| - 1;
      ConcatSorted(fs[..n]);
      var front, last := Concat(fs[..n]), fs[n];
      forall e | e in last.entries ensures !Less(e.k, last.smallest) && !Less(last.largest, e.k) {
        Bounded(last, e);
      }
      forall e | e in front ensures Less(e.k, last.smallest) && !Less(last.largest, e.k) {
        assert n > 0 && !Less(fs[n - 1].largest, e.k);
        Bounded(last, last.entries[0]);
      }
      Joined(front, last.entries, last.smallest);
    }
  }

  lemma Joined(a: seq<Entry>, b: seq<Entry>, k: IKey)
    requires SortedEntries(a) && SortedEntries(b)
    requires (forall e :: e in a ==> Less(e.k, k)) && forall e :: e in b ==> !Less(e.k, k)
    ensures SortedEntries(a + b)
  {
    var c := a + b;
    forall i, j | 0 <= i < j < |c| ensures Less(c[i].k, c[j].k) {
      if i < |a| <= j {
        assert c[i] in a && c[j] in b;
      }
    }
  }

  // ---------- a level as a two-level iterator ----------

  /** LevelFileNumIterator: for each file, its largest key and the handle it is opened by. */
  function LevelIndex(fs: seq<File>, handle: File -> Bytes): (index: seq<Entry>)
    ensures |index| == |fs| && forall i :: 0 <= i < |fs| ==> index[i] == Entry(fs[i].largest, handle(fs[i]))
  {
    seq(|fs|, i requires 0 <= i < |fs| => Entry(fs[i].largest, handle(fs[i])))
  }

  lemma {:induction false} LevelFlat(fs: seq<File>, handle: File -> Bytes, read: Bytes -> seq<Entry>, n: nat)
    requires n <= |fs| && forall f :: f in fs ==> read(handle(f)) == f.entries
    ensures Flat(LevelIndex(fs, handle), read, n) == Concat(fs[..n])
  {
    if n > 0 {
      LevelFlat(fs, handle, read, n - 1);
      assert fs[..n][..n - 1] == fs[..n - 1] && fs[n - 1] in fs;
    }
  }

  lemma LevelIndexSorted(fs: seq<File>, handle: File -> Bytes)
    requires SortedLevel(fs)
    ensures SortedEntries(LevelIndex(fs, handle))
  {
    forall i, j | 0 <= i < j < |fs| ensures Less(fs[i].largest, fs[j].largest) {
      SortedLargest(fs, i, j);
    }
  }

  lemma LevelIndexBounds(fs: seq<File>, index: seq<Entry>, read: Bytes -> seq<Entry>)
    requires SortedLevel(fs) && |index| == |fs|
    requires forall i :: 0 <= i < |fs| ==> index[i].k == fs[i].largest && read(index[i].value) == fs[i].entries
    ensures forall i, e :: 0 <= i < |index| && e in read(index[i].value) ==> !Less(index[i].k, e.k)
    ensures forall i, j, e :: 0 <= i < j < |index| && e in read(index[j].value) ==> Less(index[i].k, e.k)
  {
    forall j | 0 <= j < |fs|
      ensures forall e :: e in read(index[j].value) ==> !Less(index[j].k, e.k) && forall i :: 0 <= i < j ==>
                Less(index[i].k, e.k)
    {
      LevelBounds(fs, j);
    }
  }

  /** The index of an ordered level bounds its files, so the two-level iterator over
      it, Seek included, is a cursor over the level's entries in key order. */
  lemma LevelIsIndexed(fs: seq<File>, handle: File -> Bytes, read: Bytes -> seq<Entry>)
    requires SortedLevel(fs) && forall f :: f in fs ==> read(handle(f)) == f.entries
    ensures var index := LevelIndex(fs, handle);
            Indexed(index, read) && Flat(index, read, |index|) == Concat(fs)
  {
    var index := LevelIndex(fs, handle);
    LevelFlat(fs, handle, read, |fs|);
    assert fs[..|fs|] == fs;
    ConcatSorted(fs);
    LevelIndexSorted(fs, handle);
    forall i | 0 <= i < |fs| ensures index[i].k == fs[i].largest && read(index[i].value) == fs[i].entries {
      assert fs[i] in fs;
    }
    LevelIndexBounds(fs, index, read);
  }

  lemma LevelBounds(fs: seq<File>, j: nat)
    requires SortedLevel(fs) && j < |fs|
    ensures forall e :: e in fs[j].entries ==> !Less(fs[j].largest, e.k) && forall i :: 0 <= i < j ==>
              Less(fs[i].largest, e.k)
  {
    forall e | e in fs[j].entries ensures !Less(fs[j].largest, e.k) && !Less(e.k, fs[j].smallest) {
      Bounded(fs[j], e);
    }
  }

  /** The handle by which the table cache finds a file. */
  function Handle(f: File): Bytes {
    Varint(f.number)
  }

  lemma {:induction false} VarintInjective(m: nat, n: nat)
    requires Varint(m) == Varint(n)
    ensures m == n
  {
    VarintHead(m, []);
    VarintHead(n, []);
    assert Varint(m) + [] == Varint(m) && Varint(n) + [] == Varint(n);
    if m >= 128 {
      VarintInjective(m / 128, n / 128);
      assert Varint(m / 128) + [] == Varint(m / 128) && Varint(n / 128) + [] == Varint(n / 128);
    }
  }

  /** GetFileIterator: the table that a handle names. */
  function OpenTable(fs: seq<File>, handle: Bytes): seq<Entry> {
    if fs == [] then [] else if Handle(fs[0]) == handle then fs[0].entries else OpenTable(fs[1..], handle)
  }

  ghost predicate NumbersApart(fs: seq<File>) {
    forall f, g :: f in fs && g in fs && f.number == g.number ==> f == g
  }

  lemma {:induction false} TableFound(fs: seq<File>, f: File)
    requires NumbersApart(fs) && f in fs
    ensures OpenTable(fs, Handle(f)) == f.entries
  {
    if Handle(fs[0]) == Handle(f) {
      VarintInjective(fs[0].number, f.number);
    } else {
      TableFound(fs[1..], f);
    }
  }

  lemma TablesFound(fs: seq<File>, read: Bytes -> seq<Entry>)
    requires SortedLevel(fs) && NumbersApart(fs) && read == (h => OpenTable(fs, h))
    ensures forall f :: f in fs ==> read(Handle(f)) == f.entries && SortedEntries(f.entries)
  {
    forall f | f in fs ensures OpenTable(fs, Handle(f)) == f.entries {
      TableFound(fs, f);
    }
  }

  /** Version::NewConcatenatingIterator. */
  method NewConcatenatingIterator(fs: seq<File>) returns (level: Child)
    requires SortedLevel(fs) && NumbersApart(fs)
    ensures level.Is(Concat(fs), |Concat(fs)|) && fresh(level.Repr())
  {
    var read := h => OpenTable(fs, h);
    var index := LevelIndex(fs, Handle);
    TablesFound(fs, read);
    LevelIsIndexed(fs, Handle, read);
    forall i | 0 <= i < |fs| ensures SortedEntries(read(index[i].value)) {
      assert fs[i] in fs;
    }
    level := NewTwoLevelIterator(index, read, Concat(fs));
  }

  // ---------- many sources merged ----------

  /** A memtable or one table, or the files of a level. */
  datatype Source = Run(es: seq<Entry>) | LevelOf(fs: seq<File>)

  function Read(s: Source): seq<Entry> {
    match s
    case Run(es) => es
    case LevelOf(fs) => Concat(fs)
  }

  ghost predicate Openable(s: Source) {
    match s
    case Run(es) => SortedEntries(es)
    case LevelOf(fs) => SortedLevel(fs) && NumbersApart(fs)
  }

  function Lists(ss: seq<Source>): (lists: seq<seq<Entry>>)
    ensures |lists| == |ss| && forall i :: 0 <= i < |ss| ==> lists[i] == Read(ss[i])
  {
    seq(|ss|, i requires 0 <= i < |ss| => Read(ss[i]))
  }

  ghost function Union(ss: seq<Source>): set<Entry> {
    set i, e | 0 <= i < |ss| && e in Read(ss[i]) :: e
  }

  /** The sources can be opened, and no entry is in two of them. */
  ghost predicate Mergeable(ss: seq<Source>) {
    && (forall i :: 0 <= i < |ss| ==> Openable(ss[i]))
    && (forall i, j :: 0 <= i < j < |ss| ==> Merger.Apart(Read(ss[i]), Read(ss[j])))
  }

  lemma SourcesMerge(ss: seq<Source>, merged: seq<Entry>)
    requires Mergeable(ss) && SortedEntries(merged) && EntrySet(merged) == Union(ss)
    ensures Merges(Lists(ss), merged)
  {
    var lists := Lists(ss);
    forall i | 0 <= i < |lists| ensures Part(lists[i], merged) {
      SourcePart(ss, merged, i);
    }
    forall e | e in merged ensures exists es :: es in lists && e in es {
      assert e in EntrySet(merged);
      var i :| 0 <= i < |ss| && e in Read(ss[i]);
      assert lists[i] in lists;
    }
  }

  lemma SourcePart(ss: seq<Source>, merged: seq<Entry>, i: nat)
    requires i < |ss| && Openable(ss[i]) && SortedEntries(merged) && EntrySet(merged) == Union(ss)
    ensures Part(Read(ss[i]), merged)
  {
    if ss[i].LevelOf? {
      ConcatSorted(ss[i].fs);
    }
    forall e | e in Read(ss[i]) ensures e in merged {
      assert e in EntrySet(merged);
    }
  }

  /** Any finite set of entries that no two keys of coincide has a sorted list. */
  lemma {:induction false} SortSet(S: set<Entry>) returns (es: seq<Entry>)
    requires Distinct(S)
    ensures SortedEntries(es) && EntrySet(es) == S
  {
    if S == {} {
      es := [];
    } else {
      var e :| e in S;
      var rest := SortSet(S - {e});
      forall d | d in rest ensures d.k.user != e.k.user || d.k.sn != e.k.sn {
        assert d in EntrySet(rest);
      }
      MemInsertSorted(rest, e);
      es := MemInsert(rest, e);
      assert forall d :: d in es <==> d in EntrySet(rest) + {e};
    }
  }

  method Open(s: Source) returns (child: Child)
    requires Openable(s)
    ensures child.Is(Read(s), |Read(s)|) && fresh(child.Repr())
  {
    match s
    case Run(es) =>
      var cursor := new Cursor(es);
      child := List(cursor);
    case LevelOf(fs) =>
      child := NewConcatenatingIterator(fs);
  }

  /** NewMergingIterator over the sources: a cursor over all their entries in key order. */
  method NewMergingIterator(ss: seq<Source>, ghost merged: seq<Entry>) returns (it: MergingIterator)
    requires Mergeable(ss) && SortedEntries(merged) && EntrySet(merged) == Union(ss)
    ensures it.Good() && it.merged == merged && it.at == |merged| && fresh(it) && fresh(it.objects)
  {
    SourcesMerge(ss, merged);
    var children;
    ghost var objects;
    children, objects := OpenAll(ss);
    it := new MergingIterator(children, Lists(ss), Ends(ss), merged);
    assert it.objects <= objects;
  }

  function Ends(ss: seq<Source>): (ps: seq<nat>)
    ensures |ps| == |ss| && forall i :: 0 <= i < |ss| ==> ps[i] == |Read(ss[i])|
  {
    seq(|ss|, i requires 0 <= i < |ss| => |Read(ss[i])|)
  }

  /** The first children read the first sources, each with objects of its own. */
  ghost predicate Opened(children: seq<Child>, ss: seq<Source>, objects: set<object>)
    reads objects
  {
    && |children| <= |ss| && (forall i :: 0 <= i < |children| ==> children[i].Repr() <= objects)
    && (forall i, j :: 0 <= i < j < |children| ==> children[i].Repr() !! children[j].Repr())
    && (forall i {:trigger children[i].Is(Read(ss[i]), |Read(ss[i])|)} :: 0 <= i < |children| ==>
          children[i].Is(Read(ss[i]), |Read(ss[i])|))
  }

  lemma OneMore(children: seq<Child>, ss: seq<Source>, objects: set<object>, child: Child)
    requires Opened(children, ss, objects) && |children| < |ss| && child.Repr() !! objects
    requires child.Is(Read(ss[|children|]), |Read(ss[|children|])|)
    ensures Opened(children + [child], ss, objects + child.Repr())
  {
    var all := children + [child];
    forall i | 0 <= i < |all| ensures all[i].Is(Read(ss[i]), |Read(ss[i])|) && all[i].Repr() <= objects + child.Repr() {
      if i < |children| {
        assert children[i].Is(Read(ss[i]), |Read(ss[i])|);
      }
    }
  }

  method OpenAll(ss: seq<Source>) returns (children: seq<Child>, ghost objects: set<object>)
    requires forall i :: 0 <= i < |ss| ==> Openable(ss[i])
    ensures |children| == |ss| && Opened(children, ss, objects) && fresh(objects)
  {
    children, objects := [], {};
    for n := 0 to |ss|
      invariant |children| == n && Opened(children, ss, objects) && fresh(objects)
    {
      var child := Open(ss[n]);
      OneMore(children, ss, objects, child);
      children, objects := children + [child], objects + child.Repr();
    }
  }

  /** The merging iterator read from end to end. */
  method ReadMerged(it: MergingIterator) returns (input: seq<Entry>)
    requires it.Good()
    modifies it, it.objects
    ensures input == it.merged
  {
    ghost var merged := it.merged;
    it.SeekToFirst();
    input := [];
    while it.Valid()
      invariant it.Good() && it.at <= |merged| && input == merged[..it.at]
      decreases |merged| - it.at
    {
      var e := Take(it);
      input := input + [e];
    }
  }

  /** The current entry, then Next. */
  method Take(it: MergingIterator) returns (e: Entry)
    requires it.Good() && it.Valid()
    modifies it, it.objects
    ensures it.Good() && old(it.at) < |it.merged| && it.at == old(it.at) + 1 && e == it.merged[old(it.at)]
  {
    e := it.Current();
    it.Next();
  }

  // ---------- the inputs of a compaction ----------

  function FileSources(fs: seq<File>): (ss: seq<Source>)
    ensures |ss| == |fs| && forall i :: 0 <= i < |fs| ==> ss[i] == Run(fs[i].entries)
  {
    seq(|fs|, i requires 0 <= i < |fs| => Run(fs[i].entries))
  }

  function LevelSource(fs: seq<File>): seq<Source> {
    if fs == [] then [] else [LevelOf(fs)]
  }

  function InputSources(L: nat, in0: seq<File>, in1: seq<File>): seq<Source> {
    (if L == 0 then FileSources(in0) else LevelSource(in0)) + LevelSource(in1)
  }

  lemma UnionConcat(a: seq<Source>, b: seq<Source>)
    ensures Union(a + b) == Union(a) + Union(b)
  {
    var all := a + b;
    forall e | e in Union(a) ensures e in Union(all) {
      var i :| 0 <= i < |a| && e in Read(a[i]);
      assert e in Read(all[i]);
    }
    forall e | e in Union(b) ensures e in Union(all) {
      var i :| 0 <= i < |b| && e in Read(b[i]);
      assert e in Read(all[|a| + i]);
    }
    forall e | e in Union(all) ensures e in Union(a) + Union(b) {
      var i :| 0 <= i < |all| && e in Read(all[i]);
      assert i < |a| ==> e in Read(a[i]);
      assert i >= |a| ==> e in Read(b[i - |a|]);
    }
  }

  lemma MergeableConcat(a: seq<Source>, b: seq<Source>)
    requires Mergeable(a) && Mergeable(b) && Union(a) !! Union(b)
    ensures Mergeable(a + b)
  {
    forall i, j, e | 0 <= i < |a| && 0 <= j < |b| && e in Read(a[i]) ensures e !in Read(b[j]) {
      assert e in Union(a) && (e in Read(b[j]) ==> e in Union(b));
    }
  }

  lemma FilesUnion(fs: seq<File>)
    ensures Union(FileSources(fs)) == Contents(ToSet(fs))
  {
    forall e | e in Contents(ToSet(fs)) ensures e in Union(FileSources(fs)) {
      var f :| f in ToSet(fs) && e in f.entries;
      var i :| 0 <= i < |fs| && fs[i] == f;
      assert e in Read(FileSources(fs)[i]);
    }
    forall e | e in Union(FileSources(fs)) ensures e in Contents(ToSet(fs)) {
      var i :| 0 <= i < |fs| && e in Read(FileSources(fs)[i]);
      assert fs[i] in ToSet(fs);
    }
  }

  lemma LevelUnion(fs: seq<File>)
    ensures Union(LevelSource(fs)) == Contents(ToSet(fs))
  {
    ConcatContents(fs);
    var ss := LevelSource(fs);
    if fs != [] {
      assert ss[0] == LevelOf(fs);
      forall e | e in EntrySet(Concat(fs)) ensures e in Union(ss) {
        assert e in Read(ss[0]);
      }
      assert Union(ss) == EntrySet(Concat(fs));
    }
  }

  /** No entry is in two of the files. */
  ghost predicate NoneShared(fs: seq<File>) {
    forall i, j :: 0 <= i < j < |fs| ==> Merger.Apart(fs[i].entries, fs[j].entries)
  }

  /** Files of one level of a version, as they are merged. */
  ghost predicate Readable(L: nat, fs: seq<File>) {
    if L == 0 then NoneShared(fs) && forall f :: f in fs ==> ValidFile(f) else SortedLevel(fs) && NumbersApart(fs)
  }

  lemma LevelMergeable(L: nat, fs: seq<File>)
    requires Readable(L, fs)
    ensures var ss := if L == 0 then FileSources(fs) else LevelSource(fs);
            Mergeable(ss) && Union(ss) == Contents(ToSet(fs))
  {
    if L == 0 {
      FilesUnion(fs);
      forall i | 0 <= i < |fs| ensures SortedEntries(fs[i].entries) {
        assert fs[i] in fs;
      }
    } else {
      LevelUnion(fs);
    }
  }

  method MergeInputs(L: nat, in0: seq<File>, in1: seq<File>) returns (input: seq<Entry>)
    requires Readable(L, in0) && Readable(L + 1, in1) && Contents(ToSet(in0)) !! Contents(ToSet(in1))
    requires Distinct(Contents(ToSet(in0)) + Contents(ToSet(in1)))
    ensures SortedEntries(input) && EntrySet(input) == Contents(ToSet(in0)) + Contents(ToSet(in1))
  {
    ghost var a, b := if L == 0 then FileSources(in0) else LevelSource(in0), LevelSource(in1);
    LevelMergeable(L, in0);
    LevelMergeable(L + 1, in1);
    MergeableConcat(a, b);
    UnionConcat(a, b);
    ghost var merged := SortSet(Contents(ToSet(in0)) + Contents(ToSet(in1)));
    var it := NewMergingIterator(InputSources(L, in0, in1), merged);
    input := ReadMerged(it);
  }

  // ---------- the inputs a compaction chooses ----------

  ghost predicate NoRepeats(fs: seq<File>) {
    forall i, j :: 0 <= i < j < |fs| ==> fs[i] != fs[j]
  }

  lemma {:induction false} MeetingDistinct(files: seq<File>, lo: Bound, hi: Bound)
    requires Ascending(files)
    ensures NoRepeats(Meeting(files, lo, hi))
  {
    if files != [] {
      var n := |files| - 1;
      MeetingDistinct(files[..n], lo, hi);
      MeetingMembers(files[..n], lo, hi, files[n]);
      forall i | 0 <= i < n ensures files[i] != files[n] {
        assert BySmallest(files[i], files[n]);
      }
    }
  }

  /** No entry of a version is in two files, so the chosen inputs can be merged. */
  lemma InputsReady(v: FileLists, L: nat, in0: seq<File>, in1: seq<File>, lo: UserKey, hi: UserKey)
    requires Sound(v) && Ordered(v) && L + 1 < LEVELS && Chosen(Abs(v), L, ToSet(in0), ToSet(in1), lo, hi)
    requires InOrder(v, L, in0, in1)
    ensures Readable(L, in0) && Readable(L + 1, in1)
    ensures Contents(ToSet(in0)) !! Contents(ToSet(in1))
    ensures Contents(ToSet(in0)) + Contents(ToSet(in1)) == Contents(ToSet(in0) + ToSet(in1))
    ensures Distinct(Contents(ToSet(in0) + ToSet(in1)))
  {
    forall f | f in in0 ensures f in Abs(v)[L] && ValidFile(f) {
      assert f in ToSet(in0);
    }
    InputsApart(v, L, in0, in1);
    assert forall g :: g in in1 ==> g in ToSet(in1) && g in Abs(v)[L + 1];
    NumbersInLevel(v, L, in0);
    NumbersInLevel(v, L + 1, in1);
    if L == 0 {
      NoneSharedInPick(v, in0);
    }
    forall e | e in Contents(ToSet(in0) + ToSet(in1)) ensures e in InFiles(Abs(v)) {
      var l, f := InputHome(Abs(v), L, ToSet(in0), ToSet(in1), lo, hi, e);
    }
  }

  lemma InputsApart(v: FileLists, L: nat, in0: seq<File>, in1: seq<File>)
    requires Good(Abs(v)) && L + 1 < LEVELS
    requires ToSet(in0) <= Abs(v)[L] && ToSet(in1) <= Abs(v)[L + 1]
    ensures Contents(ToSet(in0)) !! Contents(ToSet(in1))
    ensures Contents(ToSet(in0)) + Contents(ToSet(in1)) == Contents(ToSet(in0) + ToSet(in1))
  {
    forall e | e in Contents(ToSet(in0)) && e in Contents(ToSet(in1)) ensures false {
      var f :| f in ToSet(in0) && e in f.entries;
      var g :| g in ToSet(in1) && e in g.entries;
      OneHome(Abs(v), L, f, L + 1, g, e);
    }
  }

  lemma NumbersInLevel(v: FileLists, l: nat, fs: seq<File>)
    requires Rep(v) && WellFormed(Abs(v)) && l < LEVELS && forall f :: f in fs ==> f in Abs(v)[l]
    ensures NumbersApart(fs)
  {
    forall f, g | f in fs && g in fs && f.number == g.number ensures f == g {
      assert SameNumber(f, g);
    }
  }

  lemma NoneSharedInPick(v: FileLists, in0: seq<File>)
    requires Sound(v) && Ordered(v) && ClosedPick(v[0], in0) && forall f :: f in in0 ==> f in Abs(v)[0]
    ensures NoneShared(in0)
  {
    var lo: Bound, hi: Bound :| Closed(v[0], lo, hi) && in0 == Meeting(v[0], lo, hi);
    MeetingDistinct(v[0], lo, hi);
    forall i, j | 0 <= i < j < |in0| ensures Merger.Apart(in0[i].entries, in0[j].entries) {
      var f, g := in0[i], in0[j];
      assert NoRepeats(in0) && f in in0 && g in in0;
      forall e | e in f.entries ensures e !in g.entries {
        if e in g.entries {
          OneHome(Abs(v), 0, f, 0, g, e);
        }
      }
    }
  }
}
