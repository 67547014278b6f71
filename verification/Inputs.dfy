/** How a compaction chooses its inputs: version_set.cc, lines 1202-1224 and
    1270-1495. */
module Inputs {
  import opened Keys
  import opened Reads
  import opened Levels
  import opened FileSearch

  /** A version's file lists; levels 1 and up are kept in order. */
  type FileLists = seq<seq<File>>

  function ToSet(fs: seq<File>): set<File> {
    set f | f in fs
  }

  ghost function Abs(v: FileLists): Files {
    seq(|v|, l requires 0 <= l < |v| => ToSet(v[l]))
  }

  ghost predicate Rep(v: FileLists) {
    && |v| == LEVELS
    && (forall l, f :: 0 <= l < LEVELS && f in v[l] ==> ValidFile(f))
    && (forall l :: 1 <= l < LEVELS ==> SortedLevel(v[l]))
  }

  /** VersionSet::GetRange. */
  method GetRange(inputs: seq<File>) returns (smallest: IKey, largest: IKey)
    requires |inputs| > 0
    ensures forall f :: f in inputs ==> !Less(f.smallest, smallest) && !Less(largest, f.largest)
    ensures (exists f :: f in inputs && f.smallest == smallest) && (exists f :: f in inputs && f.largest == largest)
  {
    smallest, largest := inputs[0].smallest, inputs[0].largest;
    for i := 1 to |inputs|
      invariant forall j :: 0 <= j < i ==> !Less(inputs[j].smallest, smallest) && !Less(largest, inputs[j].largest)
      invariant (exists f :: f in inputs && f.smallest == smallest) && (exists f :: f in inputs && f.largest == largest)
    {
      if Less(inputs[i].smallest, smallest) {
        smallest := inputs[i].smallest;
      }
      if Less(largest, inputs[i].largest) {
        largest := inputs[i].largest;
      }
    }
  }

  method FindLargestKey(files: seq<File>) returns (largest: Option<IKey>)
    ensures largest == None <==> files == []
    ensures largest.Some? ==> forall f :: f in files ==> !Less(largest.value, f.largest)
    ensures largest.Some? ==> exists f :: f in files && f.largest == largest.value
  {
    if |files| == 0 {
      return None;
    }
    var k := files[0].largest;
    for i := 1 to |files|
      invariant forall j :: 0 <= j < i ==> !Less(k, files[j].largest)
      invariant exists f :: f in files && f.largest == k
    {
      if Less(k, files[i].largest) {
        k := files[i].largest;
      }
    }
    return Some(k);
  }

  /** f begins just after key k, with the same user key. */
  predicate IsBoundary(f: File, k: IKey) {
    Less(k, f.smallest) && f.smallest.user == k.user
  }

  method FindSmallestBoundaryFile(levelFiles: seq<File>, k: IKey) returns (r: Option<File>)
    ensures r == None ==> forall f :: f in levelFiles ==> !IsBoundary(f, k)
    ensures r.Some? ==> r.value in levelFiles && IsBoundary(r.value, k)
    ensures r.Some? ==> forall f :: f in levelFiles && IsBoundary(f, k) ==> !Less(f.smallest, r.value.smallest)
  {
    r := None;
    for i := 0 to |levelFiles|
      invariant r == None ==> forall j :: 0 <= j < i ==> !IsBoundary(levelFiles[j], k)
      invariant r.Some? ==> r.value in levelFiles && IsBoundary(r.value, k)
      invariant r.Some? ==> forall j :: 0 <= j < i && IsBoundary(levelFiles[j], k) ==>
                  !Less(levelFiles[j].smallest, r.value.smallest)
    {
      var f := levelFiles[i];
      if IsBoundary(f, k) {
        if r == None || Less(f.smallest, r.value.smallest) {
          r := Some(f);
        }
      }
    }
  }

  /** Files beginning after k: bounds the search for boundary files. */
  function Beyond(files: seq<File>, k: IKey): nat {
    if files == [] then 0 else Beyond(files[1..], k) + if Less(k, files[0].smallest) then 1 else 0
  }

  lemma {:induction false} BeyondShrinks(files: seq<File>, k: IKey, k': IKey)
    requires Less(k, k')
    ensures Beyond(files, k') <= Beyond(files, k)
    ensures (exists f :: f in files && Less(k, f.smallest) && !Less(k', f.smallest)) ==>
              Beyond(files, k') < Beyond(files, k)
  {
    if files != [] {
      BeyondShrinks(files[1..], k, k');
      assert files == [files[0]] + files[1..];
    }
  }

  /** fs is the stretch of an ordered level from position a on. */
  ghost predicate IsRun(level: seq<File>, a: nat, fs: seq<File>) {
    a + |fs| <= |level| && fs == level[a..a + |fs|]
  }

  /** In an ordered level the file after a run is the first one beyond it. */
  lemma NextInRun(level: seq<File>, a: nat, fs: seq<File>, f: File)
    requires SortedLevel(level) && IsRun(level, a, fs) && |fs| > 0
    requires f in level && IsBoundary(f, fs[|fs| - 1].largest)
    requires forall g :: g in level && IsBoundary(g, fs[|fs| - 1].largest) ==> !Less(g.smallest, f.smallest)
    ensures IsRun(level, a, fs + [f])
  {
    var c := a + |fs|;
    assert fs[|fs| - 1] == level[c - 1];
    forall j | 0 <= j < c ensures !Less(level[c - 1].largest, level[j].smallest) {
      Bounded(level[j], level[j].entries[0]);
    }
    var i :| 0 <= i < |level| && level[i] == f;
    assert c <= i;
    forall j | c < j < |level|
      ensures Less(level[c].smallest, level[j].smallest)
      ensures IsBoundary(level[j], level[c - 1].largest) ==> IsBoundary(level[c], level[c - 1].largest)
    {
      Bounded(level[c], level[c].entries[0]);
    }
    assert i == c;
    assert level[a..c + 1] == level[a..c] + [level[c]];
  }

  /** When the level is ordered, fs is the run of it that begins at `at`. */
  ghost predicate RunAt(level: seq<File>, at: Option<nat>, fs: seq<File>) {
    at.Some? ==> SortedLevel(level) && IsRun(level, at.value, fs)
  }

  /** No file outside fs begins with a user key a file of fs ends with. */
  ghost predicate Isolated(level: seq<File>, fs: seq<File>) {
    forall f, g :: f in fs && g in level && g.smallest.user == f.largest.user ==> g in fs
  }

  /** f has the largest key of fs. */
  ghost predicate IsLast(fs: seq<File>, f: File) {
    f in fs && forall g :: g in fs ==> !Less(f.largest, g.largest)
  }

  lemma ExtendRun(level: seq<File>, at: Option<nat>, fs: seq<File>, last: File, f: File)
    requires RunAt(level, at, fs) && IsLast(fs, last) && f in level && IsBoundary(f, last.largest)
    requires forall g :: g in level && IsBoundary(g, last.largest) ==> !Less(g.smallest, f.smallest)
    ensures RunAt(level, at, fs + [f])
  {
    if at.Some? {
      LastOfRun(level, at.value, fs, last);
      NextInRun(level, at.value, fs, f);
    }
  }

  lemma ExtendLast(fs: seq<File>, last: File, f: File)
    requires IsLast(fs, last) && ValidFile(f) && IsBoundary(f, last.largest)
    ensures IsLast(fs + [f], f) && f !in fs && Less(last.largest, f.largest) && !Less(f.largest, f.smallest)
  {
    Bounded(f, f.entries[0]);
  }

  /** AddBoundaryInputs.  When the chosen files are a run of an ordered level
      (from position `at`), so are the extended ones. */
  method AddBoundaryInputs(levelFiles: seq<File>, compactionFiles: seq<File>, ghost at: Option<nat>)
    returns (r: seq<File>, ghost last: File)
    requires forall f :: f in levelFiles ==> ValidFile(f)
    requires compactionFiles != [] && forall f :: f in compactionFiles ==> f in levelFiles
    requires RunAt(levelFiles, at, compactionFiles)
    ensures compactionFiles <= r && forall f :: f in r ==> f in levelFiles
    ensures RunAt(levelFiles, at, r)
    ensures IsLast(r, last) && forall g :: g in levelFiles ==> !IsBoundary(g, last.largest)
    ensures Isolated(levelFiles, compactionFiles) ==> r == compactionFiles
  {
    r := compactionFiles;
    var found := FindLargestKey(compactionFiles);
    last :| last in r && last.largest == found.value;
    var largestKey := found.value;
    var continueSearching := true;
    while continueSearching
      invariant compactionFiles <= r && forall f :: f in r ==> f in levelFiles
      invariant IsLast(r, last) && last.largest == largestKey
      invariant RunAt(levelFiles, at, r)
      invariant !continueSearching ==> forall g :: g in levelFiles ==> !IsBoundary(g, largestKey)
      invariant Isolated(levelFiles, compactionFiles) ==> r == compactionFiles
      decreases continueSearching, Beyond(levelFiles, largestKey)
    {
      var b := FindSmallestBoundaryFile(levelFiles, largestKey);
      if b.Some? {
        ExtendRun(levelFiles, at, r, last, b.value);
        ExtendLast(r, last, b.value);
        BeyondShrinks(levelFiles, largestKey, b.value.largest);
        r := r + [b.value];
        largestKey := b.value.largest;
        last := b.value;
      } else {
        continueSearching := false;
      }
    }
  }

  lemma LastOfRun(level: seq<File>, a: nat, fs: seq<File>, f: File)
    requires SortedLevel(level) && IsRun(level, a, fs) && |fs| > 0
    requires f in fs && forall g :: g in fs ==> !Less(f.largest, g.largest)
    ensures fs[|fs| - 1] == f
  {
    assert fs[|fs| - 1] in fs;
    forall i | 0 <= i < |fs| - 1 ensures Less(fs[i].largest, fs[|fs| - 1].largest) {
      SortedLargest(level, a + i, a + |fs| - 1);
    }
  }
}
