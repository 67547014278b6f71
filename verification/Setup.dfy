/** SetupOtherInputs, PickCompaction and CompactRange choose inputs that a
    compaction may safely merge: version_set.cc, lines 1270-1523. */
module Setup {
  import opened Keys
  import opened Reads
  import opened Levels
  import opened FileSearch
  import opened Inputs

  /** Everything the choice of inputs relies on. */
  ghost predicate Sound(v: FileLists) {
    Rep(v) && Good(Abs(v)) && Distinct(InFiles(Abs(v)))
  }

  /** A level-0 choice: all files that meet a range none of them sticks out of. */
  ghost predicate ClosedPick(level: seq<File>, fs: seq<File>) {
    exists lo: Bound, hi: Bound :: Closed(level, lo, hi) && fs == Meeting(level, lo, hi)
  }

  /** Files picked at level L: closed at level 0, a run (from `at`) above it. */
  ghost predicate Picked(v: FileLists, L: nat, fs: seq<File>, at: Option<nat>)
    requires Rep(v) && L < LEVELS
  {
    && fs != [] && (forall f :: f in fs ==> f in v[L])
    && (if L == 0 then at == None && ClosedPick(v[0], fs) else at.Some? && IsRun(v[L], at.value, fs))
  }

  /** Picked files no file of the level can share an older entry with. */
  ghost predicate Settled(v: FileLists, L: nat, fs: seq<File>, at: Option<nat>, last: File)
    requires Rep(v) && L < LEVELS
  {
    && Picked(v, L, fs, at) && IsLast(fs, last)
    && (forall g :: g in v[L] ==> !IsBoundary(g, last.largest))
  }

  /** Files outside a closed pick share no user key with it. */
  lemma ClosedPickApart(level: seq<File>, fs: seq<File>, f: File, g: File)
    requires ClosedPick(level, fs) && f in fs && g in level && g !in fs
    ensures g.largest.user < f.smallest.user || f.largest.user < g.smallest.user
  {
    var lo: Bound, hi: Bound :| Closed(level, lo, hi) && fs == Meeting(level, lo, hi);
    MeetingMembers(level, lo, hi, f);
    MeetingMembers(level, lo, hi, g);
  }

  lemma ClosedPickIsolated(level: seq<File>, fs: seq<File>)
    requires ClosedPick(level, fs) && forall f :: f in level ==> ValidFile(f)
    requires forall f :: f in fs ==> f in level
    ensures Isolated(level, fs)
  {
    forall f, g | f in fs && g in level && g.smallest.user == f.largest.user
      ensures g in fs
    {
      if g !in fs {
        ClosedPickApart(level, fs, f, g);
        Bounded(g, g.entries[0]);
        Bounded(f, f.entries[0]);
      }
    }
  }

  /** In one level, an entry that comes first in key order is the newer one. */
  lemma EarlierIsNewer(v: FileLists, L: nat, g: File, f: File)
    requires Sound(v) && L < LEVELS && g in v[L] && f in v[L] && Less(g.largest, f.smallest)
    ensures NewerFile(g, f)
  {
    forall a, b | a in g.entries && b in f.entries && a.k.user == b.k.user
      ensures a.k.sn > b.k.sn
    {
      Bounded(g, a);
      Bounded(f, b);
      assert g in Abs(v)[L] && f in Abs(v)[L];
      assert a in InFiles(Abs(v)) && b in InFiles(Abs(v));
    }
  }

  /** Past a run that no boundary file follows, user keys are strictly larger. */
  lemma AfterRun(level: seq<File>, a: nat, fs: seq<File>, last: File, j: nat)
    requires SortedLevel(level) && IsRun(level, a, fs) && IsLast(fs, last)
    requires forall g :: g in level ==> !IsBoundary(g, last.largest)
    requires a + |fs| <= j < |level|
    ensures last.largest.user < level[j].smallest.user
  {
    LastOfRun(level, a, fs, last);
    assert last == level[a + |fs| - 1] && level[j] in level;
    assert Less(last.largest, level[j].smallest);
  }

  /** A file before or after a settled run holds nothing older than it. */
  lemma RunNewer(v: FileLists, L: nat, a: nat, fs: seq<File>, last: File, j: nat, f: File)
    requires Sound(v) && 1 <= L < LEVELS && IsRun(v[L], a, fs) && IsLast(fs, last)
    requires forall g :: g in v[L] ==> !IsBoundary(g, last.largest)
    requires j < |v[L]| && (j < a || a + |fs| <= j) && f in fs
    ensures NewerFile(v[L][j], f)
  {
    var i :| 0 <= i < |fs| && fs[i] == f;
    assert f == v[L][a + i] && v[L][j] in v[L];
    if j < a {
      EarlierIsNewer(v, L, v[L][j], f);
    } else {
      AfterRun(v[L], a, fs, last, j);
      NoSharedUser(f, v[L][j], last);
    }
  }

  lemma NoSharedUser(f: File, g: File, last: File)
    requires ValidFile(f) && ValidFile(g) && !Less(last.largest, f.largest)
    requires last.largest.user < g.smallest.user
    ensures NewerFile(g, f)
  {
    forall a, b | a in g.entries && b in f.entries
      ensures a.k.user != b.k.user
    {
      Bounded(g, a);
      Bounded(f, b);
    }
  }

  lemma RunMember(level: seq<File>, a: nat, fs: seq<File>, j: nat)
    requires IsRun(level, a, fs)
    ensures a <= j < a + |fs| ==> level[j] in fs
  {
    if a <= j < a + |fs| {
      assert fs[j - a] == level[j];
    }
  }

  /** Settled files may leave their level: everything they share a user key with
      there is newer. */
  lemma SettledNewer(v: FileLists, L: nat, fs: seq<File>, at: Option<nat>, last: File, f: File, g: File)
    requires Sound(v) && L < LEVELS && Settled(v, L, fs, at, last)
    requires f in fs && g in v[L] && g !in fs
    ensures NewerFile(g, f)
  {
    if L == 0 {
      ClosedPickApart(v[0], fs, f, g);
      forall a, b | a in g.entries && b in f.entries
        ensures a.k.user != b.k.user
      {
        Bounded(g, a);
        Bounded(f, b);
      }
    } else {
      var j :| 0 <= j < |v[L]| && v[L][j] == g;
      RunMember(v[L], at.value, fs, j);
      RunNewer(v, L, at.value, fs, last, j, f);
    }
  }

  /** What the level L+1 search returns for the user-key range of the inputs. */
  lemma ChosenBySearch(v: FileLists, L: nat, fs: seq<File>, at: Option<nat>, last: File, lo: UserKey, hi: UserKey,
                       in1: seq<File>)
    requires Sound(v) && L + 1 < LEVELS && Settled(v, L, fs, at, last)
    requires forall f :: f in fs ==> lo <= f.smallest.user && f.largest.user <= hi
    requires in1 == Meeting(v[L + 1], Some(lo), Some(hi))
    ensures Chosen(Abs(v), L, ToSet(fs), ToSet(in1), lo, hi)
  {
    forall f, g | f in ToSet(fs) && g in Abs(v)[L] && g !in ToSet(fs)
      ensures NewerFile(g, f)
    {
      SettledNewer(v, L, fs, at, last, f, g);
    }
    forall g ensures g in ToSet(in1) <==> g in Abs(v)[L + 1] && Overlaps(g, lo, hi) {
      MeetingMembers(v[L + 1], Some(lo), Some(hi), g);
    }
    assert fs[0] in ToSet(fs);
  }

  /** In an ordered level, the files before `a` lie before the range, those from
      `c` on after it. */
  ghost predicate Splits(level: seq<File>, lo: Bound, hi: Bound, a: nat, c: nat) {
    && (forall i :: 0 <= i < |level| ==> (AfterFile(lo, level[i]) <==> i < a))
    && (forall i :: 0 <= i < |level| ==> (BeforeFile(hi, level[i]) <==> c <= i))
  }

  lemma SplitsExists(level: seq<File>, lo: Bound, hi: Bound) returns (a: nat, c: nat)
    requires SortedLevel(level)
    ensures a <= |level| && c <= |level| && Splits(level, lo, hi, a, c)
  {
    forall i, j | 0 <= i < j < |level|
      ensures level[i].largest.user <= level[j].largest.user && level[i].smallest.user <= level[j].smallest.user
    {
      Bounded(level[i], level[i].entries[0]);
      Bounded(level[j], level[j].entries[0]);
    }
    a, c := 0, 0;
    while a < |level| && AfterFile(lo, level[a])
      invariant a <= |level| && forall i :: 0 <= i < a ==> AfterFile(lo, level[i])
    {
      a := a + 1;
    }
    while c < |level| && !BeforeFile(hi, level[c])
      invariant c <= |level| && forall i :: 0 <= i < c ==> !BeforeFile(hi, level[i])
    {
      c := c + 1;
    }
  }

  /** The end of the files that meet the range, capped by the length. */
  function Cap(c: nat, n: nat): nat {
    if c <= n then c else n
  }

  function Slice(level: seq<File>, a: nat, m: nat): seq<File>
    requires m <= |level|
  {
    if a < m then level[a..m] else []
  }

  lemma {:induction false} MeetingIsSlice(level: seq<File>, lo: Bound, hi: Bound, a: nat, c: nat)
    requires Splits(level, lo, hi, a, c)
    ensures Meeting(level, lo, hi) == Slice(level, a, Cap(c, |level|))
  {
    if level != [] {
      var n := |level| - 1;
      var init := level[..n];
      MeetingIsSlice(init, lo, hi, a, c);
      SliceMore(level, a, c);
      assert Meets(level[n], lo, hi) <==> a <= n < c;
    }
  }

  lemma SliceMore(level: seq<File>, a: nat, c: nat)
    requires level != []
    ensures var n := |level| - 1;
            Slice(level, a, Cap(c, |level|))
              == Slice(level[..n], a, Cap(c, n)) + if a <= n < c then [level[n]] else []
  {
    var n := |level| - 1;
    if a <= n < c {
      assert level[a..n + 1] == level[..n][a..n] + [level[n]];
    } else if a < c <= n {
      assert level[a..c] == level[..n][a..c];
    }
  }

  /** In an ordered level the files that meet a range are a run. */
  lemma MeetingIsRun(level: seq<File>, lo: Bound, hi: Bound) returns (a: nat)
    requires SortedLevel(level)
    ensures IsRun(level, a, Meeting(level, lo, hi))
  {
    var b, c := SplitsExists(level, lo, hi);
    MeetingIsSlice(level, lo, hi, b, c);
    a := if b < c then b else 0;
  }

  /** The inputs as they are read: a closed pick of level 0, else files in key order. */
  ghost predicate InOrder(v: FileLists, L: nat, in0: seq<File>, in1: seq<File>)
    requires |v| == LEVELS
  {
    (if L == 0 then ClosedPick(v[0], in0) else SortedLevel(in0)) && SortedLevel(in1)
  }

  lemma RunSorted(level: seq<File>, a: nat, fs: seq<File>)
    requires SortedLevel(level) && IsRun(level, a, fs)
    ensures SortedLevel(fs)
  {
    assert forall i :: 0 <= i < |fs| ==> fs[i] == level[a + i];
  }

  lemma SearchedInOrder(v: FileLists, L: nat, fs: seq<File>, at: Option<nat>, last: File, lo: Bound, hi: Bound,
                        in1: seq<File>)
    requires Rep(v) && L + 1 < LEVELS && Settled(v, L, fs, at, last) && in1 == Meeting(v[L + 1], lo, hi)
    ensures InOrder(v, L, fs, in1)
  {
    if L > 0 {
      RunSorted(v[L], at.value, fs);
    }
    var a := MeetingIsRun(v[L + 1], lo, hi);
    RunSorted(v[L + 1], a, in1);
  }

  // ---------- the code ----------

  function TotalFileSize(files: seq<File>): nat {
    if files == [] then 0 else TotalFileSize(files[..|files| - 1]) + files[|files| - 1].size
  }

  /** The user-key range lo..hi is that of the files fs. */
  ghost predicate Spans(fs: seq<File>, lo: UserKey, hi: UserKey) {
    && (forall f :: f in fs ==> lo <= f.smallest.user && f.largest.user <= hi)
    && (exists f :: f in fs && f.smallest.user == lo) && (exists f :: f in fs && f.largest.user == hi)
  }

  lemma ClosedSearch(level: seq<File>, begin: Bound, end: Bound, lo: Bound, hi: Bound, fs: seq<File>)
    requires fs == Meeting(level, lo, hi) && Within(begin, end, lo, hi)
    ensures forall f :: f in fs ==> f in level
    ensures forall f :: f in level && Meets(f, begin, end) ==> f in fs
  {
    forall f ensures f in fs <==> f in level && Meets(f, lo, hi) {
      MeetingMembers(level, lo, hi, f);
    }
  }

  /** Widening takes in nothing when nothing meets the range to begin with. */
  lemma NothingMeets(level: seq<File>, begin: Bound, end: Bound, lo: Bound, hi: Bound)
    requires LeastClosed(level, begin, end, lo, hi)
    requires forall f :: f in level ==> !Meets(f, begin, end)
    ensures Meeting(level, lo, hi) == []
  {
    assert Within(begin, end, begin, end) && Closed(level, begin, end);
    assert lo == begin && hi == end;
    if Meeting(level, lo, hi) != [] {
      MeetingMembers(level, lo, hi, Meeting(level, lo, hi)[0]);
    }
  }

  /** The files of a level that meet a range are a pick of that level. */
  method Pick(v: FileLists, L: nat, begin: Bound, end: Bound) returns (fs: seq<File>, ghost at: Option<nat>)
    requires Rep(v) && L < LEVELS
    ensures fs != [] ==> Picked(v, L, fs, at)
    ensures forall f :: f in v[L] && Meets(f, begin, end) ==> f in fs
    ensures fs != [] ==> exists f :: f in v[L] && Meets(f, begin, end)
    ensures L > 0 ==> forall f :: f in fs ==> f in v[L] && Meets(f, begin, end)
  {
    ghost var lo, hi;
    fs, lo, hi := GetOverlappingInputs(L, v[L], begin, end);
    ClosedSearch(v[L], begin, end, lo, hi, fs);
    if L > 0 {
      forall f | f in fs ensures f in v[L] && Meets(f, begin, end) {
        MeetingMembers(v[L], begin, end, f);
      }
      if fs != [] {
        assert fs[0] in fs;
      }
    }
    if forall f :: f in v[L] ==> !Meets(f, begin, end) {
      if L == 0 {
        NothingMeets(v[L], begin, end, lo, hi);
      }
    }
    if L == 0 {
      at := None;
    } else {
      ghost var a := MeetingIsRun(v[L], lo, hi);
      at := Some(a);
    }
  }

  /** AddBoundaryInputs settles a pick. */
  method Settle(v: FileLists, L: nat, fs: seq<File>, ghost at: Option<nat>) returns (r: seq<File>, ghost last: File)
    requires Rep(v) && L < LEVELS && Picked(v, L, fs, at)
    ensures Settled(v, L, r, at, last)
    ensures forall f :: f in fs ==> f in r
  {
    if L == 0 {
      ClosedPickIsolated(v[0], fs);
    }
    r, last := AddBoundaryInputs(v[L], fs, at);
    assert forall f :: f in fs ==> f in r[..|fs|];
  }

  /** Growing the level L inputs without changing the number of level L+1 files:
      lines 1419-1447. */
  method Expand(v: FileLists, L: nat, inputs0: seq<File>, inputs1: seq<File>, targetFileSize: nat)
    returns (grown: bool, expanded0: seq<File>, expanded1: seq<File>, newStart: IKey, newLimit: IKey)
    requires Sound(v) && L + 1 < LEVELS && inputs0 != [] && forall f :: f in inputs0 ==> f in v[L]
    ensures grown ==> forall f :: f in inputs0 ==> f in expanded0
    ensures grown ==> Chosen(Abs(v), L, ToSet(expanded0), ToSet(expanded1), newStart.user, newLimit.user)
    ensures grown ==> Spans(expanded0, newStart.user, newLimit.user)
    ensures grown ==> expanded1 == Meeting(v[L + 1], Some(newStart.user), Some(newLimit.user))
    ensures grown ==> exists f :: f in expanded0 && f.largest == newLimit
    ensures grown ==> InOrder(v, L, expanded0, expanded1)
  {
    var allStart, allLimit := GetRange(inputs0 + inputs1);
    ghost var at, last, b, e;
    expanded0, at := Pick(v, L, Some(allStart.user), Some(allLimit.user));
    forall f | f in inputs0 ensures f in expanded0 {
      assert f in inputs0 + inputs1 && f in v[L];
      assert ValidFile(f);
      Bounded(f, f.entries[0]);
      assert Meets(f, Some(allStart.user), Some(allLimit.user));
    }
    assert inputs0[0] in expanded0;
    expanded0, last := Settle(v, L, expanded0, at);
    newStart, newLimit := GetRange(expanded0);
    grown, expanded1 := false, [];
    var inputs1Size, expanded0Size := TotalFileSize(inputs1), TotalFileSize(expanded0);
    if |expanded0| > |inputs0| && inputs1Size + expanded0Size < 25 * targetFileSize {
      expanded1, b, e := GetOverlappingInputs(L + 1, v[L + 1], Some(newStart.user), Some(newLimit.user));
      grown := |expanded1| == |inputs1|;
      ChosenBySearch(v, L, expanded0, at, last, newStart.user, newLimit.user, expanded1);
      SearchedInOrder(v, L, expanded0, at, last, Some(newStart.user), Some(newLimit.user), expanded1);
    }
  }

  /** The files of the level after next that meet the range of all inputs. */
  ghost predicate GrandparentsOf(v: FileLists, L: nat, inputs: seq<File>, grandparents: seq<File>)
    requires |v| == LEVELS
  {
    if L + 2 < LEVELS then
      exists a, b :: Spans(inputs, a, b) && grandparents == Meeting(v[L + 2], Some(a), Some(b))
    else grandparents == []
  }

  /** The files below that file f would come to overlap are at most this large. */
  ghost predicate FewGrandparents(v: FileLists, L: nat, f: File, limit: nat)
    requires |v| == LEVELS
  {
    exists g :: GrandparentsOf(v, L, [f], g) && TotalFileSize(g) <= limit
  }

  /** VersionSet::SetupOtherInputs. */
  method SetupOtherInputs(v: FileLists, L: nat, picked: seq<File>, ghost at: Option<nat>, targetFileSize: nat)
    returns (inputs0: seq<File>, inputs1: seq<File>, grandparents: seq<File>, compactPointer: IKey,
             ghost lo: UserKey, ghost hi: UserKey)
    requires Sound(v) && L + 1 < LEVELS && Picked(v, L, picked, at)
    ensures Chosen(Abs(v), L, ToSet(inputs0), ToSet(inputs1), lo, hi)
    ensures Spans(inputs0, lo, hi) && inputs1 == Meeting(v[L + 1], Some(lo), Some(hi))
    ensures InOrder(v, L, inputs0, inputs1)
    ensures forall f :: f in picked ==> f in inputs0
    ensures compactPointer.user == hi && exists f :: f in inputs0 && f.largest == compactPointer
    ensures GrandparentsOf(v, L, inputs0 + inputs1, grandparents)
  {
    ghost var last, b, e;
    inputs0, last := Settle(v, L, picked, at);
    var smallest, largest := GetRange(inputs0);
    inputs1, b, e := GetOverlappingInputs(L + 1, v[L + 1], Some(smallest.user), Some(largest.user));
    ChosenBySearch(v, L, inputs0, at, last, smallest.user, largest.user, inputs1);
    SearchedInOrder(v, L, inputs0, at, last, Some(smallest.user), Some(largest.user), inputs1);
    if inputs1 != [] {
      var grown, expanded0, expanded1, newStart, newLimit := Expand(v, L, inputs0, inputs1, targetFileSize);
      if grown {
        smallest, largest := newStart, newLimit;
        inputs0, inputs1 := expanded0, expanded1;
      }
    }
    grandparents := [];
    if L + 2 < LEVELS {
      var allStart, allLimit := GetRange(inputs0 + inputs1);
      grandparents, b, e := GetOverlappingInputs(L + 2, v[L + 2], Some(allStart.user), Some(allLimit.user));
      assert Spans(inputs0 + inputs1, allStart.user, allLimit.user);
    }
    compactPointer := largest;
    lo, hi := smallest.user, largest.user;
  }

  /** PickCompaction once the level and its seed file are decided. */
  method PickCompaction(v: FileLists, L: nat, i: nat, targetFileSize: nat)
    returns (inputs0: seq<File>, inputs1: seq<File>, grandparents: seq<File>, compactPointer: IKey,
             ghost lo: UserKey, ghost hi: UserKey)
    requires Sound(v) && L + 1 < LEVELS && i < |v[L]|
    ensures Chosen(Abs(v), L, ToSet(inputs0), ToSet(inputs1), lo, hi) && v[L][i] in inputs0
    ensures Spans(inputs0, lo, hi) && inputs1 == Meeting(v[L + 1], Some(lo), Some(hi))
    ensures InOrder(v, L, inputs0, inputs1)
    ensures compactPointer.user == hi && exists f :: f in inputs0 && f.largest == compactPointer
    ensures GrandparentsOf(v, L, inputs0 + inputs1, grandparents)
  {
    var picked := [v[L][i]];
    ghost var at := Some(i);
    if L == 0 {
      var smallest, largest := GetRange(picked);
      assert v[0][i] in picked && v[0][i] in v[0];
      assert ValidFile(v[0][i]);
      Bounded(v[0][i], v[0][i].entries[0]);
      picked, at := Pick(v, 0, Some(smallest.user), Some(largest.user));
    }
    inputs0, inputs1, grandparents, compactPointer, lo, hi := SetupOtherInputs(v, L, picked, at, targetFileSize);
  }

  /** PickCompaction, and IsTrivialMove: a single input that meets nothing at the next level
      and little at the one after it is moved. */
  method PickOrMove(v: FileLists, L: nat, i: nat, targetFileSize: nat)
    returns (moved: bool, inputs0: seq<File>, inputs1: seq<File>, ghost lo: UserKey, ghost hi: UserKey)
    requires Sound(v) && L + 1 < LEVELS && i < |v[L]|
    ensures Chosen(Abs(v), L, ToSet(inputs0), ToSet(inputs1), lo, hi) && v[L][i] in inputs0
    ensures InOrder(v, L, inputs0, inputs1)
    ensures moved ==> ToSet(inputs0) == {v[L][i]} && ToSet(inputs1) == {} && inputs0 == [v[L][i]]
    ensures moved ==> FewGrandparents(v, L, v[L][i], 10 * targetFileSize)
  {
    var grandparents, pointer;
    inputs0, inputs1, grandparents, pointer, lo, hi := PickCompaction(v, L, i, targetFileSize);
    moved := |inputs0| == 1 && |inputs1| == 0 && TotalFileSize(grandparents) <= 10 * targetFileSize;
    if moved {
      OnlyInput(inputs0, inputs1, inputs0[0], v[L][i]);
      assert inputs0 + inputs1 == [v[L][i]];
    }
  }

  lemma OnlyInput(in0: seq<File>, in1: seq<File>, f: File, seed: File)
    requires |in0| == 1 && |in1| == 0 && f == in0[0] && seed in in0
    ensures ToSet(in0) == {seed} && ToSet(in1) == {} && f == seed
  {
  }

  /** CompactRange: nothing to do when no file meets the range; above level 0
      only the first files, up to the file size limit, are compacted at once. */
  method CompactRange(v: FileLists, L: nat, begin: Bound, end: Bound, targetFileSize: nat)
    returns (some: bool, inputs0: seq<File>, inputs1: seq<File>, ghost lo: UserKey, ghost hi: UserKey)
    requires Sound(v) && L + 1 < LEVELS
    ensures some <==> exists f :: f in v[L] && Meets(f, begin, end)
    ensures some ==> Chosen(Abs(v), L, ToSet(inputs0), ToSet(inputs1), lo, hi)
    ensures some ==> Spans(inputs0, lo, hi) && inputs1 == Meeting(v[L + 1], Some(lo), Some(hi))
    ensures some ==> InOrder(v, L, inputs0, inputs1)
    ensures some ==> exists f :: f in inputs0 && f in v[L] && Meets(f, begin, end)
    ensures L == 0 ==> forall f :: f in v[L] && Meets(f, begin, end) ==> f in inputs0
  {
    inputs0, inputs1, lo, hi := [], [], 0.0, 0.0;
    ghost var at;
    var inputs;
    inputs, at := Pick(v, L, begin, end);
    if inputs == [] {
      return false, inputs0, inputs1, lo, hi;
    }
    ghost var whole := inputs;
    if L > 0 {
      var n := CountToLimit(inputs, targetFileSize);
      inputs := inputs[..n];
      assert inputs == v[L][at.value..at.value + |inputs|];
    }
    assert Picked(v, L, inputs, at);
    some := true;
    var grandparents, pointer;
    inputs0, inputs1, grandparents, pointer, lo, hi := SetupOtherInputs(v, L, inputs, at, targetFileSize);
    if L > 0 {
      assert inputs[0] == whole[0] && inputs[0] in inputs && whole[0] in whole;
    }
  }

  /** The first files up to the one with which they reach the limit; all if they do not. */
  method CountToLimit(inputs: seq<File>, limit: nat) returns (n: nat)
    requires inputs != []
    ensures 1 <= n <= |inputs| && (n < |inputs| ==> TotalFileSize(inputs[..n]) >= limit)
    ensures n == 1 || TotalFileSize(inputs[..n - 1]) < limit
  {
    var total := 0;
    n := 0;
    assert inputs[..0] == [];
    while n < |inputs|
      invariant n <= |inputs| && total == TotalFileSize(inputs[..n]) && (n == 0 || total < limit)
    {
      assert inputs[..n + 1][..n] == inputs[..n];
      total, n := total + inputs[n].size, n + 1;
      if total >= limit {
        assert inputs[..n - 1] == inputs[..n][..n - 1];
        return;
      }
    }
    assert n > 1 ==> inputs[..n][..n - 1] == inputs[..n - 1];
  }
}
