/** The searches over one level's file list: version_set.cc, lines 88-157 and 518-559. */
module FileSearch {
  import opened Keys
  import opened Levels

  /** An optional user key: the null pointer bounds nothing. */
  type Bound = Option<UserKey>

  /** The file list of a level above 0: in order, without overlap. */
  ghost predicate SortedLevel(files: seq<File>) {
    && (forall i :: 0 <= i < |files| ==> ValidFile(files[i]))
    && (forall i, j :: 0 <= i < j < |files| ==> Less(files[i].largest, files[j].smallest))
  }

  /** Every stored sequence number fits its 56 bits. */
  ghost predicate Packable(files: seq<File>) {
    forall i :: 0 <= i < |files| ==> files[i].largest.sn <= MAX_SEQ
  }

  lemma SortedLargest(files: seq<File>, i: nat, j: nat)
    requires SortedLevel(files) && i < j < |files|
    ensures Less(files[i].largest, files[j].largest)
  {
    Bounded(files[j], files[j].entries[0]);
  }

  /** The first file whose largest key is not below `key`. */
  method FindFile(files: seq<File>, key: IKey) returns (right: nat)
    requires SortedLevel(files)
    ensures right <= |files|
    ensures forall i :: 0 <= i < right ==> Less(files[i].largest, key)
    ensures forall i :: right <= i < |files| ==> !Less(files[i].largest, key)
  {
    var left := 0;
    right := |files|;
    while left < right
      invariant 0 <= left <= right <= |files|
      invariant forall i :: 0 <= i < left ==> Less(files[i].largest, key)
      invariant forall i :: right <= i < |files| ==> !Less(files[i].largest, key)
    {
      var mid := (left + right) / 2;
      if Less(files[mid].largest, key) {
        forall i | 0 <= i < mid ensures Less(files[i].largest, key) {
          SortedLargest(files, i, mid);
        }
        left := mid + 1;
      } else {
        forall i | mid < i < |files| ensures !Less(files[i].largest, key) {
          SortedLargest(files, mid, i);
        }
        right := mid;
      }
    }
  }

  /** A null bound lies before, or after, all keys. */
  predicate AfterFile(u: Bound, f: File) {
    u.Some? && u.value > f.largest.user
  }

  predicate BeforeFile(u: Bound, f: File) {
    u.Some? && u.value < f.smallest.user
  }

  predicate Meets(f: File, lo: Bound, hi: Bound) {
    !AfterFile(lo, f) && !BeforeFile(hi, f)
  }

  /** Both the linear scan of level 0 and the binary search of the other levels
      say whether some file meets the range. */
  method SomeFileOverlapsRange(disjointSorted: bool, files: seq<File>, lo: Bound, hi: Bound) returns (r: bool)
    requires disjointSorted ==> SortedLevel(files) && Packable(files)
    ensures r <==> exists f :: f in files && Meets(f, lo, hi)
  {
    if !disjointSorted {
      for i := 0 to |files|
        invariant forall j :: 0 <= j < i ==> !Meets(files[j], lo, hi)
      {
        if AfterFile(lo, files[i]) || BeforeFile(hi, files[i]) {
        } else {
          assert files[i] in files && Meets(files[i], lo, hi);
          return true;
        }
      }
      return false;
    }
    var index := 0;
    if lo.Some? {
      index := FindFile(files, IKey(lo.value, MAX_SEQ, Value));
    }
    if index >= |files| {
      return false;
    }
    forall j | index < j < |files| ensures files[index].smallest.user <= files[j].smallest.user {
      Bounded(files[index], files[index].entries[0]);
    }
    assert forall j :: 0 <= j < index ==> AfterFile(lo, files[j]);
    assert !AfterFile(lo, files[index]) && files[index] in files;
    return !BeforeFile(hi, files[index]);
  }

  /** The files that meet a range, in list order. */
  function Meeting(files: seq<File>, lo: Bound, hi: Bound): seq<File> {
    if files == [] then []
    else
      Meeting(files[..|files| - 1], lo, hi) + if Meets(files[|files| - 1], lo, hi) then [files[|files| - 1]] else []
  }

  lemma {:induction false} MeetingMembers(files: seq<File>, lo: Bound, hi: Bound, f: File)
    ensures f in Meeting(files, lo, hi) <==> f in files && Meets(f, lo, hi)
  {
    if files != [] {
      MeetingMembers(files[..|files| - 1], lo, hi, f);
      assert files == files[..|files| - 1] + [files[|files| - 1]];
    }
  }

  ghost predicate Within(lo: Bound, hi: Bound, lo': Bound, hi': Bound) {
    && (lo'.Some? ==> lo.Some? && lo'.value <= lo.value)
    && (hi'.Some? ==> hi.Some? && hi.value <= hi'.value)
  }

  /** No file that meets the range sticks out of it. */
  ghost predicate Closed(files: seq<File>, lo: Bound, hi: Bound) {
    forall f :: f in files && Meets(f, lo, hi) ==>
      (lo.Some? ==> lo.value <= f.smallest.user) && (hi.Some? ==> f.largest.user <= hi.value)
  }

  /** Files a further widening could still take in: bounds the restarts. */
  function Outside(files: seq<File>, lo: Bound, hi: Bound): nat {
    if files == [] then 0
    else
      Outside(files[1..], lo, hi)
      + (if lo.Some? && files[0].smallest.user < lo.value then 1 else 0)
      + (if hi.Some? && files[0].largest.user > hi.value then 1 else 0)
  }

  lemma {:induction false} OutsideShrinks(files: seq<File>, lo: Bound, hi: Bound, lo': Bound, hi': Bound)
    requires Within(lo, hi, lo', hi') && lo'.Some? == lo.Some? && hi'.Some? == hi.Some?
    ensures Outside(files, lo', hi') <= Outside(files, lo, hi)
    ensures (exists f :: f in files &&
               ((lo.Some? && lo'.value <= f.smallest.user < lo.value)
                 || (hi.Some? && hi.value < f.largest.user <= hi'.value)))
            ==> Outside(files, lo', hi') < Outside(files, lo, hi)
  {
    if files != [] {
      OutsideShrinks(files[1..], lo, hi, lo', hi');
      assert files == [files[0]] + files[1..];
    }
  }

  /** A closed widening of the range holds every file that meets the range. */
  lemma ClosedHolds(files: seq<File>, lo: Bound, hi: Bound, a: Bound, b: Bound, f: File)
    requires Within(lo, hi, a, b) && Closed(files, a, b) && f in files && Meets(f, lo, hi)
    requires a.Some? == lo.Some? && b.Some? == hi.Some?
    ensures (a.Some? ==> a.value <= f.smallest.user) && (b.Some? ==> f.largest.user <= b.value)
  {
    assert Meets(f, a, b);
  }

  /** The widest range every closed widening of [begin, end] must hold. */
  ghost predicate Needed(files: seq<File>, begin: Bound, end: Bound, lo: Bound, hi: Bound) {
    && Within(begin, end, lo, hi) && lo.Some? == begin.Some? && hi.Some? == end.Some?
    && (forall a: Bound, b: Bound {:trigger Within(begin, end, a, b)} ::
          a.Some? == begin.Some? && b.Some? == end.Some? && Within(begin, end, a, b) && Closed(files, a, b) ==>
            Within(lo, hi, a, b))
  }

  /** The least closed widening of a range. */
  ghost predicate LeastClosed(files: seq<File>, lo: Bound, hi: Bound, lo': Bound, hi': Bound) {
    Needed(files, lo, hi, lo', hi') && Closed(files, lo', hi')
  }

  lemma WidenNeeded(files: seq<File>, begin: Bound, end: Bound, lo: Bound, hi: Bound, f: File, lo': Bound, hi': Bound)
    requires Needed(files, begin, end, lo, hi) && f in files && Meets(f, lo, hi) && Within(lo, hi, lo', hi')
    requires lo'.Some? == lo.Some? && hi'.Some? == hi.Some?
    requires lo' == lo || (lo.Some? && lo'.value == f.smallest.user)
    requires hi' == hi || (hi.Some? && hi'.value == f.largest.user)
    ensures Needed(files, begin, end, lo', hi')
  {
    forall a: Bound, b: Bound | a.Some? == begin.Some? && b.Some? == end.Some? && Within(begin, end, a, b)
      && Closed(files, a, b)
      ensures Within(lo', hi', a, b)
    {
      ClosedHolds(files, lo, hi, a, b, f);
    }
  }

  /** The files of a level that meet [begin, end]; at level 0 the range is first
      widened until no file sticks out of it.  `lo` and `hi` are the final range. */
  method GetOverlappingInputs(level: nat, files: seq<File>, begin: Bound, end: Bound)
    returns (inputs: seq<File>, ghost lo: Bound, ghost hi: Bound)
    requires forall f :: f in files ==> ValidFile(f)
    ensures inputs == Meeting(files, lo, hi)
    ensures level > 0 ==> lo == begin && hi == end && inputs == Meeting(files, begin, end)
    ensures level == 0 ==> LeastClosed(files, begin, end, lo, hi)
  {
    inputs := [];
    var userBegin, userEnd := begin, end;
    var i := 0;
    while i < |files|
      invariant 0 <= i <= |files|
      invariant inputs == Meeting(files[..i], userBegin, userEnd)
      invariant level > 0 ==> userBegin == begin && userEnd == end
      invariant Needed(files, begin, end, userBegin, userEnd)
      invariant level == 0 ==> Closed(files[..i], userBegin, userEnd)
      decreases Outside(files, userBegin, userEnd), |files| - i
    {
      var f := files[i];
      assert files[..i + 1][..i] == files[..i] && files[..i + 1] == files[..i] + [f];
      assert f in files;
      i := i + 1;
      if AfterFile(userBegin, f) || BeforeFile(userEnd, f) {
      } else {
        inputs := inputs + [f];
        if level == 0 {
          if begin.Some? && f.smallest.user < userBegin.value {
            WidenNeeded(files, begin, end, userBegin, userEnd, f, Some(f.smallest.user), userEnd);
            OutsideShrinks(files, userBegin, userEnd, Some(f.smallest.user), userEnd);
            userBegin := Some(f.smallest.user);
            inputs := [];
            i := 0;
          } else if end.Some? && f.largest.user > userEnd.value {
            WidenNeeded(files, begin, end, userBegin, userEnd, f, userBegin, Some(f.largest.user));
            OutsideShrinks(files, userBegin, userEnd, userBegin, Some(f.largest.user));
            userEnd := Some(f.largest.user);
            inputs := [];
            i := 0;
          }
        }
      }
    }
    assert files[..i] == files;
    lo, hi := userBegin, userEnd;
  }
}
