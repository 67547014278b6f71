/** Point lookups: MemTable::Get, a table's Get, and Version::Get
    (version_set.cc, lines 263-421). */
module Get {
  import opened Keys
  import opened Reads
  import opened Cursors
  import opened Levels
  import opened FileSearch
  import opened Inputs
  import opened Setup

  /** SaverState: what one source says about a key. */
  datatype Outcome = NotFound | Found(value: Bytes) | Deleted

  function OutcomeOf(e: Entry): Outcome {
    if e.k.kind == Value then Found(e.value) else Deleted
  }

  /** The outcome is what the newest visible entry of S says. */
  ghost predicate Tells(S: set<Entry>, u: UserKey, s: nat, r: Outcome) {
    if r.NotFound? then forall e :: e in S ==> !Sees(e, u, s)
    else exists e :: IsNewest(S, u, s, e) && r == OutcomeOf(e)
  }

  /** Seek to the lookup key, then check the user key of the entry found. */
  function GetFrom(es: seq<Entry>, u: UserKey, s: nat): Outcome {
    var i := SeekIndex(es, SeekKey(u, s));
    if i < |es| && es[i].k.user == u then OutcomeOf(es[i]) else NotFound
  }

  /** The user-key check alone is enough: the entry a sorted source is asked for
      is found exactly when there is one, and it is the newest visible. */
  lemma GetFromTells(es: seq<Entry>, u: UserKey, s: nat)
    requires SortedEntries(es)
    ensures Tells(EntrySet(es), u, s, GetFrom(es, u, s))
  {
    var i := SeekIndex(es, SeekKey(u, s));
    forall j | 0 <= j < |es| && Sees(es[j], u, s)
      ensures i < |es| && es[i].k.user == u && i <= j && es[j].k.sn <= es[i].k.sn
    {
      assert i < j ==> Less(es[i].k, es[j].k);
    }
    if i < |es| && es[i].k.user == u {
      assert IsNewest(EntrySet(es), u, s, es[i]);
    }
  }

  /** The first of these files that says something of the key. */
  function FirstOf(fs: seq<File>, u: UserKey, s: nat): Outcome {
    if fs == [] then NotFound
    else if GetFrom(fs[0].entries, u, s) != NotFound then GetFrom(fs[0].entries, u, s)
    else FirstOf(fs[1..], u, s)
  }

  /** Asking these files in turn tells what the level holds. */
  ghost predicate Decide(fs: seq<File>, v: FileLists, l: nat, u: UserKey, s: nat)
    requires l < |v|
  {
    (forall f :: f in fs ==> f in v[l]) && Tells(Contents(ToSet(v[l])), u, s, FirstOf(fs, u, s))
  }

  // ---------- level 0 ----------

  function InsertNewest(f: File, fs: seq<File>): seq<File> {
    if fs == [] || f.number > fs[0].number then [f] + fs else [fs[0]] + InsertNewest(f, fs[1..])
  }

  /** std::sort by NewestFirst. */
  function SortNewest(fs: seq<File>): seq<File> {
    if fs == [] then [] else InsertNewest(fs[0], SortNewest(fs[1..]))
  }

  ghost predicate NewestFirst(fs: seq<File>) {
    forall i, j :: 0 <= i < j < |fs| ==> fs[i].number >= fs[j].number
  }

  lemma {:induction false} InsertNewestSorted(f: File, fs: seq<File>)
    requires NewestFirst(fs)
    ensures NewestFirst(InsertNewest(f, fs))
    ensures forall g :: g in InsertNewest(f, fs) <==> g == f || g in fs
  {
    if fs != [] && f.number <= fs[0].number {
      InsertNewestSorted(f, fs[1..]);
      assert fs == [fs[0]] + fs[1..];
      var r := InsertNewest(f, fs[1..]);
      forall j | 0 <= j < |r| ensures fs[0].number >= r[j].number {
        assert r[j] in r;
      }
    }
  }

  lemma {:induction false} SortNewestSorted(fs: seq<File>)
    ensures NewestFirst(SortNewest(fs))
    ensures forall g :: g in SortNewest(fs) <==> g in fs
  {
    if fs != [] {
      SortNewestSorted(fs[1..]);
      InsertNewestSorted(fs[0], SortNewest(fs[1..]));
      assert fs == [fs[0]] + fs[1..];
    }
  }

  /** An entry of u lies in a file whose user-key range holds u. */
  lemma HoldsUser(f: File, e: Entry)
    requires ValidFile(f) && e in f.entries
    ensures f.smallest.user <= e.k.user <= f.largest.user
  {
    Bounded(f, e);
  }

  /** Level 0: every overlapping file, newest first. */
  method Level0Files(v: FileLists, u: UserKey, ghost s: nat) returns (files: seq<File>)
    requires Sound(v)
    ensures Decide(files, v, 0, u, s)
  {
    var tmp: seq<File> := [];
    for i := 0 to |v[0]|
      invariant forall f :: f in tmp <==> f in v[0][..i] && f.smallest.user <= u <= f.largest.user
    {
      var f := v[0][i];
      assert v[0][..i + 1] == v[0][..i] + [f];
      if f.smallest.user <= u && u <= f.largest.user {
        tmp := tmp + [f];
      }
    }
    assert v[0][..|v[0]|] == v[0];
    SortNewestSorted(tmp);
    files := SortNewest(tmp);
    assert files[0..] == files;
    Level0Decides(v, u, s, files, 0);
  }

  /** Files asked before the i-th have nothing visible; from there on the first that
      has something has the newest. */
  lemma {:induction false} Level0Decides(v: FileLists, u: UserKey, s: nat, tmp: seq<File>, i: nat)
    requires Sound(v) && NewestFirst(tmp) && i <= |tmp|
    requires forall f :: f in tmp <==> f in v[0] && f.smallest.user <= u <= f.largest.user
    requires forall j :: 0 <= j < i ==> forall e :: e in tmp[j].entries ==> !Sees(e, u, s)
    ensures Tells(Contents(ToSet(v[0])), u, s, FirstOf(tmp[i..], u, s))
    decreases |tmp| - i
  {
    if i == |tmp| {
      Level0None(v, u, s, tmp);
    } else {
      assert tmp[i] in tmp && tmp[i] in v[0] && ValidFile(tmp[i]);
      GetFromTells(tmp[i].entries, u, s);
      assert tmp[i..][1..] == tmp[i + 1..];
      if GetFrom(tmp[i].entries, u, s) != NotFound {
        Level0Newest(v, u, s, tmp, i, GetFrom(tmp[i].entries, u, s));
      } else {
        assert forall e :: e in tmp[i].entries ==> e in EntrySet(tmp[i].entries);
        Level0Decides(v, u, s, tmp, i + 1);
      }
    }
  }

  lemma Level0None(v: FileLists, u: UserKey, s: nat, tmp: seq<File>)
    requires Sound(v)
    requires forall f :: f in tmp <==> f in v[0] && f.smallest.user <= u <= f.largest.user
    requires forall j :: 0 <= j < |tmp| ==> forall e :: e in tmp[j].entries ==> !Sees(e, u, s)
    ensures Tells(Contents(ToSet(v[0])), u, s, NotFound)
  {
    forall e | e in Contents(ToSet(v[0])) ensures !Sees(e, u, s) {
      var f :| f in v[0] && e in f.entries;
      HoldsUser(f, e);
      if f in tmp {
        var j :| 0 <= j < |tmp| && tmp[j] == f;
      }
    }
  }

  lemma Level0Newest(v: FileLists, u: UserKey, s: nat, tmp: seq<File>, i: nat, r: Outcome)
    requires Sound(v) && NewestFirst(tmp) && i < |tmp|
    requires forall f :: f in tmp <==> f in v[0] && f.smallest.user <= u <= f.largest.user
    requires forall j :: 0 <= j < i ==> forall e :: e in tmp[j].entries ==> !Sees(e, u, s)
    requires Tells(EntrySet(tmp[i].entries), u, s, r) && r != NotFound
    ensures Tells(Contents(ToSet(v[0])), u, s, r)
  {
    var f := tmp[i];
    assert f in tmp;
    var e :| IsNewest(EntrySet(f.entries), u, s, e) && r == OutcomeOf(e);
    forall d | d in Contents(ToSet(v[0])) && Sees(d, u, s)
      ensures d.k.sn <= e.k.sn
    {
      var g :| g in v[0] && d in g.entries;
      HoldsUser(g, d);
      assert g in tmp;
      var j :| 0 <= j < |tmp| && tmp[j] == g;
      if g == f {
        assert d in EntrySet(f.entries);
      } else {
        assert f in Abs(v)[0] && g in Abs(v)[0];
        assert !SameNumber(f, g);
        assert NewerFile(f, g);
      }
    }
    assert f in ToSet(v[0]);
    assert IsNewest(Contents(ToSet(v[0])), u, s, e);
  }

  // ---------- the other levels ----------

  /** One binary search decides which file of an ordered level to ask, if any. */
  method LevelFiles(v: FileLists, l: nat, u: UserKey, s: nat) returns (files: seq<File>)
    requires Sound(v) && 1 <= l < LEVELS
    ensures Decide(files, v, l, u, s)
  {
    var index := FindFile(v[l], SeekKey(u, s));
    if index >= |v[l]| {
      NoneBefore(v[l], u, s, |v[l]|);
      return [];
    }
    var f := v[l][index];
    assert f in v[l];
    NoneBefore(v[l], u, s, index);
    if u < f.smallest.user {
      NoneFrom(v[l], u, s, index);
      return [];
    }
    OneFile(v, l, u, s, index);
    files := [f];
  }

  lemma OneFile(v: FileLists, l: nat, u: UserKey, s: nat, index: nat)
    requires Sound(v) && 1 <= l < LEVELS && index < |v[l]| && !Less(v[l][index].largest, SeekKey(u, s))
    requires forall i, e :: 0 <= i < index && e in v[l][i].entries ==> !Sees(e, u, s)
    ensures Tells(Contents(ToSet(v[l])), u, s, FirstOf([v[l][index]], u, s))
  {
    var f := v[l][index];
    assert f in v[l];
    GetFromTells(f.entries, u, s);
    var r := GetFrom(f.entries, u, s);
    assert [f][1..] == [] && FirstOf([f], u, s) == r;
    if r == NotFound {
      assert forall e :: e in f.entries ==> e in EntrySet(f.entries);
      assert f.entries[|f.entries| - 1] in f.entries;
      NoneFrom(v[l], u, s, index + 1);
    } else {
      LevelNewest(v, l, u, s, index, r);
    }
  }

  /** Files that end before the lookup key hold nothing visible. */
  lemma NoneBefore(level: seq<File>, u: UserKey, s: nat, n: nat)
    requires SortedLevel(level) && n <= |level|
    requires forall i :: 0 <= i < n ==> Less(level[i].largest, SeekKey(u, s))
    ensures forall i, e :: 0 <= i < n && e in level[i].entries ==> !Sees(e, u, s)
  {
    forall i, e | 0 <= i < n && e in level[i].entries ensures !Sees(e, u, s) {
      Bounded(level[i], e);
    }
  }

  /** Files that begin past the user key hold nothing visible. */
  lemma NoneFrom(level: seq<File>, u: UserKey, s: nat, n: nat)
    requires SortedLevel(level) && n <= |level|
    requires (n < |level| && u < level[n].smallest.user) || (n > 0 && u < level[n - 1].largest.user)
    ensures forall i, e :: n <= i < |level| && e in level[i].entries ==> !Sees(e, u, s)
  {
    forall i, e | n <= i < |level| && e in level[i].entries ensures !Sees(e, u, s) {
      Bounded(level[i], e);
      Bounded(level[n], level[n].entries[0]);
      assert n < i ==> Less(level[n].largest, level[i].smallest);
      assert n > 0 ==> Less(level[n - 1].largest, level[i].smallest);
    }
  }

  lemma LevelNewest(v: FileLists, l: nat, u: UserKey, s: nat, index: nat, r: Outcome)
    requires Sound(v) && 1 <= l < LEVELS && index < |v[l]|
    requires forall i, e :: 0 <= i < index && e in v[l][i].entries ==> !Sees(e, u, s)
    requires Tells(EntrySet(v[l][index].entries), u, s, r) && r != NotFound
    ensures Tells(Contents(ToSet(v[l])), u, s, r)
  {
    var f := v[l][index];
    assert f in v[l];
    var e :| IsNewest(EntrySet(f.entries), u, s, e) && r == OutcomeOf(e);
    forall d | d in Contents(ToSet(v[l])) && Sees(d, u, s)
      ensures d.k.sn <= e.k.sn
    {
      var g :| g in v[l] && d in g.entries;
      var i :| 0 <= i < |v[l]| && v[l][i] == g;
      if i == index {
        assert d in EntrySet(f.entries);
      } else {
        EarlierIsNewer(v, l, f, g);
        assert NewerFile(f, g);
      }
    }
    assert f in ToSet(v[l]);
    assert IsNewest(Contents(ToSet(v[l])), u, s, e);
  }

  // ---------- all levels ----------

  lemma InLevelContents(v: FileLists, l: nat, e: Entry)
    requires l < |v|
    ensures e in Contents(ToSet(v[l])) ==> e in InFiles(Abs(v))
  {
    if e in Contents(ToSet(v[l])) {
      var f :| f in ToSet(v[l]) && e in f.entries;
      assert f in Abs(v)[l];
    }
  }

  lemma LevelOf(v: FileLists, e: Entry) returns (l: nat, f: File)
    requires e in InFiles(Abs(v))
    ensures l < |v| && f in v[l] && f in Abs(v)[l] && e in f.entries && e in Contents(ToSet(v[l]))
  {
    var m, g :| 0 <= m < |v| && g in Abs(v)[m] && e in g.entries;
    l, f := m, g;
    assert f in ToSet(v[l]);
  }

  /** The first level with a visible entry has the newest one: entries never hop
      across levels out of order. */
  lemma FirstLevelWins(v: FileLists, l: nat, u: UserKey, s: nat, r: Outcome)
    requires Sound(v) && l < LEVELS
    requires forall m :: 0 <= m < l ==> Tells(Contents(ToSet(v[m])), u, s, NotFound)
    requires Tells(Contents(ToSet(v[l])), u, s, r) && r != NotFound
    ensures Tells(InFiles(Abs(v)), u, s, r)
  {
    var e :| IsNewest(Contents(ToSet(v[l])), u, s, e) && r == OutcomeOf(e);
    var f :| f in ToSet(v[l]) && e in f.entries;
    InLevelContents(v, l, e);
    forall d | d in InFiles(Abs(v)) && Sees(d, u, s)
      ensures d.k.sn <= e.k.sn
    {
      var m, g := LevelOf(v, d);
      assert f in Abs(v)[l];
      assert l < m ==> NewerFile(f, g);
    }
    assert IsNewest(InFiles(Abs(v)), u, s, e);
  }

  /** No level holds anything visible. */
  lemma NoLevel(v: FileLists, u: UserKey, s: nat)
    requires |v| == LEVELS && forall m :: 0 <= m < LEVELS ==> Tells(Contents(ToSet(v[m])), u, s, NotFound)
    ensures Tells(InFiles(Abs(v)), u, s, NotFound)
  {
    forall e | e in InFiles(Abs(v)) ensures !Sees(e, u, s) {
      var l, f := LevelOf(v, e);
      assert Tells(Contents(ToSet(v[l])), u, s, NotFound);
    }
  }

  /** The files of a level to ask, in order. */
  method FilesToSearch(v: FileLists, level: nat, u: UserKey, s: nat) returns (files: seq<File>)
    requires Sound(v) && level < LEVELS
    ensures Decide(files, v, level, u, s)
  {
    if level == 0 {
      files := Level0Files(v, u, s);
    } else {
      files := LevelFiles(v, level, u, s);
    }
  }

  /** Version::Get: level by level, stopping at the first file that answers. */
  method VersionGet(v: FileLists, u: UserKey, s: nat) returns (r: Outcome)
    requires Sound(v)
    ensures Tells(InFiles(Abs(v)), u, s, r)
  {
    for level := 0 to LEVELS
      invariant forall m :: 0 <= m < level ==> Tells(Contents(ToSet(v[m])), u, s, NotFound)
    {
      var files := FilesToSearch(v, level, u, s);
      for i := 0 to |files|
        invariant FirstOf(files, u, s) == FirstOf(files[i..], u, s)
      {
        r := GetFrom(files[i].entries, u, s);
        assert files[i..][1..] == files[i + 1..];
        if r != NotFound {
          FirstLevelWins(v, level, u, s, r);
          return;
        }
      }
    }
    NoLevel(v, u, s);
    return NotFound;
  }
}
