/** What an iterator over the store reads: DBImpl::NewInternalIterator and
    Version::AddIterators. */
module StoreView {
  import opened Keys
  import opened Reads
  import opened Levels
  import opened Drops
  import opened Store
  import opened FileSearch
  import opened Inputs
  import opened Setup
  import opened Edits
  import opened Db
  import opened InputMerge
  import opened DbIter
  import Merger

  /** Level l: its files one by one at level 0, concatenated above it. */
  function LevelSources(v: FileLists, l: nat): seq<Source>
    requires l < |v|
  {
    if l == 0 then FileSources(v[0]) else LevelSource(v[l])
  }

  /** The sources of the first n levels. */
  function VersionSources(v: FileLists, n: nat): seq<Source>
    requires n <= |v|
  {
    if n == 0 then [] else VersionSources(v, n - 1) + LevelSources(v, n - 1)
  }

  function MemSources(mem: seq<Entry>, imm: Option<seq<Entry>>): seq<Source> {
    [Run(mem)] + if imm.Some? then [Run(imm.value)] else []
  }

  function StoreSources(mem: seq<Entry>, imm: Option<seq<Entry>>, v: FileLists): seq<Source> {
    MemSources(mem, imm) + VersionSources(v, |v|)
  }

  /** The entries of the first n levels. */
  ghost function Upto(v: FileLists, n: nat): set<Entry>
    requires n <= |v|
  {
    set l, f, e | 0 <= l < n && f in v[l] && e in f.entries :: e
  }

  lemma LevelReadable(v: FileLists, l: nat)
    requires Sound(v) && Ordered(v) && l < LEVELS
    ensures Readable(l, v[l])
  {
    forall f | f in v[l] ensures f in Abs(v)[l] && ValidFile(f) {
    }
    NumbersInLevel(v, l, v[l]);
    if l == 0 {
      forall i, j | 0 <= i < j < |v[0]| ensures Merger.Apart(v[0][i].entries, v[0][j].entries) {
        NoneSharedAt(v, i, j);
      }
    }
  }

  lemma NoneSharedAt(v: FileLists, i: nat, j: nat)
    requires Sound(v) && Ordered(v) && i < j < |v[0]|
    ensures Merger.Apart(v[0][i].entries, v[0][j].entries)
  {
    var f, g := v[0][i], v[0][j];
    assert BySmallest(f, g) && f in v[0] && g in v[0];
    assert f in Abs(v)[0] && g in Abs(v)[0];
    forall e | e in f.entries ensures e !in g.entries {
      if e in g.entries {
        OneHome(Abs(v), 0, f, 0, g, e);
      }
    }
  }

  lemma {:induction false} VersionMergeable(v: FileLists, n: nat)
    requires Sound(v) && Ordered(v) && n <= LEVELS
    ensures Mergeable(VersionSources(v, n)) && Union(VersionSources(v, n)) == Upto(v, n)
  {
    if n == 0 {
      NoLevels(v);
    } else {
      VersionMergeable(v, n - 1);
      OneMoreLevel(v, n, VersionSources(v, n - 1));
    }
  }

  lemma NoLevels(v: FileLists)
    ensures Mergeable([]) && Union([]) == Upto(v, 0)
  {
  }

  lemma OneMoreLevel(v: FileLists, n: nat, a: seq<Source>)
    requires Sound(v) && Ordered(v) && 0 < n <= LEVELS && Mergeable(a) && Union(a) == Upto(v, n - 1)
    ensures Mergeable(a + LevelSources(v, n - 1)) && Union(a + LevelSources(v, n - 1)) == Upto(v, n)
  {
    var l := n - 1;
    LevelReadable(v, l);
    LevelMergeable(l, v[l]);
    LevelApart(v, l);
    MergeableConcat(a, LevelSources(v, l));
    UnionConcat(a, LevelSources(v, l));
    UptoNext(v, l);
  }

  lemma UptoNext(v: FileLists, l: nat)
    requires l < |v|
    ensures Upto(v, l + 1) == Upto(v, l) + Contents(ToSet(v[l]))
  {
    forall e | e in Upto(v, l + 1) ensures e in Upto(v, l) + Contents(ToSet(v[l])) {
      var m, f :| 0 <= m < l + 1 && f in v[m] && e in f.entries;
      assert m == l ==> f in ToSet(v[l]);
    }
    forall e | e in Contents(ToSet(v[l])) ensures e in Upto(v, l + 1) {
      var f :| f in ToSet(v[l]) && e in f.entries;
      assert f in v[l];
    }
  }

  /** Higher levels share no entry with level l. */
  lemma LevelApart(v: FileLists, l: nat)
    requires Sound(v) && l < LEVELS
    ensures Upto(v, l) !! Contents(ToSet(v[l]))
  {
    forall e | e in Upto(v, l) ensures e !in Contents(ToSet(v[l])) {
      var m, f :| 0 <= m < l && f in v[m] && e in f.entries;
      if e in Contents(ToSet(v[l])) {
        var g :| g in ToSet(v[l]) && e in g.entries;
        OneHome(Abs(v), m, f, l, g, e);
      }
    }
  }

  lemma UptoAll(v: FileLists)
    requires |v| == LEVELS
    ensures Upto(v, LEVELS) == InFiles(Abs(v))
  {
    forall e | e in Upto(v, LEVELS) ensures e in InFiles(Abs(v)) {
      var l, f :| 0 <= l < LEVELS && f in v[l] && e in f.entries;
      InLevel(Abs(v), l, f, e);
    }
    forall e | e in InFiles(Abs(v)) ensures e in Upto(v, LEVELS) {
      var l, f :| 0 <= l < LEVELS && f in Abs(v)[l] && e in f.entries;
      assert f in v[l];
    }
  }

  lemma MemMergeable(mem: seq<Entry>, imm: Option<seq<Entry>>)
    requires SortedEntries(mem) && (imm.Some? ==> SortedEntries(imm.value))
    requires imm.Some? ==> forall e :: e in mem ==> e !in imm.value
    ensures Mergeable(MemSources(mem, imm))
    ensures Union(MemSources(mem, imm)) == EntrySet(mem) + if imm.Some? then EntrySet(imm.value) else {}
  {
    var ss := MemSources(mem, imm);
    assert ss[0] == Run(mem) && (imm.Some? ==> ss[1] == Run(imm.value));
    forall e | e in mem ensures e in Union(ss) {
      assert e in Read(ss[0]);
    }
    if imm.Some? {
      forall e | e in imm.value ensures e in Union(ss) {
        assert e in Read(ss[1]);
      }
    }
  }

  /** The sources of the whole store can be merged, and hold all that is stored. */
  lemma StoreMergeable(mem: seq<Entry>, imm: Option<seq<Entry>>, v: FileLists, s: State)
    requires Sound(v) && Ordered(v) && s.files == Abs(v) && FilesOk(s) && HistoryOk(s)
    requires SortedEntries(mem) && (imm.Some? ==> SortedEntries(imm.value))
    requires s.mem == EntrySet(mem) && s.imm == if imm.Some? then Some(EntrySet(imm.value)) else None
    ensures var ss := StoreSources(mem, imm, v); Mergeable(ss) && Union(ss) == All(s)
    ensures Distinct(All(s))
  {
    var a, b := MemSources(mem, imm), VersionSources(v, LEVELS);
    if imm.Some? {
      forall e | e in mem ensures e !in imm.value {
        assert e in s.mem && (e in imm.value ==> e in Imm(s));
      }
    }
    MemMergeable(mem, imm);
    VersionMergeable(v, LEVELS);
    UptoAll(v);
    forall l, f, e | 0 <= l < LEVELS && f in s.files[l] && e in f.entries ensures e !in Upper(s) {
      assert NewerSet(Upper(s), f);
    }
    assert Union(a) == Upper(s);
    MergeableConcat(a, b);
    UnionConcat(a, b);
  }

  /** NewInternalIterator under a DBIter: its rows are exactly the keys and values that a
      Get at the same sequence number finds. */
  method NewDBIterator(mem: seq<Entry>, imm: Option<seq<Entry>>, v: FileLists, q: nat, ghost s: State)
    returns (iter: DBIter)
    requires Sound(v) && Ordered(v) && s.files == Abs(v) && FilesOk(s) && HistoryOk(s)
    requires SortedEntries(mem) && (imm.Some? ==> SortedEntries(imm.value))
    requires s.mem == EntrySet(mem) && s.imm == if imm.Some? then Some(EntrySet(imm.value)) else None
    ensures iter.Good() && fresh(iter) && iter.sequence == q && IsView(iter.iter.merged, q, s)
  {
    StoreMergeable(mem, imm, v, s);
    ghost var merged := SortSet(All(s));
    var it := NewMergingIterator(StoreSources(mem, imm, v), merged);
    SortedView(merged, q, s);
    iter := new DBIter(it, q);
  }

  /** A row for each key that a Get at q finds, with the value it finds. */
  ghost predicate IsView(merged: seq<Entry>, q: nat, s: State) {
    forall u, v :: Row(u, v) in View(merged, q) <==> Lookup(All(s), u, q) == Some(v)
  }

  lemma SortedView(merged: seq<Entry>, q: nat, s: State)
    requires SortedEntries(merged) && EntrySet(merged) == All(s) && Distinct(All(s))
    ensures IsView(merged, q, s)
  {
    forall u, v ensures Row(u, v) in View(merged, q) <==> Lookup(All(s), u, q) == Some(v) {
      ViewIsLookup(merged, q, u, v);
    }
  }
}
