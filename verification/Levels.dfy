/** The levels of table files of one version, and the two ways a version grows:
    by a new table, and by a compaction that replaces tables of two levels. */
module Levels {
  import opened Keys

  /** config::kNumLevels and config::kMaxMemCompactLevel. */
  const LEVELS: nat := 7
  const MAX_MEM_LEVEL: nat := 2

  type Files = seq<set<File>>

  /** For every user key they share, all entries of f are newer than those of g. */
  ghost predicate NewerFile(f: File, g: File) {
    forall a, b :: a in f.entries && b in g.entries && a.k.user == b.k.user ==> a.k.sn > b.k.sn
  }

  ghost predicate NewerSet(S: set<Entry>, g: File) {
    forall a, b :: a in S && b in g.entries && a.k.user == b.k.user ==> a.k.sn > b.k.sn
  }

  /** One file lies wholly before the other in internal-key order. */
  predicate Apart(f: File, g: File) {
    Less(f.largest, g.smallest) || Less(g.largest, f.smallest)
  }

  predicate SameNumber(f: File, g: File) {
    f.number == g.number
  }

  ghost function Contents(fs: set<File>): set<Entry> {
    set f, e | f in fs && e in f.entries :: e
  }

  ghost function InFiles(files: Files): set<Entry> {
    set l, f, e | 0 <= l < |files| && f in files[l] && e in f.entries :: e
  }

  /** The files of each level are well formed and numbered apart. */
  ghost predicate WellFormed(files: Files) {
    && |files| == LEVELS
    && (forall l, f :: 0 <= l < LEVELS && f in files[l] ==> ValidFile(f))
    && (forall l, m, f, g {:trigger SameNumber(f, g), f in files[l], g in files[m]} ::
          0 <= l < LEVELS && 0 <= m < LEVELS && f in files[l] && g in files[m] && SameNumber(f, g) ==> l == m && f == g)
  }

  /** A file is at one level only. */
  lemma OneLevel(files: Files, l: nat, m: nat, f: File)
    requires WellFormed(files) && l < LEVELS && m < LEVELS && f in files[l] && f in files[m]
    ensures l == m
  {
    assert SameNumber(f, f);
  }

  /** Levels 1 and up hold files that do not overlap in internal-key order. */
  ghost predicate Disjoint(files: Files)
    requires |files| == LEVELS
  {
    forall l, f, g {:trigger Apart(f, g), f in files[l], g in files[l]} ::
      1 <= l < LEVELS && f in files[l] && g in files[l] && f != g ==> Apart(f, g)
  }

  /** Level 0 is newest file first; a level is newer than every deeper level. */
  ghost predicate Recent(files: Files)
    requires |files| == LEVELS
  {
    && (forall f, g {:trigger NewerFile(f, g)} ::
          f in files[0] && g in files[0] && f.number > g.number ==> NewerFile(f, g))
    && (forall l, m, f, g {:trigger NewerFile(f, g), f in files[l], g in files[m]} ::
          0 <= l < m < LEVELS && f in files[l] && g in files[m] ==> NewerFile(f, g))
  }

  ghost predicate Good(files: Files) {
    WellFormed(files) && Disjoint(files) && Recent(files)
  }

  ghost predicate AllNumbersBelow(files: Files, n: nat) {
    forall l, f :: 0 <= l < |files| && f in files[l] ==> f.number < n
  }

  // ---------- a new table ----------

  /** Version::OverlapInLevel on one file: the user-key ranges meet. */
  predicate Overlaps(f: File, lo: UserKey, hi: UserKey) {
    f.smallest.user <= hi && lo <= f.largest.user
  }

  /** What PickLevelForMemTableOutput promises of the level it returns. */
  ghost predicate LevelFree(files: Files, level: nat, f: File)
    requires WellFormed(files) && ValidFile(f)
  {
    && level <= MAX_MEM_LEVEL
    && (level > 0 ==>
          forall l, g :: 0 <= l <= level && g in files[l] ==> !Overlaps(g, f.smallest.user, f.largest.user))
  }

  function AddFile(files: Files, level: nat, f: File): Files
    requires level < |files|
  {
    files[level := files[level] + {f}]
  }

  lemma NoOverlapNoShare(f: File, g: File)
    requires ValidFile(f) && ValidFile(g)
    requires !Overlaps(g, f.smallest.user, f.largest.user)
    ensures NewerFile(f, g) && NewerFile(g, f) && Apart(f, g)
  {
    forall a, b | a in f.entries && b in g.entries
      ensures a.k.user != b.k.user
    {
      Bounded(f, a);
      Bounded(g, b);
    }
  }

  lemma AddFileNumbers(files: Files, level: nat, f: File)
    requires WellFormed(files) && ValidFile(f) && level < LEVELS
    requires forall l, g :: 0 <= l < LEVELS && g in files[l] ==> g.number != f.number
    ensures WellFormed(AddFile(files, level, f))
  {
    var after := AddFile(files, level, f);
    forall l, m, g: File, h: File | 0 <= l < LEVELS && 0 <= m < LEVELS && g in after[l] && h in after[m]
      && SameNumber(g, h)
      ensures l == m && g == h
    {
      if g != f && h != f {
        assert g in files[l] && h in files[m];
      }
    }
  }

  lemma AddFileRecent(files: Files, level: nat, f: File)
    requires Good(files) && ValidFile(f) && AllNumbersBelow(files, f.number)
    requires LevelFree(files, level, f)
    requires forall l, g :: 0 <= l < LEVELS && g in files[l] ==> NewerFile(f, g)
    ensures Recent(AddFile(files, level, f))
  {
    var after := AddFile(files, level, f);
    forall l, m, g: File, h: File | 0 <= l < m < LEVELS && g in after[l] && h in after[m]
      ensures NewerFile(g, h)
    {
      if m == level && h == f {
        assert g in files[l];
        NoOverlapNoShare(f, g);
      }
    }
    assert forall g :: g in files[0] ==> g.number < f.number;
  }

  /** A table newer than everything, put at a free level, keeps a version good. */
  lemma AddFileGood(files: Files, level: nat, f: File)
    requires Good(files) && ValidFile(f) && AllNumbersBelow(files, f.number)
    requires LevelFree(files, level, f)
    requires forall l, g :: 0 <= l < LEVELS && g in files[l] ==> NewerFile(f, g)
    ensures Good(AddFile(files, level, f))
    ensures AllNumbersBelow(AddFile(files, level, f), f.number + 1)
  {
    var after := AddFile(files, level, f);
    AddFileNumbers(files, level, f);
    AddFileRecent(files, level, f);
    forall l, g, h | 1 <= l < LEVELS && g in after[l] && h in after[l] && g != h
      ensures Apart(g, h)
    {
      if l == level && (g == f || h == f) {
        NoOverlapNoShare(f, if g == f then h else g);
      }
    }
  }

  lemma AddFileContents(files: Files, level: nat, f: File)
    requires level < |files|
    ensures InFiles(AddFile(files, level, f)) == InFiles(files) + (set e | e in f.entries)
  {
    var after := AddFile(files, level, f);
    assert f in after[level];
    forall e | e in InFiles(files)
      ensures e in InFiles(after)
    {
      var l, g :| 0 <= l < |files| && g in files[l] && e in g.entries;
      assert g in after[l];
    }
  }

  // ---------- a compaction ----------

  /** The inputs of a compaction of level L as SetupOtherInputs leaves them:
      no file left at level L is older than a chosen one on a shared user key;
      the level L+1 inputs are the files that meet the user-key range lo..hi of
      the chosen ones. */
  ghost predicate Chosen(files: Files, L: nat, in0: set<File>, in1: set<File>, lo: UserKey, hi: UserKey)
    requires WellFormed(files)
  {
    && L + 1 < LEVELS
    && in0 <= files[L] && in0 != {}
    && (forall f, g {:trigger NewerFile(g, f)} :: f in in0 && g in files[L] && g !in in0 ==> NewerFile(g, f))
    && (forall f :: f in in0 ==> lo <= f.smallest.user && f.largest.user <= hi)
    && (forall g :: g in in1 <==> g in files[L + 1] && Overlaps(g, lo, hi))
  }

  /** The output tables: valid, freshly numbered, apart from each other, with
      exactly the entries `kept`. */
  ghost predicate Outputs(files: Files, outs: set<File>, kept: set<Entry>)
    requires WellFormed(files)
  {
    && (forall f :: f in outs ==> ValidFile(f))
    && (forall f, g {:trigger Apart(f, g)} {:trigger SameNumber(f, g)} ::
          f in outs && g in outs && f != g ==> !SameNumber(f, g) && Apart(f, g))
    && (forall l, f, g {:trigger SameNumber(f, g), f in files[l]} ::
          0 <= l < LEVELS && f in files[l] && g in outs ==> !SameNumber(f, g) && !SameNumber(g, f))
    && Contents(outs) == kept
  }

  function Replace(files: Files, L: nat, in0: set<File>, in1: set<File>, outs: set<File>): Files
    requires L + 1 < |files|
  {
    files[L := files[L] - in0][L + 1 := files[L + 1] - in1 + outs]
  }

  /** A level L+1 file that is not an input lies wholly on one side of all inputs. */
  lemma OneSide(files: Files, L: nat, in0: set<File>, in1: set<File>, lo: UserKey, hi: UserKey, g: File)
    requires Good(files) && Chosen(files, L, in0, in1, lo, hi)
    requires g in files[L + 1] && g !in in1
    ensures (forall e :: e in Contents(in0 + in1) ==> Less(g.largest, e.k))
         || (forall e :: e in Contents(in0 + in1) ==> Less(e.k, g.smallest))
  {
    var left := g.largest.user < lo;
    assert ValidFile(g);
    Bounded(g, g.entries[0]);
    assert lo <= hi by {
      var f :| f in in0;
      assert ValidFile(f);
      Bounded(f, f.entries[0]);
    }
    forall e | e in Contents(in0 + in1)
      ensures if left then Less(g.largest, e.k) else Less(e.k, g.smallest)
    {
      var f :| f in in0 + in1 && e in f.entries;
      Bounded(f, e);
      if f in in1 && f !in in0 {
        assert Apart(f, g);
      }
    }
  }

  /** Where an input entry came from. */
  lemma FromInput(files: Files, L: nat, in0: set<File>, in1: set<File>, lo: UserKey, hi: UserKey, e: Entry)
    returns (f: File)
    requires WellFormed(files) && Chosen(files, L, in0, in1, lo, hi)
    requires e in Contents(in0 + in1)
    ensures e in f.entries && (f in in0 || f in in1)
  {
    f :| f in in0 + in1 && e in f.entries;
  }

  /** A table built from input entries only. */
  ghost predicate FromInputs(o: File, in0: set<File>, in1: set<File>) {
    ValidFile(o) && forall e :: e in o.entries ==> e in Contents(in0 + in1)
  }

  /** An output is apart from the files that stay at level L+1. */
  lemma OutputApart(files: Files, L: nat, in0: set<File>, in1: set<File>, lo: UserKey, hi: UserKey, o: File, g: File)
    requires Good(files) && Chosen(files, L, in0, in1, lo, hi)
    requires FromInputs(o, in0, in1)
    requires g in files[L + 1] && g !in in1
    ensures Apart(o, g)
  {
    OneSide(files, L, in0, in1, lo, hi, g);
    assert o.entries[0] in o.entries && o.entries[|o.entries| - 1] in o.entries;
  }

  /** An output is older than everything above it, the rest of level L included. */
  lemma OutputOlder(files: Files, L: nat, in0: set<File>, in1: set<File>, lo: UserKey, hi: UserKey, o: File, l: nat,
                    g: File)
    requires Good(files) && Chosen(files, L, in0, in1, lo, hi)
    requires FromInputs(o, in0, in1)
    requires l <= L && g in files[l] && g !in in0
    ensures NewerFile(g, o)
  {
    forall a, b | a in g.entries && b in o.entries && a.k.user == b.k.user
      ensures a.k.sn > b.k.sn
    {
      var f := FromInput(files, L, in0, in1, lo, hi, b);
      assert NewerFile(g, f);
    }
  }

  /** An output is newer than every deeper level. */
  lemma OutputNewer(files: Files, L: nat, in0: set<File>, in1: set<File>, lo: UserKey, hi: UserKey, o: File, m: nat,
                    g: File)
    requires Good(files) && Chosen(files, L, in0, in1, lo, hi)
    requires FromInputs(o, in0, in1)
    requires L + 1 < m < LEVELS && g in files[m]
    ensures NewerFile(o, g)
  {
    forall a, b | a in o.entries && b in g.entries && a.k.user == b.k.user
      ensures a.k.sn > b.k.sn
    {
      var f := FromInput(files, L, in0, in1, lo, hi, a);
      assert NewerFile(f, g);
    }
  }

  lemma ReplaceWellFormed(files: Files, L: nat, in0: set<File>, in1: set<File>, outs: set<File>, kept: set<Entry>)
    requires WellFormed(files) && L + 1 < LEVELS && Outputs(files, outs, kept)
    ensures WellFormed(Replace(files, L, in0, in1, outs))
  {
    var after := Replace(files, L, in0, in1, outs);
    forall l, m, f: File, g: File | 0 <= l < LEVELS && 0 <= m < LEVELS && f in after[l] && g in after[m]
      && SameNumber(f, g)
      ensures l == m && f == g
    {
      assert f in files[l] || (l == L + 1 && f in outs);
      assert g in files[m] || (m == L + 1 && g in outs);
      assert SameNumber(g, f);
      if f !in outs && g !in outs {
        assert f in files[l] && g in files[m];
      }
    }
    forall l, f | 0 <= l < LEVELS && f in after[l]
      ensures ValidFile(f)
    {
      assert f in files[l] || f in outs;
    }
  }

  lemma ReplaceDisjoint(files: Files, L: nat, in0: set<File>, in1: set<File>, lo: UserKey, hi: UserKey, outs: set<File>)
    requires Good(files) && Chosen(files, L, in0, in1, lo, hi)
    requires forall o :: o in outs ==> FromInputs(o, in0, in1)
    requires forall f, g :: f in outs && g in outs && f != g ==> Apart(f, g)
    ensures Disjoint(Replace(files, L, in0, in1, outs))
  {
    var after := Replace(files, L, in0, in1, outs);
    forall l, f, g | 1 <= l < LEVELS && f in after[l] && g in after[l] && f != g
      ensures Apart(f, g)
    {
      if l == L + 1 && f in outs && g !in outs {
        OutputApart(files, L, in0, in1, lo, hi, f, g);
      } else if l == L + 1 && g in outs && f !in outs {
        OutputApart(files, L, in0, in1, lo, hi, g, f);
      } else if f !in outs {
        assert f in files[l] && g in files[l];
      }
    }
  }

  lemma ReplaceRecent(files: Files, L: nat, in0: set<File>, in1: set<File>, lo: UserKey, hi: UserKey, outs: set<File>)
    requires Good(files) && Chosen(files, L, in0, in1, lo, hi)
    requires forall o :: o in outs ==> FromInputs(o, in0, in1)
    ensures Recent(Replace(files, L, in0, in1, outs))
  {
    var after := Replace(files, L, in0, in1, outs);
    forall l, m, f, g | 0 <= l < m < LEVELS && f in after[l] && g in after[m]
      ensures NewerFile(f, g)
    {
      if m == L + 1 && g in outs {
        if f in in0 { OneLevel(files, l, L, f); }
        OutputOlder(files, L, in0, in1, lo, hi, g, l, f);
      } else if l == L + 1 && f in outs {
        OutputNewer(files, L, in0, in1, lo, hi, f, m, g);
      } else {
        assert f in files[l] && g in files[m];
      }
    }
  }

  /** Installing a compaction keeps the version good. */
  lemma ReplaceGood(files: Files, L: nat, in0: set<File>, in1: set<File>, lo: UserKey, hi: UserKey, outs: set<File>,
                    kept: set<Entry>)
    requires Good(files) && Chosen(files, L, in0, in1, lo, hi)
    requires Outputs(files, outs, kept) && kept <= Contents(in0 + in1)
    ensures Good(Replace(files, L, in0, in1, outs))
  {
    forall o | o in outs
      ensures FromInputs(o, in0, in1)
    {
      assert forall e :: e in o.entries ==> e in Contents(outs);
    }
    ReplaceWellFormed(files, L, in0, in1, outs, kept);
    ReplaceDisjoint(files, L, in0, in1, lo, hi, outs);
    ReplaceRecent(files, L, in0, in1, lo, hi, outs);
  }

  lemma MoveWellFormed(files: Files, L: nat, f: File)
    requires WellFormed(files) && L + 1 < LEVELS && f in files[L]
    ensures WellFormed(Replace(files, L, {f}, {}, {f}))
  {
    var after := Replace(files, L, {f}, {}, {f});
    forall l, m, g: File, h: File | 0 <= l < LEVELS && 0 <= m < LEVELS && g in after[l] && h in after[m]
      && SameNumber(g, h)
      ensures l == m && g == h
    {
      var l0, m0 := if g == f then L else l, if h == f then L else m;
      assert g in files[l0] && h in files[m0];
      assert l0 == m0 && g == h;
    }
    forall l, g | 0 <= l < LEVELS && g in after[l]
      ensures ValidFile(g)
    {
      assert g in files[if g == f then L else l];
    }
  }

  lemma MoveContents(files: Files, L: nat, f: File)
    requires L + 1 < |files| && f in files[L]
    ensures InFiles(Replace(files, L, {f}, {}, {f})) == InFiles(files)
  {
    var after := Replace(files, L, {f}, {}, {f});
    forall e | e in InFiles(files)
      ensures e in InFiles(after)
    {
      var l, g :| 0 <= l < |files| && g in files[l] && e in g.entries;
      assert g in after[if g == f then L + 1 else l];
    }
    forall e | e in InFiles(after)
      ensures e in InFiles(files)
    {
      var l, g: File :| 0 <= l < |files| && g in after[l] && e in g.entries;
      assert g in files[if g == f then L else l];
    }
  }

  /** A trivial move keeps the version good. */
  lemma MoveGood(files: Files, L: nat, f: File, lo: UserKey, hi: UserKey)
    requires Good(files) && Chosen(files, L, {f}, {}, lo, hi)
    ensures Good(Replace(files, L, {f}, {}, {f}))
  {
    assert f in files[L] && f in {f} + {};
    assert FromInputs(f, {f}, {});
    MoveWellFormed(files, L, f);
    ReplaceDisjoint(files, L, {f}, {}, lo, hi, {f});
    ReplaceRecent(files, L, {f}, {}, lo, hi, {f});
  }
}
