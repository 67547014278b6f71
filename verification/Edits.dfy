/** VersionSet::Builder (version_set.cc, lines 590-755): applying version edits,
    one at a time or a whole manifest at once. */
module Edits {
  import opened Keys
  import opened Levels
  import opened FileSearch
  import opened Inputs

  /** The file changes of a VersionEdit. */
  datatype Edit = Edit(deleted: set<(nat, nat)>, added: seq<(nat, File)>)

  /** Levels exist, and a number is added to a level once. */
  ghost predicate EditOk(e: Edit) {
    && (forall d :: d in e.deleted ==> d.0 < LEVELS)
    && (forall a :: a in e.added ==> a.0 < LEVELS)
    && (forall a, b :: a in e.added && b in e.added && a.0 == b.0 && a.1.number == b.1.number ==> a == b)
  }

  /** BySmallestKey: ties are broken by file number. */
  predicate BySmallest(f: File, g: File) {
    Less(f.smallest, g.smallest) || (!Less(g.smallest, f.smallest) && f.number < g.number)
  }

  ghost predicate Ascending(fs: seq<File>) {
    forall i, j :: 0 <= i < j < |fs| ==> BySmallest(fs[i], fs[j])
  }

  // ---------- what edits mean ----------

  ghost function AddedAt(e: Edit, l: nat): set<File> {
    set i | 0 <= i < |e.added| && e.added[i].0 == l :: e.added[i].1
  }

  ghost function Numbered(fs: set<File>): set<nat> {
    set f | f in fs :: f.number
  }

  /** LogAndApply on one level: the files of the base and the edit, less the
      deleted numbers; a number the edit also adds counts as not deleted. */
  ghost function ApplyOne(fs: set<File>, e: Edit, l: nat): set<File> {
    set f | f in fs + AddedAt(e, l) && !((l, f.number) in e.deleted && f.number !in Numbered(AddedAt(e, l)))
  }

  ghost function ApplyEach(fs: set<File>, es: seq<Edit>, l: nat): set<File> {
    if es == [] then fs else ApplyOne(ApplyEach(fs, es[..|es| - 1], l), es[|es| - 1], l)
  }

  /** What a builder has gathered for a level. */
  ghost function BuilderDeleted(es: seq<Edit>, l: nat): set<nat> {
    if es == [] then {}
    else
      var e := es[|es| - 1];
      BuilderDeleted(es[..|es| - 1], l) + DeletedAt(e, l) - Numbered(AddedAt(e, l))
  }

  ghost function BuilderAdded(es: seq<Edit>, l: nat): set<File> {
    if es == [] then {} else BuilderAdded(es[..|es| - 1], l) + AddedAt(es[|es| - 1], l)
  }

  ghost function ApplyAll(fs: set<File>, es: seq<Edit>, l: nat): set<File> {
    set f | f in fs + BuilderAdded(es, l) && f.number !in BuilderDeleted(es, l)
  }

  /** No edit adds a number the level has, or was given by an earlier edit. */
  ghost predicate AddedOnce(fs: set<File>, es: seq<Edit>, l: nat) {
    es != [] ==>
      && AddedOnce(fs, es[..|es| - 1], l)
      && Numbered(AddedAt(es[|es| - 1], l)) !! Numbered(fs + BuilderAdded(es[..|es| - 1], l))
  }

  lemma {:induction false} DeletedKnown(fs: set<File>, es: seq<Edit>, l: nat, f: File)
    ensures f in ApplyEach(fs, es, l) ==> f in fs + BuilderAdded(es, l)
  {
    if es != [] {
      DeletedKnown(fs, es[..|es| - 1], l, f);
    }
  }

  /** Replaying a manifest through one builder gives the files that applying its
      edits one at a time gives. */
  lemma {:induction false} ReplayEqualsSteps(fs: set<File>, es: seq<Edit>, l: nat)
    requires AddedOnce(fs, es, l)
    ensures ApplyAll(fs, es, l) == ApplyEach(fs, es, l)
  {
    if es != [] {
      var init, e := es[..|es| - 1], es[|es| - 1];
      ReplayEqualsSteps(fs, init, l);
      forall f ensures f in ApplyAll(fs, es, l) <==> f in ApplyEach(fs, es, l) {
        if f in AddedAt(e, l) {
          assert f.number in Numbered(AddedAt(e, l));
        } else if f in fs + BuilderAdded(init, l) {
          assert f.number in Numbered(fs + BuilderAdded(init, l));
          assert (l, f.number) in e.deleted <==> f.number in DeletedAt(e, l);
        }
      }
    }
  }

  // ---------- the builder ----------

  /** The first position whose file comes after f. */
  method UpperBound(base: seq<File>, from: nat, f: File) returns (pos: nat)
    requires Ascending(base) && from <= |base|
    ensures from <= pos <= |base|
    ensures forall i :: from <= i < pos ==> !BySmallest(f, base[i])
    ensures forall i :: pos <= i < |base| ==> BySmallest(f, base[i])
  {
    pos := from;
    var end := |base|;
    while pos < end
      invariant from <= pos <= end <= |base|
      invariant forall i :: from <= i < pos ==> !BySmallest(f, base[i])
      invariant forall i :: end <= i < |base| ==> BySmallest(f, base[i])
    {
      var mid := (pos + end) / 2;
      assert forall i :: from <= i < mid ==> BySmallest(base[i], base[mid]);
      assert forall i :: mid < i < |base| ==> BySmallest(base[mid], base[i]);
      if BySmallest(f, base[mid]) {
        end := mid;
      } else {
        pos := mid + 1;
      }
    }
  }

  /** Everything in fs comes before everything of gs from position i on. */
  ghost predicate Ahead(fs: seq<File>, gs: seq<File>, i: nat) {
    forall f, j :: f in fs && i <= j < |gs| ==> BySmallest(f, gs[j])
  }

  lemma AppendAscending(fs: seq<File>, gs: seq<File>, i: nat)
    requires Ascending(fs) && Ascending(gs) && i < |gs| && Ahead(fs, gs, i)
    ensures Ascending(fs + [gs[i]]) && Ahead(fs + [gs[i]], gs, i + 1)
  {
    forall f, j | f in fs + [gs[i]] && i + 1 <= j < |gs| ensures BySmallest(f, gs[j]) {
      assert f in fs || f == gs[i];
    }
    forall k | 0 <= k < |fs| ensures BySmallest(fs[k], gs[i]) {
      assert fs[k] in fs;
    }
  }

  /** SaveTo on one level: merge the base files and the added files by smallest
      key, leaving the deleted numbers out. */
  method SaveLevel(base: seq<File>, added: seq<File>, deleted: set<nat>) returns (out: seq<File>)
    requires Ascending(base) && Ascending(added)
    requires forall b, a :: b in base && a in added ==> b.number != a.number
    ensures Ascending(out)
    ensures forall f :: f in out <==> (f in base || f in added) && f.number !in deleted
  {
    out := [];
    var b := 0;
    for a := 0 to |added|
      invariant b <= |base| && Ascending(out) && Ahead(out, base, b) && Ahead(out, added, a)
      invariant forall f :: f in out <==> (f in base[..b] || f in added[..a]) && f.number !in deleted
    {
      var pos := UpperBound(base, b, added[a]);
      while b < pos
        invariant b <= pos && Ascending(out) && Ahead(out, base, b) && Ahead(out, added, a)
        invariant forall f :: f in out <==> (f in base[..b] || f in added[..a]) && f.number !in deleted
      {
        assert base[..b + 1] == base[..b] + [base[b]];
        assert base[b] in base && added[a] in added;
        if base[b].number !in deleted {
          AppendAscending(out, base, b);
          assert Ahead([base[b]], added, a);
          out := out + [base[b]];
        }
        b := b + 1;
      }
      assert added[..a + 1] == added[..a] + [added[a]];
      if added[a].number !in deleted {
        AppendAscending(out, added, a);
        out := out + [added[a]];
      }
    }
    assert added[..|added|] == added;
    while b < |base|
      invariant b <= |base| && Ascending(out) && Ahead(out, base, b)
      invariant forall f :: f in out <==> (f in base[..b] || f in added) && f.number !in deleted
    {
      assert base[..b + 1] == base[..b] + [base[b]];
      if base[b].number !in deleted {
        AppendAscending(out, base, b);
        out := out + [base[b]];
      }
      b := b + 1;
    }
    assert base[..|base|] == base;
  }

  /** Files in order by smallest key that do not overlap form an ordered level. */
  lemma AscendingApart(fs: seq<File>)
    requires Ascending(fs) && forall f :: f in fs ==> ValidFile(f)
    requires forall f, g :: f in fs && g in fs && f != g ==> Apart(f, g)
    ensures SortedLevel(fs)
  {
    forall i, j | 0 <= i < j < |fs| ensures Less(fs[i].largest, fs[j].smallest) {
      assert fs[i] in fs && fs[j] in fs && BySmallest(fs[i], fs[j]);
      Bounded(fs[i], fs[i].entries[0]);
      Bounded(fs[j], fs[j].entries[0]);
    }
  }

  /** std::set::insert: keeps the order, ignores a file already there. */
  function Insert(fs: seq<File>, f: File): seq<File> {
    if fs == [] || BySmallest(f, fs[0]) then [f] + fs
    else if fs[0].smallest == f.smallest && fs[0].number == f.number then fs
    else [fs[0]] + Insert(fs[1..], f)
  }

  lemma {:induction false} InsertAscending(fs: seq<File>, f: File)
    requires Ascending(fs)
    requires forall g :: g in fs ==> g.number == f.number ==> g == f
    ensures Ascending(Insert(fs, f))
    ensures forall g :: g in Insert(fs, f) <==> g == f || g in fs
  {
    if fs != [] && !BySmallest(f, fs[0]) && fs[0] != f {
      InsertAscending(fs[1..], f);
      assert fs == [fs[0]] + fs[1..];
      var r := Insert(fs[1..], f);
      forall j | 0 <= j < |r| ensures BySmallest(fs[0], r[j]) {
        assert r[j] in r;
      }
    }
  }

  ghost function Prefix(e: Edit, i: nat): Edit
    requires i <= |e.added|
  {
    Edit(e.deleted, e.added[..i])
  }

  function DeletedAt(e: Edit, l: nat): set<nat> {
    set d | d in e.deleted && d.0 == l :: d.1
  }

  lemma BuilderSnoc(es: seq<Edit>, e: Edit, l: nat)
    ensures BuilderDeleted(es + [e], l) == BuilderDeleted(es, l) + DeletedAt(e, l) - Numbered(AddedAt(e, l))
    ensures BuilderAdded(es + [e], l) == BuilderAdded(es, l) + AddedAt(e, l)
  {
    assert (es + [e])[..|es|] == es;
  }

  lemma PrefixAdded(e: Edit, i: nat, l: nat)
    requires i < |e.added|
    ensures AddedAt(Prefix(e, i + 1), l) == AddedAt(Prefix(e, i), l) + if e.added[i].0 == l then {e.added[i].1} else {}
  {
    assert Prefix(e, i + 1).added[..i] == Prefix(e, i).added;
    var both := AddedAt(Prefix(e, i), l) + if e.added[i].0 == l then {e.added[i].1} else {};
    forall f | f in both
      ensures f in AddedAt(Prefix(e, i + 1), l)
    {
      if f in AddedAt(Prefix(e, i), l) {
        var k :| 0 <= k < i && Prefix(e, i).added[k].0 == l && Prefix(e, i).added[k].1 == f;
        assert Prefix(e, i + 1).added[k] == Prefix(e, i).added[k];
      } else {
        assert Prefix(e, i + 1).added[i] == e.added[i];
      }
    }
  }

  lemma PrefixNone(es: seq<Edit>, e: Edit, l: nat)
    ensures BuilderDeleted(es + [Prefix(e, 0)], l) == BuilderDeleted(es, l) + DeletedAt(e, l)
    ensures BuilderAdded(es + [Prefix(e, 0)], l) == BuilderAdded(es, l)
  {
    BuilderSnoc(es, Prefix(e, 0), l);
    assert AddedAt(Prefix(e, 0), l) == {};
  }

  /** What adding the i-th file does to each level. */
  lemma PrefixStep(es: seq<Edit>, e: Edit, i: nat, l: nat)
    requires i < |e.added|
    ensures BuilderAdded(es + [Prefix(e, i + 1)], l)
         == BuilderAdded(es + [Prefix(e, i)], l) + if e.added[i].0 == l then {e.added[i].1} else {}
    ensures BuilderDeleted(es + [Prefix(e, i + 1)], l)
         == BuilderDeleted(es + [Prefix(e, i)], l) - if e.added[i].0 == l then {e.added[i].1.number} else {}
  {
    BuilderSnoc(es, Prefix(e, i), l);
    BuilderSnoc(es, Prefix(e, i + 1), l);
    PrefixAdded(e, i, l);
    NumberedAdd(AddedAt(Prefix(e, i), l), e.added[i].1);
  }

  lemma NumberedAdd(fs: set<File>, f: File)
    ensures Numbered(fs + {f}) == Numbered(fs) + {f.number}
  {
    assert f in fs + {f};
  }

  /** A number an edit adds is nobody else's. */
  lemma NumberUnique(fs: set<File>, es: seq<Edit>, e: Edit, i: nat, added: seq<File>)
    requires i < |e.added| && EditOk(e) && AddedOnce(fs, es + [e], e.added[i].0)
    requires ToSet(added) == BuilderAdded(es + [Prefix(e, i)], e.added[i].0)
    ensures forall g :: g in added && g.number == e.added[i].1.number ==> g == e.added[i].1
  {
    var l, f := e.added[i].0, e.added[i].1;
    assert (es + [e])[..|es|] == es;
    BuilderSnoc(es, Prefix(e, i), l);
    assert f in AddedAt(e, l) && f.number in Numbered(AddedAt(e, l));
    forall h | h in fs + BuilderAdded(es, l) ensures h.number != f.number {
      assert h.number in Numbered(fs + BuilderAdded(es, l));
    }
    forall g | g in added && g.number == f.number ensures g == f {
      assert g in ToSet(added);
      if g !in fs + BuilderAdded(es, l) {
        var k :| 0 <= k < i && Prefix(e, i).added[k].0 == l && Prefix(e, i).added[k].1 == g;
        assert e.added[k] in e.added && e.added[i] in e.added;
      }
    }
  }

  class Builder {
    const base: FileLists
    var deleted: seq<set<nat>>
    var added: seq<seq<File>>
    ghost var edits: seq<Edit>

    /** The builder holds what the edits es amount to. */
    ghost predicate Holds(es: seq<Edit>)
      reads this
    {
      && |base| == |deleted| == |added| == LEVELS
      && (forall l :: 0 <= l < LEVELS ==> Ascending(base[l]) && Ascending(added[l]))
      && (forall l :: 0 <= l < LEVELS ==> deleted[l] == BuilderDeleted(es, l))
      && (forall l :: 0 <= l < LEVELS ==> ToSet(added[l]) == BuilderAdded(es, l))
    }

    ghost predicate Valid()
      reads this
    {
      Holds(edits) && forall l :: 0 <= l < LEVELS ==> AddedOnce(ToSet(base[l]), edits, l)
    }

    constructor (base: FileLists)
      requires |base| == LEVELS && forall l :: 0 <= l < LEVELS ==> Ascending(base[l])
      ensures Valid() && this.base == base && edits == []
    {
      this.base := base;
      deleted := seq(LEVELS, _ => {});
      added := seq(LEVELS, _ => []);
      edits := [];
    }

    /** Gather one edit: its deletions first, then its additions, each of which
        takes its number off the deleted list again. */
    method Apply(e: Edit)
      requires Valid() && EditOk(e)
      requires forall l :: 0 <= l < LEVELS ==> AddedOnce(ToSet(base[l]), edits + [e], l)
      modifies this
      ensures Valid() && edits == old(edits) + [e]
    {
      var del := deleted;
      deleted := seq(LEVELS, l requires 0 <= l < LEVELS => del[l] + DeletedAt(e, l));
      forall l | 0 <= l < LEVELS
        ensures BuilderDeleted(edits + [Prefix(e, 0)], l) == deleted[l]
        ensures BuilderAdded(edits + [Prefix(e, 0)], l) == ToSet(added[l])
      {
        PrefixNone(edits, e, l);
      }
      for i := 0 to |e.added|
        invariant edits == old(edits) && Holds(edits + [Prefix(e, i)])
      {
        AddFile(e, i);
      }
      assert Prefix(e, |e.added|) == e;
      edits := edits + [e];
    }

    method AddFile(e: Edit, i: nat)
      requires i < |e.added| && EditOk(e) && Holds(edits + [Prefix(e, i)])
      requires e.added[i] in e.added && AddedOnce(ToSet(base[e.added[i].0]), edits + [e], e.added[i].0)
      modifies `deleted, `added
      ensures Holds(edits + [Prefix(e, i + 1)])
    {
      var l, f := e.added[i].0, e.added[i].1;
      NumberUnique(ToSet(base[l]), edits, e, i, added[l]);
      InsertAscending(added[l], f);
      deleted := deleted[l := deleted[l] - {f.number}];
      added := added[l := Insert(added[l], f)];
      forall m | 0 <= m < LEVELS
        ensures deleted[m] == BuilderDeleted(edits + [Prefix(e, i + 1)], m)
        ensures ToSet(added[m]) == BuilderAdded(edits + [Prefix(e, i + 1)], m)
      {
        PrefixStep(edits, e, i, m);
      }
    }

    /** The new version's file lists. */
    method SaveTo() returns (v: FileLists)
      requires Valid()
      ensures |v| == LEVELS
      ensures forall l :: 0 <= l < LEVELS ==> Ascending(v[l]) && ToSet(v[l]) == ApplyEach(ToSet(base[l]), edits, l)
    {
      v := [];
      for l := 0 to LEVELS
        invariant |v| == l
        invariant forall m :: 0 <= m < l ==> Ascending(v[m]) && ToSet(v[m]) == ApplyEach(ToSet(base[m]), edits, m)
      {
        NumbersApart(ToSet(base[l]), edits, l);
        forall b, a | b in base[l] && a in added[l] ensures b.number != a.number {
          assert a in ToSet(added[l]) && b in ToSet(base[l]);
        }
        var out := SaveLevel(base[l], added[l], deleted[l]);
        ReplayEqualsSteps(ToSet(base[l]), edits, l);
        assert ToSet(out) == ApplyAll(ToSet(base[l]), edits, l);
        v := v + [out];
      }
    }
  }

  lemma {:induction false} NumbersApart(fs: set<File>, es: seq<Edit>, l: nat)
    requires AddedOnce(fs, es, l)
    ensures forall f, g :: f in fs && g in BuilderAdded(es, l) ==> f.number != g.number
  {
    if es != [] {
      NumbersApart(fs, es[..|es| - 1], l);
      forall f, g | f in fs && g in AddedAt(es[|es| - 1], l) ensures f.number != g.number {
        assert g.number in Numbered(AddedAt(es[|es| - 1], l));
        assert f in fs + BuilderAdded(es[..|es| - 1], l);
      }
    }
  }
}
