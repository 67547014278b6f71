/** What the steps of the store's object are made of: version edits, the level a
    flushed memtable goes to, and insertion into a memtable. */
module Db {
  import opened Keys
  import opened Reads
  import opened Levels
  import opened Drops
  import opened Store
  import opened StoreInv
  import opened Runs
  import opened FileSearch
  import opened Inputs
  import opened Setup
  import opened Edits
  import opened Get
  import Job = CompactionJob

  // ---------- version edits ----------

  /** The edit of a flush, and of a compaction. */
  function FlushEdit(level: nat, f: File): Edit {
    Edit({}, [(level, f)])
  }

  function CompactionEdit(L: nat, in0: seq<File>, in1: seq<File>, outs: seq<File>): Edit {
    Edit((set f | f in in0 :: (L, f.number)) + (set f | f in in1 :: (L + 1, f.number)),
         seq(|outs|, i requires 0 <= i < |outs| => (L + 1, outs[i])))
  }

  /** Lists kept in order by smallest key. */
  ghost predicate Ordered(v: FileLists) {
    |v| == LEVELS && forall l :: 0 <= l < LEVELS ==> Ascending(v[l])
  }

  /** A flush adds its table to its level. */
  lemma FlushApplies(files: Files, level: nat, f: File, l: nat)
    requires |files| == LEVELS && level < LEVELS && l < LEVELS
    ensures ApplyOne(files[l], FlushEdit(level, f), l) == AddFile(files, level, f)[l]
    ensures AddedAt(FlushEdit(level, f), l) == if l == level then {f} else {}
  {
    var e := FlushEdit(level, f);
    assert AddedAt(e, l) == if l == level then {f} else {} by {
      assert e.added[0] == (level, f);
    }
  }

  lemma FlushEditMeans(v: FileLists, level: nat, f: File)
    requires |v| == LEVELS && level < LEVELS
    ensures forall l :: 0 <= l < LEVELS ==>
              ApplyEach(ToSet(v[l]), [FlushEdit(level, f)], l) == AddFile(Abs(v), level, f)[l]
  {
    forall l | 0 <= l < LEVELS
      ensures ApplyEach(ToSet(v[l]), [FlushEdit(level, f)], l) == AddFile(Abs(v), level, f)[l]
    {
      OneEdit(ToSet(v[l]), FlushEdit(level, f), l);
      FlushApplies(Abs(v), level, f, l);
    }
  }

  lemma OneEdit(fs: set<File>, e: Edit, l: nat)
    ensures ApplyEach(fs, [e], l) == ApplyOne(fs, e, l)
    ensures AddedOnce(fs, [e], l) <==> Numbered(AddedAt(e, l)) !! Numbered(fs)
  {
    assert [e][..0] == [];
    assert ApplyEach(fs, [], l) == fs;
    assert fs + BuilderAdded([], l) == fs;
  }

  lemma CompactionAdds(L: nat, in0: seq<File>, in1: seq<File>, outs: seq<File>, l: nat)
    ensures AddedAt(CompactionEdit(L, in0, in1, outs), l) == if l == L + 1 then ToSet(outs) else {}
  {
    var e := CompactionEdit(L, in0, in1, outs);
    forall o | o in outs && l == L + 1 ensures o in AddedAt(e, l) {
      var i :| 0 <= i < |outs| && outs[i] == o;
      assert e.added[i] == (L + 1, o);
    }
  }

  /** Deleting by number deletes exactly the inputs. */
  lemma CompactionApplies(files: Files, L: nat, in0: seq<File>, in1: seq<File>, outs: seq<File>, l: nat)
    requires WellFormed(files) && L + 1 < LEVELS && l < LEVELS
    requires (forall f :: f in in0 ==> f in files[L]) && (forall f :: f in in1 ==> f in files[L + 1])
    requires forall o, f :: o in outs && f in files[L + 1] ==> !SameNumber(f, o)
    ensures ApplyOne(files[l], CompactionEdit(L, in0, in1, outs), l)
         == Replace(files, L, ToSet(in0), ToSet(in1), ToSet(outs))[l]
  {
    var e := CompactionEdit(L, in0, in1, outs);
    CompactionAdds(L, in0, in1, outs, l);
    forall f | f in files[l]
      ensures (l, f.number) in e.deleted <==> (l == L && f in in0) || (l == L + 1 && f in in1)
    {
      if (l, f.number) in e.deleted {
        if l == L {
          var g :| g in in0 && g.number == f.number;
          assert g in files[L] && SameNumber(f, g);
        } else {
          var g :| g in in1 && g.number == f.number;
          assert g in files[L + 1] && SameNumber(f, g);
        }
      }
    }
    forall f | f in files[l] && l == L + 1 ensures f.number !in Numbered(ToSet(outs)) {
      if f.number in Numbered(ToSet(outs)) {
        var o :| o in ToSet(outs) && o.number == f.number;
        assert SameNumber(f, o);
      }
    }
  }

  lemma CompactionEditMeans(v: FileLists, L: nat, in0: seq<File>, in1: seq<File>, outs: seq<File>, l: nat)
    requires Rep(v) && WellFormed(Abs(v)) && L + 1 < LEVELS && l < LEVELS
    requires (forall f :: f in in0 ==> f in v[L]) && (forall f :: f in in1 ==> f in v[L + 1])
    requires forall o, f :: o in outs && f in v[L + 1] ==> !SameNumber(f, o)
    ensures ApplyEach(ToSet(v[l]), [CompactionEdit(L, in0, in1, outs)], l)
         == Replace(Abs(v), L, ToSet(in0), ToSet(in1), ToSet(outs))[l]
  {
    OneEdit(ToSet(v[l]), CompactionEdit(L, in0, in1, outs), l);
    CompactionApplies(Abs(v), L, in0, in1, outs, l);
  }

  /** Installing an edit: VersionSet::LogAndApply up to the new version. */
  method ApplyEdit(v: FileLists, e: Edit) returns (w: FileLists)
    requires Ordered(v) && EditOk(e)
    requires forall l :: 0 <= l < LEVELS ==> Numbered(AddedAt(e, l)) !! Numbered(ToSet(v[l]))
    ensures Ordered(w)
    ensures forall l :: 0 <= l < LEVELS ==> ToSet(w[l]) == ApplyEach(ToSet(v[l]), [e], l)
  {
    var b := new Builder(v);
    assert b.edits + [e] == [e];
    forall l | 0 <= l < LEVELS ensures AddedOnce(ToSet(b.base[l]), b.edits + [e], l) {
      OneEdit(ToSet(v[l]), e, l);
    }
    b.Apply(e);
    w := b.SaveTo();
  }

  /** Ordered lists of a good version are a representation of it. */
  lemma OrderedRep(v: FileLists, files: Files)
    requires Ordered(v) && Good(files)
    requires forall l :: 0 <= l < LEVELS ==> ToSet(v[l]) == files[l]
    ensures Rep(v) && Abs(v) == files
  {
    assert forall l, f :: 0 <= l < LEVELS && f in v[l] ==> f in files[l];
    forall l | 1 <= l < LEVELS ensures SortedLevel(v[l]) {
      forall f, g | f in v[l] && g in v[l] && f != g ensures Apart(f, g) {
        assert f in files[l] && g in files[l];
      }
      AscendingApart(v[l]);
    }
  }

  // ---------- where a flushed memtable goes ----------

  /** A table with this range goes no further down than level l: the next level has the
      range too, or the one after it too much of it. */
  ghost predicate StopsAt(v: FileLists, l: nat, lo: UserKey, hi: UserKey, targetFileSize: nat)
    requires |v| == LEVELS
  {
    || l >= MAX_MEM_LEVEL
    || (exists f :: f in v[l + 1] && Overlaps(f, lo, hi))
    || (l + 2 < LEVELS && TotalFileSize(Meeting(v[l + 2], Some(lo), Some(hi))) > 10 * targetFileSize)
  }

  /** Version::PickLevelForMemTableOutput: the first level where it stops. */
  method PickLevelForMemTableOutput(v: FileLists, lo: UserKey, hi: UserKey, targetFileSize: nat) returns (level: nat)
    requires Rep(v) && forall l :: 1 <= l < LEVELS ==> Packable(v[l])
    ensures level <= MAX_MEM_LEVEL
    ensures if exists f :: f in v[0] && Overlaps(f, lo, hi) then level == 0
            else StopsAt(v, level, lo, hi, targetFileSize)
                 && forall l :: 0 <= l < level ==> !StopsAt(v, l, lo, hi, targetFileSize)
    ensures level > 0 ==> forall l, f :: 0 <= l <= level && f in v[l] ==> !Overlaps(f, lo, hi)
  {
    level := 0;
    var overlap := SomeFileOverlapsRange(false, v[0], Some(lo), Some(hi));
    if !overlap {
      assert forall f :: f in v[0] ==> !Meets(f, Some(lo), Some(hi));
      var stop := false;
      while level < MAX_MEM_LEVEL && !stop
        invariant level <= MAX_MEM_LEVEL
        invariant forall l, f :: 0 <= l <= level && f in v[l] ==> !Meets(f, Some(lo), Some(hi))
        invariant stop ==> StopsAt(v, level, lo, hi, targetFileSize)
        invariant forall l :: 0 <= l < level ==> !StopsAt(v, l, lo, hi, targetFileSize)
        decreases MAX_MEM_LEVEL - level, !stop
      {
        overlap := SomeFileOverlapsRange(true, v[level + 1], Some(lo), Some(hi));
        assert overlap <==> exists f :: f in v[level + 1] && Overlaps(f, lo, hi) by {
          assert forall f :: Meets(f, Some(lo), Some(hi)) <==> Overlaps(f, lo, hi);
        }
        if overlap {
          stop := true;
        } else {
          if level + 2 < LEVELS {
            ghost var a, b;
            var overlaps;
            overlaps, a, b := GetOverlappingInputs(level + 2, v[level + 2], Some(lo), Some(hi));
            var sum := TotalFileSize(overlaps);
            if sum > 10 * targetFileSize {
              stop := true;
            }
          }
          if !stop {
            level := level + 1;
          }
        }
      }
      forall l, f | 0 <= l <= level && f in v[l] ensures !Overlaps(f, lo, hi) {
        assert !Meets(f, Some(lo), Some(hi));
      }
    }
  }

  // ---------- memtables ----------

  /** MemTable::Add: the entry goes to its place in key order. */
  function MemInsert(es: seq<Entry>, e: Entry): seq<Entry> {
    if es == [] || Less(e.k, es[0].k) then [e] + es else [es[0]] + MemInsert(es[1..], e)
  }

  lemma {:induction false} MemInsertSorted(es: seq<Entry>, e: Entry)
    requires SortedEntries(es)
    requires forall d :: d in es ==> d.k != e.k
    ensures SortedEntries(MemInsert(es, e))
    ensures forall d :: d in MemInsert(es, e) <==> d == e || d in es
  {
    if es != [] && !Less(e.k, es[0].k) {
      MemInsertSorted(es[1..], e);
      assert es == [es[0]] + es[1..];
      var r := MemInsert(es[1..], e);
      forall j | 0 <= j < |r| ensures Less(es[0].k, r[j].k) {
        assert r[j] in r && es[0] in es;
        assert r[j] in es[1..] ==> exists i :: 0 < i < |es| && es[i] == r[j];
      }
    }
  }

  /** WriteBatchInternal::InsertInto: each entry of the batch to its place. */
  method InsertBatch(mem: seq<Entry>, batch: seq<Entry>) returns (r: seq<Entry>)
    requires SortedEntries(mem) && Distinct(EntrySet(mem) + EntrySet(batch))
    requires forall i :: 0 <= i < |batch| ==> batch[i] !in mem && batch[i] !in batch[..i]
    ensures SortedEntries(r) && EntrySet(r) == EntrySet(mem) + EntrySet(batch)
  {
    r := mem;
    for i := 0 to |batch|
      invariant SortedEntries(r) && EntrySet(r) == EntrySet(mem) + EntrySet(batch[..i])
    {
      var e := batch[i];
      assert batch[..i + 1] == batch[..i] + [e];
      forall d | d in r ensures d.k != e.k {
        assert d in EntrySet(r) && e in EntrySet(batch);
        assert d in EntrySet(batch[..i]) ==> d in EntrySet(batch);
      }
      MemInsertSorted(r, e);
      r := MemInsert(r, e);
    }
    assert batch[..|batch|] == batch;
  }
}
