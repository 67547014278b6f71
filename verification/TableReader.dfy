/** Reading a table file (table/table.cc, table/format.cc): block handles, block
    reads, and InternalGet. */
module TableReader {
  import opened Keys
  import opened Coding
  import opened LogFile
  import opened Comparator
  import opened BlockFormat
  import opened BlockReader
  import opened Table
  import Bloom
  import FilterBlock

  // ---------- blocks in a file ----------

  datatype Handle = Handle(offset: nat, size: nat)

  function EncodeHandle(h: Handle): Bytes {
    Varint(h.offset) + Varint(h.size)
  }

  const TRAILER: nat := 5

  /** Compression type (none) and masked checksum. */
  function BlockTrailer(sum: Bytes -> word, contents: Bytes): (t: Bytes)
    ensures |t| == TRAILER
  {
    [0] + Fixed(Mask(sum(contents + [0])), 4)
  }

  /** The block is stored where the handle says. */
  ghost predicate Stored(sum: Bytes -> word, file: Bytes, h: Handle, contents: Bytes) {
    && h.size == |contents| && h.offset + h.size + TRAILER <= |file| < U64
    && file[h.offset..h.offset + h.size + TRAILER] == contents + BlockTrailer(sum, contents)
  }

  /** The handle at the front of these bytes; None if two varints are not there. */
  function HandleAt(b: Bytes): Option<Handle> {
    match VarintAt(b, 10, U64)
    case None => None
    case Some(offset) =>
      match VarintAt(offset.1, 10, U64)
      case None => None
      case Some(size) => Some(Handle(offset.0, size.0))
  }

  lemma HandleBack(h: Handle)
    requires h.offset < U64 && h.size < U64
    ensures HandleAt(EncodeHandle(h)) == Some(h)
  {
    ScaleLimits();
    assert Varint(h.size) + [] == Varint(h.size);
    VarintBack(h.offset, Varint(h.size), 10, U64);
    VarintBack(h.size, [], 10, U64);
  }

  /** BlockHandle::DecodeFrom. */
  method DecodeHandle(b: Bytes, ghost h: Handle) returns (r: Option<Handle>)
    ensures r == HandleAt(b)
    ensures h.offset < U64 && h.size < U64 && b == EncodeHandle(h) ==> r == Some(h)
  {
    if h.offset < U64 && h.size < U64 { HandleBack(h); }
    var next, offset, size;
    assert b[0..] == b;
    next, offset := GetVarint64(b, 0, 0, []);
    if next == None {
      return None;
    }
    next, size := GetVarint64(b, next.value, 0, []);
    if next == None {
      return None;
    }
    r := Some(Handle(offset, size));
  }

  /** ReadBlock: an uncompressed block is given when it is there whole, and, if asked
      to verify, only when the checksum stored after it is that of its bytes. */
  method ReadBlock(sum: Bytes -> word, file: Bytes, h: Handle, verify: bool, ghost contents: Bytes)
    returns (r: Option<Bytes>)
    ensures Stored(sum, file, h, contents) ==> r == Some(contents)
    ensures var end := h.offset + h.size;
            r.Some? <==> end + TRAILER <= |file| && file[end] == 0
                         && (verify ==>
                               Unmask(DecodeFixed32(file[end + 1..end + TRAILER])) == sum(file[h.offset..end + 1]))
    ensures r.Some? ==> r.value == file[h.offset..h.offset + h.size]
  {
    if h.offset + h.size + TRAILER > |file| {
      return None;
    }
    var data, n := file[h.offset..h.offset + h.size + TRAILER], h.size;
    if Stored(sum, file, h, contents) {
      TrailerReads(sum, contents);
    }
    assert data[n + 1..] == file[h.offset + n + 1..h.offset + n + TRAILER];
    assert data[..n + 1] == file[h.offset..h.offset + n + 1] && data[..n] == file[h.offset..h.offset + n];
    if verify && Unmask(DecodeFixed32(data[n + 1..])) != sum(data[..n + 1]) {
      return None;
    }
    if data[n] != 0 {
      return None;
    }
    r := Some(data[..n]);
  }

  lemma TrailerReads(sum: Bytes -> word, contents: Bytes)
    ensures var data, n := contents + BlockTrailer(sum, contents), |contents|;
            && data[..n] == contents && data[n] == 0 && data[..n + 1] == contents + [0]
            && Unmask(DecodeFixed32(data[n + 1..])) == sum(contents + [0])
  {
    var data, n := contents + BlockTrailer(sum, contents), |contents|;
    var crc := Mask(sum(contents + [0]));
    assert data[n + 1..] == Fixed(crc, 4) + [];
    Fixed32RoundTrip(crc, []);
    UnmaskMask(sum(contents + [0]));
  }

  // ---------- tables ----------

  /** What the reader is given: the file, the index block, and the filter block if
      there is one. */
  datatype TableFile = TableFile(file: Bytes, index: Bytes, filter: Option<Bytes>)

  /** What was written: the data blocks, where they are, and their index keys. */
  datatype Contents = Contents(parts: seq<seq<Pair>>, handles: seq<Handle>, keys: seq<Bytes>, interval: nat)

  function IndexPairs(keys: seq<Bytes>, handles: seq<Handle>): (es: seq<Pair>)
    requires |keys| == |handles|
    ensures |es| == |keys| && KeysOf(es) == keys
  {
    seq(|keys|, i requires 0 <= i < |keys| => Pair(keys[i], EncodeHandle(handles[i])))
  }

  /** The part of an internal key the filter looks at. */
  function FilterKey(k: Bytes): Bytes {
    if IsInternal(k) then UserKeyOf(k) else k
  }

  ghost predicate Written(sum: Bytes -> word, hashOf: Bytes -> Bloom.hash, t: TableFile, c: Contents) {
    && |c.handles| == |c.keys| == |c.parts| && Indexed(c.keys, c.parts)
    && Formed(t.index, IndexPairs(c.keys, c.handles), 1)
    && (forall i :: 0 <= i < |c.parts| ==> PartWritten(sum, t.file, c.handles[i], c.parts[i], c.interval))
    && (t.filter.Some? ==> forall i :: 0 <= i < |c.parts| ==>
      PartFiltered(hashOf, t.filter.value, c.handles[i], c.parts[i]))
  }

  ghost predicate PartWritten(sum: Bytes -> word, file: Bytes, h: Handle, part: seq<Pair>, interval: nat) {
    Stored(sum, file, h, BlockBytes(part, interval)) && Formed(BlockBytes(part, interval), part, interval)
  }

  ghost predicate PartFiltered(hashOf: Bytes -> Bloom.hash, filter: Bytes, h: Handle, part: seq<Pair>) {
    forall e :: e in part ==> FilterBlock.MayMatch(hashOf, filter, h.offset, FilterKey(e.key))
  }

  /** Index keys are in order. */
  lemma IndexSorted(keys: seq<Bytes>, handles: seq<Handle>, parts: seq<seq<Pair>>)
    requires |handles| == |keys| && Indexed(keys, parts)
    ensures Sorted(InternalLess, IndexPairs(keys, handles))
  {
    InternalLinear();
    var es := IndexPairs(keys, handles);
    forall i, j | 0 <= i < j < |es| ensures InternalLess(es[i].key, es[j].key) {
      assert KeyOk(keys[j], parts[j]) && KeyBefore(keys[i], parts[i], parts[j]);
      var last := parts[j][|parts[j]| - 1];
      assert last in parts[j] && InternalLess(keys[i], last.key);
      InternalTotal(last.key, keys[j]);
      if last.key != keys[j] {
        InternalTransitive(keys[i], last.key, keys[j]);
      }
    }
  }

  lemma PartSorted(parts: seq<seq<Pair>>, i: nat)
    requires Rising(Join(parts)) && i < |parts|
    ensures Sorted(InternalLess, parts[i])
  {
    InternalLinear();
    forall p, q | 0 <= p < q < |parts[i]| ensures InternalLess(parts[i][p].key, parts[i][q].key) {
      JoinAt(parts, i, p);
      JoinAt(parts, i, q);
    }
  }

  lemma {:induction false} SeekExists(keys: seq<Bytes>, k: Bytes, n: nat) returns (p: nat)
    requires n <= |keys| && forall i :: 0 <= i < n ==> InternalLess(keys[i], k)
    ensures SeeksTo(keys, k, p)
    decreases |keys| - n
  {
    if n < |keys| && InternalLess(keys[n], k) {
      p := SeekExists(keys, k, n + 1);
    } else {
      p := n;
    }
  }

  /** What a seek in the block the index names says about the whole table. */
  lemma BlockDecides(c: Contents, k: Bytes, i: nat, p: nat)
    requires Indexed(c.keys, c.parts) && IsInternal(k) && SeeksTo(c.keys, k, i) && i < |c.parts|
    requires SeeksTo(KeysOf(c.parts[i]), k, p)
    ensures var all, part := Join(c.parts), c.parts[i];
            if p < |part| && UserKeyOf(part[p].key) == UserKeyOf(k) then Answers(all, k, part[p])
            else forall e :: e in all ==> !Answers(all, k, e)
  {
    if p < |c.parts[i]| {
      FoundInBlock(c.keys, c.parts, k, i, p);
      FirstAnswers(Join(c.parts), k, |Join(c.parts[..i])| + p);
    } else {
      forall e | e in Join(c.parts) ensures InternalLess(e.key, k) || UserKeyOf(e.key) != UserKeyOf(k) {
        PastBlock(c.keys, c.parts, k, i, e);
      }
      BelowNoAnswer(Join(c.parts), k);
    }
  }

  /** A block's iterator, after Seek: its entry, if it is valid. */
  method SeekBlock(data: Bytes, k: Bytes, ghost es: seq<Pair>, ghost interval: nat)
    returns (r: Option<Pair>, ghost p: nat)
    ensures Formed(data, es, interval) && Sorted(InternalLess, es) ==>
              SeeksTo(KeysOf(es), k, p) && r == if p < |es| then Some(es[p]) else None
  {
    var ok, iter;
    ok, iter := NewIterator(data, es, interval);
    if iter == None {
      return None, 0;
    }
    p := iter.value.Seek(InternalLess, k);
    r := if iter.value.Valid() then Some(iter.value.Current()) else None;
  }

  /** Table::InternalGet, then SaveValue's test of the user key: the newest entry of
      the lookup's user key that is not too new, exactly when the table has one. */
  method InternalGet(sum: Bytes -> word, hashOf: Bytes -> Bloom.hash, t: TableFile, verify: bool, k: Bytes,
                     ghost c: Contents)
    returns (r: Option<Pair>)
    requires IsInternal(k)
    ensures Written(sum, hashOf, t, c) ==>
              if r.Some? then Answers(Join(c.parts), k, r.value) else forall e :: e in Join(c.parts) ==>
                !Answers(Join(c.parts), k, e)
  {
    ghost var hyp := Written(sum, hashOf, t, c);
    ghost var index := if hyp then IndexPairs(c.keys, c.handles) else [];
    if hyp { IndexSorted(c.keys, c.handles, c.parts); }
    var entry;
    ghost var i;
    entry, i := SeekBlock(t.index, k, index, 1);
    if entry == None {
      if hyp { NothingPast(c, k); }
      return None;
    }
    r := GetInBlock(sum, hashOf, t, verify, k, entry.value.value, c, i);
  }

  lemma NothingPast(c: Contents, k: Bytes)
    requires Indexed(c.keys, c.parts) && IsInternal(k) && SeeksTo(c.keys, k, |c.parts|)
    ensures forall e :: e in Join(c.parts) ==> !Answers(Join(c.parts), k, e)
  {
    forall e | e in Join(c.parts) ensures InternalLess(e.key, k) {
      PastIndex(c.keys, c.parts, k, e);
    }
    BelowNoAnswer(Join(c.parts), k);
  }

  /** The rest of InternalGet, in the block of index entry i. */
  method GetInBlock(sum: Bytes -> word, hashOf: Bytes -> Bloom.hash, t: TableFile, verify: bool, k: Bytes,
                    handleValue: Bytes,
                    ghost c: Contents, ghost i: nat)
    returns (r: Option<Pair>)
    requires IsInternal(k)
    ensures Written(sum, hashOf, t, c) && i < |c.parts| && SeeksTo(c.keys, k, i)
              && handleValue == EncodeHandle(c.handles[i]) ==>
              if r.Some? then Answers(Join(c.parts), k, r.value) else forall e :: e in Join(c.parts) ==>
                !Answers(Join(c.parts), k, e)
  {
    ghost var hyp := Written(sum, hashOf, t, c) && i < |c.parts| && SeeksTo(c.keys, k, i)
      && handleValue == EncodeHandle(c.handles[i]);
    ghost var part := if hyp then c.parts[i] else [];
    if hyp {
      assert PartWritten(sum, t.file, c.handles[i], part, c.interval);
      PartSorted(c.parts, i);
    }
    var handle := DecodeHandle(handleValue, if hyp then c.handles[i] else Handle(0, 0));
    if handle == None {
      return None;
    }
    if t.filter.Some? {
      var may := FilterBlock.KeyMayMatch(hashOf, t.filter.value, handle.value.offset, FilterKey(k));
      if !may {
        if hyp { FilteredOut(hashOf, t.filter.value, c, k, i); }
        return None;
      }
    }
    var data := ReadBlock(sum, t.file, handle.value, verify, if hyp then BlockBytes(part, c.interval) else []);
    if data == None {
      return None;
    }
    ghost var p;
    r, p := SeekBlock(data.value, k, part, c.interval);
    if hyp { BlockDecides(c, k, i, p); }
    if r.Some? && !(IsInternal(r.value.key) && UserKeyOf(r.value.key) == UserKeyOf(k)) {
      r := None;
    }
  }

  /** A key the filter rules out is not in the block, so nothing answers it. */
  lemma FilteredOut(hashOf: Bytes -> Bloom.hash, filter: Bytes, c: Contents, k: Bytes, i: nat)
    requires Indexed(c.keys, c.parts) && IsInternal(k) && SeeksTo(c.keys, k, i) && i < |c.parts| == |c.handles|
    requires PartFiltered(hashOf, filter, c.handles[i], c.parts[i])
    requires !FilterBlock.MayMatch(hashOf, filter, c.handles[i].offset, FilterKey(k))
    ensures forall e :: e in Join(c.parts) ==> !Answers(Join(c.parts), k, e)
  {
    var p := SeekExists(KeysOf(c.parts[i]), k, 0);
    BlockDecides(c, k, i, p);
    if p < |c.parts[i]| {
      JoinAt(c.parts, i, p);
      assert c.parts[i][p] in c.parts[i];
    }
  }
}
