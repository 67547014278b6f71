/** Building a table file (table/table_builder.cc): blocks are cut, written and
    indexed one entry late, so that index keys can be short. */
module TableBuilding {
  import opened Keys
  import opened Coding
  import opened LogFile
  import opened Comparator
  import opened BlockFormat
  import opened BlockReader
  import opened Table
  import opened TableReader
  import Bloom
  import FilterBlock

  // ---------- index keys, while the table grows ----------

  /** Finished parts, the index keys there are, and the open block. */
  ghost predicate Built(parts: seq<seq<Pair>>, keys: seq<Bytes>, open: seq<Pair>) {
    && Rising(Join(parts) + open) && |keys| <= |parts|
      && (forall i {:trigger Filled(parts[i])} :: 0 <= i < |parts| ==> Filled(parts[i]))
    && (forall i {:trigger KeyOk(keys[i], parts[i])} :: 0 <= i < |keys| ==> KeyOk(keys[i], parts[i]))
    && (forall i {:trigger KeyBefore(keys[i], parts[i], open)} :: 0 <= i < |keys| ==>
      KeyBefore(keys[i], parts[i], open))
    && (forall i, j {:trigger KeyBefore(keys[i], parts[i], parts[j])} :: 0 <= i < |keys| && i < j < |parts| ==>
      KeyBefore(keys[i], parts[i], parts[j]))
  }

  ghost predicate Filled(part: seq<Pair>) {
    part != []
  }

  /** What separates a block from one key separates it from every later key. */
  lemma SeparatesFurther(sep: Bytes, last: Bytes, y: Bytes, e: Bytes)
    requires IsInternal(last) && IsInternal(y) && IsInternal(e) && Separates(sep, last, y) && InternalLess(y, e)
    ensures Separates(sep, last, e)
  {
    InternalTransitive(sep, y, e);
    if sep != last && UserKeyOf(y) != UserKeyOf(e) {
      BytesTransitive(UserKeyOf(sep), UserKeyOf(y), UserKeyOf(e));
    }
  }

  lemma RisingMore(es: seq<Pair>, e: Pair)
    requires Rising(es) && IsInternal(e.key) && (es != [] ==> InternalLess(es[|es| - 1].key, e.key))
    ensures Rising(es + [e]) && forall i :: 0 <= i < |es| ==> InternalLess(es[i].key, e.key)
  {
    forall i | 0 <= i < |es| ensures InternalLess(es[i].key, e.key) {
      if i < |es| - 1 {
        InternalTransitive(es[i].key, es[|es| - 1].key, e.key);
      }
    }
  }

  /** The last key added so far. */
  ghost predicate LastIs(parts: seq<seq<Pair>>, open: seq<Pair>, last: Bytes) {
    var all := Join(parts) + open;
    all != [] ==> last == all[|all| - 1].key
  }

  lemma LastOfParts(parts: seq<seq<Pair>>)
    requires parts != [] && parts[|parts| - 1] != []
    ensures var last := parts[|parts| - 1];
            Join(parts) != [] && Join(parts)[|Join(parts)| - 1] == last[|last| - 1]
  {
  }

  /** One more entry in an open block that has some. */
  lemma AddToOpen(parts: seq<seq<Pair>>, keys: seq<Bytes>, open: seq<Pair>, e: Pair)
    requires Built(parts, keys, open) && open != [] && IsInternal(e.key) && InternalLess(open[|open| - 1].key, e.key)
    ensures Built(parts, keys, open + [e])
  {
    var all := Join(parts) + open;
    RisingMore(all, e);
    assert all + [e] == Join(parts) + (open + [e]);
    var y := open[|open| - 1];
    forall i | 0 <= i < |keys| ensures KeyBefore(keys[i], parts[i], open + [e]) {
      assert y in open && KeyBefore(keys[i], parts[i], open);
      SeparatesFurther(keys[i], parts[i][|parts[i]| - 1].key, y.key, e.key);
    }
  }

  /** The first entry of a block, with the index key of the block before. */
  lemma OpenNext(parts: seq<seq<Pair>>, keys: seq<Bytes>, sep: Bytes, e: Pair)
    requires Built(parts, keys, []) && |keys| == |parts| - 1 && IsInternal(e.key)
    requires var last := parts[|parts| - 1];
             (last != [] && IsInternal(last[|last| - 1].key)
              && InternalLess(last[|last| - 1].key, e.key) && Separates(sep, last[|last| - 1].key, e.key))
    ensures Built(parts, keys + [sep], [e])
  {
    var last := parts[|parts| - 1];
    var y := last[|last| - 1];
    LastOfParts(parts);
    assert Join(parts) + [] == Join(parts);
    RisingMore(Join(parts), e);
    forall i | 0 <= i < |keys| ensures KeyBefore(keys[i], parts[i], [e]) {
      assert y in last && KeyBefore(keys[i], parts[i], last);
      SeparatesFurther(keys[i], parts[i][|parts[i]| - 1].key, y.key, e.key);
    }
  }

  lemma OpenFirst(e: Pair)
    requires IsInternal(e.key)
    ensures Built([], [], [e])
  {
  }

  /** The open block becomes a part. */
  lemma ClosePart(parts: seq<seq<Pair>>, keys: seq<Bytes>, open: seq<Pair>)
    requires Built(parts, keys, open) && open != []
    ensures Built(parts + [open], keys, [])
  {
    var parts' := parts + [open];
    assert parts'[..|parts|] == parts;
    assert Join(parts') + [] == Join(parts) + open;
    forall i | 0 <= i < |parts'| ensures Filled(parts'[i]) {
      assert i < |parts| ==> Filled(parts[i]);
    }
    forall i | 0 <= i < |keys| ensures KeyOk(keys[i], parts'[i]) && KeyBefore(keys[i], parts'[i], []) {
      assert KeyOk(keys[i], parts[i]);
    }
    forall i, j | 0 <= i < |keys| && i < j < |parts'| ensures KeyBefore(keys[i], parts'[i], parts'[j]) {
      assert if j < |parts| then KeyBefore(keys[i], parts[i], parts[j]) else KeyBefore(keys[i], parts[i], open);
    }
  }

  /** The last index key. */
  lemma LastKey(parts: seq<seq<Pair>>, keys: seq<Bytes>, sep: Bytes)
    requires Built(parts, keys, []) && |keys| == |parts| - 1
    requires var last := parts[|parts| - 1]; last != [] && IsInternal(sep) && !InternalLess(sep, last[|last| - 1].key)
    ensures Indexed(keys + [sep], parts)
  {
    assert Join(parts) + [] == Join(parts);
  }

  lemma AllKeys(parts: seq<seq<Pair>>, keys: seq<Bytes>)
    requires Built(parts, keys, []) && |keys| == |parts|
    ensures Indexed(keys, parts)
  {
    assert Join(parts) + [] == Join(parts);
  }

  // ---------- blocks in the file ----------

  /** The block is stored where the handle says; the file may still grow. */
  ghost predicate StoredAt(sum: Bytes -> word, file: Bytes, h: Handle, contents: Bytes) {
    && h.size == |contents| && h.offset + h.size + TRAILER <= |file|
    && file[h.offset..h.offset + h.size + TRAILER] == contents + BlockTrailer(sum, contents)
  }

  ghost predicate AllStored(sum: Bytes -> word, file: Bytes, parts: seq<seq<Pair>>, handles: seq<Handle>,
                            interval: nat) {
    |handles| == |parts| && forall i {:trigger StoredAt(sum, file, handles[i], BlockBytes(parts[i], interval))} ::
      0 <= i < |parts| ==> StoredAt(sum, file, handles[i], BlockBytes(parts[i], interval))
  }

  lemma StoreOne(sum: Bytes -> word, file: Bytes, parts: seq<seq<Pair>>, handles: seq<Handle>, interval: nat,
                 part: seq<Pair>)
    requires AllStored(sum, file, parts, handles, interval)
    ensures var b := BlockBytes(part, interval);
            AllStored(sum, file + b + BlockTrailer(sum, b), parts + [part], handles + [Handle(|file|, |b|)], interval)
  {
    var b := BlockBytes(part, interval);
    var more := b + BlockTrailer(sum, b);
    assert file + b + BlockTrailer(sum, b) == file + more;
    StillStored(sum, file, parts, handles, interval, more);
    StoredLast(sum, file, b, more);
    AllAndLast(sum, file + more, parts, handles, interval, part, Handle(|file|, |b|));
  }

  lemma StoredLast(sum: Bytes -> word, file: Bytes, b: Bytes, more: Bytes)
    requires more == b + BlockTrailer(sum, b)
    ensures StoredAt(sum, file + more, Handle(|file|, |b|), b)
  {
  }

  lemma AllAndLast(sum: Bytes -> word, file: Bytes, parts: seq<seq<Pair>>, handles: seq<Handle>, interval: nat,
                   part: seq<Pair>, h: Handle)
    requires AllStored(sum, file, parts, handles, interval) && StoredAt(sum, file, h, BlockBytes(part, interval))
    ensures AllStored(sum, file, parts + [part], handles + [h], interval)
  {
    var ps, hs := parts + [part], handles + [h];
    forall i | 0 <= i < |ps| ensures StoredAt(sum, file, hs[i], BlockBytes(ps[i], interval)) {
      if i < |parts| {
        assert StoredAt(sum, file, handles[i], BlockBytes(parts[i], interval));
      }
    }
  }

  ghost predicate AllAdded(added: set<(nat, Bytes)>, parts: seq<seq<Pair>>, handles: seq<Handle>, open: seq<Pair>,
                           offset: nat) {
    && |handles| == |parts| && PartAdded(added, open, offset)
    && (forall i {:trigger PartAdded(added, parts[i], handles[i].offset)} :: 0 <= i < |parts| ==>
      PartAdded(added, parts[i], handles[i].offset))
  }

  ghost predicate PartAdded(added: set<(nat, Bytes)>, part: seq<Pair>, offset: nat) {
    forall e {:trigger e in part} :: e in part ==> (offset, e.key) in added
  }

  lemma AddedMore(added: set<(nat, Bytes)>, parts: seq<seq<Pair>>, handles: seq<Handle>, open: seq<Pair>, offset: nat,
                  e: Pair)
    requires AllAdded(added, parts, handles, open, offset)
    ensures AllAdded(added + {(offset, e.key)}, parts, handles, open + [e], offset)
  {
    forall i | 0 <= i < |parts| ensures PartAdded(added + {(offset, e.key)}, parts[i], handles[i].offset) {
      assert PartAdded(added, parts[i], handles[i].offset);
    }
  }

  // ---------- the builder ----------

  /** CurrentSizeEstimate of a block with these entries: its size if it were finished now. */
  function SizeEstimate(es: seq<Pair>, interval: nat): (n: nat)
    ensures n == |BlockBytes(es, interval)|
  {
    |Buffer(es, interval, |es|)| + 4 * |Restarts(es, interval)| + 4
  }

  class TableBuilder {
    const sum: Bytes -> word
    const blockSize: nat
    const useFilter: bool
    const interval: nat
    const filterBlock: FilterBlock.FilterBlockBuilder
    var file: Bytes
    /** The blocks being built, as the entries added to them: BlockBuilder turns such
        a list into its BlockBytes. */
    var dataBlock: seq<Pair>
    var indexBlock: seq<Pair>
    var lastKey: Bytes
    var pendingIndexEntry: bool
    var pendingHandle: Handle
    ghost var parts: seq<seq<Pair>>
    ghost var handles: seq<Handle>
    ghost var keys: seq<Bytes>

    ghost function Repr(): set<object> {
      {this, filterBlock}
    }

    /** Everything added so far. */
    ghost function Entries(): seq<Pair>
      reads this
    {
      Join(parts) + dataBlock
    }

    ghost predicate Valid()
      reads this, filterBlock
    {
      && interval >= 1 && filterBlock.Valid() && filterBlock.keyOf == FilterKey
      && Built(parts, keys, dataBlock) && LastIs(parts, dataBlock, lastKey)
      && AllStored(sum, file, parts, handles, interval)
      && (if pendingIndexEntry then dataBlock == [] && |parts| == |keys| + 1 && pendingHandle == handles[|keys|]
          else |parts| == |keys| && (dataBlock == [] ==> parts == []))
      && indexBlock == IndexPairs(keys, handles[..|keys|])
      && (useFilter ==>
        filterBlock.blockOffset == |file| && AllAdded(filterBlock.added, parts, handles, dataBlock, |file|))
    }

    constructor (sum: Bytes -> word, hashOf: Bytes -> Bloom.hash, interval: nat, blockSize: nat, useFilter: bool,
                 bitsPerKey: nat, k: nat)
      requires interval >= 1 && 1 <= k <= 30
      ensures Valid() && Entries() == [] && fresh(Repr()) && filterBlock.hashOf == hashOf && this.sum == sum
      ensures this.useFilter == useFilter && this.interval == interval
    {
      this.sum, this.interval, this.blockSize, this.useFilter := sum, interval, blockSize, useFilter;
      dataBlock, indexBlock := [], [];
      filterBlock := new FilterBlock.FilterBlockBuilder(hashOf, FilterKey, bitsPerKey, k);
      file, lastKey, pendingIndexEntry, pendingHandle := [], [], false, Handle(0, 0);
      parts, handles, keys := [], [], [];
      new;
      if useFilter {
        filterBlock.StartBlock(0);
      }
    }

    /** Add: keys come in strictly rising order. */
    method Add(key: Bytes, value: Bytes)
      requires Valid() && IsInternal(key)
      requires Entries() != [] ==> InternalLess(Entries()[|Entries()| - 1].key, key)
      modifies Repr()
      ensures Valid() && Entries() == old(Entries()) + [Pair(key, value)]
    {
      FinishIndexEntry(key, Pair(key, value));
      AddEntry(key, value);
      if SizeEstimate(dataBlock, interval) >= blockSize {
        Flush();
      }
    }

    /** All but the open block is ready for the next entry, e. */
    ghost predicate Opening(e: Pair)
      reads this, filterBlock
    {
      && interval >= 1 && filterBlock.Valid() && filterBlock.keyOf == FilterKey
      && Built(parts, keys, dataBlock + [e])
      && AllStored(sum, file, parts, handles, interval)
      && |parts| == |keys| && !pendingIndexEntry && indexBlock == IndexPairs(keys, handles)
      && (useFilter ==>
        filterBlock.blockOffset == |file| && AllAdded(filterBlock.added, parts, handles, dataBlock, |file|))
    }

    /** The index entry of the block before, if it waits for this key. */
    method FinishIndexEntry(key: Bytes, ghost e: Pair)
      requires Valid() && IsInternal(key) && e.key == key
      requires Entries() != [] ==> InternalLess(Entries()[|Entries()| - 1].key, key)
      modifies `lastKey, `pendingIndexEntry, `keys, `indexBlock
      ensures Opening(e)
    {
      Admit(e);
      if pendingIndexEntry {
        WriteIndexEntry(key, e);
        assert dataBlock + [e] == [e];
      }
      assert handles[..|keys|] == handles;
    }

    method AddEntry(key: Bytes, value: Bytes)
      requires Opening(Pair(key, value))
      modifies `lastKey, `dataBlock, filterBlock
      ensures Valid() && Entries() == old(Entries()) + [Pair(key, value)]
    {
      ghost var e, open := Pair(key, value), dataBlock;
      if useFilter {
        AddedMore(filterBlock.added, parts, handles, open, |file|, e);
        filterBlock.AddKey(key);
      }
      lastKey := key;
      dataBlock := dataBlock + [Pair(key, value)];
      assert Join(parts) + (open + [e]) == Join(parts) + open + [e];
      assert handles[..|keys|] == handles;
    }

    /** The new entry goes after everything there is. */
    lemma Admit(e: Pair)
      requires Valid() && IsInternal(e.key) && (Entries() != [] ==> InternalLess(Entries()[|Entries()| - 1].key, e.key))
      ensures !pendingIndexEntry ==> Built(parts, keys, dataBlock + [e])
      ensures pendingIndexEntry ==> IsInternal(lastKey) && InternalLess(lastKey, e.key) && IsLastKey(parts, lastKey)
    {
      var open := dataBlock;
      if pendingIndexEntry {
        assert Filled(parts[|parts| - 1]);
        LastOfParts(parts);
        assert Join(parts) + [] == Join(parts);
      } else if open == [] {
        assert open + [e] == [e];
        OpenFirst(e);
      } else {
        AddToOpen(parts, keys, open, e);
      }
    }

    /** The index entry of the block before, now that the next key is known. */
    method WriteIndexEntry(key: Bytes, ghost e: Pair)
      requires e.key == key && IsInternal(key)
      requires Built(parts, keys, []) && |handles| == |parts| == |keys| + 1 && pendingHandle == handles[|keys|]
      requires indexBlock == IndexPairs(keys, handles[..|keys|])
      requires IsInternal(lastKey) && InternalLess(lastKey, key) && IsLastKey(parts, lastKey)
      modifies `lastKey, `pendingIndexEntry, `keys, `indexBlock
      ensures |keys| == |parts| && Built(parts, keys, [e]) && !pendingIndexEntry
      ensures indexBlock == IndexPairs(keys, handles)
    {
      var sep := InternalSeparator(lastKey, key);
      NextBlockOpens(parts, keys, sep, lastKey, e);
      IndexMore(keys, handles, sep);
      lastKey := sep;
      indexBlock := indexBlock + [Pair(lastKey, EncodeHandle(pendingHandle))];
      pendingIndexEntry := false;
      keys := keys + [sep];
      assert handles[..|keys|] == handles;
    }

    /** Flush: the open block, if it has entries, is written out. */
    method Flush()
      requires Valid()
      modifies Repr()
      ensures Valid() && Entries() == old(Entries()) && dataBlock == []
    {
      if dataBlock == [] {
        return;
      }
      FlushBlock();
      if useFilter {
        filterBlock.StartBlock(|file|);
      }
    }

    method FlushBlock()
      requires Valid() && dataBlock != []
      modifies `file, `pendingIndexEntry, `pendingHandle, `parts, `handles, `dataBlock
      ensures dataBlock == [] && pendingIndexEntry
      ensures Built(parts, keys, []) && parts == old(parts) + [old(dataBlock)]
      ensures handles == old(handles) + [pendingHandle]
      ensures AllStored(sum, file, parts, handles, interval) && pendingHandle.offset == |old(file)| <= |file|
    {
      ghost var open := dataBlock;
      ClosePart(parts, keys, open);
      var contents := BlockBytes(dataBlock, interval);
      StoreOne(sum, file, parts, handles, interval, open);
      pendingHandle := Handle(|file|, |contents|);
      file := file + contents + BlockTrailer(sum, contents);
      dataBlock := [];
      pendingIndexEntry := true;
      parts, handles := parts + [open], handles + [pendingHandle];
    }

    /** The last block's index key needs only to be not before the block. */
    method FinishLastKey()
      requires Valid() && dataBlock == []
      modifies `lastKey, `pendingIndexEntry, `keys, `indexBlock
      ensures Indexed(keys, parts) && indexBlock == IndexPairs(keys, handles)
    {
      assert handles[..|parts|] == handles;
      if pendingIndexEntry {
        ghost var last := parts[|parts| - 1];
        assert Filled(last);
        LastOfParts(parts);
        assert Join(parts) + [] == Join(parts);
        var sep := InternalSuccessor(lastKey);
        LastKey(parts, keys, sep);
        IndexMore(keys, handles, sep);
        lastKey := sep;
        indexBlock := indexBlock + [Pair(lastKey, EncodeHandle(pendingHandle))];
        pendingIndexEntry := false;
        keys := keys + [sep];
      } else {
        AllKeys(parts, keys);
      }
    }

    /** Finish: the last block, its index entry, the filter block and the index block.
        Whoever reads the result finds in it exactly the entries that were added. */
    method Finish() returns (t: TableFile, ghost c: Contents)
      requires Valid()
      modifies Repr()
      ensures Join(c.parts) == old(Entries())
      ensures Fits(t, c) ==> Written(sum, filterBlock.hashOf, t, c)
    {
      Flush();
      FinishLastKey();
      c := Contents(parts, handles, keys, interval);
      assert Join(parts) + [] == Join(parts);
      var filter := WriteFilterBlock();
      var index := BlockBytes(indexBlock, 1);
      StillStored(sum, file, parts, handles, interval, index + BlockTrailer(sum, index));
      file := file + (index + BlockTrailer(sum, index));
      t := TableFile(file, index, filter);
      if Fits(t, c) {
        AllWritten(sum, file, parts, handles, interval);
      }
    }

    /** The filter block, if there is a filter policy. */
    method WriteFilterBlock() returns (filter: Option<Bytes>)
      requires AllStored(sum, file, parts, handles, interval) && filterBlock.Valid() && filterBlock.keyOf == FilterKey
      requires useFilter ==> AllAdded(filterBlock.added, parts, handles, [], |file|)
      modifies `file, filterBlock
      ensures AllStored(sum, file, parts, handles, interval)
      ensures filter.Some? && |filter.value| < U32 ==>
                forall i :: 0 <= i < |parts| ==> PartFiltered(filterBlock.hashOf, filter.value, handles[i], parts[i])
    {
      filter := None;
      if useFilter {
        ghost var added, offset := filterBlock.added, |file|;
        var contents := filterBlock.Finish();
        filter := Some(contents);
        StillStored(sum, file, parts, handles, interval, contents + BlockTrailer(sum, contents));
        file := file + (contents + BlockTrailer(sum, contents));
        if |contents| < U32 {
          AllFiltered(filterBlock.hashOf, contents, added, parts, handles, offset);
        }
      }
    }
  }

  /** The table is within the sizes its formats can express. */
  ghost predicate Fits(t: TableFile, c: Contents) {
    && |t.file| < U64 && |t.index| < U32 && (t.filter.Some? ==> |t.filter.value| < U32)
    && forall i :: 0 <= i < |c.parts| ==> |BlockBytes(c.parts[i], c.interval)| < U32
  }

  lemma StillStored(sum: Bytes -> word, file: Bytes, parts: seq<seq<Pair>>, handles: seq<Handle>, interval: nat,
                    more: Bytes)
    requires AllStored(sum, file, parts, handles, interval)
    ensures AllStored(sum, file + more, parts, handles, interval)
  {
    forall i | 0 <= i < |parts| ensures StoredAt(sum, file + more, handles[i], BlockBytes(parts[i], interval)) {
      assert StoredAt(sum, file, handles[i], BlockBytes(parts[i], interval));
      StillThere(sum, file, more, handles[i], BlockBytes(parts[i], interval));
    }
  }

  lemma StillThere(sum: Bytes -> word, file: Bytes, more: Bytes, h: Handle, contents: Bytes)
    requires StoredAt(sum, file, h, contents)
    ensures StoredAt(sum, file + more, h, contents)
  {
    assert (file + more)[h.offset..h.offset + h.size + TRAILER] == file[h.offset..h.offset + h.size + TRAILER];
  }

  lemma AllWritten(sum: Bytes -> word, file: Bytes, parts: seq<seq<Pair>>, handles: seq<Handle>, interval: nat)
    requires AllStored(sum, file, parts, handles, interval) && |file| < U64 && interval >= 1
    requires forall i :: 0 <= i < |parts| ==> |BlockBytes(parts[i], interval)| < U32
    ensures forall i :: 0 <= i < |parts| ==> PartWritten(sum, file, handles[i], parts[i], interval)
  {
    forall i | 0 <= i < |parts| ensures PartWritten(sum, file, handles[i], parts[i], interval) {
      assert StoredAt(sum, file, handles[i], BlockBytes(parts[i], interval));
    }
  }

  lemma AllFiltered(hashOf: Bytes -> Bloom.hash, filter: Bytes, added: set<(nat, Bytes)>, parts: seq<seq<Pair>>,
                    handles: seq<Handle>,
                    offset: nat)
    requires AllAdded(added, parts, handles, [], offset)
    requires forall a :: a in added ==> FilterBlock.MayMatch(hashOf, filter, a.0, FilterKey(a.1))
    ensures forall i :: 0 <= i < |parts| ==> PartFiltered(hashOf, filter, handles[i], parts[i])
  {
    forall i, e | 0 <= i < |parts| && e in parts[i]
      ensures FilterBlock.MayMatch(hashOf, filter, handles[i].offset, FilterKey(e.key)) {
      assert PartAdded(added, parts[i], handles[i].offset);
      assert (handles[i].offset, e.key) in added;
    }
  }

  lemma NextBlockOpens(parts: seq<seq<Pair>>, keys: seq<Bytes>, sep: Bytes, last: Bytes, e: Pair)
    requires Built(parts, keys, []) && |keys| == |parts| - 1 && IsLastKey(parts, last) && IsInternal(last)
    requires IsInternal(e.key)
    requires InternalLess(last, e.key) && IsInternal(sep) && !InternalLess(sep, last) && InternalLess(sep, e.key)
    requires sep == last || BytesLess(UserKeyOf(sep), UserKeyOf(e.key))
    ensures Built(parts, keys + [sep], [e])
  {
    OpenNext(parts, keys, sep, e);
  }

  ghost predicate IsLastKey(parts: seq<seq<Pair>>, last: Bytes) {
    parts != [] && parts[|parts| - 1] != [] && parts[|parts| - 1][|parts[|parts| - 1]| - 1].key == last
  }

  lemma IndexMore(keys: seq<Bytes>, handles: seq<Handle>, sep: Bytes)
    requires |keys| < |handles|
    ensures IndexPairs(keys + [sep], handles[..|keys| + 1])
         == IndexPairs(keys, handles[..|keys|]) + [Pair(sep, EncodeHandle(handles[|keys|]))]
  {
  }
}
