/** Reading the store's table files through their bytes (table_cache.cc, and
    Version::Get and Table::NewIterator over it). */
module TableCache {
  import opened Keys
  import opened Reads
  import opened Cursors
  import opened Levels
  import opened Inputs
  import opened Setup
  import opened Get
  import opened LogFile
  import opened Coding
  import opened Comparator
  import opened BlockFormat
  import opened BlockReader
  import opened Table
  import opened TableReader
  import opened DecodedTable
  import TwoLevel
  import Bloom

  // ---------- lookups ----------

  /** The file's table is on disk: its bytes hold the file's entries, encoded. */
  ghost predicate OnDisk(sum: Bytes -> word, hashOf: Bytes -> Bloom.hash, t: TableFile, c: TableReader.Contents,
                         f: File) {
    Written(sum, hashOf, t, c) && AllParse(Join(c.parts)) && DecodeAll(Join(c.parts)) == f.entries
  }

  /** The table files there are, by number, and what they were built from. */
  datatype Disk = Disk(files: map<nat, TableFile>, ghost contents: map<nat, TableReader.Contents>)

  ghost predicate Has(sum: Bytes -> word, hashOf: Bytes -> Bloom.hash, disk: Disk, f: File) {
    && f.number in disk.files && f.number in disk.contents
    && OnDisk(sum, hashOf, disk.files[f.number], disk.contents[f.number], f)
  }

  /** TableCache::Get on one file. */
  method CacheGet(sum: Bytes -> word, hashOf: Bytes -> Bloom.hash, disk: Disk, verify: bool, f: File, key: Bytes,
                  s: nat)
    returns (r: Outcome)
    requires s <= MAX_SEQ && Has(sum, hashOf, disk, f)
    ensures r == GetFrom(f.entries, Rank(key), s)
  {
    r := TableGet(sum, hashOf, disk.files[f.number], verify, key, s, disk.contents[f.number]);
  }

  /** Files asked in turn. */
  method SearchFiles(sum: Bytes -> word, hashOf: Bytes -> Bloom.hash, disk: Disk, verify: bool, files: seq<File>,
                     key: Bytes, s: nat)
    returns (r: Outcome)
    requires s <= MAX_SEQ && forall f :: f in files ==> Has(sum, hashOf, disk, f)
    ensures r == FirstOf(files, Rank(key), s)
  {
    for i := 0 to |files|
      invariant FirstOf(files, Rank(key), s) == FirstOf(files[i..], Rank(key), s)
    {
      assert files[i] in files && files[i..][1..] == files[i + 1..];
      r := CacheGet(sum, hashOf, disk, verify, files[i], key, s);
      if r != NotFound {
        return;
      }
    }
    r := NotFound;
  }

  /** Version::Get, each file asked through the bytes of its table. */
  method VersionLookup(sum: Bytes -> word, hashOf: Bytes -> Bloom.hash, disk: Disk, verify: bool, v: FileLists,
                       key: Bytes, s: nat)
    returns (r: Outcome)
    requires Sound(v) && s <= MAX_SEQ
    requires forall l, f :: 0 <= l < LEVELS && f in v[l] ==> Has(sum, hashOf, disk, f)
    ensures Tells(InFiles(Abs(v)), Rank(key), s, r)
  {
    for level := 0 to LEVELS
      invariant forall m :: 0 <= m < level ==> Tells(Levels.Contents(ToSet(v[m])), Rank(key), s, NotFound)
    {
      var files := FilesToSearch(v, level, Rank(key), s);
      r := SearchFiles(sum, hashOf, disk, verify, files, key, s);
      if r != NotFound {
        FirstLevelWins(v, level, Rank(key), s, r);
        return;
      }
    }
    NoLevel(v, Rank(key), s);
    return NotFound;
  }

  // ---------- iterators ----------

  /** Where a block iterator stands after Seek is where a cursor over the decoded
      entries stands. */
  lemma BlockSeekIsCursorSeek(es: seq<Pair>, target: Bytes, p: nat)
    requires Rising(es) && AllParse(es) && Parses(target) && p <= |es|
    requires forall k :: 0 <= k < p ==> InternalLess(es[k].key, target)
    requires p < |es| ==> !InternalLess(es[p].key, target)
    ensures SeekIndex(DecodeAll(es), DecodeKey(target)) == p
  {
    DecodedSorted(es);
    if p > 0 {
      OrdersAgree(es[p - 1].key, target);
    }
    if p < |es| {
      OrdersAgree(es[p].key, target);
    }
    SeekUnique(DecodeAll(es), DecodeKey(target), p);
  }

  lemma DecodeMore(a: seq<Pair>, b: seq<Pair>)
    requires AllParse(a) && AllParse(b)
    ensures AllParse(a + b) && DecodeAll(a + b) == DecodeAll(a) + DecodeAll(b)
  {
  }

  /** The handle of each block leads to its entries, decoded. */
  ghost predicate Leads(c: TableReader.Contents, read: Bytes -> seq<Entry>)
    requires |c.handles| == |c.parts|
  {
    forall i :: 0 <= i < |c.parts| ==> AllParse(c.parts[i]) && read(EncodeHandle(c.handles[i])) == DecodeAll(c.parts[i])
  }

  lemma {:induction false} BlocksFlat(c: TableReader.Contents, read: Bytes -> seq<Entry>, index: seq<Entry>, n: nat)
    requires |c.handles| == |c.parts| == |index| && Leads(c, read) && n <= |index|
    requires forall i :: 0 <= i < |index| ==> index[i].value == EncodeHandle(c.handles[i])
    ensures AllParse(Join(c.parts[..n])) && TwoLevel.Flat(index, read, n) == DecodeAll(Join(c.parts[..n]))
  {
    if n > 0 {
      BlocksFlat(c, read, index, n - 1);
      assert c.parts[..n][..n - 1] == c.parts[..n - 1];
      DecodeMore(Join(c.parts[..n - 1]), c.parts[n - 1]);
    }
  }

  /** An index key is not before its own block's entries. */
  lemma KeyAbove(key: Bytes, part: seq<Pair>, e: Entry)
    requires KeyOk(key, part) && Rising(part) && AllParse(part) && Parses(key) && e in DecodeAll(part)
    ensures !Less(DecodeKey(key), e.k)
  {
    var k :| 0 <= k < |part| && DecodeAll(part)[k] == e;
    KeyNotBefore(key, part, k);
  }

  lemma KeyNotBefore(key: Bytes, part: seq<Pair>, k: nat)
    requires KeyOk(key, part) && Rising(part) && AllParse(part) && Parses(key) && k < |part|
    ensures !Less(DecodeKey(key), DecodeKey(part[k].key))
  {
    var last := part[|part| - 1].key;
    OrdersAgree(key, last);
    OrdersAgree(part[k].key, last);
  }

  /** And it is before the entries of every later block. */
  lemma KeyBelow(key: Bytes, part: seq<Pair>, later: seq<Pair>, e: Entry)
    requires KeyBefore(key, part, later) && AllParse(later) && Parses(key) && e in DecodeAll(later)
    ensures Less(DecodeKey(key), e.k)
  {
    var k :| 0 <= k < |later| && DecodeAll(later)[k] == e;
    assert later[k] in later;
    OrdersAgree(key, later[k].key);
  }

  lemma PartRising(parts: seq<seq<Pair>>, i: nat)
    requires Rising(Join(parts)) && i < |parts|
    ensures Rising(parts[i])
  {
    forall p, q | 0 <= p < q < |parts[i]| ensures InternalLess(parts[i][p].key, parts[i][q].key) {
      JoinAt(parts, i, p);
      JoinAt(parts, i, q);
    }
    forall p | 0 <= p < |parts[i]| ensures IsInternal(parts[i][p].key) {
      JoinAt(parts, i, p);
    }
  }

  /** An index whose keys bound their blocks is in order when no block is empty. */
  lemma IndexSorted(index: seq<Entry>, read: Bytes -> seq<Entry>)
    requires forall i :: 0 <= i < |index| ==> read(index[i].value) != []
    requires forall i, e :: 0 <= i < |index| && e in read(index[i].value) ==> !Less(index[i].k, e.k)
    requires forall i, j, e :: 0 <= i < j < |index| && e in read(index[j].value) ==> Less(index[i].k, e.k)
    ensures SortedEntries(index)
  {
    forall i, j | 0 <= i < j < |index| ensures Less(index[i].k, index[j].k) {
      assert read(index[j].value)[0] in read(index[j].value);
    }
  }

  /** The i-th index entry, decoded. */
  lemma IndexAt(c: TableReader.Contents, read: Bytes -> seq<Entry>, i: nat)
    requires |c.handles| == |c.keys| == |c.parts| && Indexed(c.keys, c.parts) && Leads(c, read) && i < |c.parts|
    requires AllParse(IndexPairs(c.keys, c.handles))
    ensures var x := DecodeAll(IndexPairs(c.keys, c.handles))[i];
            && Parses(c.keys[i]) && x == Entry(DecodeKey(c.keys[i]), EncodeHandle(c.handles[i]))
            && read(x.value) == DecodeAll(c.parts[i]) && read(x.value) != []
            && forall e :: e in read(x.value) ==> !Less(x.k, e.k)
  {
    assert Parses(IndexPairs(c.keys, c.handles)[i].key);
    assert KeyOk(c.keys[i], c.parts[i]);
    PartRising(c.parts, i);
    forall e | e in DecodeAll(c.parts[i]) ensures !Less(DecodeKey(c.keys[i]), e.k) {
      KeyAbove(c.keys[i], c.parts[i], e);
    }
  }

  /** The index block of a table bounds its blocks, so the two-level iterator over the
      two, Seek included, is a cursor over the entries the table holds. */
  lemma TableIsIndexed(c: TableReader.Contents, read: Bytes -> seq<Entry>)
    requires |c.handles| == |c.keys| == |c.parts| && Indexed(c.keys, c.parts) && Leads(c, read)
    requires AllParse(IndexPairs(c.keys, c.handles)) && AllParse(Join(c.parts))
    ensures var index := DecodeAll(IndexPairs(c.keys, c.handles));
            TwoLevel.Indexed(index, read) && TwoLevel.Flat(index, read, |index|) == DecodeAll(Join(c.parts))
  {
    var index := DecodeAll(IndexPairs(c.keys, c.handles));
    forall i | 0 <= i < |index|
      ensures Parses(c.keys[i]) && index[i] == Entry(DecodeKey(c.keys[i]), EncodeHandle(c.handles[i]))
      ensures read(index[i].value) == DecodeAll(c.parts[i]) && read(index[i].value) != []
      ensures forall e :: e in read(index[i].value) ==> !Less(index[i].k, e.k)
    {
      IndexAt(c, read, i);
    }
    forall i, j, e | 0 <= i < j < |index| && e in read(index[j].value) ensures Less(index[i].k, e.k) {
      assert KeyBefore(c.keys[i], c.parts[i], c.parts[j]);
      KeyBelow(c.keys[i], c.parts[i], c.parts[j], e);
    }
    IndexSorted(index, read);
    BlocksFlat(c, read, index, |index|);
    assert c.parts[..|index|] == c.parts;
    DecodedSorted(Join(c.parts));
  }
}
