/** Filter blocks (table/filter_block.cc): one Bloom filter for each 2 KB of block
    offsets, found again through a trailing array of offsets. */
module FilterBlock {
  import opened Keys
  import opened Coding
  import opened Bloom

  const BASE_LG: byte := 11

  /** x >> n. */
  function Shift(x: nat, n: nat): nat
    decreases n
  {
    if n == 0 then x else Shift(x / 2, n - 1)
  }

  lemma ShiftBase(x: nat)
    ensures Shift(x, BASE_LG) == x / 2048
  {
    assert x / 2 / 2 / 2 / 2 == x / 16;
    assert x / 16 / 2 / 2 / 2 / 2 == x / 256;
    assert x / 256 / 2 / 2 / 2 == x / 2048;
    assert Shift(x, 11) == Shift(x / 16, 7) == Shift(x / 256, 3) == x / 256 / 2 / 2 / 2;
  }

  /** Filter number i: up to where the next one begins. */
  function FilterAt(result: Bytes, offsets: seq<nat>, i: nat): Bytes
    requires i < |offsets| && Rising(offsets, |result|)
  {
    result[offsets[i]..if i + 1 < |offsets| then offsets[i + 1] else |result|]
  }

  ghost predicate Rising(offsets: seq<nat>, limit: nat) {
    && (forall i, j :: 0 <= i <= j < |offsets| ==> offsets[i] <= offsets[j])
    && (forall i :: 0 <= i < |offsets| ==> offsets[i] <= limit)
  }

  function Concat(keys: seq<Bytes>): Bytes {
    if keys == [] then [] else Concat(keys[..|keys| - 1]) + keys[|keys| - 1]
  }

  lemma {:induction false} ConcatPrefix(keys: seq<Bytes>, i: nat)
    requires i <= |keys|
    ensures Concat(keys[..i]) <= Concat(keys)
    decreases |keys|
  {
    if i < |keys| {
      ConcatPrefix(keys[..|keys| - 1], i);
      assert keys[..|keys| - 1][..i] == keys[..i];
    } else {
      assert keys[..i] == keys;
    }
  }

  /** The keys of a flattened list, by their starting positions. */
  lemma ConcatAt(keys: seq<Bytes>, i: nat)
    requires i < |keys|
    ensures |Concat(keys[..i])| <= |Concat(keys[..i + 1])| <= |Concat(keys)|
    ensures Concat(keys)[|Concat(keys[..i])|..|Concat(keys[..i + 1])|] == keys[i]
  {
    ConcatPrefix(keys, i + 1);
    assert keys[..i + 1][..i] == keys[..i];
  }

  class FilterBlockBuilder {
    const hashOf: Bytes -> hash
    /** The part of a key the policy looks at: InternalFilterPolicy's user key. */
    const keyOf: Bytes -> Bytes
    const bitsPerKey: nat
    const k: nat
    var keys: Bytes
    var start: seq<nat>
    var result: Bytes
    var filterOffsets: seq<nat>
    ghost var pending: seq<Bytes>
    ghost var blockOffset: nat
    /** Every key added, with the block offset in force. */
    ghost var added: set<(nat, Bytes)>

    ghost predicate Valid()
      reads this
    {
      && 1 <= k <= 30 && Rising(filterOffsets, |result|)
      && keys == Concat(pending) && |start| == |pending|
        && (forall i :: 0 <= i < |start| ==> start[i] == |Concat(pending[..i])|)
      && blockOffset / 2048 == |filterOffsets|
      && forall a :: a in added ==> Held(a.0, a.1)
    }

    /** The key is in the filter of its block offset, or waits for it. */
    ghost predicate Held(offset: nat, key: Bytes)
      requires Rising(filterOffsets, |result|)
      reads this
    {
      var i := offset / 2048;
      if i < |filterOffsets| then Matches(hashOf, keyOf(key), FilterAt(result, filterOffsets, i))
      else i == |filterOffsets| && key in pending
    }

    constructor (hashOf: Bytes -> hash, keyOf: Bytes -> Bytes, bitsPerKey: nat, k: nat)
      requires 1 <= k <= 30
      ensures Valid() && added == {} && blockOffset == 0
      ensures this.hashOf == hashOf && this.keyOf == keyOf
    {
      this.hashOf, this.keyOf, this.bitsPerKey, this.k := hashOf, keyOf, bitsPerKey, k;
      keys, start, result, filterOffsets, pending, blockOffset, added := [], [], [], [], [], 0, {};
    }

    method AddKey(key: Bytes)
      requires Valid()
      modifies this
      ensures Valid() && blockOffset == old(blockOffset) && added == old(added) + {(blockOffset, key)}
    {
      start := start + [|keys|];
      keys := keys + key;
      ghost var was := pending;
      pending := pending + [key];
      assert pending[..|was|] == was && forall i :: 0 <= i < |was| ==> pending[..i] == was[..i];
      added := added + {(blockOffset, key)};
    }

    /** GenerateFilter: the filter of everything pending. */
    method GenerateFilter()
      requires Valid()
      modifies `keys, `start, `result, `filterOffsets, `pending, `blockOffset
      ensures Valid() && |filterOffsets| == |old(filterOffsets)| + 1 && pending == []
    {
      ghost var offsets0, result0, pending0 := filterOffsets, result, pending;
      if |start| == 0 {
        filterOffsets := filterOffsets + [|result|];
        assert forall a :: a in added && a.0 / 2048 == |offsets0| ==> a.1 !in pending0;
        FiltersStay(result0, offsets0, result);
        blockOffset := 2048 * |filterOffsets|;
        return;
      }
      var list := Split();
      filterOffsets := filterOffsets + [|result|];
      var mapped := seq(|list|, i requires 0 <= i < |list| => keyOf(list[i]));
      result := CreateFilter(hashOf, bitsPerKey, k, mapped, result);
      FiltersStay(result0, offsets0, result);
      forall key | key in pending0 ensures Matches(hashOf, keyOf(key), FilterAt(result, filterOffsets, |offsets0|)) {
        var i :| 0 <= i < |list| && list[i] == key;
        assert mapped[i] == keyOf(key);
      }
      keys, start, pending := [], [], [];
      blockOffset := 2048 * |filterOffsets|;
    }

    /** tmp_keys_: the flattened keys taken apart again. */
    method Split() returns (list: seq<Bytes>)
      requires Valid()
      ensures list == pending
    {
      var bounds := start + [|keys|];
      assert pending[..|pending|] == pending;
      list := [];
      for i := 0 to |start|
        invariant list == pending[..i]
      {
        ConcatAt(pending, i);
        list := list + [keys[bounds[i]..bounds[i + 1]]];
      }
    }

    /** StartBlock, with offsets that do not go down. */
    method StartBlock(offset: nat)
      requires Valid() && offset / 2048 >= |filterOffsets|
      modifies this
      ensures Valid() && blockOffset == offset && added == old(added)
    {
      while offset / 2048 > |filterOffsets|
        invariant Valid() && |filterOffsets| <= offset / 2048 && added == old(added)
        decreases offset / 2048 - |filterOffsets|
      {
        GenerateFilter();
      }
      blockOffset := offset;
    }

    /** Finish: the filters, their offsets, where the offsets begin, and the base.
        Every key that was added matches at its block offset. */
    method Finish() returns (contents: Bytes)
      requires Valid()
      modifies this
      ensures |contents| < U32 ==> forall a :: a in old(added) ==> MayMatch(hashOf, contents, a.0, keyOf(a.1))
    {
      if |start| > 0 {
        GenerateFilter();
      }
      assert start == [] ==> pending == [];
      var offsets := AppendWords(filterOffsets);
      contents := result + offsets + Fixed(|result|, 4) + [BASE_LG];
      if |contents| < U32 {
        forall a | a in added ensures MayMatch(hashOf, contents, a.0, keyOf(a.1)) {
          assert Held(a.0, a.1);
          ReaderFinds(hashOf, result, filterOffsets, contents, a.0, keyOf(a.1));
        }
      }
    }
  }

  // ---------- the reader ----------

  function WordOf(b: Bytes, p: nat): nat
    requires p + 4 <= |b|
  {
    Unfixed(b[p..p + 4])
  }

  /** Where a filter block says its offset array begins; None if it says nothing
      sensible.  Then how many filters it has. */
  function ArrayAt(contents: Bytes): (r: Option<nat>)
    ensures r.Some? ==> r.value + 5 <= |contents|
  {
    if |contents| < 5 || WordOf(contents, |contents| - 5) > |contents| - 5 then None
    else Some(WordOf(contents, |contents| - 5))
  }

  function FilterCount(contents: Bytes, arrayAt: nat): (n: nat)
    requires arrayAt + 5 <= |contents|
    ensures arrayAt + 4 * n + 5 <= |contents|
  {
    (|contents| - 5 - arrayAt) / 4
  }

  /** What FilterBlockReader::KeyMayMatch answers. */
  ghost predicate MayMatch(hashOf: Bytes -> hash, contents: Bytes, blockOffset: nat, key: Bytes) {
    var at := ArrayAt(contents);
    at.Some? ==>
      var index := Shift(blockOffset, contents[|contents| - 1]);
      index < FilterCount(contents, at.value) ==> InFilter(hashOf, contents, at.value, index, key)
  }

  ghost predicate InFilter(hashOf: Bytes -> hash, contents: Bytes, arrayAt: nat, index: nat, key: Bytes)
    requires arrayAt + 4 * index + 8 <= |contents|
  {
    var start, limit := WordOf(contents, arrayAt + 4 * index), WordOf(contents, arrayAt + 4 * index + 4);
    if start <= limit <= arrayAt then Matches(hashOf, key, contents[start..limit]) else start != limit
  }

  /** FilterBlockReader's constructor, then KeyMayMatch: errors count as matches. */
  method KeyMayMatch(hashOf: Bytes -> hash, contents: Bytes, blockOffset: nat, key: Bytes) returns (r: bool)
    ensures r <==> MayMatch(hashOf, contents, blockOffset, key)
  {
    var at := ArrayAt(contents);
    if at == None {
      return true;
    }
    var index := Shift(blockOffset, contents[|contents| - 1]);
    if index >= FilterCount(contents, at.value) {
      return true;
    }
    var start, limit := WordOf(contents, at.value + 4 * index), WordOf(contents, at.value + 4 * index + 4);
    if start <= limit && limit <= at.value {
      r := Bloom.KeyMayMatch(hashOf, key, contents[start..limit]);
    } else {
      r := start != limit;
    }
  }

  /** The reader finds filter number blockOffset / 2048. */
  lemma ReaderFinds(hashOf: Bytes -> hash, result: Bytes, offsets: seq<nat>, contents: Bytes, blockOffset: nat,
                    key: Bytes)
    requires Rising(offsets, |result|) && blockOffset / 2048 < |offsets| && |contents| < U32
    requires contents == result + Words(offsets) + Fixed(|result|, 4) + [BASE_LG]
    requires Matches(hashOf, key, FilterAt(result, offsets, blockOffset / 2048))
    ensures MayMatch(hashOf, contents, blockOffset, key)
  {
    var r, i := |result|, blockOffset / 2048;
    TailOf(contents, result, Words(offsets), Fixed(r, 4), [BASE_LG]);
    FilterThere(contents, result, offsets, i);
    TrailerFinds(hashOf, contents, r, offsets, i, key);
    TrailerArray(contents, r, offsets);
    ShiftBase(blockOffset);
  }

  lemma TrailerFinds(hashOf: Bytes -> hash, contents: Bytes, r: nat, offsets: seq<nat>, i: nat, key: Bytes)
    requires Trailer(contents, r, offsets) && Rising(offsets, r) && i < |offsets|
    requires Matches(hashOf, key, contents[offsets[i]..if i + 1 < |offsets| then offsets[i + 1] else r])
    ensures r + 4 * i + 8 <= |contents| && InFilter(hashOf, contents, r, i, key)
  {
    TrailerArray(contents, r, offsets);
    TrailerOffset(contents, r, offsets, i);
    if i + 1 < |offsets| {
      TrailerOffset(contents, r, offsets, i + 1);
    }
  }

  lemma TailOf(contents: Bytes, a: Bytes, b: Bytes, c: Bytes, d: Bytes)
    requires contents == a + b + c + d
    ensures contents[|a|..] == b + (c + d) && contents[..|a|] == a
  {
  }

  lemma FilterThere(contents: Bytes, result: Bytes, offsets: seq<nat>, i: nat)
    requires Rising(offsets, |result|) && i < |offsets| && |result| <= |contents| && contents[..|result|] == result
    ensures FilterAt(result, offsets, i) == contents[offsets[i]..if i + 1 < |offsets| then offsets[i + 1] else |result|]
  {
  }

  /** What comes after the filters: the offsets, where they begin, the base. */
  ghost predicate Trailer(contents: Bytes, r: nat, offsets: seq<nat>) {
    r <= |contents| < U32 && contents[r..] == Words(offsets) + (Fixed(r, 4) + [BASE_LG])
  }

  lemma TrailerArray(contents: Bytes, r: nat, offsets: seq<nat>)
    requires Trailer(contents, r, offsets)
    ensures |contents| == r + 4 * |offsets| + 5 && contents[|contents| - 1] == BASE_LG && ArrayAt(contents) == Some(r)
    ensures WordOf(contents, r + 4 * |offsets|) == r
  {
    var words := Words(offsets);
    assert contents[|contents| - 1] == contents[r..][|contents| - 1 - r];
    LastWord(words, Fixed(r, 4), [BASE_LG]);
    FixedAt(contents, r, words + (Fixed(r, 4) + [BASE_LG]), |words|, r);
  }

  lemma TrailerOffset(contents: Bytes, r: nat, offsets: seq<nat>, j: nat)
    requires Trailer(contents, r, offsets) && j < |offsets| && offsets[j] < U32
    ensures r + 4 * j + 4 <= |contents| && WordOf(contents, r + 4 * j) == offsets[j]
  {
    WordAt(offsets, j, Fixed(r, 4) + [BASE_LG]);
    FixedAt(contents, r, Words(offsets) + (Fixed(r, 4) + [BASE_LG]), 4 * j, offsets[j]);
  }

  lemma LastWord(words: Bytes, last: Bytes, rest: Bytes)
    requires |last| == 4
    ensures (words + (last + rest))[|words|..|words| + 4] == last
  {
  }

  /** Filters already made are not touched by what is appended. */
  lemma FiltersStay(result: Bytes, offsets: seq<nat>, result': Bytes)
    requires Rising(offsets, |result|) && result <= result'
    ensures Rising(offsets + [|result|], |result'|)
    ensures forall i :: 0 <= i < |offsets| ==>
              FilterAt(result', offsets + [|result|], i) == FilterAt(result, offsets, i)
    ensures FilterAt(result', offsets + [|result|], |offsets|) == result'[|result|..]
  {
  }
}
