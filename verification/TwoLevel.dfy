/** TwoLevelIterator: an index of blocks read as the concatenation of the blocks
    (two_level_iterator.cc). */
module TwoLevel {
  import opened Keys
  import opened Reads
  import opened Cursors

  /** The entries of the first n blocks of an index, in order.  An index entry's
      value is the handle from which `read` makes the block. */
  ghost function Flat(index: seq<Entry>, read: Bytes -> seq<Entry>, n: nat): seq<Entry>
    requires n <= |index|
  {
    if n == 0 then [] else Flat(index, read, n - 1) + read(index[n - 1].value)
  }

  /** What a table, or a sorted level, gives: an index key is not before its
      block's keys, and is before the keys of every later block. */
  ghost predicate Indexed(index: seq<Entry>, read: Bytes -> seq<Entry>) {
    && SortedEntries(index) && SortedEntries(Flat(index, read, |index|))
    && (forall i, e :: 0 <= i < |index| && e in read(index[i].value) ==> !Less(index[i].k, e.k))
    && (forall i, j, e :: 0 <= i < j < |index| && e in read(index[j].value) ==> Less(index[i].k, e.k))
  }

  lemma {:induction false} FlatPrefix(index: seq<Entry>, read: Bytes -> seq<Entry>, m: nat, n: nat)
    requires m <= n <= |index|
    ensures |Flat(index, read, m)| <= |Flat(index, read, n)|
    ensures Flat(index, read, m) == Flat(index, read, n)[..|Flat(index, read, m)|]
    decreases n
  {
    if m < n {
      FlatPrefix(index, read, m, n - 1);
    }
  }

  /** Entry p of block i has its place in the concatenation. */
  lemma FlatAt(index: seq<Entry>, read: Bytes -> seq<Entry>, i: nat, p: nat)
    requires i < |index| && p < |read(index[i].value)|
    ensures |Flat(index, read, i)| + p < |Flat(index, read, |index|)|
    ensures Flat(index, read, |index|)[|Flat(index, read, i)| + p] == read(index[i].value)[p]
  {
    FlatPrefix(index, read, i + 1, |index|);
  }

  /** Blocks below an index key below the target hold only keys below the target. */
  lemma {:induction false} FlatBelow(index: seq<Entry>, read: Bytes -> seq<Entry>, n: nat, target: IKey)
    requires Indexed(index, read) && n <= |index|
    requires forall j :: 0 <= j < n ==> Less(index[j].k, target)
    ensures forall e :: e in Flat(index, read, n) ==> Less(e.k, target)
  {
    if n > 0 {
      FlatBelow(index, read, n - 1, target);
    }
  }

  lemma {:induction false} FlatAbove(index: seq<Entry>, read: Bytes -> seq<Entry>, i: nat, n: nat, target: IKey)
    requires Indexed(index, read) && i < n <= |index| && !Less(index[i].k, target)
    ensures forall k :: |Flat(index, read, i + 1)| <= k < |Flat(index, read, n)| ==>
              !Less(Flat(index, read, n)[k].k, target)
    decreases n
  {
    if i + 1 < n {
      FlatAbove(index, read, i, n - 1, target);
    }
  }

  lemma SeekBefore(index: seq<Entry>, read: Bytes -> seq<Entry>, i: nat, p: nat, target: IKey)
    requires i < |index| && p <= |read(index[i].value)| && |Flat(index, read, i)| + p > 0
    requires p > 0 ==> Less(read(index[i].value)[p - 1].k, target)
    requires forall e :: e in Flat(index, read, i) ==> Less(e.k, target)
    ensures |Flat(index, read, i)| + p <= |Flat(index, read, |index|)|
    ensures Less(Flat(index, read, |index|)[|Flat(index, read, i)| + p - 1].k, target)
  {
    FlatPrefix(index, read, i + 1, |index|);
    var before := Flat(index, read, i + 1);
    if p == 0 {
      assert before[|Flat(index, read, i)| - 1] == Flat(index, read, i)[|Flat(index, read, i)| - 1];
    }
  }

  lemma SeekAfter(index: seq<Entry>, read: Bytes -> seq<Entry>, i: nat, p: nat, target: IKey)
    requires i < |index| && p <= |read(index[i].value)| && |Flat(index, read, i)| + p < |Flat(index, read, |index|)|
    requires p < |read(index[i].value)| ==> !Less(read(index[i].value)[p].k, target)
    requires forall k :: |Flat(index, read, i + 1)| <= k < |Flat(index, read, |index|)| ==>
               !Less(Flat(index, read, |index|)[k].k, target)
    ensures !Less(Flat(index, read, |index|)[|Flat(index, read, i)| + p].k, target)
  {
    if p < |read(index[i].value)| {
      FlatAt(index, read, i, p);
    }
  }

  /** Seek is exact: the block the index names, then the place in that block. */
  lemma SeekFlat(index: seq<Entry>, read: Bytes -> seq<Entry>, target: IKey)
    requires Indexed(index, read)
    ensures var i, all := SeekIndex(index, target), Flat(index, read, |index|);
            SeekIndex(all, target)
              == if i < |index| then |Flat(index, read, i)| + SeekIndex(read(index[i].value), target) else |all|
  {
    var i, all := SeekIndex(index, target), Flat(index, read, |index|);
    FlatBelow(index, read, i, target);
    if i < |index| {
      FlatAbove(index, read, i, |index|, target);
      SeekInside(index, read, i, SeekIndex(read(index[i].value), target), target);
    } else {
      assert |all| > 0 ==> all[|all| - 1] in all;
      SeekUnique(all, target, |all|);
    }
  }

  lemma SeekInside(index: seq<Entry>, read: Bytes -> seq<Entry>, i: nat, p: nat, target: IKey)
    requires i < |index| && p == SeekIndex(read(index[i].value), target)
    requires SortedEntries(Flat(index, read, |index|))
    requires forall e :: e in Flat(index, read, i) ==> Less(e.k, target)
    requires forall k :: |Flat(index, read, i + 1)| <= k < |Flat(index, read, |index|)| ==>
               !Less(Flat(index, read, |index|)[k].k, target)
    ensures SeekIndex(Flat(index, read, |index|), target) == |Flat(index, read, i)| + p
  {
    var n := |Flat(index, read, i)| + p;
    FlatPrefix(index, read, i + 1, |index|);
    if n > 0 {
      SeekBefore(index, read, i, p, target);
    }
    if n < |Flat(index, read, |index|)| {
      SeekAfter(index, read, i, p, target);
    }
    SeekUnique(Flat(index, read, |index|), target, n);
  }

  /** The data iterator: a block, and the position in it. */
  datatype Block = Block(es: seq<Entry>, pos: nat)

  class TwoLevelIterator {
    const index: Cursor
    const read: Bytes -> seq<Entry>
    var data: Option<Block>
    var handle: Bytes

    ghost function All(): seq<Entry> {
      Flat(index.es, read, |index.es|)
    }

    ghost function Repr(): set<object> {
      {this, index}
    }

    /** The data iterator reads the block of its handle. */
    ghost predicate Loose()
      reads Repr()
    {
      && index.Good() && (forall i :: 0 <= i < |index.es| ==> SortedEntries(read(index.es[i].value)))
      && (data.Some? ==> data.value.pos <= |data.value.es| && data.value.es == read(handle))
    }

    /** The data iterator is on the block the index stands at; there is none when
        the index is past its end. */
    ghost predicate Aligned()
      reads Repr()
    {
      && Loose() && (data.Some? <==> index.Valid())
      && (index.Valid() ==> data.value.es == read(index.es[index.pos].value))
    }

    ghost predicate Good()
      reads Repr()
    {
      Loose() && (Valid() ==> Aligned())
    }

    predicate Valid()
      reads this
    {
      data.Some? && data.value.pos < |data.value.es|
    }

    /** Position in the concatenation: its length when the iterator is not valid. */
    ghost function At(): nat
      requires Good()
      reads Repr()
    {
      if Valid() then |Flat(index.es, read, index.pos)| + data.value.pos else |All()|
    }

    constructor (index: Cursor, read: Bytes -> seq<Entry>)
      requires index.Good() && forall i :: 0 <= i < |index.es| ==> SortedEntries(read(index.es[i].value))
      ensures Good() && !Valid() && this.index == index && this.read == read && fresh(this)
    {
      this.index, this.read, data, handle := index, read, None, [];
    }

    function Current(): (e: Entry)
      requires Good() && Valid()
      reads Repr()
      ensures At() < |All()| && e == All()[At()]
    {
      FlatAt(index.es, read, index.pos, data.value.pos);
      data.value.es[data.value.pos]
    }

    /** A new data iterator, unless the one there is already reads this block. */
    method InitDataBlock()
      requires Loose()
      modifies `data, `handle
      ensures Aligned()
    {
      if !index.Valid() {
        data := None;
      } else {
        var h := index.es[index.pos].value;
        if data.Some? && h == handle {
        } else {
          handle, data := h, Some(Block(read(h), |read(h)|));
        }
      }
    }

    /** The data iterator goes to a position of its block. */
    method Move(pos: nat)
      requires data.Some? && pos <= |data.value.es|
      modifies `data
      ensures data == Some(Block(old(data.value.es), pos))
    {
      data := Some(Block(data.value.es, pos));
    }

    /** Where an aligned iterator stands, past the end of its block included. */
    ghost function Ahead(): nat
      requires Aligned()
      reads Repr()
    {
      if index.Valid() then |Flat(index.es, read, index.pos)| + data.value.pos else |All()|
    }

    method SkipEmptyDataBlocksForward()
      requires Aligned()
      modifies Repr()
      ensures Good() && At() == old(Ahead())
    {
      while !Valid()
        invariant Aligned() && Ahead() == old(Ahead())
        decreases |index.es| - index.pos
      {
        if !index.Valid() {
          data := None;
          return;
        }
        index.Next();
        InitDataBlock();
        if data.Some? {
          Move(0);
        }
      }
    }

    /** The entries up to and including the one a backward move stands at. */
    ghost function Behind(): nat
      requires Aligned()
      reads Repr()
    {
      if !index.Valid() then 0
      else |Flat(index.es, read, index.pos)| + if data.value.pos < |data.value.es| then data.value.pos + 1 else 0
    }

    method SkipEmptyDataBlocksBackward()
      requires Aligned()
      modifies Repr()
      ensures Good() && At() == PrevIndex(All(), old(Behind()))
    {
      while !Valid()
        invariant Aligned() && Behind() == old(Behind())
        decreases if index.Valid() then index.pos + 1 else 0
      {
        if !index.Valid() {
          data := None;
          return;
        }
        index.Prev();
        InitDataBlock();
        if data.Some? {
          Move(LastIndex(data.value.es));
        }
      }
    }

    method Seek(target: IKey)
      requires Good() && Indexed(index.es, read)
      modifies Repr()
      ensures Good() && At() == SeekIndex(All(), target)
    {
      index.Seek(target);
      InitDataBlock();
      if data.Some? {
        Move(SeekIndex(data.value.es, target));
      }
      SeekFlat(index.es, read, target);
      SkipEmptyDataBlocksForward();
    }

    method SeekToFirst()
      requires Good()
      modifies Repr()
      ensures Good() && At() == 0
    {
      index.SeekToFirst();
      InitDataBlock();
      if data.Some? {
        Move(0);
      }
      SkipEmptyDataBlocksForward();
    }

    method SeekToLast()
      requires Good()
      modifies Repr()
      ensures Good() && At() == LastIndex(All())
    {
      index.SeekToLast();
      InitDataBlock();
      if data.Some? {
        Move(LastIndex(data.value.es));
      }
      SkipEmptyDataBlocksBackward();
    }

    method Next()
      requires Good() && Valid()
      modifies Repr()
      ensures Good() && At() == old(At()) + 1
    {
      Move(data.value.pos + 1);
      SkipEmptyDataBlocksForward();
    }

    method Prev()
      requires Good() && Valid()
      modifies Repr()
      ensures Good() && At() == PrevIndex(All(), old(At()))
    {
      Move(PrevIndex(data.value.es, data.value.pos));
      SkipEmptyDataBlocksBackward();
    }
  }
}
