/** What a merging iterator merges: a table or memtable iterator, or the two-level
    iterator of a level (table/iterator_wrapper.h). */
module IteratorWrapper {
  import opened Keys
  import opened Reads
  import opened Cursors
  import opened TwoLevel

  datatype Child = List(cursor: Cursor) | Level(iter: TwoLevelIterator) {

    ghost function Repr(): set<object> {
      match this
      case List(c) => {c}
      case Level(t) => {t, t.index}
    }

    /** The sorted entries this iterator reads. */
    ghost function Es(): seq<Entry> {
      match this
      case List(c) => c.es
      case Level(t) => t.All()
    }

    ghost predicate Good()
      reads Repr()
    {
      match this
      case List(c) => c.Good()
      case Level(t) => t.Good() && Indexed(t.index.es, t.read)
    }

    /** The position in them: their number when the iterator is not valid. */
    ghost function Pos(): nat
      reads Repr()
    {
      match this
      case List(c) => c.pos
      case Level(t) => if t.Good() then t.At() else 0
    }

    /** This iterator reads es and stands at position p. */
    ghost predicate Is(es: seq<Entry>, p: nat)
      reads Repr()
    {
      Good() && Es() == es && Pos() == p
    }

    lemma Known(es: seq<Entry>, p: nat)
      requires Is(es, p)
      ensures SortedEntries(es) && p <= |es|
      ensures Valid() <==> p < |es|
    {
      if Level? && iter.Valid() {
        var e := iter.Current();
      }
    }

    predicate Valid()
      reads Repr()
    {
      match this
      case List(c) => c.Valid()
      case Level(t) => t.Valid()
    }

    function Current(): (e: Entry)
      requires Good() && Valid()
      reads Repr()
      ensures Pos() < |Es()| && e == Es()[Pos()]
    {
      match this
      case List(c) => c.es[c.pos]
      case Level(t) => t.Current()
    }

    method SeekToFirst(ghost es: seq<Entry>, ghost p: nat)
      requires Is(es, p)
      modifies Repr()
      ensures Is(es, 0)
    {
      match this
      case List(c) => c.SeekToFirst();
      case Level(t) => t.SeekToFirst();
    }

    method SeekToLast(ghost es: seq<Entry>, ghost p: nat)
      requires Is(es, p)
      modifies Repr()
      ensures Is(es, LastIndex(es))
    {
      match this
      case List(c) => c.SeekToLast();
      case Level(t) => t.SeekToLast();
    }

    method Seek(target: IKey, ghost es: seq<Entry>, ghost p: nat)
      requires Is(es, p)
      modifies Repr()
      ensures Is(es, SeekIndex(es, target))
    {
      match this
      case List(c) => c.Seek(target);
      case Level(t) => t.Seek(target);
    }

    method Next(ghost es: seq<Entry>, ghost p: nat)
      requires Is(es, p) && Valid()
      modifies Repr()
      ensures Is(es, p + 1)
    {
      match this
      case List(c) => c.Next();
      case Level(t) => t.Next();
    }

    method Prev(ghost es: seq<Entry>, ghost p: nat)
      requires Is(es, p) && Valid()
      modifies Repr()
      ensures Is(es, PrevIndex(es, p))
    {
      match this
      case List(c) => c.Prev();
      case Level(t) => t.Prev();
    }
  }

  /** A two-level iterator nobody has moved yet. */
  lemma NewLevel(t: TwoLevelIterator, all: seq<Entry>)
    requires t.Good() && !t.Valid() && Indexed(t.index.es, t.read) && t.All() == all
    ensures Level(t).Is(all, |all|)
  {
  }

  /** NewTwoLevelIterator. */
  method NewTwoLevelIterator(index: seq<Entry>, read: Bytes -> seq<Entry>, ghost all: seq<Entry>) returns (level: Child)
    requires Indexed(index, read) && Flat(index, read, |index|) == all
    requires forall i :: 0 <= i < |index| ==> SortedEntries(read(index[i].value))
    ensures level.Is(all, |all|) && fresh(level.Repr())
  {
    var cursor := new Cursor(index);
    var iter := new TwoLevelIterator(cursor, read);
    NewLevel(iter, all);
    level := Level(iter);
  }
}
