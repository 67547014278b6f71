/** What an iterator is: a position in one sorted list of entries.  A position
    equal to the length of the list is the invalid iterator. */
module Cursors {
  import opened Keys
  import opened Reads

  /** Where Seek lands, in a memtable or a table as in a merge of them: the first
      entry whose key is not below the target. */
  function SeekIndex(es: seq<Entry>, target: IKey): (i: nat)
    ensures i <= |es| && (forall j :: 0 <= j < i ==> Less(es[j].k, target)) && (i < |es| ==> !Less(es[i].k, target))
  {
    if es == [] || !Less(es[0].k, target) then 0 else 1 + SeekIndex(es[1..], target)
  }

  lemma SeekUnique(es: seq<Entry>, target: IKey, p: nat)
    requires SortedEntries(es) && p <= |es|
    requires p > 0 ==> Less(es[p - 1].k, target)
    requires p < |es| ==> !Less(es[p].k, target)
    ensures SeekIndex(es, target) == p
  {
    var i := SeekIndex(es, target);
    assert i < p ==> i == p - 1 || Less(es[i].k, es[p - 1].k);
  }

  function LastIndex(es: seq<Entry>): nat {
    if es == [] then 0 else |es| - 1
  }

  function PrevIndex(es: seq<Entry>, i: nat): nat {
    if i == 0 then |es| else i - 1
  }

  /** The internal iterator a DBIter drives. */
  class Cursor {
    const es: seq<Entry>
    var pos: nat

    ghost predicate Good()
      reads this
    {
      SortedEntries(es) && pos <= |es|
    }

    predicate Valid()
      reads this
    {
      pos < |es|
    }

    constructor (es: seq<Entry>)
      requires SortedEntries(es)
      ensures Good() && this.es == es && !Valid()
    {
      this.es, pos := es, |es|;
    }

    method SeekToFirst()
      requires Good()
      modifies this
      ensures Good() && pos == 0
    {
      pos := 0;
    }

    method SeekToLast()
      requires Good()
      modifies this
      ensures Good() && pos == LastIndex(es)
    {
      pos := LastIndex(es);
    }

    method Seek(target: IKey)
      requires Good()
      modifies this
      ensures Good() && pos == SeekIndex(es, target)
    {
      pos := SeekIndex(es, target);
    }

    method Next()
      requires Good() && Valid()
      modifies this
      ensures Good() && pos == old(pos) + 1
    {
      pos := pos + 1;
    }

    method Prev()
      requires Good() && Valid()
      modifies this
      ensures Good() && pos == PrevIndex(es, old(pos))
    {
      pos := PrevIndex(es, pos);
    }
  }
}
