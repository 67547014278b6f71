/** MergingIterator: many sorted iterators read as one (merger.cc). */
module Merger {
  import opened Keys
  import opened Reads
  import opened Cursors
  import opened IteratorWrapper

  datatype Direction = Forward | Reverse

  /** A sorted list that takes all its entries from the merged one. */
  ghost predicate Part(es: seq<Entry>, merged: seq<Entry>) {
    SortedEntries(es) && SortedEntries(merged) && forall e :: e in es ==> e in merged
  }

  /** merged is the sorted union of the lists, and no entry is in two of them. */
  ghost predicate Merges(lists: seq<seq<Entry>>, merged: seq<Entry>) {
    && SortedEntries(merged)
    && (forall i :: 0 <= i < |lists| ==> Part(lists[i], merged))
    && (forall e :: e in merged ==> exists es :: es in lists && e in es)
    && (forall i, j :: 0 <= i < j < |lists| ==> Apart(lists[i], lists[j]))
  }

  ghost predicate Apart(a: seq<Entry>, b: seq<Entry>) {
    forall e :: e in a ==> e !in b
  }

  /** How many entries of one list come before position n of the merged list. */
  function Cut(es: seq<Entry>, merged: seq<Entry>, n: nat): nat
    requires n <= |merged|
  {
    if n < |merged| then SeekIndex(es, merged[n].k) else |es|
  }

  /** What stands at a cut is not before it, and what stands before is. */
  lemma CutSplits(es: seq<Entry>, merged: seq<Entry>, n: nat, j: nat)
    requires SortedEntries(es) && SortedEntries(merged) && n <= |merged| && j < |es| && es[j] in merged
    ensures j < Cut(es, merged, n) <==> exists m :: 0 <= m < n && merged[m] == es[j]
    ensures j >= Cut(es, merged, n) <==> exists m :: n <= m < |merged| && merged[m] == es[j]
  {
    var m :| 0 <= m < |merged| && merged[m] == es[j];
    if n < |merged| {
      var p := SeekIndex(es, merged[n].k);
      assert j > p ==> Less(es[p].k, es[j].k);
      assert m < n ==> Less(merged[m].k, merged[n].k);
      assert m > n ==> Less(merged[n].k, merged[m].k);
      assert forall i :: n <= i < |merged| && merged[i] == es[j] ==> i == m;
    }
  }

  /** Past position n the list that holds it has moved by one, the others not. */
  lemma CutStep(es: seq<Entry>, merged: seq<Entry>, n: nat)
    requires Part(es, merged) && n < |merged|
    ensures var p := Cut(es, merged, n);
            Cut(es, merged, n + 1) == if p < |es| && es[p] == merged[n] then p + 1 else p
    ensures merged[n] in es ==> Cut(es, merged, n) < |es| && es[Cut(es, merged, n)] == merged[n]
  {
    var p, p' := Cut(es, merged, n), Cut(es, merged, n + 1);
    forall j | 0 <= j < |es|
      ensures p <= j < p' <==> es[j] == merged[n]
      ensures j < p ==> j < p'
    {
      CutSplits(es, merged, n, j);
      CutSplits(es, merged, n + 1, j);
    }
    assert p + 1 < |es| ==> Less(es[p].k, es[p + 1].k);
  }

  lemma Home(lists: seq<seq<Entry>>, merged: seq<Entry>, n: nat) returns (i: nat)
    requires Merges(lists, merged) && n < |merged|
    ensures i < |lists| && merged[n] in lists[i]
  {
    assert merged[n] in merged;
    var es :| es in lists && merged[n] in es;
    i :| i < |lists| && lists[i] == es;
  }

  /** The list with the smallest entry at its cut has the next merged entry there, ... */
  lemma SmallestIsNext(a: seq<Entry>, b: seq<Entry>, merged: seq<Entry>, n: nat)
    requires Part(a, merged) && Part(b, merged) && n < |merged| && merged[n] in b
    requires Cut(a, merged, n) < |a|
    requires Cut(b, merged, n) < |b| ==> !Less(b[Cut(b, merged, n)].k, a[Cut(a, merged, n)].k)
    ensures a[Cut(a, merged, n)] == merged[n]
  {
    var p := Cut(a, merged, n);
    CutSplits(a, merged, n, p);
    var m :| n <= m < |merged| && merged[m] == a[p];
    CutStep(b, merged, n);
  }

  /** ... and the one with the largest just before its cut has the previous one. */
  lemma LargestIsPrevious(a: seq<Entry>, b: seq<Entry>, merged: seq<Entry>, n: nat)
    requires Part(a, merged) && Part(b, merged) && n < |merged| && merged[n] in b
    requires Cut(a, merged, n + 1) > 0
    requires Cut(b, merged, n + 1) > 0 ==> !Less(a[Cut(a, merged, n + 1) - 1].k, b[Cut(b, merged, n + 1) - 1].k)
    ensures a[Cut(a, merged, n + 1) - 1] == merged[n] && Cut(a, merged, n) == Cut(a, merged, n + 1) - 1
  {
    var p := Cut(a, merged, n + 1) - 1;
    CutSplits(a, merged, n + 1, p);
    var m :| 0 <= m < n + 1 && merged[m] == a[p];
    CutStep(b, merged, n);
    CutStep(a, merged, n);
  }

  /** Neither key is before the other. */
  predicate SameKey(a: IKey, b: IKey) {
    !Less(a, b) && !Less(b, a)
  }

  // ---------- where the lists stand ----------

  /** Forward, every list stands at its first entry from position n on. */
  ghost predicate AllAt(lists: seq<seq<Entry>>, merged: seq<Entry>, ps: seq<nat>, n: nat)
    requires |ps| == |lists| && n <= |merged|
  {
    forall i {:trigger ps[i]} :: 0 <= i < |lists| ==> ps[i] == Cut(lists[i], merged, n)
  }

  /** Backwards, every list stands at its last entry before position n, but for one
      list that may stand at n. */
  ghost predicate AllBefore(lists: seq<seq<Entry>>, merged: seq<Entry>, ps: seq<nat>, n: nat, but: Option<nat>)
    requires |ps| == |lists| && n <= |merged|
  {
    forall i {:trigger ps[i]} :: 0 <= i < |lists| && Some(i) != but ==>
      ps[i] == PrevIndex(lists[i], Cut(lists[i], merged, n))
  }

  /** The current list stands at the merged entry `at`; there is no current list
      when `at` is past the end. */
  ghost predicate Standing(lists: seq<seq<Entry>>, merged: seq<Entry>, ps: seq<nat>, current: Option<nat>, at: nat)
    requires |ps| == |lists|
  {
    && at <= |merged| && (current == None <==> at == |merged|)
    && (current.Some? ==>
          && current.value < |lists| && ps[current.value] == Cut(lists[current.value], merged, at)
          && ps[current.value] < |lists[current.value]| && lists[current.value][ps[current.value]] == merged[at])
  }

  /** Among the first n lists, s stands at the least key, if any stands at one. */
  ghost predicate IsSmallest(lists: seq<seq<Entry>>, ps: seq<nat>, s: Option<nat>, n: nat)
    requires |ps| == |lists| && n <= |lists|
  {
    && (s.Some? ==> s.value < n && ps[s.value] < |lists[s.value]|)
    && (forall j {:trigger ps[j]} :: 0 <= j < n && ps[j] < |lists[j]| ==>
          s.Some? && !Less(lists[j][ps[j]].k, lists[s.value][ps[s.value]].k))
  }

  /** Among the lists from n on, s stands at the greatest key, if any stands at one. */
  ghost predicate IsLargest(lists: seq<seq<Entry>>, ps: seq<nat>, s: Option<nat>, n: nat)
    requires |ps| == |lists| && n <= |lists|
  {
    && (s.Some? ==> n <= s.value < |lists| && ps[s.value] < |lists[s.value]|)
    && (forall j {:trigger ps[j]} :: n <= j < |lists| && ps[j] < |lists[j]| ==>
          s.Some? && !Less(lists[s.value][ps[s.value]].k, lists[j][ps[j]].k))
  }

  lemma SomeAt(lists: seq<seq<Entry>>, merged: seq<Entry>, n: nat) returns (i: nat)
    requires Merges(lists, merged) && n < |merged|
    ensures i < |lists| && Cut(lists[i], merged, n) < |lists[i]| && Cut(lists[i], merged, n + 1) > 0
  {
    i := Home(lists, merged, n);
    CutStep(lists[i], merged, n);
  }

  /** The smallest of all is the next merged entry. */
  lemma SmallestStands(lists: seq<seq<Entry>>, merged: seq<Entry>, ps: seq<nat>, current: Option<nat>, n: nat)
    requires Merges(lists, merged) && |ps| == |lists| && n <= |merged| && AllAt(lists, merged, ps, n)
    requires IsSmallest(lists, ps, current, |lists|)
    ensures Standing(lists, merged, ps, current, n)
  {
    if n < |merged| {
      var i := SomeAt(lists, merged, n);
      assert ps[i] < |lists[i]|;
      var h := Home(lists, merged, n);
      assert ps[h] == Cut(lists[h], merged, n);
      SmallestIsNext(lists[current.value], lists[h], merged, n);
    }
  }

  lemma LargestStands(lists: seq<seq<Entry>>, merged: seq<Entry>, ps: seq<nat>, current: Option<nat>, n: nat)
    requires Merges(lists, merged) && |ps| == |lists| && n <= |merged| && AllBefore(lists, merged, ps, n, None)
    requires IsLargest(lists, ps, current, 0)
    ensures Standing(lists, merged, ps, current, PrevIndex(merged, n))
    ensures current.Some? ==> AllBefore(lists, merged, ps, PrevIndex(merged, n), current)
  {
    if current.Some? {
      LargestBefore(lists, merged, ps, current.value, n);
    } else {
      NothingBefore(lists, merged, ps, n);
      if n > 0 {
        var i := SomeAt(lists, merged, n - 1);
      }
    }
  }

  lemma NothingBefore(lists: seq<seq<Entry>>, merged: seq<Entry>, ps: seq<nat>, n: nat)
    requires Merges(lists, merged) && |ps| == |lists| && n <= |merged| && AllBefore(lists, merged, ps, n, None)
    requires IsLargest(lists, ps, None, 0)
    ensures forall i :: 0 <= i < |lists| ==> Cut(lists[i], merged, n) == 0
  {
    forall i | 0 <= i < |lists| ensures Cut(lists[i], merged, n) == 0 {
      assert ps[i] == PrevIndex(lists[i], Cut(lists[i], merged, n));
    }
  }

  lemma FirstCuts(lists: seq<seq<Entry>>, merged: seq<Entry>, ps: seq<nat>)
    requires Merges(lists, merged) && |ps| == |lists|
    ensures (forall j :: 0 <= j < |ps| ==> ps[j] == 0) ==> AllAt(lists, merged, ps, 0)
    ensures (forall j :: 0 <= j < |ps| ==> ps[j] == LastIndex(lists[j])) ==>
              AllBefore(lists, merged, ps, |merged|, None)
  {
    forall i | 0 <= i < |lists| ensures Cut(lists[i], merged, 0) == 0 && Cut(lists[i], merged, |merged|) == |lists[i]| {
      StartCut(lists, merged, i);
    }
  }

  lemma SeekCuts(lists: seq<seq<Entry>>, merged: seq<Entry>, ps: seq<nat>, target: IKey)
    requires Merges(lists, merged) && |ps| == |lists| && forall j :: 0 <= j < |ps| ==>
               ps[j] == SeekIndex(lists[j], target)
    ensures AllAt(lists, merged, ps, SeekIndex(merged, target))
  {
    forall i | 0 <= i < |lists| ensures Cut(lists[i], merged, SeekIndex(merged, target)) == ps[i] {
      SeekCut(lists[i], merged, target);
    }
  }

  lemma LargestBefore(lists: seq<seq<Entry>>, merged: seq<Entry>, ps: seq<nat>, c: nat, n: nat)
    requires Merges(lists, merged) && |ps| == |lists| && n <= |merged| && AllBefore(lists, merged, ps, n, None)
    requires c < |lists| && IsLargest(lists, ps, Some(c), 0)
    ensures n > 0 && lists[c][ps[c]] == merged[n - 1] && ps[c] == Cut(lists[c], merged, n - 1)
    ensures AllBefore(lists, merged, ps, n - 1, Some(c))
  {
    StartCut(lists, merged, c);
    assert ps[c] == PrevIndex(lists[c], Cut(lists[c], merged, n));
    if n > 0 {
      var h := Home(lists, merged, n - 1);
      assert ps[h] == PrevIndex(lists[h], Cut(lists[h], merged, n));
      LargestIsPrevious(lists[c], lists[h], merged, n - 1);
      OthersStay(lists, merged, n - 1, c);
    }
  }

  /** Entry n is in one list only: the others have the same cut at n and n + 1. */
  lemma OthersStay(lists: seq<seq<Entry>>, merged: seq<Entry>, n: nat, c: nat)
    requires Merges(lists, merged) && n < |merged| && c < |lists| && merged[n] in lists[c]
    ensures forall i :: 0 <= i < |lists| && i != c ==> Cut(lists[i], merged, n) == Cut(lists[i], merged, n + 1)
    ensures Cut(lists[c], merged, n + 1) == Cut(lists[c], merged, n) + 1
  {
    forall i | 0 <= i < |lists| && i != c ensures Cut(lists[i], merged, n) == Cut(lists[i], merged, n + 1) {
      assert if i < c then Apart(lists[i], lists[c]) else Apart(lists[c], lists[i]);
      CutStep(lists[i], merged, n);
    }
    CutStep(lists[c], merged, n);
  }

  lemma StartCut(lists: seq<seq<Entry>>, merged: seq<Entry>, i: nat)
    requires Merges(lists, merged) && i < |lists|
    ensures Cut(lists[i], merged, 0) == 0 && Cut(lists[i], merged, |merged|) == |lists[i]|
  {
    if Cut(lists[i], merged, 0) > 0 {
      CutSplits(lists[i], merged, 0, 0);
    }
  }

  lemma SeekCut(es: seq<Entry>, merged: seq<Entry>, target: IKey)
    requires Part(es, merged)
    ensures Cut(es, merged, SeekIndex(merged, target)) == SeekIndex(es, target)
  {
    var n, p := SeekIndex(merged, target), SeekIndex(es, target);
    if n < |merged| {
      if p < |es| {
        CutSplits(es, merged, n, p);
      }
      SeekUnique(es, merged[n].k, p);
    } else {
      forall j | 0 <= j < |es| ensures Less(es[j].k, target) {
        assert es[j] in merged;
      }
    }
  }

  lemma PastCut(es: seq<Entry>, merged: seq<Entry>, n: nat)
    requires Part(es, merged) && n < |merged|
    ensures var p := Cut(es, merged, n);
            Cut(es, merged, n + 1) == if p < |es| && SameKey(es[p].k, merged[n].k) then p + 1 else p
  {
    var p := Cut(es, merged, n);
    CutStep(es, merged, n);
    if p < |es| {
      CutSplits(es, merged, n, p);
    }
  }

  class MergingIterator {
    const children: seq<Child>
    var current: Option<nat>
    var direction: Direction
    /** What the children read and where they stand; the sorted union, and the
        position in it. */
    ghost const lists: seq<seq<Entry>>
    ghost var ps: seq<nat>
    ghost const merged: seq<Entry>
    ghost var at: nat

    /** The children's objects. */
    ghost const objects: set<object>

    ghost predicate Attached()
      reads `ps, objects
    {
      && |ps| == |lists| == |children|
      && this !in objects && (forall i :: 0 <= i < |children| ==> children[i].Repr() <= objects)
      && (forall i, j :: 0 <= i < j < |children| ==> children[i].Repr() !! children[j].Repr())
      && (forall i {:trigger children[i].Is(lists[i], ps[i])} :: 0 <= i < |children| ==>
        children[i].Is(lists[i], ps[i]))
    }

    ghost predicate Shape()
      reads `ps, objects
    {
      Attached() && Merges(lists, merged)
    }

    ghost predicate Good()
      reads this, objects
    {
      && Shape() && Standing(lists, merged, ps, current, at)
      && (current.Some? ==>
            if direction == Forward then AllAt(lists, merged, ps, at) else AllBefore(lists, merged, ps, at, current))
    }

    constructor (children: seq<Child>, ghost lists: seq<seq<Entry>>, ghost ps: seq<nat>, ghost merged: seq<Entry>)
      requires |children| == |lists| == |ps| && forall i :: 0 <= i < |children| ==> children[i].Is(lists[i], ps[i])
      requires forall i, j :: 0 <= i < j < |children| ==> children[i].Repr() !! children[j].Repr()
      requires Merges(lists, merged)
      ensures Good() && this.children == children && this.lists == lists && this.merged == merged && at == |merged|
      ensures objects == set i, o | 0 <= i < |children| && o in children[i].Repr() :: o
    {
      this.children, this.lists, this.ps, this.merged := children, lists, ps, merged;
      this.objects := set i, o | 0 <= i < |children| && o in children[i].Repr() :: o;
      current, direction, at := None, Forward, |merged|;
    }

    predicate Valid()
      reads this
    {
      current.Some?
    }

    function Current(): (e: Entry)
      requires Good() && Valid()
      reads this, objects
      ensures e == merged[at]
    {
      Entry(current.value)
    }

    // ---------- one child ----------

    /** The entry child i stands at. */
    function Entry(i: nat): (e: Entry)
      requires Attached() && i < |children| && ps[i] < |lists[i]|
      reads `ps, objects
      ensures e == lists[i][ps[i]]
    {
      assert children[i].Is(lists[i], ps[i]);
      children[i].Known(lists[i], ps[i]);
      children[i].Current()
    }

    predicate ValidChild(i: nat)
      requires Attached() && i < |children|
      reads `ps, objects
      ensures ValidChild(i) <==> ps[i] < |lists[i]|
    {
      assert children[i].Is(lists[i], ps[i]);
      children[i].Known(lists[i], ps[i]);
      children[i].Valid()
    }

    method SeekChild(i: nat, target: IKey)
      requires Attached() && i < |children|
      modifies `ps, children[i].Repr()
      ensures Attached() && ps == old(ps)[i := SeekIndex(lists[i], target)]
    {
      assert children[i].Is(lists[i], ps[i]);
      children[i].Seek(target, lists[i], ps[i]);
      ps := ps[i := SeekIndex(lists[i], target)];
      Others(i);
    }

    method FirstChild(i: nat)
      requires Attached() && i < |children|
      modifies `ps, children[i].Repr()
      ensures Attached() && ps == old(ps)[i := 0]
    {
      assert children[i].Is(lists[i], ps[i]);
      children[i].SeekToFirst(lists[i], ps[i]);
      ps := ps[i := 0];
      Others(i);
    }

    method LastChild(i: nat)
      requires Attached() && i < |children|
      modifies `ps, children[i].Repr()
      ensures Attached() && ps == old(ps)[i := LastIndex(lists[i])]
    {
      assert children[i].Is(lists[i], ps[i]);
      children[i].SeekToLast(lists[i], ps[i]);
      ps := ps[i := LastIndex(lists[i])];
      Others(i);
    }

    method NextChild(i: nat)
      requires Attached() && i < |children| && ps[i] < |lists[i]|
      modifies `ps, children[i].Repr()
      ensures Attached() && ps == old(ps)[i := old(ps)[i] + 1]
    {
      assert children[i].Is(lists[i], ps[i]);
      children[i].Known(lists[i], ps[i]);
      children[i].Next(lists[i], ps[i]);
      ps := ps[i := ps[i] + 1];
      Others(i);
    }

    method PrevChild(i: nat)
      requires Attached() && i < |children| && ps[i] < |lists[i]|
      modifies `ps, children[i].Repr()
      ensures Attached() && ps == old(ps)[i := PrevIndex(lists[i], old(ps)[i])]
    {
      assert children[i].Is(lists[i], ps[i]);
      children[i].Known(lists[i], ps[i]);
      children[i].Prev(lists[i], ps[i]);
      ps := ps[i := PrevIndex(lists[i], ps[i])];
      Others(i);
    }

    /** A move of child i leaves the others where they are. */
    twostate lemma Others(i: nat)
      requires old(Attached()) && i < |children| && |ps| == |lists| && children[i].Is(lists[i], ps[i])
      requires ps == old(ps)[i := ps[i]]
      requires forall j, o :: 0 <= j < |children| && j != i && o in children[j].Repr() ==> unchanged(o)
      ensures Attached()
    {
      forall j | 0 <= j < |children| ensures children[j].Is(lists[j], ps[j]) {
        assert old(children[j].Is(lists[j], ps[j]));
      }
    }

    // ---------- the smallest and the largest ----------

    method FindSmallest(ghost n: nat)
      requires Shape() && n <= |merged| && AllAt(lists, merged, ps, n)
      modifies `current, `at
      ensures Standing(lists, merged, ps, current, at) && at == n
    {
      var smallest := Smallest();
      SmallestStands(lists, merged, ps, smallest, n);
      current, at := smallest, n;
    }

    method Smallest() returns (smallest: Option<nat>)
      requires Attached()
      ensures IsSmallest(lists, ps, smallest, |lists|)
    {
      smallest := None;
      for i := 0 to |children|
        invariant IsSmallest(lists, ps, smallest, i)
      {
        if ValidChild(i) {
          if smallest == None {
            smallest := Some(i);
          } else if Less(Entry(i).k, Entry(smallest.value).k) {
            smallest := Some(i);
          }
        }
      }
    }

    method FindLargest(ghost n: nat)
      requires Shape() && n <= |merged| && AllBefore(lists, merged, ps, n, None)
      modifies `current, `at
      ensures Standing(lists, merged, ps, current, at) && at == PrevIndex(merged, n)
      ensures current.Some? ==> AllBefore(lists, merged, ps, at, current)
    {
      var largest := Largest();
      LargestStands(lists, merged, ps, largest, n);
      current, at := largest, PrevIndex(merged, n);
    }

    method Largest() returns (largest: Option<nat>)
      requires Attached()
      ensures IsLargest(lists, ps, largest, 0)
    {
      largest := None;
      var i: nat := |children|;
      while i > 0
        invariant i <= |children| && IsLargest(lists, ps, largest, i)
      {
        i := i - 1;
        if ValidChild(i) {
          if largest == None {
            largest := Some(i);
          } else if Less(Entry(largest.value).k, Entry(i).k) {
            largest := Some(i);
          }
        }
      }
    }

    // ---------- the iterator ----------

    method SeekToFirst()
      requires Shape()
      modifies this, objects
      ensures Good() && at == 0
    {
      for i := 0 to |children|
        invariant Attached() && forall j :: 0 <= j < i ==> ps[j] == 0
      {
        FirstChild(i);
      }
      FirstCuts(lists, merged, ps);
      FindSmallest(0);
      direction := Forward;
    }

    method SeekToLast()
      requires Shape()
      modifies this, objects
      ensures Good() && at == LastIndex(merged)
    {
      for i := 0 to |children|
        invariant Attached() && forall j :: 0 <= j < i ==> ps[j] == LastIndex(lists[j])
      {
        LastChild(i);
      }
      FirstCuts(lists, merged, ps);
      FindLargest(|merged|);
      direction := Reverse;
    }

    method Seek(target: IKey)
      requires Shape()
      modifies this, objects
      ensures Good() && at == SeekIndex(merged, target)
    {
      for i := 0 to |children|
        invariant Attached() && forall j :: 0 <= j < i ==> ps[j] == SeekIndex(lists[j], target)
      {
        SeekChild(i, target);
      }
      SeekCuts(lists, merged, ps, target);
      FindSmallest(SeekIndex(merged, target));
      direction := Forward;
    }

    /** Turning forward: every other child goes to its first entry after the current one. */
    method TurnForward(c: nat)
      requires Good() && current == Some(c) && direction == Reverse
      modifies `ps, objects
      ensures Shape() && ps[c] == old(ps)[c]
      ensures forall i :: 0 <= i < |children| && i != c ==> ps[i] == Cut(lists[i], merged, at + 1)
    {
      var key := Entry(c).k;
      for i := 0 to |children|
        invariant Shape() && ps[c] == old(ps)[c]
        invariant forall j :: 0 <= j < i && j != c ==> ps[j] == Cut(lists[j], merged, at + 1)
      {
        if i != c {
          SeekPast(i, key);
          SeekPastIsCut(i, at);
        }
      }
    }

    /** Seek(key), then Next when the key itself is there. */
    method SeekPast(i: nat, key: IKey)
      requires Attached() && i < |children|
      modifies `ps, children[i].Repr()
      ensures Attached()
      ensures var es, p := lists[i], SeekIndex(lists[i], key);
              ps == old(ps)[i := if p < |es| && SameKey(es[p].k, key) then p + 1 else p]
    {
      SeekChild(i, key);
      if ValidChild(i) && SameKey(Entry(i).k, key) {
        NextChild(i);
      }
    }

    lemma SeekPastIsCut(i: nat, n: nat)
      requires Shape() && n < |merged| && i < |children|
      ensures var es, p := lists[i], SeekIndex(lists[i], merged[n].k);
              Cut(es, merged, n + 1) == if p < |es| && SameKey(es[p].k, merged[n].k) then p + 1 else p
    {
      PastCut(lists[i], merged, n);
    }

    /** Turning back: every other child goes to its last entry before the current one. */
    method TurnBack(c: nat)
      requires Good() && current == Some(c) && direction == Forward
      modifies `ps, objects
      ensures Shape() && ps[c] == old(ps)[c] && AllBefore(lists, merged, ps, at, Some(c))
    {
      var key := Entry(c).k;
      for i := 0 to |children|
        invariant Shape() && ps[c] == old(ps)[c]
        invariant forall j :: 0 <= j < i && j != c ==> ps[j] == PrevIndex(lists[j], Cut(lists[j], merged, at))
      {
        if i != c {
          SeekBack(i, key);
        }
      }
    }

    /** Seek(key), then the entry before. */
    method SeekBack(i: nat, key: IKey)
      requires Attached() && i < |children|
      modifies `ps, children[i].Repr()
      ensures Attached() && ps == old(ps)[i := PrevIndex(lists[i], SeekIndex(lists[i], key))]
    {
      SeekChild(i, key);
      if ValidChild(i) {
        PrevChild(i);
      } else {
        LastChild(i);
      }
    }

    method Next()
      requires Good() && Valid()
      modifies this, objects
      ensures Good() && at == old(at) + 1
    {
      var c := current.value;
      OthersStay(lists, merged, at, c);
      if direction != Forward {
        TurnForward(c);
        direction := Forward;
      }
      StepForward(c, at);
      FindSmallest(at + 1);
    }

    /** With the others past position n, the child that holds it steps past it too. */
    method StepForward(c: nat, ghost n: nat)
      requires Attached() && n < |merged| && c < |children| && ps[c] == Cut(lists[c], merged, n) < |lists[c]|
      requires Cut(lists[c], merged, n + 1) == Cut(lists[c], merged, n) + 1
      requires forall i :: 0 <= i < |children| && i != c ==> ps[i] == Cut(lists[i], merged, n + 1)
      modifies `ps, children[c].Repr()
      ensures Attached() && AllAt(lists, merged, ps, n + 1)
    {
      NextChild(c);
    }

    method Prev()
      requires Good() && Valid()
      modifies this, objects
      ensures Good() && at == PrevIndex(merged, old(at))
    {
      var c := current.value;
      if direction != Reverse {
        TurnBack(c);
        direction := Reverse;
      }
      PrevChild(c);
      FindLargest(at);
    }
  }
}
