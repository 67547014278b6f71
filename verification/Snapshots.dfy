/** SnapshotList (db/snapshot.h): a circular list of held snapshots, oldest first. */
module Snapshots {
  import opened LruList

  const HEAD: nat := 0

  function Numbers(list: seq<nat>, sequence: map<nat, nat>): (s: seq<nat>)
    requires forall n :: n in list ==> n in sequence
    ensures |s| == |list| && forall i :: 0 <= i < |s| ==> s[i] == sequence[list[i]]
  {
    seq(|list|, i requires 0 <= i < |list| => sequence[list[i]])
  }

  ghost predicate Rising(s: seq<nat>) {
    forall i, j :: 0 <= i < j < |s| ==> s[i] <= s[j]
  }

  lemma NumbersMore(list: seq<nat>, sequence: map<nat, nat>, n: nat, q: nat)
    requires (forall m :: m in list ==> m in sequence) && n !in list
    requires Rising(Numbers(list, sequence)) && forall i :: 0 <= i < |list| ==> Numbers(list, sequence)[i] <= q
    ensures Numbers(list + [n], sequence[n := q]) == Numbers(list, sequence) + [q]
    ensures Rising(Numbers(list + [n], sequence[n := q]))
  {
  }

  class SnapshotList {
    var links: Links
    var sequence: map<nat, nat>
    /** The nodes in order, and a node never used. */
    ghost var list: seq<nat>
    var unused: nat

    ghost predicate Valid()
      reads this
    {
      && Ring(links, HEAD, list) && HEAD < unused && (forall n :: n in list ==> n < unused && n in sequence)
      && Rising(Numbers(list, sequence))
    }

    /** The sequence numbers held, oldest first. */
    ghost function Held(): (s: seq<nat>)
      requires Valid()
      reads this
      ensures |s| == |list|
    {
      Numbers(list, sequence)
    }

    constructor ()
      ensures Valid() && Held() == []
    {
      links, sequence, list, unused := Links(map[HEAD := HEAD], map[HEAD := HEAD]), map[], [], 1;
    }

    method Empty() returns (empty: bool)
      requires Valid()
      ensures empty <==> Held() == []
    {
      assert Joined(links, HEAD, list, 0);
      empty := links.next[HEAD] == HEAD;
      assert list != [] ==> ([HEAD] + list)[0] != ([HEAD] + list)[1];
    }

    /** oldest() is the least sequence number held. */
    method Oldest() returns (q: nat)
      requires Valid() && Held() != []
      ensures q == Held()[0] && forall i :: 0 <= i < |Held()| ==> q <= Held()[i]
    {
      assert Joined(links, HEAD, list, 0);
      q := sequence[links.next[HEAD]];
    }

    /** smallest_snapshot of a compaction: the oldest one held, or the last sequence number. */
    method Smallest(lastSequence: nat) returns (q: nat)
      requires Valid()
      ensures q == if Held() == [] then lastSequence else Held()[0]
    {
      q := lastSequence;
      var empty := Empty();
      if !empty {
        q := Oldest();
      }
    }

    method New(q: nat) returns (snapshot: nat)
      requires Valid() && forall i :: 0 <= i < |Held()| ==> Held()[i] <= q
      modifies this
      ensures Valid() && Held() == old(Held()) + [q] && list == old(list) + [snapshot]
    {
      snapshot := unused;
      forall i | 0 <= i < |list| ensures Numbers(list, sequence)[i] <= q {
        assert Held()[i] <= q;
      }
      NumbersMore(list, sequence, snapshot, q);
      AppendRing(links, HEAD, list, snapshot);
      links, sequence, list, unused := Append(links, HEAD, snapshot), sequence[snapshot := q], list + [snapshot],
        unused + 1;
    }

    method Delete(snapshot: nat, ghost i: nat)
      requires Valid() && i < |list| && list[i] == snapshot
      modifies this
      ensures Valid() && Held() == old(Held())[..i] + old(Held())[i + 1..] && list == Without(old(list), i)
    {
      RemoveRing(links, HEAD, list, i);
      links, list := Remove(links, snapshot), Without(list, i);
    }
  }
}
