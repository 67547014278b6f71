/** The circular doubly linked lists of the cache (util/cache.cc): handles are
    numbers, and the next and prev pointers are maps. */
module LruList {

  datatype Links = Links(next: map<nat, nat>, prev: map<nat, nat>)

  ghost predicate NoDup(s: seq<nat>) {
    forall i, j :: 0 <= i < j < |s| ==> s[i] != s[j]
  }

  /** Going round from the head by next pointers meets the list in order; prev
      pointers go the other way. */
  ghost predicate Ring(l: Links, head: nat, list: seq<nat>) {
    NoDup([head] + list) && forall i {:trigger Joined(l, head, list, i)} :: 0 <= i <= |list| ==>
      Joined(l, head, list, i)
  }

  /** The i-th element of the ring; the head is number 0 and number |list| + 1. */
  function At(head: nat, list: seq<nat>, i: nat): nat
    requires i <= |list| + 1
  {
    if i == 0 || i == |list| + 1 then head else list[i - 1]
  }

  ghost predicate Joined(l: Links, head: nat, list: seq<nat>, i: nat)
    requires i <= |list|
  {
    var a, b := At(head, list, i), At(head, list, i + 1);
    a in l.next && l.next[a] == b && b in l.prev && l.prev[b] == a
  }

  /** LRU_Remove. */
  function Remove(l: Links, e: nat): Links
    requires e in l.next && e in l.prev
  {
    Links(l.next[l.prev[e] := l.next[e]], l.prev[l.next[e] := l.prev[e]])
  }

  /** LRU_Append: e becomes the newest, just before the head. */
  function Append(l: Links, head: nat, e: nat): Links
    requires head in l.prev
  {
    Links(l.next[e := head][l.prev[head] := e], l.prev[e := l.prev[head]][head := e])
  }

  function Without(list: seq<nat>, i: nat): seq<nat>
    requires i < |list|
  {
    list[..i] + list[i + 1..]
  }

  lemma RemoveRing(l: Links, head: nat, list: seq<nat>, i: nat)
    requires Ring(l, head, list) && i < |list|
    ensures list[i] in l.next && list[i] in l.prev
    ensures Ring(Remove(l, list[i]), head, Without(list, i))
  {
    var e, list' := list[i], Without(list, i);
    assert Joined(l, head, list, i) && Joined(l, head, list, i + 1);
    var l' := Remove(l, e);
    assert At(head, list, i + 1) == e;
    forall a, b | 0 <= a < b < |[head] + list'| ensures ([head] + list')[a] != ([head] + list')[b] {
      var s := [head] + list;
      assert ([head] + list')[a] == s[if a <= i then a else a + 1];
      assert ([head] + list')[b] == s[if b <= i then b else b + 1];
    }
    forall j | 0 <= j <= |list'| ensures Joined(l', head, list', j) {
      RemoveJoined(l, head, list, i, j);
    }
  }

  lemma RemoveJoined(l: Links, head: nat, list: seq<nat>, i: nat, j: nat)
    requires Ring(l, head, list) && i < |list| && j < |list|
    requires list[i] in l.next && list[i] in l.prev
    ensures Joined(Remove(l, list[i]), head, Without(list, i), j)
  {
    assert Joined(l, head, list, i) && Joined(l, head, list, i + 1);
    var s := [head] + list;
    assert forall k :: 0 <= k <= |list| ==> s[k] == At(head, list, k);
    if j < i {
      assert Joined(l, head, list, j);
    } else if j > i {
      assert Joined(l, head, list, j + 1);
    }
  }

  lemma AppendRing(l: Links, head: nat, list: seq<nat>, e: nat)
    requires Ring(l, head, list) && e !in [head] + list
    ensures head in l.prev && Ring(Append(l, head, e), head, list + [e])
  {
    var list' := list + [e];
    assert Joined(l, head, list, |list|);
    assert [head] + list' == [head] + list + [e];
    forall j | 0 <= j <= |list'| ensures Joined(Append(l, head, e), head, list', j) {
      AppendJoined(l, head, list, e, j);
    }
  }

  lemma AppendJoined(l: Links, head: nat, list: seq<nat>, e: nat, j: nat)
    requires Ring(l, head, list) && e !in [head] + list && j <= |list| + 1 && head in l.prev
    ensures Joined(Append(l, head, e), head, list + [e], j)
  {
    assert Joined(l, head, list, |list|);
    var s := [head] + list;
    assert forall k :: 0 <= k <= |list| ==> s[k] == At(head, list, k);
    if j < |list| {
      assert Joined(l, head, list, j);
    }
  }

  /** A ring does not notice changes to the links of others. */
  ghost predicate Apart(head: nat, list: seq<nat>, e: nat) {
    e !in [head] + list
  }

  lemma RemoveElsewhere(l: Links, head: nat, list: seq<nat>, other: nat, others: seq<nat>, i: nat)
    requires Ring(l, head, list) && Ring(l, other, others) && i < |others|
    requires forall e :: e in [other] + others ==> Apart(head, list, e)
    ensures others[i] in l.next && others[i] in l.prev && Ring(Remove(l, others[i]), head, list)
  {
    assert Joined(l, other, others, i) && Joined(l, other, others, i + 1);
    assert At(other, others, i) in [other] + others && At(other, others, i + 2) in [other] + others;
    forall j | 0 <= j <= |list| ensures Joined(Remove(l, others[i]), head, list, j) {
      assert Joined(l, head, list, j);
      assert At(head, list, j) in [head] + list && At(head, list, j + 1) in [head] + list;
    }
  }

  lemma AppendElsewhere(l: Links, head: nat, list: seq<nat>, other: nat, others: seq<nat>, e: nat)
    requires Ring(l, head, list) && Ring(l, other, others) && Apart(head, list, e)
    requires forall d :: d in [other] + others ==> Apart(head, list, d)
    ensures other in l.prev && Ring(Append(l, other, e), head, list)
  {
    assert Joined(l, other, others, |others|);
    assert At(other, others, |others|) in [other] + others;
    forall j | 0 <= j <= |list| ensures Joined(Append(l, other, e), head, list, j) {
      assert Joined(l, head, list, j);
      assert At(head, list, j) in [head] + list && At(head, list, j + 1) in [head] + list;
    }
  }
}
