/** The memtable's skip list with one writer and lock-free readers (skiplist.h).
    Every store of the writer makes a new memory; a reader's loads see memories of
    this history at times that never go back, but may otherwise fall anywhere
    between the writer's stores. */
module SkipList {
  import opened Keys

  const MAX_HEIGHT: nat := 12

  /** An entry of the memtable stands by its internal key; no two share one. */
  type Key = IKey

  datatype Node = Head | Node(key: Key)

  /** The next pointers, level by level, and max_height_. */
  datatype Memory = Memory(next: seq<map<Node, Option<Key>>>, maxHeight: nat)

  predicate Before(n: Node, k: Key) {
    n == Head || Less(n.key, k)
  }

  /** r is the next key of s after node n. */
  ghost predicate IsNext(s: set<Key>, n: Node, r: Option<Key>) {
    match r
    case None => forall k :: k in s ==> !Before(n, k)
    case Some(q) => q in s && Before(n, q) && forall k :: k in s && Before(n, k) ==> !Less(k, q)
  }

  /** n is the last node of s before key k; Head if there is none. */
  ghost predicate IsLast(s: set<Key>, n: Node, k: Key) {
    In(s, n) && Before(n, k) && forall j :: j in s && Less(j, k) ==> !Before(n, j)
  }

  /** r is the least key of s that is not below the target. */
  ghost predicate IsCeiling(s: set<Key>, target: Key, r: Option<Key>) {
    match r
    case None => forall k :: k in s ==> Less(k, target)
    case Some(q) => q in s && !Less(q, target) && forall k :: k in s && !Less(k, target) ==> !Less(k, q)
  }

  ghost predicate In(s: set<Key>, n: Node) {
    n == Head || n.key in s
  }

  /** Level l links the keys lists[l] in order, and each level is a sublist of the
      one below; levels from max_height_ up are empty. */
  ghost predicate Good(m: Memory, lists: seq<set<Key>>) {
    && |m.next| == |lists| == MAX_HEIGHT && 1 <= m.maxHeight <= MAX_HEIGHT
    && (forall l :: 0 <= l < MAX_HEIGHT - 1 ==> lists[l + 1] <= lists[l])
    && (forall l :: m.maxHeight <= l < MAX_HEIGHT ==> lists[l] == {})
    && (forall l :: 0 <= l < MAX_HEIGHT ==> Linked(m.next[l], lists[l]))
  }

  ghost predicate Linked(next: map<Node, Option<Key>>, s: set<Key>) {
    forall n :: In(s, n) ==> n in next && IsNext(s, n, next[n])
  }

  /** A memory and the lists it links. */
  datatype Moment = Moment(m: Memory, lists: seq<set<Key>>)

  /** No key ever leaves a level. */
  ghost predicate Grows(a: Moment, b: Moment) {
    |a.lists| == |b.lists| == MAX_HEIGHT && forall l :: 0 <= l < MAX_HEIGHT ==> a.lists[l] <= b.lists[l]
  }

  /** What readers rely on. */
  ghost predicate History(h: seq<Moment>) {
    && (forall i :: 0 <= i < |h| ==> Good(h[i].m, h[i].lists))
    && (forall i, j :: 0 <= i <= j < |h| ==> Grows(h[i], h[j]))
  }

  /** The times of a reader's loads. */
  ghost predicate Clock(when: nat -> nat, h: seq<Moment>) {
    (forall i :: when(i) < |h|) && forall i, j :: 0 <= i <= j ==> when(i) <= when(j)
  }

  // ---------- the writer's stores ----------

  /** Storing the next pointer of a node that is not linked at this level. */
  lemma PrivateStore(next: map<Node, Option<Key>>, s: set<Key>, k: Key, r: Option<Key>)
    requires Linked(next, s) && k !in s
    ensures Linked(next[Node(k) := r], s)
  {
  }

  /** Publishing: the predecessor's pointer now leads to the new node. */
  lemma PublishStore(next: map<Node, Option<Key>>, s: set<Key>, k: Key, prev: Node)
    requires Linked(next, s) && k !in s && IsLast(s, prev, k)
    requires Node(k) in next && next[Node(k)] == next[prev]
    ensures Linked(next[prev := Some(k)], s + {k})
  {
    var s', next' := s + {k}, next[prev := Some(k)];
    forall n | In(s', n) ensures n in next' && IsNext(s', n, next'[n]) {
      if n != prev && n != Node(k) {
        assert In(s, n) && IsNext(s, n, next[n]);
        assert Before(n, k) ==> prev != Head && Before(n, prev.key);
      }
    }
  }

  // ---------- readers ----------

  /** Keys yet ahead of a search, in the last memory it can see. */
  ghost function Ahead(h: seq<Moment>, n: Node): set<Key>
    requires History(h) && |h| > 0
  {
    set k | k in h[|h| - 1].lists[0] && Before(n, k)
  }

  lemma AheadShrinks(h: seq<Moment>, t: nat, l: nat, n: Node, q: Key)
    requires History(h) && t < |h| && l < MAX_HEIGHT && q in h[t].lists[l] && Before(n, q)
    ensures |Ahead(h, Node(q))| < |Ahead(h, n)|
  {
    InBottom(h[t], l, q);
    assert Grows(h[t], h[|h| - 1]);
    assert q in Ahead(h, n) && q !in Ahead(h, Node(q));
    assert Ahead(h, Node(q)) < Ahead(h, n);
    SubsetSize(Ahead(h, Node(q)), Ahead(h, n));
  }

  lemma {:induction false} SubsetSize(a: set<Key>, b: set<Key>)
    requires a < b
    ensures |a| < |b|
  {
    assert b == a + (b - a);
  }

  lemma {:induction false} InBottom(w: Moment, l: nat, q: Key)
    requires Good(w.m, w.lists) && l < MAX_HEIGHT && q in w.lists[l]
    ensures q in w.lists[0]
  {
    if l > 0 {
      assert w.lists[l - 1 + 1] <= w.lists[l - 1];
      InBottom(w, l - 1, q);
    }
  }

  /** What a load of node x's pointer at some level gives: the next key of that
      level at that time. */
  lemma Load(h: seq<Moment>, before: nat, now: nat, level: nat, x: Node)
    requires History(h) && before <= now < |h| && level < MAX_HEIGHT && In(h[before].lists[level], x)
    ensures In(h[now].lists[level], x) && x in h[now].m.next[level]
    ensures IsNext(h[now].lists[level], x, h[now].m.next[level][x])
  {
    assert Grows(h[before], h[now]);
    assert Linked(h[now].m.next[level], h[now].lists[level]);
  }

  /** FindGreaterOrEqual: no key inserted before the search began is passed over.
      `at` is the time of the last load, `ats[l]` of the load that ended the search at
      level l. */
  method FindGreaterOrEqual(ghost h: seq<Moment>, ghost when: nat -> nat, load: nat -> Memory, key: Key)
    returns (r: Option<Key>, prev: seq<Node>, ghost at: nat, ghost ats: seq<nat>)
    requires History(h) && Clock(when, h) && forall i :: load(i) == h[when(i)].m
    ensures when(0) <= at < |h| && IsCeiling(h[at].lists[0], key, r)
    ensures forall k :: k in h[when(0)].lists[0] && !Less(k, key) ==>
              r.Some? && !Less(r.value, key) && !Less(k, r.value)
    ensures |prev| == |ats| == MAX_HEIGHT
    ensures forall l :: 0 <= l < h[when(0)].m.maxHeight ==>
              when(0) <= ats[l] < |h| && IsLast(h[ats[l]].lists[l], prev[l], key)
  {
    var x, time := Head, 0;
    var level := load(time).maxHeight - 1;
    prev, ats, at := seq(MAX_HEIGHT, _ => Head), seq(MAX_HEIGHT, _ => 0), when(0);
    while true
      invariant 0 <= level < h[when(0)].m.maxHeight <= MAX_HEIGHT && when(0) <= at == when(time) < |h|
      invariant In(h[at].lists[level], x) && Before(x, key)
      invariant |prev| == |ats| == MAX_HEIGHT
      invariant forall l :: level < l < h[when(0)].m.maxHeight ==>
                  when(0) <= ats[l] < |h| && IsLast(h[ats[l]].lists[l], prev[l], key)
      decreases level, |Ahead(h, x)|
    {
      time := time + 1;
      Load(h, at, when(time), level, x);
      at := when(time);
      var next := load(time).next[level][x];
      if next.Some? && Less(next.value, key) {
        AheadShrinks(h, at, level, x, next.value);
        x := Node(next.value);
      } else {
        prev, ats := prev[level := x], ats[level := at];
        if level == 0 {
          assert Grows(h[when(0)], h[at]);
          return next, prev, at, ats;
        }
        assert h[at].lists[level - 1 + 1] <= h[at].lists[level - 1];
        level := level - 1;
      }
    }
  }

  /** FindLessThan: the last node before the key, as of the last load. */
  method FindLessThan(ghost h: seq<Moment>, ghost when: nat -> nat, load: nat -> Memory, key: Key)
    returns (x: Node, ghost at: nat)
    requires History(h) && Clock(when, h) && forall i :: load(i) == h[when(i)].m
    ensures when(0) <= at < |h| && IsLast(h[at].lists[0], x, key)
    ensures forall k :: k in h[when(0)].lists[0] && Less(k, key) ==>
              x.Node? && !Less(x.key, k) && Less(x.key, key)
  {
    var time := 0;
    var level := load(time).maxHeight - 1;
    x, at := Head, when(0);
    while true
      invariant 0 <= level < MAX_HEIGHT && when(0) <= at == when(time) < |h|
      invariant In(h[at].lists[level], x) && Before(x, key)
      decreases level, |Ahead(h, x)|
    {
      time := time + 1;
      Load(h, at, when(time), level, x);
      at := when(time);
      var next := load(time).next[level][x];
      if next == None || !Less(next.value, key) {
        if level == 0 {
          assert Grows(h[when(0)], h[at]);
          return;
        }
        assert h[at].lists[level - 1 + 1] <= h[at].lists[level - 1];
        level := level - 1;
      } else {
        AheadShrinks(h, at, level, x, next.value);
        x := Node(next.value);
      }
    }
  }

  /** FindLast: no key comes after the node, as of the last load. */
  method FindLast(ghost h: seq<Moment>, ghost when: nat -> nat, load: nat -> Memory) returns (x: Node, ghost at: nat)
    requires History(h) && Clock(when, h) && forall i :: load(i) == h[when(i)].m
    ensures when(0) <= at < |h| && In(h[at].lists[0], x) && forall k :: k in h[at].lists[0] ==> !Before(x, k)
    ensures forall k :: k in h[when(0)].lists[0] ==> x.Node? && !Less(x.key, k)
  {
    var time := 0;
    var level := load(time).maxHeight - 1;
    x, at := Head, when(0);
    while true
      invariant 0 <= level < MAX_HEIGHT && when(0) <= at == when(time) < |h|
      invariant In(h[at].lists[level], x)
      decreases level, |Ahead(h, x)|
    {
      time := time + 1;
      Load(h, at, when(time), level, x);
      at := when(time);
      var next := load(time).next[level][x];
      if next == None {
        if level == 0 {
          assert Grows(h[when(0)], h[at]);
          return;
        }
        assert h[at].lists[level - 1 + 1] <= h[at].lists[level - 1];
        level := level - 1;
      } else {
        AheadShrinks(h, at, level, x, next.value);
        x := Node(next.value);
      }
    }
  }

  /** Contains: whether the key was in the list at the last load; a key inserted
      before the search began is always found. */
  method Contains(ghost h: seq<Moment>, ghost when: nat -> nat, load: nat -> Memory, key: Key)
    returns (found: bool, ghost at: nat)
    requires History(h) && Clock(when, h) && forall i :: load(i) == h[when(i)].m
    ensures when(0) <= at < |h| && (found <==> key in h[at].lists[0])
    ensures key in h[when(0)].lists[0] ==> found
  {
    var r, prev;
    ghost var ats;
    r, prev, at, ats := FindGreaterOrEqual(h, when, load, key);
    found := r == Some(key);
    assert Grows(h[when(0)], h[at]);
  }

  // ---------- the writer ----------

  class SkipList {
    var next: seq<map<Node, Option<Key>>>
    var maxHeight: nat
    /** Every memory the list has gone through, one for each store. */
    ghost var history: seq<Moment>

    function Now(): Memory
      reads this
    {
      Memory(next, maxHeight)
    }

    ghost predicate Valid()
      reads this
    {
      |history| > 0 && History(history) && history[|history| - 1].m == Now()
    }

    /** The keys linked at each level. */
    ghost function Lists(): seq<set<Key>>
      requires Valid()
      reads this
    {
      history[|history| - 1].lists
    }

    constructor ()
      ensures Valid() && Lists() == seq(MAX_HEIGHT, _ => {})
    {
      next, maxHeight := seq(MAX_HEIGHT, _ => map[Head := None]), 1;
      history := [Moment(Memory(seq(MAX_HEIGHT, _ => map[Head := None]), 1), seq(MAX_HEIGHT, _ => {}))];
    }

    /** A store, seen by every later load. */
    ghost method Record(lists: seq<set<Key>>)
      requires |history| > 0 && History(history) && Good(Now(), lists)
      requires Grows(history[|history| - 1], Moment(Now(), lists))
      modifies `history
      ensures Valid() && Lists() == lists && history == old(history) + [Moment(Now(), lists)]
    {
      var w := Moment(Now(), lists);
      forall i | 0 <= i < |history| ensures Grows(history[i], w) {
        assert Grows(history[i], history[|history| - 1]);
      }
      history := history + [w];
    }

    method RaiseHeight(height: nat)
      requires Valid() && maxHeight < height <= MAX_HEIGHT
      modifies this
      ensures Valid() && maxHeight == height && next == old(next) && Lists() == old(Lists())
      ensures old(history) <= history
    {
      ghost var lists := Lists();
      maxHeight := height;
      Record(lists);
    }

    /** x->NoBarrier_SetNext(i, prev[i]->NoBarrier_Next(i)), then prev[i]->SetNext(i, x). */
    method LinkAt(i: nat, key: Key, prev: Node)
      requires Valid() && i < maxHeight && key !in Lists()[i] && (i > 0 ==> key in Lists()[i - 1])
      requires IsLast(Lists()[i], prev, key)
      modifies this
      ensures Valid() && maxHeight == old(maxHeight) && Lists() == old(Lists())[i := old(Lists())[i] + {key}]
      ensures old(history) <= history
    {
      ghost var lists := Lists();
      assert Linked(next[i], lists[i]);
      PrivateStore(next[i], lists[i], key, next[i][prev]);
      next := next[i := next[i][Node(key) := next[i][prev]]];
      Record(lists);
      PublishStore(next[i], lists[i], key, prev);
      next := next[i := next[i][prev := Some(key)]];
      Record(lists[i := lists[i] + {key}]);
    }

    /** Insert a key that is not there, at a height RandomHeight chose. */
    method Insert(key: Key, height: nat)
      requires Valid() && key !in Lists()[0] && 1 <= height <= MAX_HEIGHT
      modifies this
      ensures Valid() && old(history) <= history
      ensures forall l :: 0 <= l < MAX_HEIGHT ==> Lists()[l] == old(Lists()[l]) + if l < height then {key} else {}
    {
      var now, top := Now(), maxHeight;
      ghost var last, lists := |history| - 1, Lists();
      var r, prev;
      ghost var at, ats;
      r, prev, at, ats := FindGreaterOrEqual(history, _ => last, _ => now, key);
      assert forall l :: 0 <= l < top ==> ats[l] == last;
      AbsentAbove(history[last], key);
      if height > maxHeight {
        prev := seq(MAX_HEIGHT, l requires 0 <= l < MAX_HEIGHT => if top <= l < height then Head else prev[l]);
        RaiseHeight(height);
      }
      LinkAll(key, height, prev);
    }

    /** Insert's loop, from the bottom level up. */
    method LinkAll(key: Key, height: nat, prev: seq<Node>)
      requires Valid() && 1 <= height <= maxHeight && |prev| == MAX_HEIGHT
      requires forall l :: 0 <= l < height ==> key !in Lists()[l] && IsLast(Lists()[l], prev[l], key)
      modifies this
      ensures Valid() && old(history) <= history
      ensures forall l :: 0 <= l < MAX_HEIGHT ==> Lists()[l] == old(Lists()[l]) + if l < height then {key} else {}
    {
      ghost var lists := Lists();
      for i := 0 to height
        invariant Valid() && old(history) <= history && height <= maxHeight
        invariant forall l :: 0 <= l < MAX_HEIGHT ==> Lists()[l] == lists[l] + if l < i then {key} else {}
      {
        LinkAt(i, key, prev[i]);
      }
    }
  }

  lemma AbsentAbove(w: Moment, key: Key)
    requires Good(w.m, w.lists) && key !in w.lists[0]
    ensures forall l :: 0 <= l < MAX_HEIGHT ==> key !in w.lists[l]
  {
    forall l | 0 <= l < MAX_HEIGHT ensures key !in w.lists[l] {
      if key in w.lists[l] {
        InBottom(w, l, key);
      }
    }
  }
}
