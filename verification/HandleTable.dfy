/** The cache's hash table (util/cache.cc, HandleTable): an array of buckets, each a
    chain of handles linked by next_hash, rebuilt when it has too many entries. */
module HandleTable {
  import opened Keys
  import opened LruList

  datatype Info = Info(key: Bytes, hash: nat)

  /** Bucket number: hash & (length - 1), for a length that is a power of two. */
  function Bucket(hash: nat, length: nat): (j: nat)
    requires length > 0
    ensures j < length
  {
    hash % length
  }

  predicate PowerOfTwo(n: nat) {
    n == 1 || (n > 1 && n % 2 == 0 && PowerOfTwo(n / 2))
  }

  function BitAnd(a: nat, b: nat): nat {
    if a == 0 || b == 0 then 0 else (a % 2) * (b % 2) + 2 * BitAnd(a / 2, b / 2)
  }

  /** Masking with length - 1 picks the bucket. */
  lemma {:induction false} MaskPicksBucket(hash: nat, length: nat)
    requires length > 0 && PowerOfTwo(length)
    ensures BitAnd(hash, length - 1) == Bucket(hash, length)
  {
    if length == 1 {
      assert hash % 1 == 0;
    } else {
      MaskPicksBucket(hash / 2, length / 2);
      MaskDoubles(hash, length, length / 2);
    }
  }

  lemma MaskDoubles(hash: nat, length: nat, half: nat)
    requires half > 0 && length == 2 * half && BitAnd(hash / 2, half - 1) == Bucket(hash / 2, half)
    ensures BitAnd(hash, length - 1) == Bucket(hash, length)
  {
    HalfRemainder(hash, half);
    if hash > 0 {
      MaskStep(hash, half);
    }
  }

  lemma MaskStep(a: nat, half: nat)
    requires a > 0 && half > 0
    ensures BitAnd(a, 2 * half - 1) == a % 2 + 2 * BitAnd(a / 2, half - 1)
  {
    var m := 2 * half - 1;
    assert m % 2 == 1 && m / 2 == half - 1;
  }

  lemma HalfRemainder(n: nat, half: nat)
    requires half > 0
    ensures n % 2 + 2 * (n / 2 % half) == n % (2 * half)
  {
    var m, d := n / 2, 2 * half;
    var q, r := m / half, m % half;
    assert m == half * q + r;
    Regrouped(half, q);
    SameRemainder(d, q, n % 2 + 2 * r, n / d, n % d);
  }

  lemma Regrouped(half: nat, q: nat)
    ensures 2 * (half * q) == (2 * half) * q
  {
  }

  /** A number has one quotient and remainder. */
  lemma SameRemainder(d: nat, q: int, r: nat, q': int, r': nat)
    requires d > 0 && r < d && r' < d && d * q + r == d * q' + r'
    ensures r == r'
  {
    Multiples(d, q - q');
    assert d * (q - q') == d * q - d * q' == r' - r;
  }

  lemma Multiples(d: nat, x: int)
    requires d > 0
    ensures x >= 1 ==> d * x >= d
    ensures x <= -1 ==> d * x + d <= 0
  {
  }

  function First(ids: seq<nat>): Option<nat> {
    if ids == [] then None else Some(ids[0])
  }

  /** A chain along next_hash: the handles of bucket j. */
  ghost predicate Chain(first: Option<nat>, next: map<nat, Option<nat>>, ids: seq<nat>) {
    first == First(ids) && forall i {:trigger ids[i]} :: 0 <= i < |ids| ==>
      ids[i] in next && next[ids[i]] == First(ids[i + 1..])
  }

  ghost predicate InBucket(info: map<nat, Info>, ids: seq<nat>, j: nat, length: nat)
    requires length > 0
  {
    NoDup(ids) && forall id :: id in ids ==> id in info && Bucket(info[id].hash, length) == j
  }

  ghost predicate Buckets(list: seq<Option<nat>>, next: map<nat, Option<nat>>, info: map<nat, Info>,
                          chains: seq<seq<nat>>) {
    && |list| == |chains|
    && (forall j {:trigger Chain(list[j], next, chains[j])} :: 0 <= j < |list| ==> Chain(list[j], next, chains[j]))
    && (forall j {:trigger InBucket(info, chains[j], j, |list|)} :: 0 <= j < |list| ==>
      InBucket(info, chains[j], j, |list|))
  }

  ghost function IdsOf(chains: seq<seq<nat>>): set<nat> {
    set j, id | 0 <= j < |chains| && id in chains[j] :: id
  }

  ghost predicate Is(info: map<nat, Info>, id: nat, key: Bytes, hash: nat) {
    id in info && info[id] == Info(key, hash)
  }

  /** No two handles have one key and hash. */
  ghost predicate KeysUnique(info: map<nat, Info>, ids: set<nat>) {
    forall a, b {:trigger info[a], info[b]} :: a in ids && b in ids && a in info && b in info && info[a] == info[b] ==>
      a == b
  }

  lemma Member(chains: seq<seq<nat>>, j: nat, id: nat)
    requires j < |chains| && id in chains[j]
    ensures id in IdsOf(chains)
  {
  }

  /** A handle is in the chain of its own bucket, if in any. */
  lemma OwnBucket(list: seq<Option<nat>>, next: map<nat, Option<nat>>, info: map<nat, Info>, chains: seq<seq<nat>>,
                  id: nat)
    requires Buckets(list, next, info, chains) && id in IdsOf(chains)
    ensures |list| > 0 && id in info && id in chains[Bucket(info[id].hash, |list|)]
  {
    var j :| 0 <= j < |chains| && id in chains[j];
    assert InBucket(info, chains[j], j, |list|);
  }

  /** Storing into a chain's links leaves the chains it has nothing to do with. */
  lemma ChainStays(first: Option<nat>, next: map<nat, Option<nat>>, ids: seq<nat>, at: nat, v: Option<nat>)
    requires Chain(first, next, ids) && at !in ids
    ensures Chain(first, next[at := v], ids)
  {
  }

  lemma Disjoint(info: map<nat, Info>, chains: seq<seq<nat>>, i: nat, j: nat, id: nat)
    requires i < |chains| && j < |chains| && i != j && id in chains[i]
    requires InBucket(info, chains[i], i, |chains|) && InBucket(info, chains[j], j, |chains|)
    ensures id !in chains[j]
  {
  }

  lemma OnlyHere(list: seq<Option<nat>>, next: map<nat, Option<nat>>, info: map<nat, Info>, chains: seq<seq<nat>>,
                 j: nat, id: nat)
    requires Buckets(list, next, info, chains) && j < |chains| && id in chains[j]
    ensures forall m :: 0 <= m < |chains| && m != j ==> id !in chains[m]
  {
    forall m | 0 <= m < |chains| && m != j ensures id !in chains[m] {
      assert InBucket(info, chains[j], j, |list|) && InBucket(info, chains[m], m, |list|);
    }
  }

  // ---------- changing one chain ----------

  /** What *ptr = v does: the bucket's head changes, or the handle before. */
  function StoreList(list: seq<Option<nat>>, j: nat, before: Option<nat>, v: Option<nat>): seq<Option<nat>>
    requires j < |list|
  {
    if before == None then list[j := v] else list
  }

  function StoreNext(next: map<nat, Option<nat>>, before: Option<nat>, v: Option<nat>): map<nat, Option<nat>> {
    if before == None then next else next[before.value := v]
  }

  /** The chain from position i on is replaced. */
  lemma ChainSplice(first: Option<nat>, next: map<nat, Option<nat>>, ids: seq<nat>, i: nat, tail: seq<nat>)
    requires Chain(first, next, ids) && NoDup(ids) && i <= |ids| && NoDup(ids[..i] + tail)
    requires Chain(First(tail), next, tail)
    ensures var before := if i == 0 then None else Some(ids[i - 1]);
            Chain(if i == 0 then First(tail) else first, StoreNext(next, before, First(tail)), ids[..i] + tail)
  {
    var all, next' := ids[..i] + tail, StoreNext(next, if i == 0 then None else Some(ids[i - 1]), First(tail));
    forall k | 0 <= k < |all| ensures all[k] in next' && next'[all[k]] == First(all[k + 1..]) {
      if k < i {
        assert all[k] == ids[k];
        assert k + 1 < i ==> all[k + 1..][0] == ids[k + 1] && ids[k + 1..][0] == ids[k + 1];
        assert k + 1 == i ==> all[k + 1..] == tail;
      } else {
        assert all[k] == tail[k - i] && all[k + 1..] == tail[k - i + 1..];
        assert i > 0 ==> all[i - 1] != all[k];
      }
    }
  }

  lemma Along(first: Option<nat>, next: map<nat, Option<nat>>, ids: seq<nat>, i: nat)
    requires Chain(first, next, ids) && i <= |ids| && First(ids[i..]).Some?
    ensures i < |ids| && First(ids[i..]) == Some(ids[i])
    ensures ids[i] in next && next[ids[i]] == First(ids[i + 1..])
    ensures First(ids[i + 1..]).Some? ==> First(ids[i + 1..]).value in ids
  {
  }

  lemma ChainTail(first: Option<nat>, next: map<nat, Option<nat>>, ids: seq<nat>, i: nat)
    requires Chain(first, next, ids) && i <= |ids|
    ensures Chain(First(ids[i..]), next, ids[i..])
  {
    forall k | 0 <= k < |ids| - i ensures next[ids[i..][k]] == First(ids[i..][k + 1..]) {
      assert ids[i..][k] == ids[i + k] && ids[i..][k + 1..] == ids[i + k + 1..];
    }
  }

  /** Splicing one chain keeps the buckets. */
  lemma BucketsSplice(list: seq<Option<nat>>, next: map<nat, Option<nat>>, info: map<nat, Info>, chains: seq<seq<nat>>,
                      j: nat, i: nat, tail: seq<nat>)
    requires Buckets(list, next, info, chains) && j < |list| && i <= |chains[j]|
    requires Chain(First(tail), next, tail) && InBucket(info, chains[j][..i] + tail, j, |list|)
    ensures var before := if i == 0 then None else Some(chains[j][i - 1]);
            Buckets(StoreList(list, j, before, First(tail)), StoreNext(next, before, First(tail)), info,
              chains[j := chains[j][..i] + tail])
  {
    var before := if i == 0 then None else Some(chains[j][i - 1]);
    var list', next', chains' := StoreList(list, j, before, First(tail)), StoreNext(next, before, First(tail)),
      chains[j := chains[j][..i] + tail];
    forall m | 0 <= m < |list| ensures Chain(list'[m], next', chains'[m]) {
      assert Chain(list[m], next, chains[m]) && InBucket(info, chains[m], m, |list|);
      if m == j {
        ChainSplice(list[j], next, chains[j], i, tail);
      } else if i > 0 {
        assert InBucket(info, chains[j], j, |list|);
        Disjoint(info, chains, j, m, chains[j][i - 1]);
        ChainStays(list[m], next, chains[m], chains[j][i - 1], First(tail));
      }
    }
    forall m | 0 <= m < |list| ensures InBucket(info, chains'[m], m, |list|) {
      assert InBucket(info, chains[m], m, |list|);
    }
  }

  class HandleTable {
    var length: nat
    var elems: nat
    var list: seq<Option<nat>>
    var nextHash: map<nat, Option<nat>>
    /** Key and hash of the handles, as they were when inserted. */
    var info: map<nat, Info>
    ghost var chains: seq<seq<nat>>
    /** The handles in the table. */
    ghost var ids: set<nat>

    ghost predicate Valid()
      reads this
    {
      && length > 0 && PowerOfTwo(length) && |list| == length && Buckets(list, nextHash, info, chains)
      && ids == IdsOf(chains) && KeysUnique(info, ids) && elems == |ids|
    }

    constructor ()
      ensures Valid() && ids == {}
    {
      length, elems, list, nextHash, info := 4, 0, [None, None, None, None], map[], map[];
      chains, ids := [[], [], [], []], {};
      new;
      assert IdsOf(chains) == {};
      assert PowerOfTwo(1) && PowerOfTwo(2) && PowerOfTwo(4);
    }

    /** FindPointer: the slot, in its bucket's chain, of the handle with this key and
        hash, or at the end of the chain; `before` is the handle whose next_hash the
        slot is, if it is not the bucket itself. */
    method FindPointer(key: Bytes, hash: nat) returns (before: Option<nat>, at: Option<nat>, ghost i: nat)
      requires Valid()
      ensures var c := chains[Bucket(hash, length)];
              && i <= |c| && at == First(c[i..]) && before == (if i == 0 then None else Some(c[i - 1]))
      ensures at.Some? ==> at.value in ids && Is(info, at.value, key, hash)
      ensures at == None ==> forall id :: id in ids ==> !Is(info, id, key, hash)
    {
      ghost var j := Bucket(hash, length);
      ghost var c := chains[j];
      assert Chain(list[j], nextHash, chains[j]) && InBucket(info, chains[j], j, length);
      MaskPicksBucket(hash, length);
      before, at, i := None, list[BitAnd(hash, length - 1)], 0;
      while at.Some? && (info[at.value].hash != hash || key != info[at.value].key)
        invariant i <= |c| && at == First(c[i..]) && before == (if i == 0 then None else Some(c[i - 1]))
        invariant forall k :: 0 <= k < i ==> !Is(info, c[k], key, hash)
        invariant at.Some? ==> at.value in c
        decreases |c| - i
      {
        Along(list[j], nextHash, c, i);
        before, at := at, nextHash[at.value];
        i := i + 1;
      }
      if at.Some? {
        Along(list[j], nextHash, c, i);
        Member(chains, j, at.value);
      } else {
        forall id | id in ids ensures !Is(info, id, key, hash) {
          OwnBucket(list, nextHash, info, chains, id);
        }
      }
    }

    method Lookup(key: Bytes, hash: nat) returns (r: Option<nat>)
      requires Valid()
      ensures r.Some? ==> r.value in ids && Is(info, r.value, key, hash)
      ensures r == None ==> forall id :: id in ids ==> !Is(info, id, key, hash)
    {
      var before;
      ghost var i;
      before, r, i := FindPointer(key, hash);
    }

    /** Remove: the handle with this key and hash leaves the table. */
    method Remove(key: Bytes, hash: nat) returns (r: Option<nat>)
      requires Valid()
      modifies this
      ensures Valid() && info == old(info)
      ensures r.Some? ==> r.value in old(ids) && Is(info, r.value, key, hash) && ids == old(ids) - {r.value}
      ensures r == None ==> ids == old(ids) && forall id :: id in ids ==> !Is(info, id, key, hash)
    {
      var before;
      ghost var i;
      before, r, i := FindPointer(key, hash);
      if r.Some? {
        ghost var j := Bucket(hash, length);
        Removed(list, nextHash, info, chains, j, i, before, r.value);
        var v := nextHash[r.value];
        list, nextHash := StoreList(list, Bucket(hash, length), before, v), StoreNext(nextHash, before, v);
        chains, ids := chains[j := chains[j][..i] + chains[j][i + 1..]], ids - {r.value};
        elems := elems - 1;
      }
    }

    /** Insert: the new handle takes the place of the one with its key and hash, which
        is returned, or goes to the end of its bucket's chain. */
    method Insert(h: nat, key: Bytes, hash: nat) returns (replaced: Option<nat>)
      requires Valid() && h !in ids
      modifies this
      ensures Valid() && info == old(info)[h := Info(key, hash)]
      ensures replaced.Some? ==> replaced.value in old(ids) && Is(old(info), replaced.value, key, hash)
                                 && ids == old(ids) - {replaced.value} + {h}
      ensures replaced == None ==> ids == old(ids) + {h} && forall id :: id in old(ids) ==>
                !Is(old(info), id, key, hash)
    {
      var before;
      ghost var i, was := 0, ids;
      before, replaced, i := FindPointer(key, hash);
      Place(h, key, hash, before, replaced, i);
      SameCount(was, replaced, h, ids);
      if replaced == None {
        Grow();
      }
    }

    /** One entry more; too many for the buckets rebuild the table. */
    method Grow()
      requires length > 0 && PowerOfTwo(length) && |list| == length && Buckets(list, nextHash, info, chains)
      requires ids == IdsOf(chains) && KeysUnique(info, ids) && elems + 1 == |ids|
      modifies `elems, `length, `list, `nextHash, `chains
      ensures Valid()
    {
      elems := elems + 1;
      if elems > length {
        Resize();
      }
    }

    /** h->next_hash and *ptr are stored. */
    method Place(h: nat, key: Bytes, hash: nat, before: Option<nat>, at: Option<nat>, ghost i: nat)
      requires Valid() && h !in ids
      requires var c := chains[Bucket(hash, length)];
               (i <= |c| && at == First(c[i..]) && before == (if i == 0 then None else Some(c[i - 1])))
      requires at.Some? ==> Is(info, at.value, key, hash)
      requires at == None ==> forall id :: id in ids ==> !Is(info, id, key, hash)
      modifies `list, `nextHash, `info, `chains, `ids
      ensures length == |list| && Buckets(list, nextHash, info, chains) && ids == IdsOf(chains) && KeysUnique(info, ids)
      ensures info == old(info)[h := Info(key, hash)]
      ensures ids == old(ids) - (if at.Some? then {at.value} else {}) + {h} && (at.Some? ==> at.value in old(ids))
    {
      ghost var j := Bucket(hash, length);
      ghost var c := chains[j];
      ghost var k, gone := Info(key, hash), if at.Some? then {at.value} else {};
      Placed(list, nextHash, info, chains, h, k, before, at, i, j);
      PlacedUnique(info, ids, h, k, at);
      var v := if at == None then None else nextHash[at.value];
      nextHash, info := nextHash[h := v], info[h := Info(key, hash)];
      list, nextHash := StoreList(list, Bucket(hash, length), before, Some(h)), StoreNext(nextHash, before, Some(h));
      chains, ids := chains[j := c[..i] + ([h] + Rest(c, i))], ids - gone + {h};
    }

    /** Resize: every handle moves to the front of its new bucket. */
    method Resize()
      requires length > 0 && |list| == length && Buckets(list, nextHash, info, chains)
      requires ids == IdsOf(chains) && KeysUnique(info, ids) && elems == |ids|
      modifies `length, `list, `nextHash, `chains
      ensures Valid()
    {
      var newLength := NewLength();
      var newList: seq<Option<nat>> := seq(newLength, _ => None);
      ghost var newChains: seq<seq<nat>> := seq(newLength, _ => []);
      ghost var all := chains;
      assert IdsOf(newChains) == {} && chains[..0] == [];
      forall j | 0 <= j < newLength
        ensures Chain(newList[j], nextHash, newChains[j]) && InBucket(info, newChains[j], j, newLength) {
      }
      for i := 0 to length
        invariant length == old(length) && list == old(list) && chains == all && |newList| == newLength
        invariant Buckets(newList, nextHash, info, newChains) && IdsOf(newChains) == IdsOf(chains[..i])
        invariant forall m {:trigger Chain(list[m], nextHash, chains[m])} :: i <= m < length ==>
                    Chain(list[m], nextHash, chains[m])
      {
        newList, newChains := MoveChain(newList, newChains, i);
        IdsUpTo(chains, i);
      }
      assert chains[..length] == chains;
      list, length, chains := newList, newLength, newChains;
    }

    method NewLength() returns (n: nat)
      ensures n >= 4 && n >= elems && PowerOfTwo(n)
    {
      n := 4;
      assert PowerOfTwo(1) && PowerOfTwo(2);
      while n < elems
        invariant n >= 4 && PowerOfTwo(n)
      {
        n := n * 2;
      }
    }

    /** The inner loop of Resize: the handles of one old bucket. */
    method MoveChain(newList: seq<Option<nat>>, ghost newChains: seq<seq<nat>>, i: nat)
      returns (newList': seq<Option<nat>>, ghost newChains': seq<seq<nat>>)
      requires i < length == |list| == |chains| && |newList| > 0 && PowerOfTwo(|newList|)
      requires Buckets(newList, nextHash, info, newChains)
      requires IdsOf(newChains) == IdsOf(chains[..i])
      requires forall m {:trigger InBucket(info, chains[m], m, length)} :: 0 <= m < length ==>
                 InBucket(info, chains[m], m, length)
      requires forall m {:trigger Chain(list[m], nextHash, chains[m])} :: i <= m < length ==>
                 Chain(list[m], nextHash, chains[m])
      modifies `nextHash
      ensures |newList'| == |newList| && Buckets(newList', nextHash, info, newChains')
      ensures IdsOf(newChains') == IdsOf(newChains) + set id | id in chains[i]
      ensures forall m {:trigger Chain(list[m], nextHash, chains[m])} :: i < m < length ==>
                Chain(list[m], nextHash, chains[m])
    {
      ghost var c, p := chains[i], 0;
      newList', newChains' := newList, newChains;
      var h := list[i];
      assert Chain(list[i], nextHash, chains[i]) && InBucket(info, chains[i], i, length);
      assert c[0..] == c;
      while h.Some?
        invariant p <= |c| && Chain(h, nextHash, c[p..]) && |newList'| == |newList|
        invariant Buckets(newList', nextHash, info, newChains')
        invariant IdsOf(newChains') == IdsOf(newChains) + set id | id in c[..p]
        invariant forall m {:trigger Chain(list[m], nextHash, chains[m])} :: i < m < length ==>
                    Chain(list[m], nextHash, chains[m])
        decreases |c| - p
      {
        var id := h.value;
        NotMoved(info, chains, i, p);
        assert c[p..][0] == c[p] == id && id !in IdsOf(newChains');
        StepChain(h, nextHash, c, p);
        ghost var next0 := nextHash;
        h := nextHash[id];
        MaskPicksBucket(info[id].hash, |newList'|);
        var b := BitAnd(info[id].hash, |newList'| - 1);
        MoveOne(newList', nextHash, info, newChains', id, b);
        nextHash := nextHash[id := newList'[b]];
        newChains' := newChains'[b := [id] + newChains'[b]];
        newList' := newList'[b := Some(id)];
        ChainStays(h, next0, c[p + 1..], id, nextHash[id]);
        forall m | i < m < length ensures Chain(list[m], nextHash, chains[m]) {
          assert Chain(list[m], next0, chains[m]);
          ChainStays(list[m], next0, chains[m], id, nextHash[id]);
        }
        assert c[..p + 1] == c[..p] + [id];
        p := p + 1;
      }
      assert c[..p] == c;
    }
  }

  function Rest(c: seq<nat>, i: nat): seq<nat> {
    if i < |c| then c[i + 1..] else []
  }

  /** Storing a new handle in the slot at position i of chain j. */
  lemma Placed(list: seq<Option<nat>>, next: map<nat, Option<nat>>, info: map<nat, Info>, chains: seq<seq<nat>>,
               h: nat, k: Info, before: Option<nat>, at: Option<nat>, i: nat, j: nat)
    requires Buckets(list, next, info, chains) && h !in IdsOf(chains) && j < |list| && Bucket(k.hash, |list|) == j
    requires i <= |chains[j]| && at == First(chains[j][i..])
               && before == if i == 0 then None else Some(chains[j][i - 1])
    ensures at.Some? ==> at.value in next && at.value in IdsOf(chains)
    ensures var v := if at == None then None else next[at.value];
            Buckets(StoreList(list, j, before, Some(h)), StoreNext(next[h := v], before, Some(h)), info[h := k],
                    chains[j := chains[j][..i] + ([h] + Rest(chains[j], i))])
    ensures IdsOf(chains[j := chains[j][..i] + ([h] + Rest(chains[j], i))])
         == IdsOf(chains) - (if at.Some? then {at.value} else {}) + {h}
  {
    var c, rest := chains[j], Rest(chains[j], i);
    assert Chain(list[j], next, c) && InBucket(info, c, j, |list|);
    assert i < |c| ==> c[i..][0] == c[i];
    var v := if at == None then None else next[at.value];
    NewHandle(list, next, info, chains, h, k, v);
    var next', info' := next[h := v], info[h := k];
    assert Chain(list[j], next', c) && InBucket(info', c, j, |list|);
    TailWith(list[j], next', c, i, h, rest);
    TailInBucket(info', c, i, h, rest, j, |list|);
    BucketsSplice(list, next', info', chains, j, i, [h] + rest);
    if i < |c| {
      OnlyHere(list, next, info, chains, j, c[i]);
    }
    IdsPlaced(chains, chains[j := c[..i] + ([h] + rest)], j, i, h, rest);
  }

  lemma PlacedUnique(info: map<nat, Info>, ids: set<nat>, h: nat, k: Info, at: Option<nat>)
    requires KeysUnique(info, ids) && h !in ids
    requires if at.Some? then at.value in ids && Is(info, at.value, k.key, k.hash)
             else forall id :: id in ids ==> !Is(info, id, k.key, k.hash)
    ensures KeysUnique(info[h := k], ids - (if at.Some? then {at.value} else {}) + {h})
  {
    var info' := info[h := k];
    forall a | a in ids && a in info && info[a] == k ensures at == Some(a) {
      assert Is(info, a, k.key, k.hash);
      assert at.Some? ==> info[at.value] == info[a];
    }
  }

  /** Unlinking the handle at position i of chain j. */
  lemma Removed(list: seq<Option<nat>>, next: map<nat, Option<nat>>, info: map<nat, Info>, chains: seq<seq<nat>>,
                j: nat, i: nat, before: Option<nat>, id: nat)
    requires Buckets(list, next, info, chains) && j < |list| && i <= |chains[j]| && First(chains[j][i..]) == Some(id)
    requires before == if i == 0 then None else Some(chains[j][i - 1])
    ensures i < |chains[j]| && id in next && id in IdsOf(chains)
    ensures Buckets(StoreList(list, j, before, next[id]), StoreNext(next, before, next[id]), info,
                    chains[j := chains[j][..i] + chains[j][i + 1..]])
    ensures IdsOf(chains[j := chains[j][..i] + chains[j][i + 1..]]) == IdsOf(chains) - {id}
  {
    var c, tail := chains[j], chains[j][i + 1..];
    assert Chain(list[j], next, c) && InBucket(info, c, j, |list|);
    assert c[i..][0] == c[i] == id;
    ChainTail(list[j], next, c, i + 1);
    NoDupWithout(c, i);
    BucketsSplice(list, next, info, chains, j, i, tail);
    OnlyHere(list, next, info, chains, j, id);
    IdsWithout(chains, chains[j := c[..i] + tail], j, i);
  }

  lemma SameCount(was: set<nat>, replaced: Option<nat>, h: nat, now: set<nat>)
    requires h !in was && now == was - (if replaced.Some? then {replaced.value} else {}) + {h}
    requires replaced.Some? ==> replaced.value in was
    ensures |now| == |was| + if replaced.Some? then 0 else 1
  {
  }

  lemma StepChain(h: Option<nat>, next: map<nat, Option<nat>>, c: seq<nat>, p: nat)
    requires p < |c| && Chain(h, next, c[p..])
    ensures c[p] in next && Chain(next[c[p]], next, c[p + 1..])
  {
    assert c[p..][0] == c[p] && c[p..][1..] == c[p + 1..];
    var t := c[p + 1..];
    forall k | 0 <= k < |t| ensures t[k] in next && next[t[k]] == First(t[k + 1..]) {
      assert t[k] == c[p..][k + 1] && t[k + 1..] == c[p..][k + 2..];
    }
  }

  /** A handle still in its old chain is in no chain before or after it. */
  lemma NotMoved(info: map<nat, Info>, chains: seq<seq<nat>>, i: nat, p: nat)
    requires i < |chains| && p < |chains[i]|
    requires forall m {:trigger InBucket(info, chains[m], m, |chains|)} :: 0 <= m < |chains| ==>
               InBucket(info, chains[m], m, |chains|)
    ensures chains[i][p] !in IdsOf(chains[..i]) && chains[i][p] !in chains[i][..p]
    ensures chains[i][p] !in chains[i][p + 1..]
    ensures chains[i][p] in info && forall m :: i < m < |chains| ==> chains[i][p] !in chains[m]
  {
    assert InBucket(info, chains[i], i, |chains|);
    forall m | 0 <= m < |chains| && m != i ensures chains[i][p] !in chains[m] {
      assert InBucket(info, chains[m], m, |chains|);
    }
  }

  lemma MoveOne(list: seq<Option<nat>>, next: map<nat, Option<nat>>, info: map<nat, Info>, chains: seq<seq<nat>>,
                h: nat, b: nat)
    requires Buckets(list, next, info, chains) && h !in IdsOf(chains) && b < |list| && h in info
    requires Bucket(info[h].hash, |list|) == b
    ensures Buckets(list[b := Some(h)], next[h := list[b]], info, chains[b := [h] + chains[b]])
    ensures IdsOf(chains[b := [h] + chains[b]]) == IdsOf(chains) + {h}
  {
    var list', next', chains' := list[b := Some(h)], next[h := list[b]], chains[b := [h] + chains[b]];
    forall m | 0 <= m < |list| ensures Chain(list'[m], next', chains'[m]) && InBucket(info, chains'[m], m, |list|) {
      assert Chain(list[m], next, chains[m]) && InBucket(info, chains[m], m, |list|) && h !in chains[m];
      ChainStays(list[m], next, chains[m], h, list[b]);
      if m == b {
        Cons(list[b], next', chains[b], h);
      }
    }
    forall id | id in IdsOf(chains) ensures id in IdsOf(chains') {
      var m :| 0 <= m < |chains| && id in chains[m];
      Member(chains', m, id);
    }
    assert chains'[b][0] == h;
    Member(chains', b, h);
  }

  lemma Cons(first: Option<nat>, next: map<nat, Option<nat>>, ids: seq<nat>, h: nat)
    requires Chain(first, next, ids) && h in next && next[h] == first
    ensures Chain(Some(h), next, [h] + ids)
  {
    var t := [h] + ids;
    forall k | 0 <= k < |t| ensures t[k] in next && next[t[k]] == First(t[k + 1..]) {
      if k == 0 {
        assert t[1..] == ids;
      } else {
        assert t[k] == ids[k - 1] && t[k + 1..] == ids[k..];
      }
    }
  }

  lemma IdsUpTo(chains: seq<seq<nat>>, i: nat)
    requires i < |chains|
    ensures IdsOf(chains[..i + 1]) == IdsOf(chains[..i]) + set id | id in chains[i]
  {
    forall id | id in IdsOf(chains[..i + 1]) ensures id in IdsOf(chains[..i]) || id in chains[i] {
      var m :| 0 <= m < i + 1 && id in chains[..i + 1][m];
      if m < i {
        Member(chains[..i], m, id);
      }
    }
    forall id | id in IdsOf(chains[..i]) ensures id in IdsOf(chains[..i + 1]) {
      var m :| 0 <= m < i && id in chains[..i][m];
      Member(chains[..i + 1], m, id);
    }
    forall id | id in chains[i] ensures id in IdsOf(chains[..i + 1]) {
      Member(chains[..i + 1], i, id);
    }
  }

  /** A handle not in the table may be given links, a key and a hash. */
  lemma NewHandle(list: seq<Option<nat>>, next: map<nat, Option<nat>>, info: map<nat, Info>, chains: seq<seq<nat>>,
                  h: nat, k: Info, v: Option<nat>)
    requires Buckets(list, next, info, chains) && h !in IdsOf(chains)
    ensures Buckets(list, next[h := v], info[h := k], chains)
  {
    forall m | 0 <= m < |list|
      ensures Chain(list[m], next[h := v], chains[m]) && InBucket(info[h := k], chains[m], m, |list|) {
      assert Chain(list[m], next, chains[m]) && InBucket(info, chains[m], m, |list|);
      assert h !in chains[m];
    }
  }

  lemma TailWith(first: Option<nat>, next: map<nat, Option<nat>>, c: seq<nat>, i: nat, h: nat, rest: seq<nat>)
    requires Chain(first, next, c) && i <= |c| && h !in c && h in next && next[h] == First(rest)
    requires rest == Rest(c, i)
    ensures Chain(First([h] + rest), next, [h] + rest)
  {
    if i < |c| {
      ChainTail(first, next, c, i + 1);
    }
    var t := [h] + rest;
    forall k | 0 <= k < |t| ensures t[k] in next && next[t[k]] == First(t[k + 1..]) {
      if k == 0 {
        assert t[1..] == rest;
      } else {
        assert t[k] == rest[k - 1] && t[k + 1..] == rest[k..];
      }
    }
  }

  lemma TailInBucket(info: map<nat, Info>, c: seq<nat>, i: nat, h: nat, rest: seq<nat>, j: nat, length: nat)
    requires length > 0 && InBucket(info, c, j, length) && i <= |c| && h !in c && h in info
    requires Bucket(info[h].hash, length) == j
    requires rest == Rest(c, i)
    ensures InBucket(info, c[..i] + ([h] + rest), j, length)
  {
    var all := c[..i] + ([h] + rest);
    forall a, b | 0 <= a < b < |all| ensures all[a] != all[b] {
      assert a != i ==> all[a] == c[a];
      assert b != i ==> all[b] == c[b];
    }
  }

  lemma IdsPlaced(was: seq<seq<nat>>, now: seq<seq<nat>>, j: nat, i: nat, h: nat, rest: seq<nat>)
    requires j < |was| && i <= |was[j]| && NoDup(was[j]) && rest == Rest(was[j], i)
    requires now == was[j := was[j][..i] + ([h] + rest)] && h !in IdsOf(was)
    requires i < |was[j]| ==> forall m :: 0 <= m < |was| && m != j ==> was[j][i] !in was[m]
    ensures IdsOf(now) == IdsOf(was) - (if i < |was[j]| then {was[j][i]} else {}) + {h}
  {
    var gone := if i < |was[j]| then {was[j][i]} else {};
    forall id | id in IdsOf(was) && id !in gone ensures id in IdsOf(now) {
      var m :| 0 <= m < |was| && id in was[m];
      if m == j {
        var k :| 0 <= k < |was[j]| && was[j][k] == id;
        assert now[j][k] == id;
      }
      Member(now, m, id);
    }
    assert now[j][i] == h;
    Member(now, j, h);
    forall id | id in IdsOf(now) ensures id == h || (id in IdsOf(was) && id !in gone) {
      var m :| 0 <= m < |now| && id in now[m];
      if m == j && id != h {
        var k :| 0 <= k < |now[j]| && now[j][k] == id;
        assert k != i && was[j][k] == id;
        assert i < |was[j]| ==> was[j][i] != was[j][k];
        Member(was, j, id);
      } else if m != j {
        Member(was, m, id);
      }
    }
  }

  lemma NoDupWithout(c: seq<nat>, i: nat)
    requires NoDup(c) && i < |c|
    ensures NoDup(c[..i] + c[i + 1..]) && c[i] !in c[..i] + c[i + 1..]
  {
  }

  lemma IdsWithout(was: seq<seq<nat>>, now: seq<seq<nat>>, j: nat, i: nat)
    requires j < |was| && i < |was[j]| && now == was[j := was[j][..i] + was[j][i + 1..]]
    requires NoDup(was[j]) && forall m :: 0 <= m < |was| && m != j ==> was[j][i] !in was[m]
    ensures IdsOf(now) == IdsOf(was) - {was[j][i]}
  {
    NoDupWithout(was[j], i);
    forall id | id in IdsOf(was) && id != was[j][i] ensures id in IdsOf(now) {
      var m :| 0 <= m < |was| && id in was[m];
      assert id in now[m];
    }
    forall id | id in IdsOf(now) ensures id in IdsOf(was) && id != was[j][i] {
      var m :| 0 <= m < |now| && id in now[m];
      assert id in was[m];
    }
  }
}
