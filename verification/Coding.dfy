/** Integer encodings shared by the file formats and the wire format: base 128
    varints and little-endian fixed-width integers (util/coding.cc). */
module Coding {
  import opened Keys

  const U32: nat := 0x1_0000_0000
  const U64: nat := 0x1_0000_0000_0000_0000

  /** Base 128, least significant group first; every byte but the last has its top bit set. */
  function Varint(n: nat): (b: Bytes)
    ensures |b| > 0
  {
    if n < 128 then [n] else [n % 128 + 128] + Varint(n / 128)
  }

  lemma VarintHead(w: nat, rest: Bytes)
    ensures (Varint(w) + rest)[0] == if w < 128 then w else w % 128 + 128
    ensures (Varint(w) + rest)[1..] == if w < 128 then rest else Varint(w / 128) + rest
  {
  }

  /** 128 to the power i. */
  function Scale(i: nat): (s: nat)
    ensures s > 0
  {
    if i == 0 then 1 else 128 * Scale(i - 1)
  }

  lemma ScaleLimits()
    ensures Scale(4) == 0x1000_0000 && Scale(5) > U32 && Scale(10) > U64
  {
    assert Scale(5) == 0x8_0000_0000;
    assert Scale(10) == 0x8_0000_0000 * 0x8_0000_0000;
  }

  // ---------- varints on any bytes ----------

  /** Groups up to the first one without the top bit: what a reader takes for a varint,
      the shortest form of its value or not. */
  predicate IsVarint(s: Bytes) {
    s != [] && s[|s| - 1] < 128 && forall i :: 0 <= i < |s| - 1 ==> s[i] >= 128
  }

  /** The groups' value, without a limit. */
  function GroupsValue(s: Bytes): nat {
    if s == [] then 0 else s[0] as nat % 128 + 128 * GroupsValue(s[1..])
  }

  /** One group more. */
  lemma {:induction false} GroupsMore(s: Bytes, c: byte)
    ensures GroupsValue(s + [c]) == GroupsValue(s) + (c as nat % 128) * Scale(|s|)
  {
    if s == [] {
      assert [c][1..] == [];
    } else {
      GroupsMore(s[1..], c);
      assert (s + [c])[1..] == s[1..] + [c];
      var low, high, x := s[0] as nat % 128, GroupsValue(s[1..]), c as nat % 128;
      Distribute(x, high, Scale(|s| - 1));
    }
  }

  lemma Distribute(x: nat, high: nat, scale: nat)
    ensures 128 * (high + x * scale) == 128 * high + x * (128 * scale)
  {
    assert x * (128 * scale) == 128 * (x * scale);
  }

  lemma VarintEnd(b: Bytes, k: nat)
    requires k <= |b| && IsVarint(b[..k])
    ensures 0 < k && b[k - 1] < 128 && forall j :: 0 <= j < k - 1 ==> b[j] >= 128
  {
    assert forall j :: 0 <= j < k ==> b[..k][j] == b[j];
  }

  /** Where a varint ends is decided by its bytes alone. */
  lemma SameVarint(b: Bytes, k: nat, l: nat)
    requires k <= |b| && l <= |b| && IsVarint(b[..k]) && IsVarint(b[..l])
    ensures k == l
  {
    VarintEnd(b, k);
    VarintEnd(b, l);
  }

  /** The varint of a value is one, has that value, and no more groups than it needs. */
  lemma {:induction false} VarintReads(v: nat, n: nat)
    requires n > 0 && v < Scale(n)
    ensures IsVarint(Varint(v)) && GroupsValue(Varint(v)) == v && |Varint(v)| <= n
  {
    if v >= 128 {
      assert n > 1;
      VarintReads(v / 128, n - 1);
      assert Varint(v)[1..] == Varint(v / 128);
    } else {
      assert [v as byte][1..] == [];
    }
  }

  /** A varint at the front of b is all of it that a reader takes. */
  lemma VarintFront(b: Bytes, v: nat, rest: Bytes, n: nat)
    requires n > 0 && v < Scale(n) && b == Varint(v) + rest
    ensures var k := |Varint(v)|;
            k <= n && b[..k] == Varint(v) && IsVarint(b[..k]) && GroupsValue(b[..k]) == v && b[k..] == rest
  {
    VarintReads(v, n);
  }

  /** Groups read so far, none of them the last. */
  ghost predicate GroupsTo(b: Bytes, n: nat, value: nat) {
    n <= |b| && (forall j :: 0 <= j < n ==> b[j] >= 128) && value == GroupsValue(b[..n])
  }

  lemma OneGroupMore(b: Bytes, n: nat, value: nat)
    requires GroupsTo(b, n, value) && n < |b|
    ensures var value' := value + (b[n] as nat % 128) * Scale(n);
            && value' == GroupsValue(b[..n + 1])
            && if b[n] < 128 then IsVarint(b[..n + 1]) else GroupsTo(b, n + 1, value')
  {
    assert b[..n + 1] == b[..n] + [b[n]];
    GroupsMore(b[..n], b[n]);
  }

  /** The number of bytes up to the first one without the top bit. */
  function Front(b: Bytes): (n: nat)
    ensures n <= |b|
  {
    if b == [] then 0 else if b[0] < 128 then 1 else 1 + Front(b[1..])
  }

  lemma {:induction false} FrontIs(b: Bytes, k: nat)
    requires k <= |b| && IsVarint(b[..k])
    ensures Front(b) == k
  {
    VarintEnd(b, k);
    if b[0] >= 128 {
      assert b[1..][..k - 1] == b[..k][1..];
      FrontIs(b[1..], k - 1);
    }
  }

  lemma {:induction false} FrontBytes(b: Bytes)
    ensures forall i :: 0 <= i < Front(b) - 1 ==> b[i] >= 128
    ensures Front(b) > 0 && b[Front(b) - 1] < 128 ==> IsVarint(b[..Front(b)])
  {
    if b != [] && b[0] >= 128 {
      FrontBytes(b[1..]);
      forall i | 0 <= i < Front(b) - 1 ensures b[i] >= 128 {
        assert i > 0 ==> b[i] == b[1..][i - 1];
      }
    }
  }

  /** The varint at the front, of at most `limit` groups, and what follows it. */
  function VarintAt(b: Bytes, limit: nat, modulus: nat): Option<(nat, Bytes)>
    requires modulus > 0
  {
    var k := Front(b);
    if 0 < k <= limit && b[k - 1] < 128 then Some((GroupsValue(b[..k]) % modulus, b[k..])) else None
  }

  /** The length-prefixed string at the front, and what follows it. */
  function StringAt(b: Bytes): Option<(Bytes, Bytes)> {
    match VarintAt(b, 5, U32)
    case Some(v) => if v.0 <= |v.1| then Some((v.1[..v.0], v.1[v.0..])) else None
    case None => None
  }

  /** A position after what was read, or none if nothing was there. */
  ghost predicate Agrees<T>(b: Bytes, next: Option<nat>, value: T, want: Option<(T, Bytes)>) {
    match want
    case Some(w) => next.Some? && next.value <= |b| && value == w.0 && b[next.value..] == w.1
    case None => next == None
  }

  /** GetGroups finds the varint at the front, if there is one. */
  lemma FoundAt(b: Bytes, p: nat, limit: nat, modulus: nat, next: Option<nat>, value: nat)
    requires p <= |b| && modulus > 0
    requires next.Some? ==> p < next.value <= |b| && next.value - p <= limit && IsVarint(b[p..next.value])
    requires next.Some? ==> value == GroupsValue(b[p..next.value]) % modulus
    requires next == None ==> forall k :: 0 < k <= limit && k <= |b| - p ==> !IsVarint(b[p..][..k])
    ensures Agrees(b, next, value, VarintAt(b[p..], limit, modulus))
  {
    var c := b[p..];
    if next.Some? {
      var k := next.value - p;
      assert c[..k] == b[p..next.value] && c[k..] == b[next.value..];
      FrontIs(c, k);
      VarintEnd(c, k);
    } else {
      FrontBytes(c);
    }
  }

  /** A varint that was written is found. */
  lemma VarintBack(v: nat, rest: Bytes, limit: nat, modulus: nat)
    requires limit > 0 && v < Scale(limit) && v < modulus
    ensures VarintAt(Varint(v) + rest, limit, modulus) == Some((v, rest))
  {
    var b, k := Varint(v) + rest, |Varint(v)|;
    VarintFront(b, v, rest, limit);
    FrontIs(b, k);
    VarintEnd(b, k);
  }

  lemma StringBack(s: Bytes, rest: Bytes)
    requires |s| < U32
    ensures StringAt(Prefixed(s) + rest) == Some((s, rest))
  {
    ScaleLimits();
    assert Prefixed(s) + rest == Varint(|s|) + (s + rest);
    VarintBack(|s|, s + rest, 5, U32);
  }

  lemma NoVarint(b: Bytes, n: nat)
    requires n <= |b| && forall j :: 0 <= j < n ==> b[j] >= 128
    ensures forall k :: 0 < k <= n ==> !IsVarint(b[..k])
  {
  }

  /** The varint at position p, of at most `limit` groups; None if none ends within the
      limit and the bytes. */
  method GetGroups(b: Bytes, p: nat, limit: nat) returns (next: Option<nat>, value: nat)
    requires p <= |b|
    ensures next.Some? ==> p < next.value <= |b| && next.value - p <= limit && IsVarint(b[p..next.value])
    ensures next.Some? ==> value == GroupsValue(b[p..next.value])
    ensures next == None ==> forall k :: 0 < k <= limit && k <= |b| - p ==> !IsVarint(b[p..][..k])
  {
    ghost var c := b[p..];
    var n: nat, scale: nat := 0, 1;
    value := 0;
    while n < limit && p + n < |b|
      invariant n <= limit && n <= |c| && scale == Scale(n) && GroupsTo(c, n, value)
    {
      OneGroupMore(c, n, value);
      assert c[n] == b[p + n];
      value := value + (b[p + n] as nat % 128) * scale;
      n, scale := n + 1, scale * 128;
      if b[p + n - 1] < 128 {
        assert c[..n] == b[p..p + n];
        return Some(p + n), value;
      }
    }
    NoVarint(c, n);
    next := None;
  }

  /** GetVarint32Ptr: the varint at position p, or None if none ends before the
      limit, the end of b.  Its groups are put together in 32 bits. */
  method GetVarint32(b: Bytes, p: nat, ghost v: nat, ghost rest: Bytes) returns (next: Option<nat>, value: nat)
    requires p <= |b|
    ensures value < U32
    ensures next.Some? ==> p < next.value <= |b| && next.value - p <= 5 && IsVarint(b[p..next.value])
    ensures next.Some? ==> value == GroupsValue(b[p..next.value]) % U32
    ensures next == None ==> forall k :: 0 < k <= 5 && k <= |b| - p ==> !IsVarint(b[p..][..k])
    ensures v < U32 && b[p..] == Varint(v) + rest ==> next.Some? && value == v && b[next.value..] == rest
    ensures Agrees(b, next, value, VarintAt(b[p..], 5, U32))
  {
    next, value := GetGroups(b, p, 5);
    value := value % U32;
    FoundAt(b, p, 5, U32, next, value);
    if v < U32 && b[p..] == Varint(v) + rest {
      ScaleLimits();
      FoundVarint(b, p, v, rest, 5, next);
    }
  }

  /** What is found where the varint of v is. */
  lemma FoundVarint(b: Bytes, p: nat, v: nat, rest: Bytes, n: nat, next: Option<nat>)
    requires p <= |b| && n > 0 && v < Scale(n) && b[p..] == Varint(v) + rest
    requires next.Some? ==> p < next.value <= |b| && IsVarint(b[p..next.value])
    requires next == None ==> forall k :: 0 < k <= n && k <= |b| - p ==> !IsVarint(b[p..][..k])
    ensures next.Some? && GroupsValue(b[p..next.value]) == v && b[next.value..] == rest
  {
    var k := |Varint(v)|;
    VarintFront(b[p..], v, rest, n);
    if next.Some? {
      assert b[p..][..next.value - p] == b[p..next.value];
      SameVarint(b[p..], k, next.value - p);
      assert b[p..][k..] == b[p + k..];
    }
  }

  /** GetVarint64Ptr. */
  method GetVarint64(b: Bytes, p: nat, ghost v: nat, ghost rest: Bytes) returns (next: Option<nat>, value: nat)
    requires p <= |b|
    ensures value < U64
    ensures next.Some? ==> p < next.value <= |b| && next.value - p <= 10 && IsVarint(b[p..next.value])
    ensures next.Some? ==> value == GroupsValue(b[p..next.value]) % U64
    ensures next == None ==> forall k :: 0 < k <= 10 && k <= |b| - p ==> !IsVarint(b[p..][..k])
    ensures v < U64 && b[p..] == Varint(v) + rest ==> next.Some? && value == v && b[next.value..] == rest
    ensures Agrees(b, next, value, VarintAt(b[p..], 10, U64))
  {
    next, value := GetGroups(b, p, 10);
    value := value % U64;
    FoundAt(b, p, 10, U64, next, value);
    if v < U64 && b[p..] == Varint(v) + rest {
      ScaleLimits();
      FoundVarint(b, p, v, rest, 10, next);
    }
  }

  // ---------- length-prefixed strings ----------

  /** PutLengthPrefixedSlice. */
  function Prefixed(b: Bytes): Bytes {
    Varint(|b|) + b
  }

  /** GetLengthPrefixedSlice at position p of a buffer. */
  method GetPrefixed(b: Bytes, p: nat, ghost s: Bytes, ghost rest: Bytes) returns (next: Option<nat>, r: Bytes)
    requires p <= |b|
    ensures next.Some? ==> p < next.value <= |b|
    ensures |s| < U32 && b[p..] == Prefixed(s) + rest ==> next.Some? && r == s && b[next.value..] == rest
    ensures Agrees(b, next, r, StringAt(b[p..]))
  {
    if |s| < U32 { StringBack(s, rest); }
    var at, n;
    at, n := GetVarint32(b, p, 0, []);
    if at == None || at.value + n > |b| {
      return None, [];
    }
    next, r := Some(at.value + n), b[at.value..at.value + n];
    Sliced(b, at.value, n);
  }

  lemma Sliced(b: Bytes, p: nat, n: nat)
    requires p + n <= |b|
    ensures b[p..][..n] == b[p..p + n] && b[p..][n..] == b[p + n..]
  {
  }

  /** Little-endian, n bytes. */
  function Fixed(value: nat, n: nat): (b: Bytes)
    ensures |b| == n
  {
    if n == 0 then [] else [value % 256] + Fixed(value / 256, n - 1)
  }

  function Unfixed(b: Bytes): (value: nat) {
    if b == [] then 0 else b[0] as nat + 256 * Unfixed(b[1..])
  }

  lemma {:induction false} FixedRoundTrip(value: nat, n: nat)
    ensures value < Bound(n) ==> Unfixed(Fixed(value, n)) == value
  {
    if n > 0 {
      FixedRoundTrip(value / 256, n - 1);
    }
  }

  lemma {:induction false} UnfixedBound(b: Bytes)
    ensures Unfixed(b) < Bound(|b|)
  {
    if b != [] {
      UnfixedBound(b[1..]);
    }
  }

  function Bound(n: nat): nat {
    if n == 0 then 1 else 256 * Bound(n - 1)
  }

  /** A list of fixed32 words. */
  function Words(ns: seq<nat>): (b: Bytes)
    ensures |b| == 4 * |ns|
  {
    if ns == [] then [] else Words(ns[..|ns| - 1]) + Fixed(ns[|ns| - 1], 4)
  }

  /** PutFixed32 of each word in turn. */
  method AppendWords(ns: seq<nat>) returns (b: Bytes)
    ensures b == Words(ns)
  {
    b := [];
    for i := 0 to |ns|
      invariant b == Words(ns[..i])
    {
      assert ns[..i + 1][..i] == ns[..i];
      b := b + Fixed(ns[i], 4);
    }
    assert ns[..|ns|] == ns;
  }

  lemma {:induction false} WordAt(ns: seq<nat>, j: nat, rest: Bytes)
    requires j < |ns|
    ensures (Words(ns) + rest)[4 * j..4 * j + 4] == Fixed(ns[j], 4)
    decreases |ns|
  {
    var n := |ns| - 1;
    if j < n {
      WordAt(ns[..n], j, Fixed(ns[n], 4) + rest);
      assert Words(ns) + rest == Words(ns[..n]) + (Fixed(ns[n], 4) + rest);
    } else {
      assert (Words(ns) + rest)[4 * n..4 * n + 4] == Fixed(ns[n], 4);
    }
  }

  lemma FixedAt(data: Bytes, r: nat, tail: Bytes, a: nat, n: nat)
    requires r <= |data| && data[r..] == tail && a + 4 <= |tail| && tail[a..a + 4] == Fixed(n, 4) && n < U32
    ensures r + a + 4 <= |data| && Unfixed(data[r + a..r + a + 4]) == n
  {
    TailSlice(data, r, tail, a, a + 4);
    FixedRoundTrip(n, 4);
    assert Bound(4) == U32;
  }

  lemma TailSlice(data: Bytes, r: nat, tail: Bytes, a: nat, b: nat)
    requires r <= |data| && data[r..] == tail && a <= b <= |tail|
    ensures r + b <= |data| && data[r + a..r + b] == tail[a..b]
  {
    forall k | 0 <= k < b - a ensures data[r + a..r + b][k] == tail[a..b][k] {
      assert data[r..][a + k] == tail[a + k];
    }
  }
}
