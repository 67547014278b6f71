/** Bloom filters (util/bloom.cc): no key that was put in is ever reported absent. */
module Bloom {
  import opened Keys
  import opened Coding

  type hash = h: int | 0 <= h < 0x1_0000_0000

  // ---------- bits ----------

  predicate Bit(b: nat, i: nat) {
    if i == 0 then b % 2 == 1 else Bit(b / 2, i - 1)
  }

  function Limit(width: nat): nat {
    if width == 0 then 1 else 2 * Limit(width - 1)
  }

  /** b | (1 << i), on `width` bits. */
  function SetBit(b: nat, i: nat, width: nat): (r: nat)
    requires i < width && b < Limit(width)
    ensures r < Limit(width)
  {
    var high, limit := b / 2, Limit(width - 1);
    assert b == 2 * high + b % 2 && high < limit;
    if i == 0 then 2 * high + 1 else b % 2 + 2 * SetBit(high, i - 1, width - 1)
  }

  lemma {:induction false} SetBitBits(b: nat, i: nat, width: nat, j: nat)
    requires i < width && b < Limit(width)
    ensures Bit(SetBit(b, i, width), j) <==> j == i || Bit(b, j)
  {
    var r := SetBit(b, i, width);
    assert r / 2 == if i == 0 then b / 2 else SetBit(b / 2, i - 1, width - 1);
    if i > 0 && j > 0 {
      SetBitBits(b / 2, i - 1, width - 1, j - 1);
    }
  }

  function SetByteBit(b: byte, i: nat): (r: byte)
    requires i < 8
  {
    assert Limit(8) == 256;
    SetBit(b, i, 8)
  }

  predicate HasBit(bits: Bytes, n: nat)
    requires n < 8 * |bits|
  {
    Bit(bits[n / 8], n % 8)
  }

  // ---------- probes ----------

  /** Rotate right 17 bits. */
  function Delta(h: hash): hash {
    h / 0x2_0000 + (h % 0x2_0000) * 0x8000
  }

  /** h after j additions of delta, on 32 bits. */
  function Probe(h: hash, j: nat): hash {
    if j == 0 then h else (Probe(h, j - 1) + Delta(h)) % 0x1_0000_0000
  }

  /** Every probe of the key hits a set bit. */
  ghost predicate Hits(bits: Bytes, h: hash, k: nat)
    requires |bits| > 0
  {
    forall j :: 0 <= j < k ==> HasBit(bits, Probe(h, j) % (8 * |bits|))
  }

  /** What BloomFilterPolicy::KeyMayMatch answers. */
  ghost predicate Matches(hashOf: Bytes -> hash, key: Bytes, filter: Bytes) {
    |filter| >= 2
    && (filter[|filter| - 1] > 30 || Hits(filter[..|filter| - 1], hashOf(key), filter[|filter| - 1]))
  }

  /** A bit set in one array is set in the other. */
  ghost predicate Covers(a: Bytes, b: Bytes) {
    |a| == |b| && forall n :: 0 <= n < 8 * |a| && HasBit(a, n) ==> HasBit(b, n)
  }

  lemma NoBits(b: Bytes)
    requires forall i :: 0 <= i < |b| ==> b[i] == 0
    ensures forall n :: 0 <= n < 8 * |b| ==> !HasBit(b, n)
  {
    forall n | 0 <= n < 8 * |b| ensures !HasBit(b, n) {
      NoBit(n % 8);
    }
  }

  lemma {:induction false} NoBit(i: nat)
    ensures !Bit(0, i)
  {
    if i > 0 {
      NoBit(i - 1);
    }
  }

  lemma OneBitSet(was: Bytes, r: Bytes, n: nat)
    requires n < 8 * |was| && r == was[n / 8 := SetByteBit(was[n / 8], n % 8)]
    ensures |r| == |was| && forall m :: 0 <= m < 8 * |was| ==> (HasBit(r, m) <==> m == n || HasBit(was, m))
  {
    assert Limit(8) == 256;
    forall m | 0 <= m < 8 * |was| ensures HasBit(r, m) <==> m == n || HasBit(was, m) {
      if m / 8 == n / 8 {
        SetBitBits(was[n / 8], n % 8, 8, m % 8);
      }
    }
  }

  /** One of the first k probes of the key is bit n of `size` bits. */
  ghost predicate Probes(h: hash, k: nat, n: nat, size: nat)
    requires size > 0
  {
    exists j :: 0 <= j < k && Probe(h, j) % size == n
  }

  /** The bits are those there were and the first j probes of the key. */
  ghost predicate Probed(was: Bytes, r: Bytes, h: hash, j: nat) {
    && |r| == |was| > 0
    && forall n :: 0 <= n < 8 * |r| ==> (HasBit(r, n) <==> HasBit(was, n) || Probes(h, j, n, 8 * |r|))
  }

  lemma ProbeMore(was: Bytes, r: Bytes, r': Bytes, h: hash, j: nat)
    requires Probed(was, r, h, j) && |r'| == |r|
    requires var at := Probe(h, j) % (8 * |r|);
             forall n :: 0 <= n < 8 * |r| ==> (HasBit(r', n) <==> n == at || HasBit(r, n))
    ensures Probed(was, r', h, j + 1)
  {
    var size := 8 * |r|;
    forall n | 0 <= n < size ensures Probes(h, j + 1, n, size) <==> Probes(h, j, n, size) || n == Probe(h, j) % size {
      if Probes(h, j + 1, n, size) {
        var i :| 0 <= i < j + 1 && Probe(h, i) % size == n;
        assert i < j ==> Probes(h, j, n, size);
      }
    }
  }

  method SetProbes(bits: Bytes, h: hash, k: nat) returns (r: Bytes)
    requires |bits| > 0
    ensures Probed(bits, r, h, k) && Covers(bits, r) && Hits(r, h, k)
  {
    r := bits;
    var probe := h;
    for j := 0 to k
      invariant Probed(bits, r, h, j) && probe == Probe(h, j)
    {
      var bitpos := probe % (8 * |bits|);
      var byteIndex := bitpos / 8;
      assert bitpos < 8 * |bits|;
      ghost var was := r;
      r := r[byteIndex := SetByteBit(r[byteIndex], bitpos % 8)];
      OneBitSet(was, r, bitpos);
      ProbeMore(bits, was, r, h, j);
      probe := (probe + Delta(h)) % 0x1_0000_0000;
    }
    forall j | 0 <= j < k ensures HasBit(r, Probe(h, j) % (8 * |bits|)) {
      assert Probes(h, k, Probe(h, j) % (8 * |r|), 8 * |r|);
    }
  }

  function Least(a: nat, b: nat): nat {
    if a < b then b else a
  }

  /** BloomFilterPolicy::CreateFilter, with k probes for each key: a bit is set exactly
      when some key probes it, and the last byte says how many probes there are. */
  method CreateFilter(hashOf: Bytes -> hash, bitsPerKey: nat, k: nat, keys: seq<Bytes>, dst: Bytes) returns (r: Bytes)
    requires 1 <= k <= 30
    ensures dst <= r && forall i :: 0 <= i < |keys| ==> Matches(hashOf, keys[i], r[|dst|..])
    ensures |r| == |dst| + (Least(|keys| * bitsPerKey, 64) + 7) / 8 + 1 && r[|r| - 1] == k
    ensures var bits := r[|dst|..|r| - 1];
            forall n :: 0 <= n < 8 * |bits| ==>
              (HasBit(bits, n) <==> exists i :: 0 <= i < |keys| && Probes(hashOf(keys[i]), k, n, 8 * |bits|))
  {
    var bits := |keys| * bitsPerKey;
    if bits < 64 {
      bits := 64;
    }
    var bytes := (bits + 7) / 8;
    var filter: Bytes := seq(bytes, _ => 0);
    NoBits(filter);
    for i := 0 to |keys|
      invariant |filter| == bytes
      invariant forall m :: 0 <= m < i ==> Hits(filter, hashOf(keys[m]), k)
      invariant forall n :: 0 <= n < 8 * |filter| && HasBit(filter, n) ==>
                  exists m :: 0 <= m < i && Probes(hashOf(keys[m]), k, n, 8 * |filter|)
    {
      filter := SetProbes(filter, hashOf(keys[i]), k);
    }
    r := dst + filter + [k];
    assert r[|dst|..] == filter + [k] && (filter + [k])[..bytes] == filter == r[|dst|..|r| - 1];
    forall n, i | 0 <= n < 8 * |filter| && 0 <= i < |keys| && Probes(hashOf(keys[i]), k, n, 8 * |filter|)
      ensures HasBit(filter, n)
    {
      var j :| 0 <= j < k && Probe(hashOf(keys[i]), j) % (8 * |filter|) == n;
    }
  }

  /** BloomFilterPolicy::KeyMayMatch. */
  method KeyMayMatch(hashOf: Bytes -> hash, key: Bytes, filter: Bytes) returns (r: bool)
    ensures r <==> Matches(hashOf, key, filter)
  {
    if |filter| < 2 {
      return false;
    }
    var bits := 8 * (|filter| - 1);
    var k: nat := filter[|filter| - 1];
    if k > 30 {
      return true;
    }
    var h := hashOf(key);
    var probe := h;
    for j := 0 to k
      invariant probe == Probe(h, j) && Hits(filter[..|filter| - 1], h, j)
    {
      var bitpos := probe % bits;
      if !Bit(filter[bitpos / 8], bitpos % 8) {
        assert !HasBit(filter[..|filter| - 1], Probe(h, j) % bits);
        return false;
      }
      probe := (probe + Delta(h)) % 0x1_0000_0000;
    }
    r := true;
  }
}
