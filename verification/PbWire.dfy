/** The Protocol Buffers wire format as nanopb writes and reads it: byte streams,
    varints, zigzag and fixed-width integers (pb_encode.c, pb_decode.c; Protocol
    Buffers Encoding guide, sections "Base 128 Varints" and "Message Structure"). */
module PbWire {
  import opened Keys
  import opened Coding

  // ---------- output streams ----------

  /** pb_ostream_t.  A stream without a callback only counts. */
  class OStream {
    const sizing: bool
    const maxSize: nat
    var bytes: Bytes
    var bytesWritten: nat

    constructor (sizing: bool, maxSize: nat, bytes: Bytes)
      ensures this.sizing == sizing && this.maxSize == maxSize && this.bytes == bytes && bytesWritten == 0
    {
      this.sizing, this.maxSize, this.bytes, bytesWritten := sizing, maxSize, bytes, 0;
    }

    predicate Fits(n: nat)
      reads this
    {
      n == 0 || sizing || bytesWritten + n <= maxSize
    }

    /** The stream after b has been written. */
    twostate predicate Wrote(b: Bytes)
      reads this
    {
      bytesWritten == old(bytesWritten) + |b| && bytes == if sizing then old(bytes) else old(bytes) + b
    }

    /** pb_write. */
    method Write(b: Bytes) returns (ok: bool)
      modifies this
      ensures ok <==> old(Fits(|b|))
      ensures ok ==> Wrote(b)
    {
      if |b| > 0 && !sizing {
        if bytesWritten + |b| > maxSize {
          return false;
        }
        bytes := bytes + b;
      }
      bytesWritten := bytesWritten + |b|;
      ok := true;
    }

    /** pb_write with no data, while sizing. */
    method Count(n: nat)
      requires sizing
      modifies this
      ensures bytesWritten == old(bytesWritten) + n && bytes == old(bytes)
    {
      bytesWritten := bytesWritten + n;
    }
  }

  // ---------- varints ----------

  /** pb_encode_varint: the groups are written with the top bit set, and the last
      one cleared at the end. */
  method VarintBuffer(value: nat) returns (buffer: Bytes)
    ensures buffer == Varint(value)
  {
    if value <= 0x7f {
      var b: byte := value;
      return [b];
    }
    var v: nat := value;
    buffer := [];
    while v > 0
      invariant if v > 0 then buffer + Varint(v) == Varint(value) else TopBitsSet(buffer, Varint(value))
    {
      OneGroup(buffer, v, Varint(value));
      buffer := buffer + [v % 128 + 128];
      v := v / 128;
    }
    buffer := buffer[|buffer| - 1 := buffer[|buffer| - 1] - 128];
  }

  lemma OneGroup(buffer: Bytes, v: nat, varint: Bytes)
    requires v > 0 && buffer + Varint(v) == varint
    ensures var b := buffer + [v % 128 + 128];
            if v / 128 > 0 then b + Varint(v / 128) == varint else TopBitsSet(b, varint)
  {
    if v >= 128 {
      assert buffer + [v % 128 + 128] + Varint(v / 128) == buffer + ([v % 128 + 128] + Varint(v / 128));
    }
  }

  /** All of a varint but for the top bit of its last byte, which is set too. */
  ghost predicate TopBitsSet(buffer: Bytes, varint: Bytes) {
    |buffer| > 0 && buffer[|buffer| - 1] >= 128 && varint == buffer[|buffer| - 1 := buffer[|buffer| - 1] - 128]
  }

  method EncodeVarint(stream: OStream, value: nat) returns (ok: bool)
    modifies stream
    ensures ok <==> old(stream.Fits(|Varint(value)|))
    ensures ok ==> stream.Wrote(Varint(value))
  {
    var buffer := VarintBuffer(value);
    ok := stream.Write(buffer);
  }

  // ---------- input streams ----------

  /** pb_istream_t: the bytes not yet read. */
  class IStream {
    var bytes: Bytes

    constructor (bytes: Bytes)
      ensures this.bytes == bytes
    {
      this.bytes := bytes;
    }

    method ReadByte() returns (ok: bool, b: byte)
      modifies this
      ensures ok <==> |old(bytes)| > 0
      ensures ok ==> b == old(bytes)[0] && bytes == old(bytes)[1..]
      ensures !ok ==> bytes == old(bytes)
    {
      if bytes == [] {
        return false, 0;
      }
      ok, b, bytes := true, bytes[0], bytes[1..];
    }

    /** pb_read. */
    method Read(n: nat) returns (ok: bool, b: Bytes)
      modifies this
      ensures ok <==> n <= |old(bytes)|
      ensures ok ==> b == old(bytes)[..n] && bytes == old(bytes)[n..]
      ensures |bytes| <= |old(bytes)|
    {
      if |bytes| < n {
        return false, [];
      }
      ok, b, bytes := true, bytes[..n], bytes[n..];
    }
  }

  /** What a reader has left after the first n bytes, all of them groups with more to
      come. */
  ghost predicate GroupsRead(was: Bytes, now: Bytes, n: nat, value: nat) {
    GroupsTo(was, n, value) && now == was[n..]
  }

  /** One byte of a varint. */
  method ReadGroup(stream: IStream, ghost n: nat, ghost was: Bytes, ghost whole: nat) returns (ok: bool, b: byte)
    requires GroupsRead(was, stream.bytes, n, whole)
    modifies stream
    ensures ok <==> n < |was|
    ensures ok ==> b == was[n] && stream.bytes == was[n + 1..]
    ensures ok && b >= 128 ==> GroupsRead(was, stream.bytes, n + 1, whole + (b as nat % 128) * Scale(n))
    ensures ok && b < 128 ==> IsVarint(was[..n + 1]) && GroupsValue(was[..n + 1]) == whole + (b as nat % 128) * Scale(n)
    ensures !ok ==> stream.bytes == [] && forall k :: 0 < k <= |was| ==> !IsVarint(was[..k])
  {
    if n < |was| {
      OneGroupMore(was, n, whole);
    } else {
      NoVarint(was, n);
    }
    ok, b := stream.ReadByte();
  }

  /** The varint of v, with the rest after it, is what was taken. */
  lemma Taken(was: Bytes, now: Bytes, k: nat, v: nat, rest: Bytes, n: nat)
    requires n > 0 && v < Scale(n) && was == Varint(v) + rest
    requires k <= |was| && IsVarint(was[..k]) && now == was[k..]
    ensures GroupsValue(was[..k]) == v && now == rest
  {
    VarintFront(was, v, rest, n);
    SameVarint(was, k, |Varint(v)|);
  }

  /** pb_decode_varint: at most ten groups, put together in 64 bits. */
  method DecodeVarint(stream: IStream, ghost v: nat, ghost rest: Bytes) returns (ok: bool, value: nat)
    modifies stream
    ensures |stream.bytes| <= |old(stream.bytes)| && value < U64
    ensures var was, k := old(stream.bytes), |old(stream.bytes)| - |stream.bytes|;
            ok ==> 0 < k <= 10 && IsVarint(was[..k]) && value == GroupsValue(was[..k]) % U64 && stream.bytes == was[k..]
    ensures !ok ==> forall k :: 0 < k <= 10 && k <= |old(stream.bytes)| ==> !IsVarint(old(stream.bytes)[..k])
    ensures v < U64 && old(stream.bytes) == Varint(v) + rest ==> ok && value == v && stream.bytes == rest
  {
    ghost var was := stream.bytes;
    ghost var n: nat;
    ok, value, n := DecodeGroups(stream, was);
    if v < U64 && was == Varint(v) + rest {
      ScaleLimits();
      VarintFront(was, v, rest, 10);
      Taken(was, stream.bytes, n, v, rest, 10);
    }
  }

  method DecodeGroups(stream: IStream, ghost was: Bytes) returns (ok: bool, value: nat, ghost taken: nat)
    requires was == stream.bytes
    modifies stream
    ensures |stream.bytes| <= |was| && value < U64
    ensures ok ==> 0 < taken <= 10 && taken == |was| - |stream.bytes| && IsVarint(was[..taken])
    ensures ok ==> value == GroupsValue(was[..taken]) % U64 && stream.bytes == was[taken..]
    ensures !ok ==> forall k :: 0 < k <= 10 && k <= |was| ==> !IsVarint(was[..k])
  {
    taken := 0;
    var n: nat, scale: nat, whole: nat := 0, 1, 0;
    var more := true;
    while more
      invariant scale == Scale(n) && n <= 10 && |stream.bytes| == |was| - n
      invariant more ==> GroupsRead(was, stream.bytes, n, whole)
      invariant !more ==> n > 0 && IsVarint(was[..n]) && whole == GroupsValue(was[..n]) && stream.bytes == was[n..]
      decreases more, 10 - n
    {
      if 7 * n >= 64 {
        NoVarint(was, n);
        return false, 0, 0;
      }
      var b;
      ok, b := ReadGroup(stream, n, was, whole);
      if !ok {
        return false, 0, 0;
      }
      whole := whole + (b as nat % 128) * scale;
      n, scale := n + 1, scale * 128;
      more := b >= 128;
    }
    ok, value, taken := true, whole % U64, n;
  }

  /** Groups from bit 35 on do not change a value modulo 2^32. */
  lemma HighGroup(n: nat, whole: nat, x: nat)
    requires n >= 5
    ensures (whole + x * Scale(n)) % U32 == whole % U32
  {
    ScaleHigh(n);
    ThreeFactors(x, 8 * Scale(n - 5), U32);
    AddMultiple(whole, x * (8 * Scale(n - 5)));
  }

  lemma ThreeFactors(x: nat, y: nat, z: nat)
    ensures x * (y * z) == (x * y) * z && x * y >= 0
  {
  }

  lemma {:induction false} ScaleHigh(n: nat)
    requires n >= 5
    ensures Scale(n) == (8 * Scale(n - 5)) * U32
  {
    ScaleLimits();
    if n > 5 {
      ScaleHigh(n - 1);
    }
  }

  lemma {:induction false} AddMultiple(n: nat, k: nat)
    ensures (n + k * U32) % U32 == n % U32
  {
    if k > 0 {
      AddMultiple(n, k - 1);
      assert n + k * U32 == n + (k - 1) * U32 + U32;
    }
  }

  /** pb_decode_varint32: groups put together in 32 bits.  Of five groups the last may
      only fill them up; a value sent as a longer varint is taken when the extra groups
      are zero or repeat its sign. */
  method DecodeVarint32(stream: IStream, ghost v: nat, ghost rest: Bytes) returns (ok: bool, eof: bool, value: nat)
    modifies stream
    ensures |stream.bytes| <= |old(stream.bytes)| && value < U32 && (eof <==> old(stream.bytes) == [])
    ensures var was, k := old(stream.bytes), |old(stream.bytes)| - |stream.bytes|;
            ok ==> 0 < k && IsVarint(was[..k]) && value == GroupsValue(was[..k]) % U32 && stream.bytes == was[k..]
                   && (k <= 5 ==> GroupsValue(was[..k]) < U32)
    ensures !ok ==> forall k :: 0 < k <= 5 && k <= |old(stream.bytes)| && IsVarint(old(stream.bytes)[..k]) ==>
                      GroupsValue(old(stream.bytes)[..k]) >= U32
    ensures v < U32 && old(stream.bytes) == Varint(v) + rest ==> ok && value == v && stream.bytes == rest
  {
    ghost var was := stream.bytes;
    ghost var n: nat;
    ok, eof, value, n := DecodeGroups32(stream, was);
    if v < U32 && was == Varint(v) + rest {
      ScaleLimits();
      VarintFront(was, v, rest, 5);
      Taken(was, stream.bytes, n, v, rest, 5);
    }
  }

  method DecodeGroups32(stream: IStream, ghost was: Bytes) returns (ok: bool, eof: bool, value: nat, ghost n: nat)
    requires was == stream.bytes
    modifies stream
    ensures |stream.bytes| <= |was| && value < U32 && (eof <==> was == [])
    ensures ok ==> 0 < n == |was| - |stream.bytes| && IsVarint(was[..n]) && stream.bytes == was[n..]
    ensures ok ==> value == GroupsValue(was[..n]) % U32 && (n <= 5 ==> GroupsValue(was[..n]) < U32)
    ensures !ok ==> forall k :: 0 < k <= 5 && k <= |was| && IsVarint(was[..k]) ==> GroupsValue(was[..k]) >= U32
  {
    var read, b := ReadGroup(stream, 0, was, 0);
    if !read {
      return false, true, 0, 0;
    }
    eof := false;
    if b < 128 {
      ok, value, n := true, b, 1;
    } else {
      ok, value, n := DecodeMoreGroups(stream, b, was);
    }
  }

  lemma {:induction false} GroupsBound(s: Bytes)
    ensures GroupsValue(s) < Scale(|s|)
  {
    if s != [] {
      GroupsBound(s[1..]);
    }
  }

  /** A fifth and last group fits when only its low four bits are used. */
  lemma FifthGroup(was: Bytes, whole: nat)
    requires |was| >= 5 && IsVarint(was[..5]) && whole == GroupsValue(was[..5])
    ensures whole < U32 <==> was[4] < 16
  {
    assert was[..5] == was[..4] + [was[4]] && was[..5][4] == was[4];
    GroupsMore(was[..4], was[4]);
    GroupsBound(was[..4]);
    ScaleLimits();
  }

  /** A varint of at most four groups is of a value that fits. */
  lemma FewGroups(was: Bytes, n: nat)
    requires n <= |was| && n <= 4
    ensures GroupsValue(was[..n]) < U32
  {
    GroupsBound(was[..n]);
    ScaleLimits();
    assert Scale(1) == 128 && Scale(2) == 0x4000 && Scale(3) == 0x20_0000;
  }

  /** How a read of groups stands: `whole` is their value, `result` what has been put
      together of it in 32 bits. */
  ghost predicate Putting(was: Bytes, now: Bytes, n: nat, b: byte, result: nat, whole: nat) {
    && 0 < n <= |was| && now == was[n..] && b == was[n - 1]
    && result % U32 == whole % U32 && (n <= 5 ==> result == whole)
    && if b >= 128 then GroupsTo(was, n, whole) else IsVarint(was[..n]) && whole == GroupsValue(was[..n])
  }

  /** One more group: from bit 35 on it may only be zero or repeat the sign. */
  method PutGroup(stream: IStream, n: nat, scale: nat, result: nat, ghost was: Bytes, ghost first: byte,
                  ghost whole: nat)
    returns (ok: bool, b: byte, result': nat, ghost whole': nat)
    requires first >= 128 && Putting(was, stream.bytes, n, first, result, whole) && scale == Scale(n)
    modifies stream
    ensures ok ==> Putting(was, stream.bytes, n + 1, b, result', whole')
    ensures !ok ==> |stream.bytes| <= |was| - n && forall k :: 0 < k <= 5 && k <= |was| ==> !IsVarint(was[..k])
  {
    result', whole' := result, whole;
    ok, b := ReadGroup(stream, n, was, whole);
    if !ok {
      return;
    }
    whole' := whole + (b as nat % 128) * Scale(n);
    if 7 * n >= 32 {
      var sign := if 7 * n < 63 then 0xff else 0x01;
      if b % 128 != 0 && (result % U32 < 0x8000_0000 || b != sign) {
        NoVarint(was, n);
        ok := false;
      }
      HighGroup(n, whole, b as nat % 128);
    } else {
      result' := result + (b as nat % 128) * scale;
    }
  }

  /** The groups after the first, which had more to come. */
  method DecodeMoreGroups(stream: IStream, first: byte, ghost was: Bytes) returns (ok: bool, value: nat, ghost n: nat)
    requires was != [] && first == was[0] && first >= 128 && GroupsRead(was, stream.bytes, 1, first as nat % 128)
    modifies stream
    ensures |stream.bytes| < |was| && value < U32
    ensures ok ==> 0 < n <= |was| && IsVarint(was[..n]) && value == GroupsValue(was[..n]) % U32
                   && stream.bytes == was[n..]
    ensures ok && n <= 5 ==> GroupsValue(was[..n]) < U32
    ensures !ok ==> forall k :: 0 < k <= 5 && k <= |was| && IsVarint(was[..k]) ==> GroupsValue(was[..k]) >= U32
  {
    var groups: nat, scale: nat, result: nat, b := 1, 128, first as nat % 128, first;
    ghost var whole: nat := result;
    n := 1;
    while b >= 128
      invariant n == groups && scale == Scale(n) && Putting(was, stream.bytes, n, b, result, whole)
      decreases b >= 128, |stream.bytes|
    {
      ok, b, result, whole := PutGroup(stream, groups, scale, result, was, b, whole);
      if !ok {
        return false, 0, n;
      }
      groups, scale, n := groups + 1, scale * 128, n + 1;
    }
    ok, value := true, result % U32;
    if groups == 5 && b as nat / 16 % 8 != 0 {
      FifthGroup(was, whole);
      OnlyVarint(was, 5);
      return false, 0, n;
    }
    if n == 5 {
      FifthGroup(was, whole);
    } else if n < 5 {
      FewGroups(was, n);
    }
  }

  lemma OnlyVarint(was: Bytes, n: nat)
    requires n <= |was| && IsVarint(was[..n])
    ensures forall k :: 0 < k <= |was| && IsVarint(was[..k]) ==> k == n
  {
    forall k | 0 < k <= |was| && IsVarint(was[..k]) ensures k == n {
      SameVarint(was, k, n);
    }
  }

  // ---------- zigzag and two's complement ----------

  /** pb_encode_svarint, on a 64-bit value. */
  function ZigZag(n: int): (z: nat) {
    if n < 0 then -2 * n - 1 else 2 * n
  }

  /** pb_decode_svarint. */
  function UnZigZag(z: nat): int {
    if z % 2 == 1 then -(z / 2) - 1 else z / 2
  }

  lemma ZigZagRoundTrip(n: int)
    requires -(U64 / 2) <= n < U64 / 2
    ensures ZigZag(n) < U64 && UnZigZag(ZigZag(n)) == n
  {
  }

  /** Two's complement on `bits` = 8 * size bits. */
  function Modulus(size: nat): nat
    requires size in {1, 2, 4, 8}
  {
    if size == 1 then 0x100 else if size == 2 then 0x1_0000 else if size == 4 then U32 else U64
  }

  function Signed(n: int, size: nat): int
    requires size in {1, 2, 4, 8}
  {
    var m := n % Modulus(size);
    if m < Modulus(size) / 2 then m else m - Modulus(size)
  }
}
