/** nanopb's decoder: pb_decode and what it calls (pb_decode.c), for statically
    allocated fields.  Each method takes any input; its last ensures clause says
    what it gives back when the input begins with the encoding of a value. */
module PbDecode {
  import opened Sequences
  import opened Keys
  import opened Coding
  import opened PbWire
  import opened PbMessage
  import opened PbFieldIter
  import opened PbEncode
  import opened PbStructure
  import opened PbRecords
  import opened PbLaws
  import opened PbSent
  import opened PbFits

  // ---------- values ----------

  /** What a method made of the bytes at the front: a value that they are read as, or none
      since no value of the type that is there fits the member. */
  ghost predicate Told(t: FieldType, was: Bytes, now: Bytes, ok: bool, r: Value) {
    if ok then
      |now| <= |was| && now == was[|was| - |now|..] && Passed(WireType(t), was[..|was| - |now|])
      && Reads(t, was[..|was| - |now|]) == Some(r)
    else forall k :: 0 <= k <= |was| && Framed(t, was[..k]) ==> Reads(t, was[..k]) == None
  }

  /** Some payload of the wire type is there. */
  ghost predicate Begins(wire: nat, b: Bytes) {
    exists k :: 0 <= k <= |b| && Passed(wire, b[..k])
  }

  /** Where a payload ends is decided by its bytes alone. */
  lemma FrameIs(wire: nat, was: Bytes, k: nat, b: Bytes, rest: Bytes)
    requires was == b + rest && Skippable(wire, b) && k <= |was| && Passed(wire, was[..k])
    ensures k == |b| && was[..k] == b && was[k..] == rest
  {
    assert was[..|b|] == b;
    if wire == 0 {
      SameVarint(was, k, |b|);
    } else if wire == 2 {
      StringIs(was, |b|, k);
    }
  }

  lemma StringIs(was: Bytes, n: nat, k: nat)
    requires n <= |was| && k <= |was| && Skippable(2, was[..n]) && Passed(2, was[..k])
    ensures k == n
  {
    var l := LengthOf(was, k);
    StringEnds(was, n, l);
  }

  lemma LengthOf(was: Bytes, k: nat) returns (l: nat)
    requires k <= |was| && Passed(2, was[..k])
    ensures 0 < l <= k && IsVarint(was[..l]) && GroupsValue(was[..l]) % U32 == k - l
  {
    var b := was[..k];
    l :| 0 < l <= |b| && IsVarint(b[..l]) && GroupsValue(b[..l]) % U32 == |b| - l;
    assert b[..l] == was[..l];
  }

  /** A string ends where its length says. */
  lemma StringEnds(was: Bytes, k: nat, l: nat)
    requires k <= |was| && Skippable(2, was[..k]) && 0 < l <= |was| && IsVarint(was[..l])
    ensures l <= 5 && l <= k && GroupsValue(was[..l]) == k - l < U32 && Content(was[..k]) == was[l..k]
  {
    var m :| 0 < m <= 5 && m <= k && IsVarint(was[..k][..m]) && GroupsValue(was[..k][..m]) == k - m < U32;
    assert was[..k][..m] == was[..m];
    SameVarint(was, l, m);
    ContentIs(was[..k], m);
  }

  /** The value meant by 64 bits received, and that value cast to the member. */
  function Meant(t: FieldType, value: nat): int
    requires t.VarintType? || t.UVarintType? || t.SVarintType?
  {
    if t.UVarintType? then value
    else if t.SVarintType? then UnZigZag(value)
    else Signed(value, if t.size == 8 then 8 else 4)
  }

  function Clamped(t: FieldType, wide: int): int
    requires (t.VarintType? || t.UVarintType? || t.SVarintType?) && t.size in {1, 2, 4, 8}
  {
    if t.UVarintType? then wide % Modulus(t.size) else Signed(wide, t.size)
  }

  lemma ClampedTyped(t: FieldType, wide: int)
    requires TypeWellFormed(t) && (t.VarintType? || t.UVarintType? || t.SVarintType?)
    ensures Typed(t, Int(Clamped(t, wide)))
  {
    if !t.UVarintType? {
      SignedTwice(wide, t.size);
    }
  }

  lemma SignedTwice(n: int, size: nat)
    requires size in {1, 2, 4, 8}
    ensures Signed(Signed(n, size), size) == Signed(n, size)
  {
    var m, s := Modulus(size), Signed(n, size);
    assert s == n % m || s == n % m - m;
    if s < 0 {
      assert s % m == s + m;
    } else {
      assert s % m == s;
    }
  }

  lemma ClampedFits(t: FieldType, value: nat)
    requires (t.VarintType? || t.UVarintType? || t.SVarintType?) && t.size in {1, 2, 4, 8}
    ensures var wide := Meant(t, value);
            ReadsInteger(t, value) == if Clamped(t, wide) == wide then Some(wide) else None
  {
    if t.UVarintType? {
      var m := Modulus(t.size);
      assert value % m == value <==> value < m;
    }
  }

  /** pb_dec_varint, pb_dec_uvarint, pb_dec_svarint: read 64 bits, then check that
      the value fits the member. */
  method DecodeInteger(stream: IStream, t: FieldType) returns (ok: bool, r: Value)
    requires TypeWellFormed(t) && (t.VarintType? || t.UVarintType? || t.SVarintType?)
    modifies stream
    ensures |stream.bytes| <= |old(stream.bytes)| && Typed(t, r) && Told(t, old(stream.bytes), stream.bytes, ok, r)
  {
    ghost var was := stream.bytes;
    var value;
    ok, value := DecodeVarint(stream, 0, []);
    ghost var k, took := |was| - |stream.bytes|, ok;
    var wide := Meant(t, value);
    var clamped := Clamped(t, wide);
    ClampedTyped(t, wide);
    ClampedFits(t, value);
    ok, r := ok && clamped == wide, Int(clamped);
    forall l | 0 <= l <= |was| && Framed(t, was[..l]) ensures took ==> l == k {
      if took { SameVarint(was, k, l); }
    }
  }

  method DecodeBool(stream: IStream) returns (ok: bool, r: Value)
    modifies stream
    ensures |stream.bytes| <= |old(stream.bytes)| && Typed(BoolType, r)
    ensures Told(BoolType, old(stream.bytes), stream.bytes, ok, r)
  {
    var eof, n;
    ok, eof, n := DecodeVarint32(stream, 0, []);
    r := Int(if n != 0 then 1 else 0);
  }

  method DecodeFixed(stream: IStream, n: nat) returns (ok: bool, r: Value)
    requires n == 4 || n == 8
    modifies stream
    ensures |stream.bytes| <= |old(stream.bytes)| && r.Int? && 0 <= r.n < if n == 4 then U32 else U64
    ensures ok <==> n <= |old(stream.bytes)|
    ensures ok ==> r == Int(Unfixed(old(stream.bytes)[..n])) && stream.bytes == old(stream.bytes)[n..]
  {
    assert Bound(4) == U32 && Bound(8) == U64;
    var b;
    ok, b := stream.Read(n);
    UnfixedBound(b);
    r := if ok then Int(Unfixed(b)) else Int(0);
  }

  /** The length of a string, a byte array or a submessage, at most `limit`. */
  method DecodeLength(stream: IStream, limit: nat) returns (ok: bool, n: nat)
    modifies stream
    ensures |stream.bytes| <= |old(stream.bytes)|
    ensures var was, k := old(stream.bytes), |old(stream.bytes)| - |stream.bytes|;
            ok ==> 0 < k && IsVarint(was[..k]) && n == GroupsValue(was[..k]) % U32 && n <= limit
                   && stream.bytes == was[k..]
    ensures !ok ==> forall k :: 0 < k <= 5 && k <= |old(stream.bytes)| && IsVarint(old(stream.bytes)[..k]) ==>
                      GroupsValue(old(stream.bytes)[..k]) >= U32 || GroupsValue(old(stream.bytes)[..k]) > limit
  {
    ghost var was := stream.bytes;
    var eof;
    ok, eof, n := DecodeVarint32(stream, 0, []);
    if ok { OnlyVarint(was, |was| - |stream.bytes|); }
    ok := ok && n <= limit;
  }

  /** No string is there whose length was refused. */
  lemma LengthRefused(was: Bytes, limit: nat)
    requires forall k :: 0 < k <= 5 && k <= |was| && IsVarint(was[..k]) ==>
                      GroupsValue(was[..k]) >= U32 || GroupsValue(was[..k]) > limit
    ensures forall l :: 0 <= l <= |was| && Skippable(2, was[..l]) ==> |Content(was[..l])| > limit
  {
    forall l | 0 <= l <= |was| && Skippable(2, was[..l]) ensures |Content(was[..l])| > limit {
      var m :| 0 < m <= 5 && m <= l && IsVarint(was[..l][..m]) && GroupsValue(was[..l][..m]) == l - m < U32;
      assert was[..l][..m] == was[..m];
      StringEnds(was, l, m);
    }
  }

  /** The string of length n that begins after its length at k, if it is there. */
  lemma StringHere(was: Bytes, k: nat, n: nat)
    requires 0 < k <= |was| && IsVarint(was[..k]) && n == GroupsValue(was[..k]) % U32
    ensures k + n <= |was| ==> Passed(2, was[..k + n]) && Content(was[..k + n]) == was[k..k + n]
    ensures forall l :: 0 <= l <= |was| && Skippable(2, was[..l]) ==> l == k + n && Content(was[..l]) == was[k..l]
  {
    if k + n <= |was| {
      assert was[..k + n][..k] == was[..k];
      ContentIs(was[..k + n], k);
    }
    forall l | 0 <= l <= |was| && Skippable(2, was[..l]) ensures l == k + n && Content(was[..l]) == was[k..l] {
      StringEnds(was, l, k);
    }
  }

  method DecodeBlob(stream: IStream, limit: nat) returns (ok: bool, r: Bytes)
    modifies stream
    ensures |stream.bytes| <= |old(stream.bytes)| && |r| <= limit
    ensures var was, k := old(stream.bytes), |old(stream.bytes)| - |stream.bytes|;
            ok ==> Passed(2, was[..k]) && stream.bytes == was[k..] && r == Content(was[..k])
    ensures !ok ==> forall l :: 0 <= l <= |old(stream.bytes)| && Skippable(2, old(stream.bytes)[..l]) ==>
                      |Content(old(stream.bytes)[..l])| > limit
  {
    ghost var was := stream.bytes;
    var n;
    ok, n := DecodeLength(stream, limit);
    if !ok {
      LengthRefused(was, limit);
      return false, [];
    }
    ghost var k := |was| - |stream.bytes|;
    StringHere(was, k, n);
    ok, r := stream.Read(n);
    if !ok {
      r := [];
    } else {
      assert stream.bytes == was[k + n..];
    }
  }

  // ---------- fields ----------

  /** pb_make_string_substream. */
  method MakeSubstream(stream: IStream) returns (ok: bool, sub: IStream)
    modifies stream
    ensures fresh(sub) && |stream.bytes| <= |old(stream.bytes)|
    ensures var was, k := old(stream.bytes), |old(stream.bytes)| - |stream.bytes|;
            ok ==> Passed(2, was[..k]) && stream.bytes == was[k..] && sub.bytes == Content(was[..k])
    ensures !ok ==> forall l :: 0 <= l <= |old(stream.bytes)| ==> !Skippable(2, old(stream.bytes)[..l])
  {
    ghost var was := stream.bytes;
    sub := new IStream([]);
    var n;
    ok, n := DecodeLength(stream, U32);
    if !ok {
      LengthRefused(was, U32);
      NotLonger(was);
      return;
    }
    ghost var k := |was| - |stream.bytes|;
    StringHere(was, k, n);
    if |stream.bytes| < n {
      return false, sub;
    }
    sub.bytes, stream.bytes := stream.bytes[..n], stream.bytes[n..];
    assert stream.bytes == was[k + n..];
  }

  /** A string is never as long as 2^32. */
  lemma NotLonger(was: Bytes)
    ensures forall l :: 0 <= l <= |was| && Skippable(2, was[..l]) ==> |Content(was[..l])| < U32
  {
    forall l | 0 <= l <= |was| && Skippable(2, was[..l]) ensures |Content(was[..l])| < U32 {
      var m :| 0 < m <= 5 && m <= l && IsVarint(was[..l][..m]) && GroupsValue(was[..l][..m]) == l - m < U32;
      ContentIs(was[..l], m);
    }
  }

  /** PB_DECODERS: one value.  A submessage is decoded into what its payload holds. */
  method DecodeItem(stream: IStream, t: FieldType, base: Value, ghost item: Item, ghost rest: Bytes)
    returns (ok: bool, r: Value, ghost full: bool)
    requires TypeWellFormed(t) && Loose(t, base)
    modifies stream
    ensures |stream.bytes| <= |old(stream.bytes)| && Loose(t, r)
    ensures Held(t, base) ==> Leaves(t, r, ok, full)
    ensures full ==> t.SubmessageType?
    ensures ItemOk(t, item) && old(stream.bytes) == ItemWire(t, item) + rest ==>
              match TakeItem(t, base, item)
              case Some(v) => ok && r == v && stream.bytes == rest
              case None => !ok
    ensures ok ==> Begins(WireType(t), old(stream.bytes))
    decreases t, 1
  {
    full := false;
    match t {
      case SubmessageType(fields) =>
        ok, r, full := DecodeSubmessage(stream, fields, base.slots, if item.Nested? then item.recs else [], rest);
      case _ =>
        ghost var was := stream.bytes;
        ok, r := DecodeScalar(stream, t, base);
        ToldItem(t, base, was, stream.bytes, ok, r, item, rest);
    }
  }

  lemma ToldItem(t: FieldType, base: Value, was: Bytes, now: Bytes, ok: bool, r: Value, item: Item, rest: Bytes)
    requires Told(t, was, now, ok, r) && !t.SubmessageType?
    ensures ItemOk(t, item) && was == ItemWire(t, item) + rest ==>
              match TakeItem(t, base, item)
              case Some(v) => ok && r == v && now == rest
              case None => !ok
    ensures ok ==> Begins(WireType(t), was)
  {
    if ItemOk(t, item) && was == ItemWire(t, item) + rest {
      assert was[..|item.b|] == item.b;
      if ok { FrameIs(WireType(t), was, |was| - |now|, item.b, rest); }
    }
  }

  /** A value that is no submessage. */
  method DecodeScalar(stream: IStream, t: FieldType, base: Value) returns (ok: bool, r: Value)
    requires TypeWellFormed(t) && !t.SubmessageType? && Held(t, base)
    modifies stream
    ensures |stream.bytes| <= |old(stream.bytes)| && Held(t, r) && Told(t, old(stream.bytes), stream.bytes, ok, r)
  {
    if Packable(t) {
      ok, r := DecodeNumber(stream, t);
    } else {
      ok, r := DecodeBytes(stream, t, base);
    }
  }

  /** A value that can stand in a packed array. */
  method DecodeNumber(stream: IStream, t: FieldType) returns (ok: bool, r: Value)
    requires TypeWellFormed(t) && Packable(t)
    modifies stream
    ensures |stream.bytes| <= |old(stream.bytes)| && Typed(t, r) && Told(t, old(stream.bytes), stream.bytes, ok, r)
  {
    match t {
      case BoolType =>
        ok, r := DecodeBool(stream);
      case VarintType(size) =>
        ok, r := DecodeInteger(stream, t);
      case UVarintType(size) =>
        ok, r := DecodeInteger(stream, t);
      case SVarintType(size) =>
        ok, r := DecodeInteger(stream, t);
      case Fixed32Type =>
        ok, r := DecodeFixed(stream, 4);
      case Fixed64Type =>
        ok, r := DecodeFixed(stream, 8);
    }
  }

  /** A value whose length stands before it. */
  method DecodeBytes(stream: IStream, t: FieldType, base: Value) returns (ok: bool, r: Value)
    requires TypeWellFormed(t) && !t.SubmessageType? && !Packable(t) && Held(t, base)
    modifies stream
    ensures |stream.bytes| <= |old(stream.bytes)| && Held(t, r) && Told(t, old(stream.bytes), stream.bytes, ok, r)
  {
    match t {
      case BytesType(max) =>
        var b;
        ok, b := DecodeBlob(stream, max);
        r := Blob(b);
      case StringType(size) =>
        var b;
        ok, b := DecodeBlob(stream, size - 1);
        r := Blob(b);
      case FixedBytesType(size) =>
        ok, r := DecodeFixedBytes(stream, size, base);
    }
  }

  method DecodeFixedBytes(stream: IStream, size: nat, base: Value) returns (ok: bool, r: Value)
    requires base.Blob? && |base.b| == size
    modifies stream
    ensures |stream.bytes| <= |old(stream.bytes)| && r.Blob? && |r.b| == size
    ensures Told(FixedBytesType(size), old(stream.bytes), stream.bytes, ok, r)
  {
    ghost var was := stream.bytes;
    var n;
    ok, n := DecodeLength(stream, U32);
    if !ok {
      LengthRefused(was, U32);
      NotLonger(was);
      return false, base;
    }
    ghost var k := |was| - |stream.bytes|;
    StringHere(was, k, n);
    if n == 0 {
      return true, Blob(seq(size, _ => 0));
    }
    if n != size {
      return false, base;
    }
    var bytes;
    ok, bytes := stream.Read(size);
    r := if ok then Blob(bytes) else base;
    if ok {
      assert stream.bytes == was[k + n..] && bytes == was[k..k + n] == Content(was[..k + n]);
    }
  }

  /** pb_dec_submessage. */
  method DecodeSubmessage(stream: IStream, fields: seq<Field>, base: seq<seq<Value>>, ghost recs: seq<Rec>,
                          ghost rest: Bytes)
    returns (ok: bool, r: Value, ghost full: bool)
    requires WellFormed(fields) && LooseAll(fields, base)
    modifies stream
    ensures |stream.bytes| <= |old(stream.bytes)| && r.Msg? && LooseAll(fields, r.slots)
    ensures HeldAll(fields, base) ==> LeavesAll(fields, r.slots, ok, full)
    ensures RecsOk(fields, recs) && |RecsWire(fields, recs)| < U32
              && old(stream.bytes) == Varint(|RecsWire(fields, recs)|) + RecsWire(fields, recs) + rest ==>
              match TakeMessage(fields, base, recs)
              case Some(slots) => ok && r == Msg(slots) && stream.bytes == rest
              case None => !ok
    ensures ok ==> Begins(2, old(stream.bytes))
    decreases fields, 5
  {
    ghost var was := stream.bytes;
    var sub;
    ok, sub := MakeSubstream(stream);
    StringFront(was, RecsWire(fields, recs), rest);
    if !ok {
      return false, Msg(base), false;
    }
    var dest;
    assert RecsWire(fields, recs) + [] == RecsWire(fields, recs);
    ok, dest, full := DecodeNoinit(sub, fields, base, recs, [], Extra(0, 0, []));
    r := Msg(dest);
  }

  /** The string at the front is the one that is taken. */
  lemma StringFront(was: Bytes, b: Bytes, rest: Bytes)
    ensures |b| < U32 && was == Varint(|b|) + b + rest ==>
              Skippable(2, was[..|was| - |rest|])
              && forall k :: 0 <= k <= |was| && Passed(2, was[..k]) ==> Content(was[..k]) == b && was[k..] == rest
  {
    if |b| < U32 && was == Varint(|b|) + b + rest {
      var s := Varint(|b|) + b;
      StringSkippable(b);
      StringContent(b);
      assert was[..|s|] == s;
      forall k | 0 <= k <= |was| && Passed(2, was[..k]) ensures Content(was[..k]) == b && was[k..] == rest {
        FrameIs(2, was, k, s, rest);
      }
    }
  }

  /** A packed array, into what room is left. */
  method DecodePacked(stream: IStream, t: FieldType, held: seq<Value>, max: nat, ghost parts: seq<Bytes>,
                      ghost rest: Bytes)
    returns (ok: bool, r: seq<Value>)
    requires Packable(t) && TypeWellFormed(t) && forall k :: 0 <= k < |held| && k < max ==> Held(t, held[k])
    modifies stream
    ensures |stream.bytes| <= |old(stream.bytes)| && (|r| <= max || r == held)
    ensures forall k :: 0 <= k < |r| && k < max ==> Held(t, r[k])
    ensures PartsOk(t, parts) && old(stream.bytes) == Varint(|Flat(parts)|) + Flat(parts) + rest ==>
              if AllRead(t, parts) && (parts == [] || |held| + |parts| <= max) then
                ok && r == held + Values(t, parts) && stream.bytes == rest
              else !ok
    ensures ok ==> Begins(2, old(stream.bytes))
    decreases t, 4
  {
    ghost var was := stream.bytes;
    r := held;
    var sub;
    ok, sub := MakeSubstream(stream);
    StringFront(was, Flat(parts), rest);
    if !ok {
      return;
    }
    assert parts[0..] == parts;
    ok, r := DecodeItems(sub, t, held, max, parts);
    if sub.bytes != [] {
      ok := false;
    }
  }

  /** What is left of a packed array after its first n items. */
  ghost predicate PackedFrom(t: FieldType, parts: seq<Bytes>, n: nat, bytes: Bytes) {
    n <= |parts| && bytes == Flat(parts[n..]) && forall k :: 0 <= k < |parts| ==> Framed(t, parts[k])
  }

  /** The first n items of a packed array have been read and put after those held. */
  ghost predicate PackedTo(t: FieldType, held: seq<Value>, parts: seq<Bytes>, n: nat, bytes: Bytes, r: seq<Value>) {
    && PackedFrom(t, parts, n, bytes) && r == held + Values(t, parts)[..n]
    && forall k :: 0 <= k < n ==> Reads(t, parts[k]).Some?
  }

  method DecodeItems(sub: IStream, t: FieldType, held: seq<Value>, max: nat, ghost parts: seq<Bytes>)
    returns (ok: bool, r: seq<Value>)
    requires Packable(t) && TypeWellFormed(t) && forall k :: 0 <= k < |held| && k < max ==> Held(t, held[k])
    modifies sub
    ensures (|r| <= max || r == held) && forall k :: 0 <= k < |r| && k < max ==> Held(t, r[k])
    ensures PackedFrom(t, parts, 0, old(sub.bytes)) ==>
              if AllRead(t, parts) && (parts == [] || |held| + |parts| <= max) then
                ok && r == held + Values(t, parts) && sub.bytes == []
              else !ok || sub.bytes != []
    decreases t, 3
  {
    ghost var hyp, n: nat := PackedFrom(t, parts, 0, sub.bytes), 0;
    r, ok := held, true;
    assert held + Values(t, parts)[..0] == held;
    while sub.bytes != [] && |r| < max && ok
      invariant (|r| <= max || r == held) && forall k :: 0 <= k < |r| && k < max ==> Held(t, r[k])
      invariant hyp ==> if ok then PackedTo(t, held, parts, n, sub.bytes, r) else !AllRead(t, parts)
      decreases max - |r|, ok
    {
      ok, r := DecodeOneMore(sub, t, r, held, parts, n);
      n := n + 1;
    }
    if hyp && ok {
      PackedSplit(t, parts, n);
      assert Values(t, parts)[..|parts|] == Values(t, parts);
    }
  }

  method DecodeOneMore(sub: IStream, t: FieldType, now: seq<Value>, ghost held: seq<Value>, ghost parts: seq<Bytes>,
                       ghost n: nat)
    returns (ok: bool, r: seq<Value>)
    requires Packable(t) && TypeWellFormed(t) && sub.bytes != [] && forall k :: 0 <= k < |now| ==> Held(t, now[k])
    modifies sub
    ensures |r| == |now| + (if ok then 1 else 0) && forall k :: 0 <= k < |r| ==> Held(t, r[k])
    ensures PackedTo(t, held, parts, n, old(sub.bytes), now) ==>
              if ok then PackedTo(t, held, parts, n + 1, sub.bytes, r) else !AllRead(t, parts)
    decreases t, 2
  {
    ghost var was, hyp := sub.bytes, PackedTo(t, held, parts, n, sub.bytes, now);
    DefaultHeld(t);
    var item;
    ok, item := DecodeScalar(sub, t, DefaultValue(t));
    r := if ok then now + [item] else now;
    if hyp {
      PackedSplit(t, parts, n);
      assert was[..|parts[n]|] == parts[n];
      if ok {
        FrameIs(WireType(t), was, |was| - |sub.bytes|, parts[n], Flat(parts[n + 1..]));
        assert Values(t, parts)[..n + 1] == Values(t, parts)[..n] + [item];
      }
    }
  }

  lemma PackedSplit(t: FieldType, parts: seq<Bytes>, n: nat)
    requires Packable(t) && n <= |parts| && forall k :: 0 <= k < |parts| ==> Framed(t, parts[k])
    ensures n < |parts| ==> Flat(parts[n..]) == parts[n] + Flat(parts[n + 1..]) && parts[n] != []
    ensures n == |parts| ==> Flat(parts[n..]) == []
  {
    if n < |parts| {
      assert parts[n..][1..] == parts[n + 1..];
    }
  }

  /** The record is one of field f, sent in this wire type. */
  ghost predicate SlotRec(f: Field, wireType: nat, r: Rec) {
    match r
    case One(_, item) => wireType == WireType(f.ltype) && ItemOk(f.ltype, item)
    case Pack(_, parts) => wireType == 2 && IsPacked(f) && PartsOk(f.ltype, parts)
    case Unknown(_, _, _) => false
  }

  /** The wire type in which a record of field f is read: whatever its tag says, that of
      the field, unless it is packed. */
  function SlotWire(f: Field, wireType: nat): nat {
    if wireType == 2 && IsPacked(f) then 2 else WireType(f.ltype)
  }

  /** An unpacked record of a repeated field that is already full, or more than full. */
  predicate Overflows(f: Field, wireType: nat, held: seq<Value>) {
    f.rule.Repeated? && !(wireType == 2 && Packable(f.ltype)) && |held| >= f.rule.max
  }

  /** decode_static_field, on what the field holds.  A record that overflows fails, and
      yet the count in the structure goes up; nothing is written for it. */
  method DecodeSlot(stream: IStream, wireType: nat, f: Field, held: seq<Value>, ghost rec: Rec, ghost rest: Bytes)
    returns (ok: bool, r: seq<Value>, ghost full: bool)
    requires FieldWellFormed(f) && LooseSlot(f, held)
    modifies stream
    ensures |stream.bytes| <= |old(stream.bytes)| && LooseSlot(f, r)
    ensures HeldSlot(f, held) ==> LeavesSlot(f, r, ok, full)
    ensures if Overflows(f, wireType, held) then !ok && full && r == held + [DefaultValue(f.ltype)]
            else full ==> f.ltype.SubmessageType?
    ensures SlotRec(f, wireType, rec) && old(stream.bytes) == Payload(f.ltype, rec) + rest ==>
              match TakeSlot(f, held, rec)
              case Some(items) => ok && r == items && stream.bytes == rest
              case None => !ok
    ensures ok ==> Begins(SlotWire(f, wireType), old(stream.bytes))
    decreases f, 3
  {
    DefaultHeld(f.ltype);
    HeldLoose(f.ltype, DefaultValue(f.ltype));
    ghost var one := if rec.One? then rec.item else Raw([]);
    if IsArray(f) {
      ok, r, full := DecodeInArray(stream, wireType, f, held, rec, rest);
    } else {
      var base := if held == [] then DefaultValue(f.ltype) else held[0];
      var item;
      ok, item, full := DecodeItem(stream, f.ltype, base, one, rest);
      r := [item];
      OnlyOne(f, held, item, ok, full);
    }
  }

  /** A record of an array: packed, or one item. */
  method DecodeInArray(stream: IStream, wireType: nat, f: Field, held: seq<Value>, ghost rec: Rec, ghost rest: Bytes)
    returns (ok: bool, r: seq<Value>, ghost full: bool)
    requires FieldWellFormed(f) && LooseSlot(f, held) && IsArray(f)
    modifies stream
    ensures |stream.bytes| <= |old(stream.bytes)| && LooseSlot(f, r)
    ensures HeldSlot(f, held) ==> LeavesSlot(f, r, ok, full)
    ensures if Overflows(f, wireType, held) then !ok && full && r == held + [DefaultValue(f.ltype)]
            else full ==> f.ltype.SubmessageType?
    ensures SlotRec(f, wireType, rec) && old(stream.bytes) == Payload(f.ltype, rec) + rest ==>
              match TakeSlot(f, held, rec)
              case Some(items) => ok && r == items && stream.bytes == rest
              case None => !ok
    ensures ok ==> Begins(SlotWire(f, wireType), old(stream.bytes))
    decreases f, 2
  {
    DefaultHeld(f.ltype);
    HeldLoose(f.ltype, DefaultValue(f.ltype));
    full := false;
    var max := MaxItems(f);
    if wireType == 2 && Packable(f.ltype) {
      PackableHeld(f, held);
      ok, r := DecodePacked(stream, f.ltype, held, max, if rec.Pack? then rec.parts else [], rest);
      PackableLoose(f, r);
    } else if |held| >= max {
      ok, r, full := false, held, f.rule.Repeated?;
      if f.rule.Repeated? {
        r := held + [DefaultValue(f.ltype)];
      }
    } else {
      var item;
      ok, item, full := DecodeItem(stream, f.ltype, DefaultValue(f.ltype), if rec.One? then rec.item else Raw([]),
                                   rest);
      r := held + [item];
      OneMore(f, held, item, ok, full);
    }
  }

  /** Entries of a packed array are no submessages. */
  lemma PackableHeld(f: Field, held: seq<Value>)
    requires Packable(f.ltype) && LooseSlot(f, held)
    ensures forall k :: 0 <= k < |held| && (f.rule.Repeated? ==> k < f.rule.max) ==> Held(f.ltype, held[k])
  {
  }

  lemma PackableLoose(f: Field, r: seq<Value>)
    requires Packable(f.ltype)
    requires forall k :: 0 <= k < |r| && (f.rule.Repeated? ==> k < f.rule.max) ==> Held(f.ltype, r[k])
    ensures f.rule.Repeated? || CountFits(f, r) ==> LooseSlot(f, r)
    ensures CountFits(f, r) && IsArray(f) ==> HeldSlot(f, r)
  {
  }

  lemma OneMore(f: Field, held: seq<Value>, item: Value, ok: bool, full: bool)
    requires LooseSlot(f, held) && Loose(f.ltype, item) && Leaves(f.ltype, item, ok, full)
    requires IsArray(f) && CountFits(f, held + [item])
    ensures LooseSlot(f, held + [item])
    ensures HeldSlot(f, held) ==> LeavesSlot(f, held + [item], ok, full)
  {
    var r := held + [item];
    assert r[|held|] == item && forall k :: 0 <= k < |held| ==> r[k] == held[k];
  }

  lemma OnlyOne(f: Field, held: seq<Value>, item: Value, ok: bool, full: bool)
    requires !IsArray(f) && LooseSlot(f, held) && Loose(f.ltype, item)
    requires HeldSlot(f, held) ==> Leaves(f.ltype, item, ok, full)
    ensures LooseSlot(f, [item]) && (HeldSlot(f, held) ==> LeavesSlot(f, [item], ok, full))
  {
    assert [item][0] == item;
  }

  // ---------- messages ----------

  /** pb_skip_field: takes one payload of the wire type, and succeeds when one is there. */
  method SkipField(stream: IStream, wireType: nat) returns (ok: bool)
    modifies stream
    ensures |stream.bytes| <= |old(stream.bytes)|
    ensures ok ==> Passed(wireType, old(stream.bytes)[..|old(stream.bytes)| - |stream.bytes|])
                   && stream.bytes == old(stream.bytes)[|old(stream.bytes)| - |stream.bytes|..]
    ensures forall k :: 0 <= k <= |old(stream.bytes)| && Skippable(wireType, old(stream.bytes)[..k]) ==>
              ok && stream.bytes == old(stream.bytes)[k..]
  {
    if wireType == 0 {
      ok := SkipVarint(stream);
    } else if wireType == 1 {
      var b;
      ok, b := stream.Read(8);
    } else if wireType == 2 {
      ok := SkipString(stream);
    } else if wireType == 5 {
      var b;
      ok, b := stream.Read(4);
    } else {
      ok := false;
    }
  }

  /** pb_skip_varint: of any length. */
  method SkipVarint(stream: IStream) returns (ok: bool)
    modifies stream
    ensures |stream.bytes| <= |old(stream.bytes)|
    ensures var was, n := old(stream.bytes), |old(stream.bytes)| - |stream.bytes|;
            ok ==> IsVarint(was[..n]) && stream.bytes == was[n..]
    ensures forall k :: 0 <= k <= |old(stream.bytes)| && IsVarint(old(stream.bytes)[..k]) ==>
              ok && stream.bytes == old(stream.bytes)[k..]
  {
    ghost var was, n, whole: nat := stream.bytes, 0, 0;
    var b: byte := 128;
    ok := true;
    while ok && b >= 128
      invariant ok ==> n == |was| - |stream.bytes| && stream.bytes == was[n..]
      invariant ok && b >= 128 ==> GroupsRead(was, stream.bytes, n, whole)
      invariant ok && b < 128 ==> IsVarint(was[..n])
      invariant !ok ==> stream.bytes == [] && forall k :: 0 < k <= |was| ==> !IsVarint(was[..k])
      decreases ok && b >= 128, |stream.bytes|
    {
      ok, b := ReadGroup(stream, n, was, whole);
      if ok { n, whole := n + 1, whole + (b as nat % 128) * Scale(n); }
    }
    if ok { OnlyVarint(was, n); }
  }

  /** pb_skip_string: a length, and that many bytes. */
  method SkipString(stream: IStream) returns (ok: bool)
    modifies stream
    ensures |stream.bytes| <= |old(stream.bytes)|
    ensures var was, n := old(stream.bytes), |old(stream.bytes)| - |stream.bytes|;
            ok ==> Passed(2, was[..n]) && stream.bytes == was[n..]
    ensures forall k :: 0 <= k <= |old(stream.bytes)| && Skippable(2, old(stream.bytes)[..k]) ==>
              ok && stream.bytes == old(stream.bytes)[k..]
  {
    ghost var was := stream.bytes;
    var eof, n, b;
    ok, eof, n := DecodeVarint32(stream, 0, []);
    if !ok {
      LengthRefused(was, U32);
      NotLonger(was);
      return;
    }
    ghost var at := |was| - |stream.bytes|;
    StringHere(was, at, n);
    ok, b := stream.Read(n);
    assert ok ==> stream.bytes == was[at + n..];
  }

  /** A record after a message: of field j, in this wire type, its payload and the rest. */
  datatype Extra = Extra(j: nat, wire: nat, tail: Bytes)

  /** `more` is an unpacked record of a repeated field that the message has filled. */
  ghost predicate OneTooMany(fields: seq<Field>, slots: seq<seq<Value>>, x: Extra, more: Bytes) {
    && x.j < |fields| == |slots| && x.wire < 8 && Overflows(fields[x.j], x.wire, slots[x.j])
    && more == TagBytes(fields[x.j].tag, x.wire) + x.tail
  }

  /** The structure after it: one count is one too large. */
  function Overfull(fields: seq<Field>, slots: seq<seq<Value>>, j: nat): seq<seq<Value>>
    requires j < |fields| == |slots|
  {
    slots[j := slots[j] + [DefaultValue(fields[j].ltype)]]
  }

  // ---------- one record ----------

  ghost predicate Intact(fields: seq<Field>, p: Progress) {
    LooseAll(fields, p.dest) && (p.fixed.Some? ==> p.fixed.value < |fields| && fields[p.fixed.value].rule.FixedCount?)
  }

  /** The rest of decode_noinit's loop body: a record of field iter.pos. */
  method DecodeRecord(stream: IStream, wireType: nat, fields: seq<Field>, j: nat, p: Progress, ghost rec: Rec,
                      ghost rest: Bytes)
    returns (ok: bool, q: Progress, ghost full: bool)
    requires WellFormed(fields) && j < |fields| && Intact(fields, p)
    modifies stream
    ensures |stream.bytes| <= |old(stream.bytes)| && Intact(fields, q)
    ensures HeldAll(fields, p.dest) ==> LeavesAll(fields, q.dest, ok, full)
    ensures Of(rec, j) && SlotRec(fields[j], wireType, rec)
              && old(stream.bytes) == Payload(fields[j].ltype, rec) + rest ==>
              match TakeRec(fields, p, rec)
              case Some(s) => ok && q == s && stream.bytes == rest
              case None => !ok
    ensures ok ==> Begins(SlotWire(fields[j], wireType), old(stream.bytes))
    ensures Overflows(fields[j], wireType, p.dest[j]) ==> !ok && full && q.dest == Overfull(fields, p.dest, j)
    decreases fields, 0
  {
    full := false;
    ok, q := Prepare(fields, j, p);
    if ok {
      var r;
      ok, r, full := DecodeSlot(stream, wireType, fields[j], q.dest[j], rec, rest);
      ghost var before := q.dest;
      q := q.(dest := q.dest[j := r]);
      SlotStored(fields, before, j, r, ok, full);
    }
  }

  /** What a record does to its field is all it does to the structure. */
  lemma SlotStored(fields: seq<Field>, dest: seq<seq<Value>>, j: nat, r: seq<Value>, ok: bool, full: bool)
    requires j < |fields| && LooseAll(fields, dest) && LooseSlot(fields[j], r)
    requires HeldSlot(fields[j], dest[j]) ==> LeavesSlot(fields[j], r, ok, full)
    ensures LooseAll(fields, dest[j := r])
    ensures HeldAll(fields, dest) ==> LeavesAll(fields, dest[j := r], ok, full)
  {
  }

  /** A fixed-count array met anew starts from nothing, and the one met before must
      be complete; a required field is marked; a oneof is cleared. */
  method Prepare(fields: seq<Field>, j: nat, p: Progress) returns (ok: bool, q: Progress)
    requires j < |fields| && Intact(fields, p)
    ensures Intact(fields, q) && (HeldAll(fields, p.dest) ==> HeldAll(fields, q.dest))
    ensures match Prepared(fields, j, p) case Some(s) => ok && q == s case None => !ok
    ensures fields[j].rule.Repeated? ==> ok && q.dest == p.dest
  {
    q := p;
    var f := fields[j];
    if f.rule.FixedCount? && p.fixed != Some(j) {
      if p.fixed.Some? && |p.dest[p.fixed.value]| != fields[p.fixed.value].rule.count {
        return false, q;
      }
      q := q.(fixed := Some(j), dest := q.dest[j := []]);
    }
    if f.rule.Required? && RequiredBefore(fields, j) < MAX_REQUIRED {
      q := q.(seen := q.seen + {RequiredBefore(fields, j)});
    }
    q := q.(dest := ClearUnion(fields, j, q.dest));
    ok := true;
  }

  // ---------- whole messages ----------

  /** There is no whole tag. */
  ghost predicate Tagless(b: Bytes) {
    forall k :: 0 < k <= |b| ==> !IsVarint(b[..k])
  }

  /** A whole tag, and then no payload in the wire type in which it would be read. */
  ghost predicate Halved(fields: seq<Field>, tag: nat, wire: nat, tail: Bytes, bytes: Bytes) {
    && 1 <= tag < TAG_LIMIT && wire < 8 && bytes == TagBytes(tag, wire) + tail
    && if forall j :: 0 <= j < |fields| ==> fields[j].tag != tag then !Begins(wire, tail)
       else exists j :: 0 <= j < |fields| && fields[j].tag == tag && !Begins(SlotWire(fields[j], wire), tail)
  }

  /** These bytes begin with no record. */
  ghost predicate Stuck(fields: seq<Field>, bytes: Bytes) {
    bytes != [] && (Tagless(bytes) || exists tag, wire, tail :: Halved(fields, tag, wire, tail, bytes))
  }

  /** pb_decode_tag. */
  method DecodeTag(stream: IStream, ghost tag: nat, ghost wire: nat, ghost rest: Bytes)
    returns (ok: bool, eof: bool, number: nat, wireType: nat)
    modifies stream
    ensures |stream.bytes| <= |old(stream.bytes)| && (ok ==> |stream.bytes| < |old(stream.bytes)|)
    ensures 1 <= tag < TAG_LIMIT && wire < 8 && old(stream.bytes) == TagBytes(tag, wire) + rest ==>
              ok && number == tag && wireType == wire && stream.bytes == rest
    ensures old(stream.bytes) != [] && Tagless(old(stream.bytes)) ==> !ok && !eof
  {
    var temp;
    ok, eof, temp := DecodeVarint32(stream, tag * 8 + wire, rest);
    number, wireType := temp / 8, temp % 8;
    if ok && temp == 0 {
      ok, eof := false, true;
    }
  }

  /** The number on the tag of a record. */
  function NumberOf(fields: seq<Field>, r: Rec): nat {
    if r.Unknown? then r.tag else if r.j < |fields| then fields[r.j].tag else 0
  }

  function WireOf(fields: seq<Field>, r: Rec): nat {
    match r
    case Unknown(_, wire, _) => wire
    case Pack(_, _) => 2
    case One(j, _) => if j < |fields| then WireType(fields[j].ltype) else 0
  }

  /** A record is its tag and its payload. */
  lemma RecSplits(fields: seq<Field>, r: Rec, rest: Bytes)
    requires WellFormed(fields) && RecOk(fields, r)
    ensures 1 <= NumberOf(fields, r) < TAG_LIMIT && WireOf(fields, r) < 8
    ensures var payload := if r.Unknown? then r.payload else Payload(fields[r.j].ltype, r);
            RecWire(fields, r) + rest == TagBytes(NumberOf(fields, r), WireOf(fields, r)) + (payload + rest)
    ensures !r.Unknown? ==> SlotRec(fields[r.j], WireOf(fields, r), r)
    ensures forall j :: 0 <= j < |fields| && fields[j].tag == NumberOf(fields, r) ==> !r.Unknown? && j == r.j
  {
    assert !r.Unknown? ==> FieldWellFormed(fields[r.j]);
  }

  /** The loop body of pb_decode_noinit: a tag, then a record of a known field, or
      one to skip.  `stop` at the end of a zero-terminated message.  The terminator of an
      empty descriptor is found under tag 0, and is decoded as a bool. */
  method DecodeNext(stream: IStream, iter: FieldIter, p: Progress, ghost rec: Rec, ghost rest: Bytes, ghost x: Extra)
    returns (ok: bool, stop: bool, q: Progress, ghost full: bool)
    requires iter.Valid() && WellFormed(iter.fields) && Intact(iter.fields, p) && stream.bytes != []
    modifies stream, iter
    ensures iter.Valid() && Intact(iter.fields, q)
    ensures HeldAll(iter.fields, p.dest) ==> LeavesAll(iter.fields, q.dest, ok, full)
    ensures if ok && !stop then |stream.bytes| < |old(stream.bytes)| else |stream.bytes| <= |old(stream.bytes)|
    ensures RecOk(iter.fields, rec) && old(stream.bytes) == RecWire(iter.fields, rec) + rest ==>
              !stop && match TakeRec(iter.fields, p, rec)
                       case Some(s) => ok && q == s && stream.bytes == rest
                       case None => !ok
    ensures !RecOk(iter.fields, rec) && OneTooMany(iter.fields, p.dest, x, old(stream.bytes)) ==>
              !ok && full && q.dest == Overfull(iter.fields, p.dest, x.j)
    ensures !RecOk(iter.fields, rec) && Stuck(iter.fields, old(stream.bytes)) ==> !ok
    decreases iter.fields, 2
  {
    ghost var tag, wire, after := Ahead(iter.fields, p, rec, rest, x, stream.bytes);
    q, stop, full := p, false, false;
    var number, wireType;
    ok, stop, number, wireType := DecodeTag(stream, tag, wire, after);
    if !ok {
      ok := stop;
      return;
    }
    stop := false;
    ok, q, full := DecodeTagged(stream, iter, number, wireType, p, rec, rest, x);
  }

  function PayloadOf(fields: seq<Field>, r: Rec): Bytes {
    if r.Unknown? then r.payload else if r.j < |fields| then Payload(fields[r.j].ltype, r) else []
  }

  /** The tag that comes next, if the bytes are a record, one too many, or a broken one. */
  lemma Ahead(fields: seq<Field>, p: Progress, rec: Rec, rest: Bytes, x: Extra, bytes: Bytes)
    returns (tag: nat, wire: nat, after: Bytes)
    requires WellFormed(fields)
    ensures RecOk(fields, rec) && bytes == RecWire(fields, rec) + rest ==>
              && tag == NumberOf(fields, rec) && wire == WireOf(fields, rec) && after == PayloadOf(fields, rec) + rest
              && 1 <= tag < TAG_LIMIT && wire < 8 && bytes == TagBytes(tag, wire) + after
    ensures !RecOk(fields, rec) && OneTooMany(fields, p.dest, x, bytes) ==>
              && tag == fields[x.j].tag && wire == x.wire && after == x.tail
              && 1 <= tag < TAG_LIMIT && bytes == TagBytes(tag, wire) + after
    ensures !RecOk(fields, rec) && !OneTooMany(fields, p.dest, x, bytes) && Stuck(fields, bytes) && !Tagless(bytes) ==>
              Halved(fields, tag, wire, after, bytes)
  {
    tag, wire, after := 0, 0, [];
    if RecOk(fields, rec) {
      RecSplits(fields, rec, rest);
      tag, wire, after := NumberOf(fields, rec), WireOf(fields, rec), PayloadOf(fields, rec) + rest;
    } else if OneTooMany(fields, p.dest, x, bytes) {
      assert FieldWellFormed(fields[x.j]);
      tag, wire, after := fields[x.j].tag, x.wire, x.tail;
    } else if Stuck(fields, bytes) && !Tagless(bytes) {
      tag, wire, after :| Halved(fields, tag, wire, after, bytes);
    }
  }

  /** A record after its tag. */
  method DecodeTagged(stream: IStream, iter: FieldIter, number: nat, wireType: nat, p: Progress, ghost rec: Rec,
                      ghost rest: Bytes, ghost x: Extra)
    returns (ok: bool, q: Progress, ghost full: bool)
    requires iter.Valid() && WellFormed(iter.fields) && Intact(iter.fields, p)
    modifies stream, iter
    ensures iter.Valid() && Intact(iter.fields, q) && |stream.bytes| <= |old(stream.bytes)|
    ensures HeldAll(iter.fields, p.dest) ==> LeavesAll(iter.fields, q.dest, ok, full)
    ensures RecOk(iter.fields, rec) && number == NumberOf(iter.fields, rec) && wireType == WireOf(iter.fields, rec)
              && old(stream.bytes) == PayloadOf(iter.fields, rec) + rest ==>
              match TakeRec(iter.fields, p, rec)
              case Some(s) => ok && q == s && stream.bytes == rest
              case None => !ok
    ensures x.j < |iter.fields| && number == iter.fields[x.j].tag
              && Overflows(iter.fields[x.j], wireType, p.dest[x.j]) ==>
              !ok && full && q.dest == Overfull(iter.fields, p.dest, x.j)
    ensures ok && number > 0 ==>
              && ((forall j :: 0 <= j < |iter.fields| ==> iter.fields[j].tag != number) ==>
                    Begins(wireType, old(stream.bytes)))
              && (forall j :: 0 <= j < |iter.fields| && iter.fields[j].tag == number ==>
                    Begins(SlotWire(iter.fields[j], wireType), old(stream.bytes)))
    decreases iter.fields, 1
  {
    q, full := p, false;
    if RecOk(iter.fields, rec) {
      RecSplits(iter.fields, rec, rest);
      UnknownFront(rec, rest);
    }
    var found := iter.Find(number);
    if found && iter.fields == [] {
      var eof, value;
      ok, eof, value := DecodeVarint32(stream, 0, []);
    } else if found {
      ok, q, full := DecodeRecord(stream, wireType, iter.fields, iter.pos, p, rec, rest);
    } else {
      ok := SkipField(stream, wireType);
    }
  }

  lemma UnknownFront(rec: Rec, rest: Bytes)
    ensures rec.Unknown? ==> (rec.payload + rest)[..|rec.payload|] == rec.payload
                             && (rec.payload + rest)[|rec.payload|..] == rest
  {
  }

  /** How far the loop of pb_decode_noinit has come with these records. */
  ghost predicate Reading(fields: seq<Field>, base: seq<seq<Value>>, rs: seq<Rec>, n: nat, p: Progress, bytes: Bytes,
                          more: Bytes)
    requires |base| == |fields|
  {
    && n <= |rs| && RecsOk(fields, rs) && TakeRecs(fields, Progress(base, None, {}), rs[..n]) == Some(p)
    && bytes == RecsWire(fields, rs[n..]) + more
  }

  /** The input is these records, and then nothing, or a record too many. */
  ghost predicate Claimed(fields: seq<Field>, base: seq<seq<Value>>, rs: seq<Rec>, more: Bytes, x: Extra, bytes: Bytes)
    requires |base| == |fields|
  {
    && RecsOk(fields, rs) && bytes == RecsWire(fields, rs) + more
    && (more == [] || match TakeRecs(fields, Progress(base, None, {}), rs)
                      case Some(p) => OneTooMany(fields, p.dest, x, more) || Stuck(fields, more)
                      case None => true)
  }

  /** One more record to read. */
  lemma ReadingNext(fields: seq<Field>, base: seq<seq<Value>>, rs: seq<Rec>, n: nat, p: Progress, bytes: Bytes,
                    more: Bytes)
    requires |base| == |fields| && Reading(fields, base, rs, n, p, bytes, more) && n < |rs|
    ensures RecOk(fields, rs[n]) && bytes == RecWire(fields, rs[n]) + (RecsWire(fields, rs[n + 1..]) + more)
    ensures Sized(fields, p)
    ensures TakeRecs(fields, Progress(base, None, {}), rs[..n + 1]) == TakeRec(fields, p, rs[n])
  {
    assert rs[n..][0] == rs[n] && rs[n..][1..] == rs[n + 1..];
    assert rs[..n + 1][..n] == rs[..n];
  }

  /** The loop goes on, or has come to the end of the records. */
  lemma ReadingOn(fields: seq<Field>, base: seq<seq<Value>>, rs: seq<Rec>, n: nat, p: Progress, bytes: Bytes,
                  more: Bytes, x: Extra)
    requires |base| == |fields| && Reading(fields, base, rs, n, p, bytes, more)
    requires RecsOk(fields, rs)
    requires more == [] || match TakeRecs(fields, Progress(base, None, {}), rs)
                           case Some(p) => OneTooMany(fields, p.dest, x, more) || Stuck(fields, more)
                           case None => true
    ensures n == |rs| ==> bytes == more && TakeRecs(fields, Progress(base, None, {}), rs) == Some(p)
    ensures n == |rs| && bytes != [] ==> OneTooMany(fields, p.dest, x, bytes) || Stuck(fields, bytes)
    ensures n < |rs| ==> bytes != []
  {
    if n == |rs| {
      assert rs[..n] == rs;
    } else {
      ReadingNext(fields, base, rs, n, p, bytes, more);
      RecNotEmpty(fields, rs[n]);
    }
  }

  lemma RecNotEmpty(fields: seq<Field>, r: Rec)
    requires RecOk(fields, r)
    ensures RecWire(fields, r) != []
  {
  }

  /** A record that cannot be taken is the end of it. */
  lemma {:induction false} TakeFails(fields: seq<Field>, p: Progress, rs: seq<Rec>, n: nat)
    requires Sized(fields, p) && n <= |rs| && TakeRecs(fields, p, rs[..n]) == None
    ensures TakeRecs(fields, p, rs) == None
    decreases |rs|
  {
    if n < |rs| {
      assert rs[..|rs| - 1][..n] == rs[..n];
      TakeFails(fields, p, rs[..|rs| - 1], n);
    } else {
      assert rs[..n] == rs;
    }
  }

  /** pb_decode_noinit.  Into an intact structure a decode that succeeds leaves an intact
      one; one that fails does too, unless an unpacked record met a full repeated field:
      then one count is one past its buffer.  A structure left like that may be decoded
      into again: its counts stay out of range or grow, and nothing is written for them.
      Of well-formed records it succeeds exactly when each can be taken in turn, fixed-count
      arrays are complete and required fields have come. */
  method DecodeNoinit(stream: IStream, fields: seq<Field>, base: seq<seq<Value>>, ghost rs: seq<Rec>, ghost more: Bytes,
                      ghost x: Extra)
    returns (ok: bool, dest: seq<seq<Value>>, ghost full: bool)
    requires WellFormed(fields) && LooseAll(fields, base)
    modifies stream
    ensures |stream.bytes| <= |old(stream.bytes)| && LooseAll(fields, dest)
    ensures HeldAll(fields, base) ==> LeavesAll(fields, dest, ok, full)
    ensures RecsOk(fields, rs) && old(stream.bytes) == RecsWire(fields, rs) ==>
              match TakeMessage(fields, base, rs) case Some(d) => ok && dest == d case None => !ok
    ensures RecsOk(fields, rs) && old(stream.bytes) == RecsWire(fields, rs) + more ==>
              match TakeRecs(fields, Progress(base, None, {}), rs)
              case Some(p) =>
                && (OneTooMany(fields, p.dest, x, more) ==> !ok && full && dest == Overfull(fields, p.dest, x.j))
                && (Stuck(fields, more) ==> !ok)
              case None => !ok
    decreases fields, 4
  {
    ghost var after := if stream.bytes == RecsWire(fields, rs) then [] else more;
    ghost var hyp := Claimed(fields, base, rs, after, x, stream.bytes);
    var iter := new FieldIter(fields);
    var p;
    ok, p, full := ReadRecords(stream, iter, base, rs, after, x);
    dest := p.dest;
    if !ok {
      return;
    }
    if p.fixed.Some? && |dest[p.fixed.value]| != fields[p.fixed.value].rule.count {
      return false, dest, false;
    }
    var required := iter.CountRequired();
    ok := forall r | 0 <= r < required && r < MAX_REQUIRED :: r in p.seen;
  }

  /** The loop of pb_decode_noinit. */
  method ReadRecords(stream: IStream, iter: FieldIter, base: seq<seq<Value>>, ghost rs: seq<Rec>, ghost more: Bytes,
                     ghost x: Extra)
    returns (ok: bool, p: Progress, ghost full: bool)
    requires iter.Valid() && WellFormed(iter.fields) && LooseAll(iter.fields, base)
    modifies stream, iter
    ensures iter.Valid() && |stream.bytes| <= |old(stream.bytes)| && Intact(iter.fields, p)
    ensures HeldAll(iter.fields, base) ==> LeavesAll(iter.fields, p.dest, ok, full)
    ensures Claimed(iter.fields, base, rs, more, x, old(stream.bytes)) ==>
              match TakeRecs(iter.fields, Progress(base, None, {}), rs)
              case Some(q) =>
                if more == [] then ok && p == q
                else
                  !ok && (OneTooMany(iter.fields, q.dest, x, more) ==>
                            full && p.dest == Overfull(iter.fields, q.dest, x.j))
              case None => !ok
    ensures ok ==> !full
    decreases iter.fields, 3
  {
    ghost var fields := iter.fields;
    ghost var hyp, n: nat := Claimed(fields, base, rs, more, x, stream.bytes), 0;
    ReadingStart(fields, base, rs, more, x, stream.bytes);
    var stop := false;
    p, ok, full := Progress(base, None, {}), true, false;
    while !stop && stream.bytes != []
      invariant iter.Valid() && Intact(fields, p)
      invariant HeldAll(fields, base) ==> HeldAll(fields, p.dest)
      invariant |stream.bytes| <= |old(stream.bytes)|
      invariant hyp ==> !stop && Reading(fields, base, rs, n, p, stream.bytes, more)
      decreases !stop, |stream.bytes|
    {
      ghost var due := hyp && n < |rs|;
      if hyp { ReadingOn(fields, base, rs, n, p, stream.bytes, more, x); }
      if due { ReadingNext(fields, base, rs, n, p, stream.bytes, more); }
      ok, stop, p, full := DecodeNext(stream, iter, p, if due then rs[n] else Pack(|fields|, []),
                                      if due then RecsWire(fields, rs[n + 1..]) + more else [], x);
      if !ok {
        if due { TakeFails(fields, Progress(base, None, {}), rs, n + 1); }
        return;
      }
      n := if due then n + 1 else n;
    }
    ok, full := true, false;
    if hyp { ReadingOn(fields, base, rs, n, p, [], more, x); }
  }

  lemma ReadingStart(fields: seq<Field>, base: seq<seq<Value>>, rs: seq<Rec>, more: Bytes, x: Extra, bytes: Bytes)
    requires |base| == |fields|
    ensures Claimed(fields, base, rs, more, x, bytes) ==>
              Reading(fields, base, rs, 0, Progress(base, None, {}), bytes, more)
  {
    assert rs[0..] == rs && rs[..0] == [];
  }

  /** pb_decode: into a structure set to its defaults.  Whatever the input, nothing is
      written past a buffer, and counts are in range afterwards unless the decode failed
      on a record too many.  Of plain records it succeeds exactly when they deliver a
      message, whatever their order and whatever unknown ones are among them, and gives
      that message; of any well-formed ones, exactly when they can be taken in turn. */
  method DecodeRecords(bytes: Bytes, fields: seq<Field>, ghost rs: seq<Rec>, ghost more: Bytes, ghost x: Extra)
    returns (ok: bool, dest: seq<seq<Value>>, ghost full: bool)
    requires WellFormed(fields)
    ensures LooseAll(fields, dest) && LeavesAll(fields, dest, ok, full) && (full <==> !HeldAll(fields, dest))
    ensures RecsOk(fields, rs) && bytes == RecsWire(fields, rs) ==>
              match TakeMessage(fields, Defaults(fields), rs) case Some(d) => ok && dest == d case None => !ok
    ensures RecsOk(fields, rs) && Plain(fields, rs) && bytes == RecsWire(fields, rs) ==>
              (ok <==> exists d :: Delivers(fields, d, rs)) && (ok ==> Delivers(fields, dest, rs))
    ensures RecsOk(fields, rs) && bytes == RecsWire(fields, rs) + more ==>
              match TakeRecs(fields, Progress(Defaults(fields), None, {}), rs)
              case Some(p) =>
                && (OneTooMany(fields, p.dest, x, more) ==> !ok && full && dest == Overfull(fields, p.dest, x.j))
                && (Stuck(fields, more) ==> !ok)
              case None => !ok
  {
    DefaultsHeld(fields);
    HeldAllLoose(fields, Defaults(fields));
    var stream := new IStream(bytes);
    ok, dest, full := DecodeNoinit(stream, fields, Defaults(fields), rs, more, x);
    if full {
      SpilledNotHeld(fields, dest);
    }
    if RecsOk(fields, rs) && Plain(fields, rs) && bytes == RecsWire(fields, rs) {
      forall d ensures ok && dest == d <==> Delivers(fields, d, rs) {
        TakenIsDelivered(fields, rs, d);
      }
      assert ok <==> Delivers(fields, dest, rs);
    }
  }

  /** A message that its own encoding restores. */
  ghost predicate Sent(fields: seq<Field>, slots: seq<seq<Value>>) {
    Shaped(fields, slots) && MessageRestorable(fields, slots) && |Wire(fields, slots)| < U32
  }

  /** Every marked field fits. */
  ghost predicate MarkedFit(fields: seq<Field>, slots: seq<seq<Value>>, ks: seq<bool>)
    requires |fields| == |slots| == |ks|
  {
    forall i :: 0 <= i < |fields| && ks[i] ==> FieldRestorable(fields[i], slots[i])
  }

  /** The records of a message for a reader of the marked fields, and what becomes of them. */
  lemma SentRecords(fields: seq<Field>, slots: seq<seq<Value>>, ks: seq<bool>)
    requires WellFormed(fields) && Shaped(fields, slots) && |ks| == |fields| && |Wire(fields, slots)| < U32
    ensures var sub, rs := Sub(fields, ks), RecsOf(fields, slots, ks, 0);
            && RecsOk(sub, rs) && RecsWire(sub, rs) == Wire(fields, slots)
            && TakeMessage(sub, Defaults(sub), rs)
               == (if MarkedFit(fields, slots, ks) then Some(Sub(slots, ks)) else None)
  {
    var sub, d, rs := Sub(fields, ks), Sub(slots, ks), RecsOf(fields, slots, ks, 0);
    SubLength(fields, slots, ks);
    assert sub[0..] == sub && d[0..] == d && [] + rs == rs;
    SubMembers(fields, slots, ks);
    WireIsRecs(fields, slots, ks, 0, sub);
    MessageOk(fields, slots, ks, 0, sub);
    MessageInOrder(fields, slots, ks, 0, sub, d);
    MessagePlainRecs(fields, slots, ks, 0, sub);
    OrderIsPlain(sub, d, rs);
    if MarkedFit(fields, slots, ks) {
      RecsDeliver(fields, slots, ks);
      TakenIsDelivered(sub, rs, d);
    } else if TakeMessage(sub, Defaults(sub), rs).Some? {
      var e := TakeMessage(sub, Defaults(sub), rs).value;
      TakenIsDelivered(sub, rs, e);
      MessageFits(fields, slots, ks, 0, sub, e, []);
    }
  }

  /** The encoding of a message is decoded exactly when every string and array fits the
      buffer it is decoded into, for a string with its terminator; and to that message.  A
      message and then a record of a field it has filled is a failure that leaves a count
      out of range. */
  method Decode(bytes: Bytes, fields: seq<Field>, ghost slots: seq<seq<Value>>, ghost more: Bytes, ghost x: Extra)
    returns (ok: bool, dest: seq<seq<Value>>, ghost full: bool)
    requires WellFormed(fields)
    ensures LooseAll(fields, dest) && LeavesAll(fields, dest, ok, full) && (full <==> !HeldAll(fields, dest))
    ensures Shaped(fields, slots) && |Wire(fields, slots)| < U32 && bytes == Wire(fields, slots) ==>
              (ok <==> MessageRestorable(fields, slots)) && (ok ==> dest == slots)
    ensures Sent(fields, slots) && bytes == Wire(fields, slots) + more && OneTooMany(fields, slots, x, more) ==>
              !ok && full && dest == Overfull(fields, slots, x.j)
    ensures Sent(fields, slots) && bytes == Wire(fields, slots) + more && Stuck(fields, more) ==> !ok
  {
    ghost var rs := [];
    if Shaped(fields, slots) && |Wire(fields, slots)| < U32 {
      rs := RecsOf(fields, slots, All(|fields|), 0);
      SubAll(fields);
      SubAll(slots);
      SentRecords(fields, slots, All(|fields|));
      assert MarkedFit(fields, slots, All(|fields|)) <==> MessageRestorable(fields, slots);
    }
    ok, dest, full := DecodeRecords(bytes, fields, rs, more, x);
  }

  /** A reader that knows only some of the fields of a message decodes it exactly when
      those fit, and to exactly those. */
  method DecodeUnder(bytes: Bytes, fields: seq<Field>, ks: seq<bool>, ghost slots: seq<seq<Value>>)
    returns (ok: bool, dest: seq<seq<Value>>)
    requires WellFormed(fields) && |ks| == |fields|
    ensures Shaped(fields, slots) && |Wire(fields, slots)| < U32 && bytes == Wire(fields, slots) ==>
              (ok <==> MarkedFit(fields, slots, ks)) && (ok ==> dest == Sub(slots, ks))
  {
    SubWellFormed(fields, ks);
    ghost var rs := [];
    ghost var full;
    if Shaped(fields, slots) && |Wire(fields, slots)| < U32 {
      rs := RecsOf(fields, slots, ks, 0);
      SentRecords(fields, slots, ks);
    }
    ok, dest, full := DecodeRecords(bytes, Sub(fields, ks), rs, [], Extra(0, 0, []));
  }

  /** Input that ends inside a record begins with no record there. */
  lemma CutIsStuck(fields: seq<Field>, r: Rec, m: nat)
    requires WellFormed(fields) && RecOk(fields, r) && 0 < m < |RecWire(fields, r)|
    ensures Stuck(fields, RecWire(fields, r)[..m])
  {
    var head, payload := TagBytes(NumberOf(fields, r), WireOf(fields, r)), PayloadOf(fields, r);
    RecParts(fields, r);
    CutConcat(head, payload, m);
    if m < |head| {
      CutVarint(head, m);
    } else {
      HalvedIs(fields, r, m - |head|, RecWire(fields, r)[..m]);
    }
  }

  lemma CutConcat(a: Bytes, b: Bytes, m: nat)
    requires m < |a + b|
    ensures (a + b)[..m] == if m < |a| then a[..m] else a + b[..m - |a|]
  {
  }

  lemma RecParts(fields: seq<Field>, r: Rec)
    requires WellFormed(fields) && RecOk(fields, r)
    ensures RecWire(fields, r) == TagBytes(NumberOf(fields, r), WireOf(fields, r)) + PayloadOf(fields, r)
    ensures IsVarint(TagBytes(NumberOf(fields, r), WireOf(fields, r)))
  {
    RecSplits(fields, r, []);
    assert RecWire(fields, r) + [] == RecWire(fields, r) && PayloadOf(fields, r) + [] == PayloadOf(fields, r);
    AnyVarint(NumberOf(fields, r) * 8 + WireOf(fields, r));
  }

  lemma HalvedIs(fields: seq<Field>, r: Rec, m: nat, bytes: Bytes)
    requires WellFormed(fields) && RecOk(fields, r) && m < |PayloadOf(fields, r)|
    requires bytes == TagBytes(NumberOf(fields, r), WireOf(fields, r)) + PayloadOf(fields, r)[..m]
    ensures Halved(fields, NumberOf(fields, r), WireOf(fields, r), PayloadOf(fields, r)[..m], bytes)
  {
    RecSplits(fields, r, []);
    PayloadSkippable(fields, r);
    CutPayload(if r.Unknown? then r.wire else SlotWire(fields[r.j], WireOf(fields, r)), PayloadOf(fields, r), m);
  }

  lemma CutVarint(b: Bytes, m: nat)
    requires IsVarint(b) && m < |b|
    ensures Tagless(b[..m])
  {
    assert b[..|b|] == b;
    forall k | 0 < k <= m ensures !IsVarint(b[..m][..k]) {
      assert b[..m][..k] == b[..k];
      if IsVarint(b[..k]) { SameVarint(b, k, |b|); }
    }
  }

  lemma CutPayload(wire: nat, b: Bytes, m: nat)
    requires Skippable(wire, b) && m < |b|
    ensures !Begins(wire, b[..m])
  {
    assert b + [] == b;
    forall k | 0 <= k <= m ensures !Passed(wire, b[..m][..k]) {
      assert b[..m][..k] == b[..k];
      if Passed(wire, b[..k]) { FrameIs(wire, b, k, b, []); }
    }
  }

  lemma PayloadSkippable(fields: seq<Field>, r: Rec)
    requires WellFormed(fields) && RecOk(fields, r)
    ensures Skippable(if r.Unknown? then r.wire else SlotWire(fields[r.j], WireOf(fields, r)), PayloadOf(fields, r))
  {
    match r
    case Unknown(_, _, _) =>
    case Pack(j, parts) => StringSkippable(Flat(parts));
    case One(j, item) => ItemSkips(fields[j].ltype, item);
  }

  lemma ItemSkips(t: FieldType, item: Item)
    requires ItemOk(t, item)
    ensures Skippable(WireType(t), ItemWire(t, item))
  {
    if item.Nested? { StringSkippable(RecsWire(t.fields, item.recs)); }
  }

  /** Two records of an array of one: the decode fails and leaves a count of two. */
  method OverfullArray() returns (ok: bool, dest: seq<seq<Value>>)
    ensures !ok && |dest| == 1 && |dest[0]| == 2 && !HeldSlot(Field(1, Repeated(1), StringType(4)), dest[0])
  {
    var fields := [Field(1, Repeated(1), StringType(4))];
    ghost var slots, x := [[Blob([65])]], Extra(0, 2, [1, 66]);
    ghost var full;
    OneString();
    ok, dest, full := Decode([10, 1, 65, 10, 1, 66], fields, slots, [10, 1, 66], x);
  }

  lemma OneString()
    ensures var fields, slots := [Field(1, Repeated(1), StringType(4))], [[Blob([65])]];
            && WellFormed(fields) && Sent(fields, slots) && Wire(fields, slots) == [10, 1, 65]
            && [10, 1, 65, 10, 1, 66] == Wire(fields, slots) + [10, 1, 66]
            && OneTooMany(fields, slots, Extra(0, 2, [1, 66]), [10, 1, 66])
  {
    var f, v := Field(1, Repeated(1), StringType(4)), Blob([65]);
    var fields, slots := [f], [[v]];
    assert FieldWellFormed(f) && SlotTyped(f, [v]) && Restorable(f.ltype, [v][0]) && FieldRestorable(f, [v]);
    assert [v][1..] == [] && fields[1..] == [] && slots[1..] == [];
    assert TagBytes(1, 2) == [10] && ItemBytes(f.ltype, v) == [1] + [65];
    assert Unpacked(f, [v]) == [10] + ([1] + [65]) + [];
    assert Wire(fields, slots) == Unpacked(f, [v]) + [];
  }

  /** A string that fills its buffer without a terminator is one the encoder sends
      and the decoder does not take back. */
  lemma UnterminatedString()
    ensures var fields, slots := [Field(1, Required, StringType(2))], [[Blob([65, 66])]];
            WellFormed(fields) && Shaped(fields, slots) && MessageEncodable(fields, slots)
              && !MessageRestorable(fields, slots)
  {
    var f, v := Field(1, Required, StringType(2)), Blob([65, 66]);
    assert FieldWellFormed(f) && SlotTyped(f, [v]) && FieldEncodable(f, [v]);
    assert !Restorable(f.ltype, [v][0]) && !FieldRestorable([f][0], [[v]][0]);
  }

  /** pb_get_encoded_size, pb_encode and pb_decode agree on every message that fits
      its buffers. */
  method RoundTrip(fields: seq<Field>, slots: seq<seq<Value>>) returns (size: nat, bytes: Bytes, dest: seq<seq<Value>>)
    requires WellFormed(fields) && Sent(fields, slots)
    ensures size == |bytes| && bytes == Wire(fields, slots) && dest == slots
  {
    MessageRestorableEncodable(fields, slots);
    var ok;
    ok, size := GetEncodedSize(fields, slots);
    ok, bytes := EncodeBuffer(size, fields, slots);
    ghost var full;
    ok, dest, full := Decode(bytes, fields, slots, [], Extra(0, 0, []));
  }
}
