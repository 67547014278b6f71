/** nanopb's encoder: pb_encode and what it calls (pb_encode.c), for statically
    allocated fields.  A stream that only counts and a stream that writes are
    driven by the same code, which is proved to give the same number. */
module PbEncode {
  import opened Sequences
  import opened Keys
  import opened Coding
  import opened PbWire
  import opened PbMessage

  /** pb_encode_tag_for_field, then the field encoder. */
  method EncodeTagged(stream: OStream, f: Field, v: Value) returns (ok: bool)
    requires Typed(f.ltype, v) && TypeWellFormed(f.ltype)
    modifies stream
    ensures ok <==> (Encodable(f.ltype, v)
                     && old(stream.Fits(|TagBytes(f.tag, WireType(f.ltype)) + ItemBytes(f.ltype, v)|)))
    ensures ok ==> stream.Wrote(TagBytes(f.tag, WireType(f.ltype)) + ItemBytes(f.ltype, v))
    decreases f, 1
  {
    ok := EncodeVarint(stream, f.tag * 8 + WireType(f.ltype));
    if ok {
      ok := EncodeItem(stream, f.ltype, v);
    }
  }

  /** PB_ENCODERS: one value, without its tag. */
  method EncodeItem(stream: OStream, t: FieldType, v: Value) returns (ok: bool)
    requires Typed(t, v) && TypeWellFormed(t)
    modifies stream
    ensures ok <==> Encodable(t, v) && old(stream.Fits(|ItemBytes(t, v)|))
    ensures ok ==> stream.Wrote(ItemBytes(t, v))
    decreases t, 1
  {
    match t {
      case BoolType =>
        ok := EncodeVarint(stream, if v.n != 0 then 1 else 0);
      case VarintType(size) =>
        ok := EncodeVarint(stream, v.n % U64);
      case UVarintType(size) =>
        ok := EncodeVarint(stream, v.n % U64);
      case SVarintType(size) =>
        ok := EncodeVarint(stream, ZigZag(v.n));
      case Fixed32Type =>
        ok := stream.Write(Fixed(v.n % U32, 4));
      case Fixed64Type =>
        ok := stream.Write(Fixed(v.n % U64, 8));
      case BytesType(max) =>
        if |v.b| > max {
          return false;
        }
        ok := EncodeString(stream, v.b);
      case StringType(size) =>
        ok := EncodeString(stream, v.b);
      case FixedBytesType(size) =>
        ok := EncodeString(stream, v.b);
      case SubmessageType(fields) =>
        ok := EncodeSubmessage(stream, fields, v.slots);
    }
  }

  /** pb_encode_string. */
  method EncodeString(stream: OStream, b: Bytes) returns (ok: bool)
    modifies stream
    ensures ok <==> old(stream.Fits(|Varint(|b|) + b|))
    ensures ok ==> stream.Wrote(Varint(|b|) + b)
  {
    ok := EncodeVarint(stream, |b|);
    if ok {
      ok := stream.Write(b);
    }
  }

  /** pb_encode_submessage: a sizing pass, the size, then a pass into a substream
      that holds no more than that size. */
  method EncodeSubmessage(stream: OStream, fields: seq<Field>, slots: seq<seq<Value>>) returns (ok: bool)
    requires Shaped(fields, slots) && WellFormed(fields)
    modifies stream
    ensures var w := Wire(fields, slots);
            ok <==> MessageEncodable(fields, slots) && old(stream.Fits(|Varint(|w|) + w|))
    ensures var w := Wire(fields, slots); ok ==> stream.Wrote(Varint(|w|) + w)
    decreases fields, 1
  {
    var sub := new OStream(true, 0, []);
    ok := Encode(sub, fields, slots);
    if !ok {
      return;
    }
    var size := sub.bytesWritten;
    ok := EncodeVarint(stream, size);
    if !ok {
      return;
    }
    if stream.sizing {
      stream.Count(size);
      return;
    }
    if stream.bytesWritten + size > stream.maxSize {
      return false;
    }
    sub := new OStream(false, size, stream.bytes);
    ok := Encode(sub, fields, slots);
    stream.bytesWritten := stream.bytesWritten + sub.bytesWritten;
    stream.bytes := sub.bytes;
    if sub.bytesWritten != size {
      return false;
    }
  }

  /** A stream that is to take `total`, beginning at w0 bytes written and contents
      b0, has `rest` still to take. */
  ghost predicate Owes(stream: OStream, w0: nat, b0: Bytes, total: Bytes, rest: Bytes)
    reads stream
  {
    && |rest| <= |total| && stream.bytesWritten + |rest| == w0 + |total|
    && (if stream.sizing then stream.bytes == b0 else stream.bytes + rest == b0 + total)
    && (|rest| < |total| ==> stream.sizing || stream.bytesWritten <= stream.maxSize)
  }

  lemma PackedNext(t: FieldType, items: seq<Value>, i: nat)
    requires i < |items|
    ensures Packed(t, items[i..]) == ItemBytes(t, items[i]) + Packed(t, items[i + 1..])
  {
    assert items[i..][1..] == items[i + 1..];
  }

  lemma UnpackedNext(f: Field, items: seq<Value>, i: nat)
    requires i < |items|
    ensures Unpacked(f, items[i..])
         == TagBytes(f.tag, WireType(f.ltype)) + ItemBytes(f.ltype, items[i]) + Unpacked(f, items[i + 1..])
  {
    assert items[i..][1..] == items[i + 1..];
  }

  lemma WireNext(fields: seq<Field>, slots: seq<seq<Value>>, i: nat)
    requires i < |fields| == |slots|
    ensures Wire(fields[i..], slots[i..]) == FieldBytes(fields[i], slots[i]) + Wire(fields[i + 1..], slots[i + 1..])
  {
    assert fields[i..][1..] == fields[i + 1..] && slots[i..][1..] == slots[i + 1..];
  }

  // ---------- arrays ----------

  /** The entries of a packed array, on a counting or a writing stream. */
  method EncodeAll(stream: OStream, t: FieldType, items: seq<Value>)
    returns (ok: bool)
    requires Packable(t) && TypeWellFormed(t) && forall k :: 0 <= k < |items| ==> Typed(t, items[k])
    modifies stream
    ensures ok <==> old(stream.Fits(|Packed(t, items)|))
    ensures ok ==> stream.Wrote(Packed(t, items))
    decreases t, 2
  {
    ghost var w0, b0 := stream.bytesWritten, stream.bytes;
    assert items[0..] == items;
    for i := 0 to |items|
      invariant Owes(stream, w0, b0, Packed(t, items), Packed(t, items[i..]))
    {
      PackedNext(t, items, i);
      Associate(stream.bytes, ItemBytes(t, items[i]), Packed(t, items[i + 1..]));
      ok := EncodeItem(stream, t, items[i]);
      if !ok {
        return;
      }
    }
    ok := true;
  }

  /** Packed: one tag, the size, then the entries. */
  method EncodePacked(stream: OStream, f: Field, items: seq<Value>) returns (ok: bool)
    requires Packable(f.ltype) && TypeWellFormed(f.ltype) && forall k :: 0 <= k < |items| ==> Typed(f.ltype, items[k])
    modifies stream
    ensures var w := TagBytes(f.tag, 2) + Varint(|Packed(f.ltype, items)|) + Packed(f.ltype, items);
            (ok <==> old(stream.Fits(|w|))) && (ok ==> stream.Wrote(w))
    decreases f, 2
  {
    ok := EncodeVarint(stream, f.tag * 8 + 2);
    if !ok {
      return;
    }
    var size := PackedSize(f.ltype, items);
    ok := EncodeVarint(stream, size);
    if !ok {
      return;
    }
    if stream.sizing {
      stream.Count(size);
      return;
    }
    ok := EncodeAll(stream, f.ltype, items);
  }

  /** The size of a packed array, by arithmetic or by a sizing pass. */
  method PackedSize(t: FieldType, items: seq<Value>) returns (size: nat)
    requires Packable(t) && TypeWellFormed(t) && forall k :: 0 <= k < |items| ==> Typed(t, items[k])
    ensures size == |Packed(t, items)|
    decreases t, 3
  {
    if t.Fixed32Type? {
      PackedFixed(t, items, 4);
      size := 4 * |items|;
    } else if t.Fixed64Type? {
      PackedFixed(t, items, 8);
      size := 8 * |items|;
    } else {
      var sizeStream := new OStream(true, 0, []);
      var ok := EncodeAll(sizeStream, t, items);
      size := sizeStream.bytesWritten;
    }
  }

  lemma {:induction false} PackedFixed(t: FieldType, items: seq<Value>, n: nat)
    requires (t.Fixed32Type? && n == 4) || (t.Fixed64Type? && n == 8)
    requires forall k :: 0 <= k < |items| ==> Typed(t, items[k])
    ensures |Packed(t, items)| == n * |items|
  {
    if items != [] {
      PackedFixed(t, items[1..], n);
      assert |ItemBytes(t, items[0])| == n;
    }
  }

  /** Unpacked: every entry has its own tag. */
  method EncodeEach(stream: OStream, f: Field, items: seq<Value>) returns (ok: bool)
    requires (forall k :: 0 <= k < |items| ==> Typed(f.ltype, items[k])) && FieldWellFormed(f)
    modifies stream
    ensures ok <==> ((forall k :: 0 <= k < |items| ==> Encodable(f.ltype, items[k]))
                     && old(stream.Fits(|Unpacked(f, items)|)))
    ensures ok ==> stream.Wrote(Unpacked(f, items))
    decreases f, 2
  {
    ghost var w0, b0 := stream.bytesWritten, stream.bytes;
    assert items[0..] == items;
    for i := 0 to |items|
      invariant Owes(stream, w0, b0, Unpacked(f, items), Unpacked(f, items[i..]))
      invariant forall k :: 0 <= k < i ==> Encodable(f.ltype, items[k])
    {
      ghost var x := TagBytes(f.tag, WireType(f.ltype)) + ItemBytes(f.ltype, items[i]);
      UnpackedNext(f, items, i);
      Associate(stream.bytes, x, Unpacked(f, items[i + 1..]));
      ok := EncodeTagged(stream, f, items[i]);
      if !ok {
        return;
      }
    }
    ok := true;
  }

  /** encode_array. */
  method EncodeArray(stream: OStream, f: Field, items: seq<Value>) returns (ok: bool)
    requires SlotTyped(f, items) && FieldWellFormed(f) && (f.rule.Repeated? || f.rule.FixedCount?)
    modifies stream
    ensures ok <==> FieldEncodable(f, items) && old(stream.Fits(|FieldBytes(f, items)|))
    ensures ok ==> stream.Wrote(FieldBytes(f, items))
    decreases f, 3
  {
    if items == [] {
      return true;
    }
    if f.rule.Repeated? && |items| > f.rule.max {
      return false;
    }
    if Packable(f.ltype) {
      ok := EncodePacked(stream, f, items);
    } else {
      ok := EncodeEach(stream, f, items);
    }
  }

  // ---------- messages ----------

  /** encode_basic_field. */
  method EncodeField(stream: OStream, f: Field, items: seq<Value>) returns (ok: bool)
    requires SlotTyped(f, items) && FieldWellFormed(f)
    modifies stream
    ensures ok <==> FieldEncodable(f, items) && old(stream.Fits(|FieldBytes(f, items)|))
    ensures ok ==> stream.Wrote(FieldBytes(f, items))
    decreases f, 4
  {
    if f.rule.Repeated? || f.rule.FixedCount? {
      ok := EncodeArray(stream, f, items);
    } else if items == [] || Skipped(f, items) {
      ok := true;
    } else {
      assert items == [items[0]];
      assert Unpacked(f, items[1..]) == [];
      ok := EncodeTagged(stream, f, items[0]);
    }
  }

  /** pb_encode: the fields in the order of the descriptor. */
  method Encode(stream: OStream, fields: seq<Field>, slots: seq<seq<Value>>) returns (ok: bool)
    requires Shaped(fields, slots) && WellFormed(fields)
    modifies stream
    ensures ok <==> MessageEncodable(fields, slots) && old(stream.Fits(|Wire(fields, slots)|))
    ensures ok ==> stream.Wrote(Wire(fields, slots))
    decreases fields, 0
  {
    ghost var w0, b0 := stream.bytesWritten, stream.bytes;
    assert fields[0..] == fields && slots[0..] == slots;
    for i := 0 to |fields|
      invariant Owes(stream, w0, b0, Wire(fields, slots), Wire(fields[i..], slots[i..]))
      invariant forall k :: 0 <= k < i ==> FieldEncodable(fields[k], slots[k])
    {
      ghost var x := FieldBytes(fields[i], slots[i]);
      WireNext(fields, slots, i);
      Associate(stream.bytes, x, Wire(fields[i + 1..], slots[i + 1..]));
      ok := EncodeField(stream, fields[i], slots[i]);
      if !ok {
        return;
      }
    }
    ok := true;
  }

  /** pb_get_encoded_size: exactly the bytes pb_encode writes. */
  method GetEncodedSize(fields: seq<Field>, slots: seq<seq<Value>>) returns (ok: bool, size: nat)
    requires Shaped(fields, slots) && WellFormed(fields)
    ensures ok <==> MessageEncodable(fields, slots)
    ensures ok ==> size == |Wire(fields, slots)|
  {
    var stream := new OStream(true, 0, []);
    ok := Encode(stream, fields, slots);
    size := stream.bytesWritten;
  }

  /** pb_encode into a buffer: it succeeds exactly when the buffer is large enough. */
  method EncodeBuffer(bufsize: nat, fields: seq<Field>, slots: seq<seq<Value>>) returns (ok: bool, bytes: Bytes)
    requires Shaped(fields, slots) && WellFormed(fields)
    ensures ok <==> MessageEncodable(fields, slots) && |Wire(fields, slots)| <= bufsize
    ensures ok ==> bytes == Wire(fields, slots)
  {
    var stream := new OStream(false, bufsize, []);
    ok := Encode(stream, fields, slots);
    bytes := stream.bytes;
  }
}
