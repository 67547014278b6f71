/** nanopb message descriptors, messages, and the bytes a message stands for. */
module PbMessage {
  import opened Keys
  import opened Coding
  import opened PbWire

  /** PB_LTYPE, with data_size where it matters. */
  datatype FieldType =
    | BoolType
    | VarintType(size: nat)
    | UVarintType(size: nat)
    | SVarintType(size: nat)
    | Fixed32Type
    | Fixed64Type
    | BytesType(max: nat)
    | StringType(size: nat)
    | SubmessageType(fields: seq<Field>)
    | FixedBytesType(size: nat)

  /** PB_HTYPE.  Implicit is a proto3 optional field, without a has_ flag;
      FixedCount a repeated one without a count; fields with one union number
      share a which_ field. */
  datatype Rule = Required | Optional | Implicit | Repeated(max: nat) | FixedCount(count: nat) | Oneof(union: nat)

  /** pb_field_t. */
  datatype Field = Field(tag: nat, rule: Rule, ltype: FieldType)

  /** A message structure holds for each field the items that are present: payloads
      of absent fields, unused array slots and bytes after a string's terminator
      are not part of it. */
  datatype Value = Int(n: int) | Blob(b: Bytes) | Msg(slots: seq<seq<Value>>)

  predicate Packable(t: FieldType) {
    t.BoolType? || t.VarintType? || t.UVarintType? || t.SVarintType? || t.Fixed32Type? || t.Fixed64Type?
  }

  predicate IsArray(f: Field) {
    f.rule.Repeated? || f.rule.FixedCount?
  }

  predicate IsPacked(f: Field) {
    IsArray(f) && Packable(f.ltype)
  }

  // ---------- descriptors and C typing ----------

  const TAG_LIMIT: nat := 0x2000_0000

  ghost predicate WellFormed(fields: seq<Field>)
    decreases fields
  {
    && (forall i :: 0 <= i < |fields| ==> FieldWellFormed(fields[i]))
    && (forall i, j :: 0 <= i < j < |fields| ==> fields[i].tag != fields[j].tag)
  }

  ghost predicate FieldWellFormed(f: Field)
    decreases f
  {
    1 <= f.tag < TAG_LIMIT && TypeWellFormed(f.ltype)
  }

  ghost predicate TypeWellFormed(t: FieldType)
    decreases t
  {
    match t
    case VarintType(size) => size in {1, 2, 4, 8}
    case UVarintType(size) => size in {1, 2, 4, 8}
    case SVarintType(size) => size in {1, 2, 4, 8}
    case StringType(size) => size > 0
    case SubmessageType(fields) => WellFormed(fields)
    case _ => true
  }

  /** What the C type of the structure member allows. */
  ghost predicate Typed(t: FieldType, v: Value)
    decreases t
  {
    match t
    case BoolType => v.Int? && 0 <= v.n <= 1
    case VarintType(size) => v.Int? && size in {1, 2, 4, 8} && Signed(v.n, size) == v.n
    case UVarintType(size) => v.Int? && size in {1, 2, 4, 8} && 0 <= v.n < Modulus(size)
    case SVarintType(size) => v.Int? && size in {1, 2, 4, 8} && Signed(v.n, size) == v.n
    case Fixed32Type => v.Int? && 0 <= v.n < U32
    case Fixed64Type => v.Int? && 0 <= v.n < U64
    case BytesType(max) => v.Blob?
    case StringType(size) => v.Blob? && |v.b| <= size && 0 !in v.b
    case FixedBytesType(size) => v.Blob? && |v.b| == size
    case SubmessageType(fields) => v.Msg? && Shaped(fields, v.slots)
  }

  ghost predicate Shaped(fields: seq<Field>, slots: seq<seq<Value>>)
    decreases fields
  {
    && |slots| == |fields|
    && (forall i :: 0 <= i < |fields| ==> SlotTyped(fields[i], slots[i]))
    && (forall i, j :: 0 <= i < j < |fields| && fields[i].rule.Oneof? && fields[i].rule == fields[j].rule ==>
          slots[i] == [] || slots[j] == [])
  }

  ghost predicate SlotTyped(f: Field, items: seq<Value>)
    decreases f
  {
    && (f.rule.Required? || f.rule.Implicit? ==> |items| == 1)
    && (f.rule.Optional? || f.rule.Oneof? ==> |items| <= 1)
    && (f.rule.FixedCount? ==> |items| == f.rule.count)
    && forall k :: 0 <= k < |items| ==> Typed(f.ltype, items[k])
  }

  /** Counts and byte-array sizes that the structure's buffers hold. */
  predicate Encodable(t: FieldType, v: Value)
    decreases t
  {
    match t
    case BytesType(max) => v.Blob? ==> |v.b| <= max
    case SubmessageType(fields) => v.Msg? ==> MessageEncodable(fields, v.slots)
    case _ => true
  }

  predicate MessageEncodable(fields: seq<Field>, slots: seq<seq<Value>>)
    decreases fields
  {
    forall i :: 0 <= i < |fields| && i < |slots| ==> FieldEncodable(fields[i], slots[i])
  }

  predicate FieldEncodable(f: Field, items: seq<Value>)
    decreases f, 1
  {
    Skipped(f, items)
    || ((f.rule.Repeated? ==> |items| <= f.rule.max) && forall k :: 0 <= k < |items| ==> Encodable(f.ltype, items[k]))
  }

  /** pb_check_proto3_default_value on a payload. */
  predicate IsDefault(t: FieldType, v: Value)
    decreases t
  {
    match t
    case BytesType(_) => v == Blob([])
    case StringType(_) => v == Blob([])
    case FixedBytesType(size) => size == 0
    case SubmessageType(fields) =>
      v.Msg? && forall i :: 0 <= i < |fields| && i < |v.slots| ==> FieldIsDefault(fields[i], v.slots[i])
    case _ => v == Int(0)
  }

  /** A proto3 field at its default value is not sent. */
  predicate Skipped(f: Field, items: seq<Value>)
    decreases f, 0
  {
    f.rule.Implicit? && items != [] && IsDefault(f.ltype, items[0])
  }

  predicate FieldIsDefault(f: Field, items: seq<Value>)
    decreases f
  {
    match f.rule
    case Required => false
    case FixedCount(_) => false
    case Implicit => items != [] && IsDefault(f.ltype, items[0])
    case _ => items == []
  }

  // ---------- bytes ----------

  function WireType(t: FieldType): nat {
    match t
    case Fixed32Type => 5
    case Fixed64Type => 1
    case BytesType(_) => 2
    case StringType(_) => 2
    case SubmessageType(_) => 2
    case FixedBytesType(_) => 2
    case _ => 0
  }

  function TagBytes(tag: nat, wireType: nat): Bytes {
    Varint(tag * 8 + wireType)
  }

  function ItemBytes(t: FieldType, v: Value): Bytes
    decreases t, 0
  {
    match v
    case Int(n) =>
      (match t
       case BoolType => Varint(if n != 0 then 1 else 0)
       case SVarintType(_) => Varint(ZigZag(n))
       case Fixed32Type => Fixed(n % U32, 4)
       case Fixed64Type => Fixed(n % U64, 8)
       case _ => Varint(n % U64))
    case Blob(b) => Varint(|b|) + b
    case Msg(slots) =>
      if t.SubmessageType? then Varint(|Wire(t.fields, slots)|) + Wire(t.fields, slots) else []
  }

  function Packed(t: FieldType, items: seq<Value>): Bytes
    decreases t, 1, |items|
  {
    if items == [] then [] else ItemBytes(t, items[0]) + Packed(t, items[1..])
  }

  function Unpacked(f: Field, items: seq<Value>): Bytes
    decreases f, 0, |items|
  {
    if items == [] then [] else
      TagBytes(f.tag, WireType(f.ltype)) + ItemBytes(f.ltype, items[0]) + Unpacked(f, items[1..])
  }

  function FieldBytes(f: Field, items: seq<Value>): Bytes
    decreases f, 1
  {
    if Skipped(f, items) then []
    else if IsPacked(f) && items != [] then
      TagBytes(f.tag, 2) + Varint(|Packed(f.ltype, items)|) + Packed(f.ltype, items)
    else Unpacked(f, items)
  }

  function Wire(fields: seq<Field>, slots: seq<seq<Value>>): Bytes
    decreases fields
  {
    if fields == [] || slots == [] then [] else FieldBytes(fields[0], slots[0]) + Wire(fields[1..], slots[1..])
  }
}
