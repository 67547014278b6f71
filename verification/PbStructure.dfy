/** Message structures in memory: which messages fit the buffers they are decoded into,
    what a structure holds before anything is decoded, and what it means for one to be
    intact (pb_decode.c, pb.h). */
module PbStructure {
  import opened Keys
  import opened PbMessage

  // ---------- what can be restored ----------

  /** Values that fit the buffers they are decoded into; a string also needs room
      for its terminator. */
  ghost predicate Restorable(t: FieldType, v: Value)
    decreases t
  {
    match t
    case BytesType(max) => v.Blob? ==> |v.b| <= max
    case StringType(size) => v.Blob? ==> |v.b| < size
    case SubmessageType(fields) => v.Msg? ==> MessageRestorable(fields, v.slots)
    case _ => true
  }

  ghost predicate MessageRestorable(fields: seq<Field>, slots: seq<seq<Value>>)
    decreases fields
  {
    forall i :: 0 <= i < |fields| && i < |slots| ==> FieldRestorable(fields[i], slots[i])
  }

  ghost predicate FieldRestorable(f: Field, items: seq<Value>)
    decreases f
  {
    Skipped(f, items)
    || ((f.rule.Repeated? ==> |items| <= f.rule.max) && forall k :: 0 <= k < |items| ==> Restorable(f.ltype, items[k]))
  }

  // ---------- defaults ----------

  /** pb_field_set_to_default. */
  function DefaultValue(t: FieldType): Value
    decreases t, 1
  {
    match t
    case BytesType(_) => Blob([])
    case StringType(_) => Blob([])
    case FixedBytesType(size) => Blob(seq(size, _ => 0))
    case SubmessageType(fields) => Msg(Defaults(fields))
    case _ => Int(0)
  }

  /** pb_message_set_to_defaults. */
  function Defaults(fields: seq<Field>): (slots: seq<seq<Value>>)
    ensures |slots| == |fields|
    ensures forall i :: 0 <= i < |fields| ==> slots[i] == DefaultSlot(fields[i])
    decreases fields
  {
    if fields == [] then [] else [DefaultSlot(fields[0])] + Defaults(fields[1..])
  }

  function DefaultSlot(f: Field): seq<Value>
    decreases f
  {
    if f.rule.Required? || f.rule.Implicit? then [DefaultValue(f.ltype)] else []
  }

  /** A payload that counts as default is the default, so skipping it loses nothing. */
  lemma {:induction false} DefaultIsDefault(t: FieldType, v: Value)
    requires Typed(t, v) && IsDefault(t, v)
    ensures v == DefaultValue(t)
    decreases t
  {
    match t
    case FixedBytesType(size) => assert v.b == seq(size, _ => 0);
    case SubmessageType(fields) =>
      forall i | 0 <= i < |fields| ensures v.slots[i] == DefaultSlot(fields[i]) {
        SlotIsDefault(fields[i], v.slots[i]);
      }
      assert v.slots == Defaults(fields);
    case _ =>
  }

  lemma {:induction false} SlotIsDefault(f: Field, items: seq<Value>)
    requires SlotTyped(f, items) && FieldIsDefault(f, items)
    ensures items == DefaultSlot(f)
    decreases f
  {
    if f.rule.Implicit? {
      DefaultIsDefault(f.ltype, items[0]);
      assert items == [items[0]];
    }
  }

  // ---------- the structure being decoded into ----------

  /** The structure is intact: every value is of its C type, every string, byte
      array and count is within its buffer, at every depth. */
  ghost predicate Held(t: FieldType, v: Value)
    decreases t
  {
    match t
    case BytesType(max) => v.Blob? && |v.b| <= max
    case StringType(size) => v.Blob? && |v.b| < size
    case FixedBytesType(size) => v.Blob? && |v.b| == size
    case SubmessageType(fields) => v.Msg? && HeldAll(fields, v.slots)
    case _ => Typed(t, v)
  }

  ghost predicate HeldAll(fields: seq<Field>, slots: seq<seq<Value>>)
    decreases fields
  {
    |slots| == |fields| && forall i :: 0 <= i < |fields| ==> HeldSlot(fields[i], slots[i])
  }

  ghost predicate HeldSlot(f: Field, items: seq<Value>)
    decreases f
  {
    CountFits(f, items) && forall k :: 0 <= k < |items| ==> Held(f.ltype, items[k])
  }

  predicate CountFits(f: Field, items: seq<Value>) {
    match f.rule
    case Required => |items| == 1
    case Implicit => |items| == 1
    case Repeated(max) => |items| <= max
    case FixedCount(count) => |items| <= count
    case _ => |items| <= 1
  }

  /** As intact, but that the counts of repeated fields may be out of range: what such a
      count says is there beyond the buffer is nothing the decoder wrote. */
  ghost predicate Loose(t: FieldType, v: Value)
    decreases t
  {
    if t.SubmessageType? then v.Msg? && LooseAll(t.fields, v.slots) else Held(t, v)
  }

  ghost predicate LooseAll(fields: seq<Field>, slots: seq<seq<Value>>)
    decreases fields
  {
    |slots| == |fields| && forall i :: 0 <= i < |fields| ==> LooseSlot(fields[i], slots[i])
  }

  ghost predicate LooseSlot(f: Field, items: seq<Value>)
    decreases f
  {
    && (f.rule.Repeated? || CountFits(f, items))
    && forall k :: 0 <= k < |items| && (f.rule.Repeated? ==> k < f.rule.max) ==> Loose(f.ltype, items[k])
  }

  /** Intact but for one count, at whatever depth, that is one past its buffer. */
  ghost predicate Spilled(t: FieldType, v: Value)
    decreases t
  {
    t.SubmessageType? && v.Msg? && SpilledAll(t.fields, v.slots)
  }

  ghost predicate SpilledAll(fields: seq<Field>, slots: seq<seq<Value>>)
    decreases fields
  {
    && |slots| == |fields|
    && exists i :: 0 <= i < |fields| && SpilledSlot(fields[i], slots[i])
                   && forall j :: 0 <= j < |fields| && j != i ==> HeldSlot(fields[j], slots[j])
  }

  ghost predicate SpilledSlot(f: Field, items: seq<Value>)
    decreases f
  {
    || PastEnd(f, items)
    || (CountFits(f, items)
        && exists k :: 0 <= k < |items| && Spilled(f.ltype, items[k])
                       && forall m :: 0 <= m < |items| && m != k ==> Held(f.ltype, items[m]))
  }

  ghost predicate PastEnd(f: Field, items: seq<Value>) {
    f.rule.Repeated? && |items| == f.rule.max + 1 && forall k :: 0 <= k < f.rule.max ==> Held(f.ltype, items[k])
  }

  /** What a decoder leaves in an intact place: `full` says that somewhere in it an
      unpacked record met a repeated field that was already full. */
  ghost predicate Leaves(t: FieldType, v: Value, ok: bool, full: bool) {
    if full then !ok && Spilled(t, v) else Held(t, v)
  }

  ghost predicate LeavesSlot(f: Field, items: seq<Value>, ok: bool, full: bool) {
    if full then !ok && SpilledSlot(f, items) else HeldSlot(f, items)
  }

  ghost predicate LeavesAll(fields: seq<Field>, slots: seq<seq<Value>>, ok: bool, full: bool) {
    if full then !ok && SpilledAll(fields, slots) else HeldAll(fields, slots)
  }

  lemma {:induction false} HeldLoose(t: FieldType, v: Value)
    requires Held(t, v)
    ensures Loose(t, v)
    decreases t
  {
    if t.SubmessageType? {
      HeldAllLoose(t.fields, v.slots);
    }
  }

  lemma {:induction false} HeldAllLoose(fields: seq<Field>, slots: seq<seq<Value>>)
    requires HeldAll(fields, slots)
    ensures LooseAll(fields, slots)
    decreases fields
  {
    forall i | 0 <= i < |fields| ensures LooseSlot(fields[i], slots[i]) {
      HeldSlotLoose(fields[i], slots[i]);
    }
  }

  lemma {:induction false} HeldSlotLoose(f: Field, items: seq<Value>)
    requires HeldSlot(f, items)
    ensures LooseSlot(f, items)
    decreases f
  {
    forall k | 0 <= k < |items| ensures Loose(f.ltype, items[k]) {
      HeldLoose(f.ltype, items[k]);
    }
  }

  /** A structure with a count past its buffer is not intact. */
  lemma {:induction false} SpilledNotHeld(fields: seq<Field>, slots: seq<seq<Value>>)
    requires SpilledAll(fields, slots)
    ensures !HeldAll(fields, slots)
    decreases fields
  {
    var i :| 0 <= i < |fields| && SpilledSlot(fields[i], slots[i]);
    SpilledSlotNotHeld(fields[i], slots[i]);
  }

  lemma {:induction false} SpilledSlotNotHeld(f: Field, items: seq<Value>)
    requires SpilledSlot(f, items)
    ensures !HeldSlot(f, items)
    decreases f
  {
    if !PastEnd(f, items) {
      var k :| 0 <= k < |items| && Spilled(f.ltype, items[k]);
      SpilledNotHeld(f.ltype.fields, items[k].slots);
    }
  }

  lemma {:induction false} DefaultHeld(t: FieldType)
    requires TypeWellFormed(t)
    ensures Held(t, DefaultValue(t))
    decreases t
  {
    if t.SubmessageType? {
      DefaultsHeld(t.fields);
    }
  }

  lemma {:induction false} DefaultsHeld(fields: seq<Field>)
    requires WellFormed(fields)
    ensures HeldAll(fields, Defaults(fields))
    decreases fields
  {
    forall i | 0 <= i < |fields| ensures HeldSlot(fields[i], DefaultSlot(fields[i])) {
      SlotHeld(fields[i]);
    }
  }

  lemma {:induction false} SlotHeld(f: Field)
    requires FieldWellFormed(f)
    ensures HeldSlot(f, DefaultSlot(f))
    decreases f
  {
    DefaultHeld(f.ltype);
  }

  /** What an intact structure holds can be sent and restored. */
  lemma {:induction false} HeldRestorable(t: FieldType, v: Value)
    requires Held(t, v)
    ensures Restorable(t, v)
    decreases t
  {
    if t.SubmessageType? {
      HeldAllRestorable(t.fields, v.slots);
    }
  }

  lemma {:induction false} HeldAllRestorable(fields: seq<Field>, slots: seq<seq<Value>>)
    requires HeldAll(fields, slots)
    ensures MessageRestorable(fields, slots)
    decreases fields
  {
    forall i | 0 <= i < |fields| ensures FieldRestorable(fields[i], slots[i]) {
      HeldSlotRestorable(fields[i], slots[i]);
    }
  }

  lemma {:induction false} HeldSlotRestorable(f: Field, items: seq<Value>)
    requires HeldSlot(f, items)
    ensures FieldRestorable(f, items)
    decreases f
  {
    forall k | 0 <= k < |items| ensures Restorable(f.ltype, items[k]) {
      HeldRestorable(f.ltype, items[k]);
    }
  }

  /** What can be restored can be encoded. */
  lemma {:induction false} RestorableEncodable(t: FieldType, v: Value)
    requires Restorable(t, v)
    ensures Encodable(t, v)
    decreases t
  {
    if t.SubmessageType? && v.Msg? {
      MessageRestorableEncodable(t.fields, v.slots);
    }
  }

  lemma {:induction false} MessageRestorableEncodable(fields: seq<Field>, slots: seq<seq<Value>>)
    requires MessageRestorable(fields, slots)
    ensures MessageEncodable(fields, slots)
    decreases fields
  {
    forall i | 0 <= i < |fields| && i < |slots| ensures FieldEncodable(fields[i], slots[i]) {
      FieldRestorableEncodable(fields[i], slots[i]);
    }
  }

  lemma {:induction false} FieldRestorableEncodable(f: Field, items: seq<Value>)
    requires FieldRestorable(f, items)
    ensures FieldEncodable(f, items)
    decreases f
  {
    if !Skipped(f, items) {
      forall k | 0 <= k < |items| ensures Encodable(f.ltype, items[k]) {
        RestorableEncodable(f.ltype, items[k]);
      }
    }
  }
}
