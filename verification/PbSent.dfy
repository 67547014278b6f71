/** A message as the encoder sends it, read as records by someone who may know only some
    of its fields. */
module PbSent {
  import opened Sequences
  import opened Keys
  import opened Coding
  import opened PbWire
  import opened PbMessage
  import opened PbFieldIter
  import opened PbStructure
  import opened PbRecords
  import opened PbLaws

  /** The members of a list that are marked. */
  function Sub<T>(xs: seq<T>, ks: seq<bool>): (ys: seq<T>)
    requires |xs| == |ks|
    ensures |ys| <= |xs|
  {
    if xs == [] then [] else (if ks[0] then [xs[0]] else []) + Sub(xs[1..], ks[1..])
  }

  function All(n: nat): (ks: seq<bool>)
    ensures |ks| == n && forall i :: 0 <= i < n ==> ks[i]
  {
    seq(n, _ => true)
  }

  lemma {:induction false} SubAll<T>(xs: seq<T>)
    ensures Sub(xs, All(|xs|)) == xs
  {
    if xs != [] {
      SubAll(xs[1..]);
      assert All(|xs|)[1..] == All(|xs| - 1);
    }
  }

  // ---------- the records of a message ----------

  function ItemOf(t: FieldType, v: Value): Item
    decreases t
  {
    if t.SubmessageType? && v.Msg? && |t.fields| == |v.slots| then
      Nested(RecsOf(t.fields, v.slots, All(|t.fields|), 0))
    else Raw(ItemBytes(t, v))
  }

  /** The record of one item: of field k, or with a tag that is not known. */
  function ItemRec(f: Field, k: Option<nat>, v: Value): Rec
    decreases f, 0
  {
    if k.Some? then One(k.value, ItemOf(f.ltype, v)) else Unknown(f.tag, WireType(f.ltype), ItemBytes(f.ltype, v))
  }

  /** The bytes of the items of a packed array. */
  function Parts(t: FieldType, items: seq<Value>): seq<Bytes> {
    seq(|items|, i requires 0 <= i < |items| => ItemBytes(t, items[i]))
  }

  lemma {:induction false} FlatParts(t: FieldType, items: seq<Value>)
    ensures Flat(Parts(t, items)) == Packed(t, items)
  {
    if items != [] {
      FlatParts(t, items[1..]);
      assert Parts(t, items)[1..] == Parts(t, items[1..]);
    }
  }

  function FieldRecs(f: Field, k: Option<nat>, items: seq<Value>): (rs: seq<Rec>)
    decreases f, 1
  {
    if Skipped(f, items) then []
    else if IsPacked(f) && items != [] then
      [if k.Some? then Pack(k.value, Parts(f.ltype, items))
       else Unknown(f.tag, 2, Varint(|Packed(f.ltype, items)|) + Packed(f.ltype, items))]
    else seq(|items|, i requires 0 <= i < |items| => ItemRec(f, k, items[i]))
  }

  /** The records of a message for a reader that knows the marked fields; the first of
      them is its field n. */
  function RecsOf(fields: seq<Field>, slots: seq<seq<Value>>, ks: seq<bool>, n: nat): seq<Rec>
    requires |fields| == |slots| == |ks|
    decreases fields
  {
    if fields == [] then []
    else
      FieldRecs(fields[0], if ks[0] then Some(n) else None, slots[0])
      + RecsOf(fields[1..], slots[1..], ks[1..], if ks[0] then n + 1 else n)
  }

  // ---------- their bytes ----------

  lemma {:induction false} WireConcat(fields: seq<Field>, a: seq<Rec>, b: seq<Rec>)
    ensures RecsWire(fields, a + b) == RecsWire(fields, a) + RecsWire(fields, b)
  {
    if a == [] {
      assert a + b == b;
    } else {
      assert (a + b)[0] == a[0] && (a + b)[1..] == a[1..] + b;
      WireConcat(fields, a[1..], b);
    }
  }

  /** What the reader knows from field n on. */
  ghost predicate Knows(sub: seq<Field>, n: nat, fields: seq<Field>, ks: seq<bool>) {
    |fields| == |ks| && n <= |sub| && sub[n..] == Sub(fields, ks)
  }

  lemma KnowsNext(sub: seq<Field>, n: nat, fields: seq<Field>, ks: seq<bool>)
    requires Knows(sub, n, fields, ks) && fields != []
    ensures ks[0] ==> n < |sub| && sub[n] == fields[0] && Knows(sub, n + 1, fields[1..], ks[1..])
    ensures !ks[0] ==> Knows(sub, n, fields[1..], ks[1..])
  {
    if ks[0] {
      assert sub[n..][0] == sub[n] && sub[n..][1..] == sub[n + 1..];
    }
  }

  /** The bytes of a message are those of its records, whoever reads them. */
  lemma {:induction false} WireIsRecs(fields: seq<Field>, slots: seq<seq<Value>>, ks: seq<bool>, n: nat,
                                      sub: seq<Field>)
    requires |fields| == |slots| && Knows(sub, n, fields, ks)
    requires forall i :: 0 <= i < |fields| ==> SlotTyped(fields[i], slots[i])
    ensures RecsWire(sub, RecsOf(fields, slots, ks, n)) == Wire(fields, slots)
    decreases fields
  {
    if fields != [] {
      var k, n' := if ks[0] then Some(n) else None, if ks[0] then n + 1 else n;
      KnowsNext(sub, n, fields, ks);
      FieldIsRecs(fields[0], k, slots[0], sub);
      WireIsRecs(fields[1..], slots[1..], ks[1..], n', sub);
      WireConcat(sub, FieldRecs(fields[0], k, slots[0]), RecsOf(fields[1..], slots[1..], ks[1..], n'));
    }
  }

  lemma {:induction false} FieldIsRecs(f: Field, k: Option<nat>, items: seq<Value>, sub: seq<Field>)
    requires SlotTyped(f, items) && (k.Some? ==> k.value < |sub| && sub[k.value] == f)
    ensures RecsWire(sub, FieldRecs(f, k, items)) == FieldBytes(f, items)
    decreases f, 1
  {
    var rs := FieldRecs(f, k, items);
    if Skipped(f, items) {
    } else if IsPacked(f) && items != [] {
      FlatParts(f.ltype, items);
      Associate(TagBytes(f.tag, 2), Varint(|Packed(f.ltype, items)|), Packed(f.ltype, items));
      assert rs[1..] == [] && RecsWire(sub, rs[1..]) == [];
      assert RecWire(sub, rs[0]) == TagBytes(f.tag, 2) + (Varint(|Packed(f.ltype, items)|) + Packed(f.ltype, items));
      assert FieldBytes(f, items) == TagBytes(f.tag, 2) + Varint(|Packed(f.ltype, items)|) + Packed(f.ltype, items);
      assert RecsWire(sub, rs) == RecWire(sub, rs[0]) + [];
    } else {
      ItemsAreRecs(f, k, items, sub, 0);
      assert items[0..] == items && rs[0..] == rs;
    }
  }

  lemma {:induction false} ItemsAreRecs(f: Field, k: Option<nat>, items: seq<Value>, sub: seq<Field>, i: nat)
    requires i <= |items| && (forall m :: 0 <= m < |items| ==> Typed(f.ltype, items[m]))
    requires k.Some? ==> k.value < |sub| && sub[k.value] == f
    ensures var rs := seq(|items|, m requires 0 <= m < |items| => ItemRec(f, k, items[m]));
            RecsWire(sub, rs[i..]) == Unpacked(f, items[i..])
    decreases f, 0, |items| - i
  {
    var rs := seq(|items|, m requires 0 <= m < |items| => ItemRec(f, k, items[m]));
    if i < |items| {
      assert rs[i..][0] == rs[i] && rs[i..][1..] == rs[i + 1..];
      assert items[i..][0] == items[i] && items[i..][1..] == items[i + 1..];
      ItemsAreRecs(f, k, items, sub, i + 1);
      ItemIsRec(f.ltype, items[i]);
      assert RecWire(sub, rs[i]) == TagBytes(f.tag, WireType(f.ltype)) + ItemBytes(f.ltype, items[i]);
    }
  }

  lemma {:induction false} ItemIsRec(t: FieldType, v: Value)
    requires Typed(t, v)
    ensures ItemWire(t, ItemOf(t, v)) == ItemBytes(t, v)
    decreases t
  {
    if t.SubmessageType? {
      SubAll(t.fields);
      assert t.fields[0..] == t.fields;
      WireIsRecs(t.fields, v.slots, All(|t.fields|), 0, t.fields);
    }
  }

  /** A field has a record exactly when it has an item, except a proto3 field at its
      default; other than an array's items one by one, it has a single one. */
  lemma {:induction false} RecordsSent(fields: seq<Field>, slots: seq<seq<Value>>, n: nat, j: nat)
    requires |fields| == |slots| && forall i :: 0 <= i < |fields| ==> SlotTyped(fields[i], slots[i])
    ensures var rs := RecsOf(fields, slots, All(|fields|), n);
            Has(rs, j) <==> n <= j < n + |fields| && slots[j - n] != []
                            && !(fields[j - n].rule.Implicit? && IsDefault(fields[j - n].ltype, slots[j - n][0]))
    ensures var rs := RecsOf(fields, slots, All(|fields|), n);
            n <= j < n + |fields| && (IsPacked(fields[j - n]) || !IsArray(fields[j - n])) ==>
              forall i, k :: 0 <= i < |rs| && 0 <= k < |rs| && Of(rs[i], j) && Of(rs[k], j) ==> i == k
    decreases fields
  {
    if fields != [] {
      assert All(|fields|)[1..] == All(|fields| - 1);
      RecordsSent(fields[1..], slots[1..], n + 1, j);
      var a, b := FieldRecs(fields[0], Some(n), slots[0]), RecsOf(fields[1..], slots[1..], All(|fields| - 1), n + 1);
      FieldSent(fields[0], n, slots[0], j);
      HasMore(a, b, j);
      forall i, k | 0 <= i < |a + b| && 0 <= k < |a + b| && Of((a + b)[i], j) && Of((a + b)[k], j)
                    && n <= j < n + |fields| && (IsPacked(fields[j - n]) || !IsArray(fields[j - n]))
        ensures i == k
      {
        if i >= |a| {
          assert Of(b[i - |a|], j);
        }
        if k >= |a| {
          assert Of(b[k - |a|], j);
        }
      }
    }
  }

  lemma FieldSent(f: Field, n: nat, items: seq<Value>, j: nat)
    requires SlotTyped(f, items)
    ensures var rs := FieldRecs(f, Some(n), items);
            && (Has(rs, j) <==> j == n && items != [] && !(f.rule.Implicit? && IsDefault(f.ltype, items[0])))
            && (IsPacked(f) || !IsArray(f) ==> |rs| <= 1)
  {
    var rs := FieldRecs(f, Some(n), items);
    if rs != [] {
      FieldInOrder(f, Some(n), items);
      assert Of(rs[0], n);
    }
  }

  // ---------- they are well formed ----------

  /** Every value can be skipped by who does not know its field: the wire type tells its
      width. */
  lemma ItemSkippable(t: FieldType, v: Value)
    requires Typed(t, v) && TypeWellFormed(t) && |ItemBytes(t, v)| < U32
    ensures Skippable(WireType(t), ItemBytes(t, v))
  {
    match v
    case Int(n) =>
      if !t.Fixed32Type? && !t.Fixed64Type? {
        IntegerIsVarint(t, n);
      }
    case Blob(b) => StringSkippable(b);
    case Msg(slots) => StringSkippable(Wire(t.fields, slots));
  }

  lemma IntegerIsVarint(t: FieldType, n: int)
    requires Typed(t, Int(n)) && !t.Fixed32Type? && !t.Fixed64Type?
    ensures IsVarint(ItemBytes(t, Int(n)))
  {
    AnyVarint(if t.BoolType? then if n != 0 then 1 else 0 else if t.SVarintType? then ZigZag(n) else n % U64);
  }

  lemma AnyVarint(m: nat)
    ensures IsVarint(Varint(m)) && GroupsValue(Varint(m)) == m
  {
    Below(m);
    VarintReads(m, m + 1);
  }

  lemma {:induction false} Below(m: nat)
    ensures m < Scale(m + 1)
  {
    if m > 0 {
      Below(m - 1);
    }
  }

  lemma StringSkippable(b: Bytes)
    requires |b| < U32
    ensures Skippable(2, Varint(|b|) + b)
  {
    ScaleLimits();
    VarintReads(|b|, 5);
    var k := |Varint(|b|)|;
    assert (Varint(|b|) + b)[..k] == Varint(|b|);
  }

  lemma StringContent(b: Bytes)
    ensures Content(Varint(|b|) + b) == b
  {
    AnyVarint(|b|);
    var k := |Varint(|b|)|;
    assert (Varint(|b|) + b)[..k] == Varint(|b|);
    ContentIs(Varint(|b|) + b, k);
  }

  lemma SignedRoundTrip(n: int, size: nat)
    requires size in {1, 2, 4, 8} && Signed(n, size) == n
    ensures Signed(n % U64, if size == 8 then 8 else 4) == n
    ensures -(U64 / 2) <= n < U64 / 2
  {
  }

  /** The 64 bits sent for an integer. */
  function SentBits(t: FieldType, n: int): nat {
    if t.SVarintType? then ZigZag(n) else n % U64
  }

  lemma IntegerReads(t: FieldType, n: int)
    requires TypeWellFormed(t) && (t.VarintType? || t.UVarintType? || t.SVarintType?) && Typed(t, Int(n))
    ensures SentBits(t, n) < U64 && ReadsInteger(t, SentBits(t, n)) == Some(n)
  {
    if !t.UVarintType? {
      SignedRoundTrip(n, t.size);
      ZigZagRoundTrip(n);
    }
  }

  /** What the encoder writes for a value is read as that value exactly when it fits. */
  lemma ReadsBack(t: FieldType, v: Value)
    requires TypeWellFormed(t) && Typed(t, v) && !t.SubmessageType?
    ensures Reads(t, ItemBytes(t, v)) == if Restorable(t, v) then Some(v) else None
    ensures |ItemBytes(t, v)| < U32 ==> Framed(t, ItemBytes(t, v))
  {
    if |ItemBytes(t, v)| < U32 { ItemSkippable(t, v); }
    match v
    case Int(n) => NumberReads(t, n);
    case Blob(b) => StringContent(b);
    case Msg(_) =>
  }

  lemma NumberReads(t: FieldType, n: int)
    requires TypeWellFormed(t) && Typed(t, Int(n))
    ensures Reads(t, ItemBytes(t, Int(n))) == Some(Int(n))
    ensures t.BoolType? ==> |ItemBytes(t, Int(n))| <= 5
  {
    if t.Fixed32Type? || t.Fixed64Type? {
      WordReads(t, n);
    } else if t.BoolType? {
      BoolReads(t, n);
    } else {
      IntegerReads(t, n);
      ScaleLimits();
      VarintReads(SentBits(t, n), 10);
      SentReads(t, Varint(SentBits(t, n)), SentBits(t, n), n);
    }
  }

  lemma WordReads(t: FieldType, n: int)
    requires (t.Fixed32Type? || t.Fixed64Type?) && Typed(t, Int(n))
    ensures Reads(t, ItemBytes(t, Int(n))) == Some(Int(n))
  {
    if t.Fixed32Type? {
      WordIs(t, n, U32, 4);
    } else {
      WordIs(t, n, U64, 8);
    }
    WordReadsAs(t, ItemBytes(t, Int(n)));
  }

  lemma WordIs(t: FieldType, n: nat, limit: nat, size: nat)
    requires n < limit && ((size == 4 && limit == U32) || (size == 8 && limit == U64))
    requires if size == 4 then t.Fixed32Type? else t.Fixed64Type?
    ensures Unfixed(ItemBytes(t, Int(n))) == n
  {
    assert n % limit == n;
    assert ItemBytes(t, Int(n)) == Fixed(n % limit, size);
    WordBack(n, size);
  }

  lemma WordReadsAs(t: FieldType, b: Bytes)
    requires t.Fixed32Type? || t.Fixed64Type?
    ensures Reads(t, b) == Some(Int(Unfixed(b)))
  {
  }

  lemma WordBack(n: nat, size: nat)
    requires size == 4 || size == 8
    requires n < if size == 4 then U32 else U64
    ensures Unfixed(Fixed(n, size)) == n
  {
    assert Bound(4) == U32 && Bound(8) == U64;
    FixedRoundTrip(n, size);
  }

  lemma BoolReads(t: FieldType, n: int)
    requires t.BoolType? && Typed(t, Int(n))
    ensures Reads(t, ItemBytes(t, Int(n))) == Some(Int(n)) && |ItemBytes(t, Int(n))| <= 5
  {
    ScaleLimits();
    VarintReads(n, 5);
  }

  lemma SentReads(t: FieldType, b: Bytes, bits: nat, n: int)
    requires (t.VarintType? || t.UVarintType? || t.SVarintType?) && t.size in {1, 2, 4, 8}
    requires |b| <= 10 && bits == GroupsValue(b) < U64 && ReadsInteger(t, bits) == Some(n)
    ensures Reads(t, b) == Some(Int(n))
  {
    assert GroupsValue(b) % U64 == bits;
  }

  ghost predicate Small(f: Field, items: seq<Value>) {
    |FieldBytes(f, items)| < U32
  }

  lemma {:induction false} UnpackedItem(f: Field, items: seq<Value>, i: nat)
    requires i < |items|
    ensures |ItemBytes(f.ltype, items[i])| <= |Unpacked(f, items)|
    decreases |items|
  {
    if i > 0 {
      UnpackedItem(f, items[1..], i - 1);
    }
  }

  lemma {:induction false} FieldOk(f: Field, k: Option<nat>, items: seq<Value>, sub: seq<Field>)
    requires FieldWellFormed(f) && SlotTyped(f, items) && Small(f, items)
    requires if k.Some? then k.value < |sub| && sub[k.value] == f
             else forall j :: 0 <= j < |sub| ==> sub[j].tag != f.tag
    ensures RecsOk(sub, FieldRecs(f, k, items))
    decreases f, 1
  {
    var rs := FieldRecs(f, k, items);
    if Skipped(f, items) {
    } else if IsPacked(f) && items != [] {
      StringSkippable(Packed(f.ltype, items));
      PartsFramed(f.ltype, items);
    } else {
      forall i | 0 <= i < |rs| ensures RecOk(sub, rs[i]) {
        UnpackedItem(f, items, i);
        ItemSkippable(f.ltype, items[i]);
        if k.Some? { ItemIsOk(f.ltype, items[i]); }
      }
    }
  }

  lemma PartsFramed(t: FieldType, items: seq<Value>)
    requires TypeWellFormed(t) && Packable(t) && |Packed(t, items)| < U32
    requires forall i :: 0 <= i < |items| ==> Typed(t, items[i])
    ensures PartsOk(t, Parts(t, items))
  {
    FlatParts(t, items);
    forall i | 0 <= i < |items| ensures Framed(t, Parts(t, items)[i]) {
      PackedItem(t, items, i);
      ReadsBack(t, items[i]);
    }
  }

  lemma {:induction false} PackedItem(t: FieldType, items: seq<Value>, i: nat)
    requires i < |items|
    ensures |ItemBytes(t, items[i])| <= |Packed(t, items)|
    decreases |items|
  {
    if i > 0 {
      PackedItem(t, items[1..], i - 1);
    }
  }

  lemma {:induction false} ItemIsOk(t: FieldType, v: Value)
    requires TypeWellFormed(t) && Typed(t, v) && |ItemBytes(t, v)| < U32
    ensures ItemOk(t, ItemOf(t, v))
    decreases t
  {
    if t.SubmessageType? {
      SubAll(t.fields);
      assert t.fields[0..] == t.fields;
      MessageOk(t.fields, v.slots, All(|t.fields|), 0, t.fields);
      WireIsRecs(t.fields, v.slots, All(|t.fields|), 0, t.fields);
    } else {
      ReadsBack(t, v);
    }
  }

  /** No tag that is dropped is one of those kept. */
  ghost predicate Strangers(sub: seq<Field>, fields: seq<Field>, ks: seq<bool>)
    requires |fields| == |ks|
  {
    forall i, j :: 0 <= i < |fields| && !ks[i] && 0 <= j < |sub| ==> sub[j].tag != fields[i].tag
  }

  lemma {:induction false} MessageOk(fields: seq<Field>, slots: seq<seq<Value>>, ks: seq<bool>, n: nat, sub: seq<Field>)
    requires |fields| == |slots| && Knows(sub, n, fields, ks) && Strangers(sub, fields, ks)
    requires forall i :: 0 <= i < |fields| ==> FieldWellFormed(fields[i]) && SlotTyped(fields[i], slots[i])
    requires |Wire(fields, slots)| < U32
    ensures RecsOk(sub, RecsOf(fields, slots, ks, n))
    decreases fields
  {
    if fields != [] {
      var k, n' := if ks[0] then Some(n) else None, if ks[0] then n + 1 else n;
      KnowsNext(sub, n, fields, ks);
      FieldOk(fields[0], k, slots[0], sub);
      MessageOk(fields[1..], slots[1..], ks[1..], n', sub);
      OkConcat(sub, FieldRecs(fields[0], k, slots[0]), RecsOf(fields[1..], slots[1..], ks[1..], n'));
    }
  }

  lemma OkConcat(fields: seq<Field>, a: seq<Rec>, b: seq<Rec>)
    requires RecsOk(fields, a) && RecsOk(fields, b)
    ensures RecsOk(fields, a + b)
  {
    forall i | 0 <= i < |a + b| ensures RecOk(fields, (a + b)[i]) {
      assert i < |a| ==> RecOk(fields, a[i]);
      assert i >= |a| ==> RecOk(fields, b[i - |a|]);
    }
  }

  // ---------- they are plain ----------

  /** Records of known fields from n on, in the order of the fields, and several of one
      field only if it is an array; a field with a record has items. */
  ghost predicate InOrder(sub: seq<Field>, d: seq<seq<Value>>, n: nat, rs: seq<Rec>) {
    && |d| == |sub|
    && (forall i :: 0 <= i < |rs| && !rs[i].Unknown? ==> n <= rs[i].j < |sub| && d[rs[i].j] != [])
    && (forall i, k :: 0 <= i < k < |rs| ==> Follows(sub, rs[i], rs[k]))
  }

  ghost predicate Follows(sub: seq<Field>, r: Rec, s: Rec) {
    !r.Unknown? && !s.Unknown? && r.j < |sub| ==> r.j < s.j || (r.j == s.j && IsArray(sub[r.j]))
  }

  /** What is delivered from field n on. */
  ghost predicate Holds(d: seq<seq<Value>>, n: nat, slots: seq<seq<Value>>, ks: seq<bool>) {
    |slots| == |ks| && n <= |d| && d[n..] == Sub(slots, ks)
  }

  lemma HoldsNext(d: seq<seq<Value>>, n: nat, slots: seq<seq<Value>>, ks: seq<bool>)
    requires Holds(d, n, slots, ks) && slots != []
    ensures ks[0] ==> n < |d| && d[n] == slots[0] && Holds(d, n + 1, slots[1..], ks[1..])
    ensures !ks[0] ==> Holds(d, n, slots[1..], ks[1..])
  {
    if ks[0] {
      assert d[n..][0] == d[n] && d[n..][1..] == d[n + 1..];
    }
  }

  lemma FieldInOrder(f: Field, k: Option<nat>, items: seq<Value>)
    requires SlotTyped(f, items)
    ensures var rs := FieldRecs(f, k, items);
            && (forall i :: 0 <= i < |rs| ==> if k.Some? then Of(rs[i], k.value) else rs[i].Unknown?)
            && (|rs| > 1 ==> IsArray(f)) && (rs != [] ==> items != [])
  {
  }

  lemma {:induction false} MessageInOrder(fields: seq<Field>, slots: seq<seq<Value>>, ks: seq<bool>, n: nat,
                                          sub: seq<Field>, d: seq<seq<Value>>)
    requires |fields| == |slots| && |d| == |sub| && Knows(sub, n, fields, ks) && Holds(d, n, slots, ks)
    requires forall i :: 0 <= i < |fields| ==> SlotTyped(fields[i], slots[i])
    ensures InOrder(sub, d, n, RecsOf(fields, slots, ks, n))
    decreases fields
  {
    if fields != [] {
      var k, n' := if ks[0] then Some(n) else None, if ks[0] then n + 1 else n;
      KnowsNext(sub, n, fields, ks);
      HoldsNext(d, n, slots, ks);
      FieldInOrder(fields[0], k, slots[0]);
      MessageInOrder(fields[1..], slots[1..], ks[1..], n', sub, d);
      var a, b := FieldRecs(fields[0], k, slots[0]), RecsOf(fields[1..], slots[1..], ks[1..], n');
      forall i, l | 0 <= i < l < |a + b| ensures Follows(sub, (a + b)[i], (a + b)[l]) {
        assert i >= |a| ==> Follows(sub, b[i - |a|], b[l - |a|]);
      }
    }
  }

  /** Of a oneof one member only has items. */
  ghost predicate Exclusive(sub: seq<Field>, d: seq<seq<Value>>) {
    |d| == |sub| && forall i, j :: 0 <= i < j < |sub| && sub[i].rule.Oneof? && sub[i].rule == sub[j].rule ==>
      d[i] == [] || d[j] == []
  }

  lemma OrderIsPlain(sub: seq<Field>, d: seq<seq<Value>>, rs: seq<Rec>)
    requires InOrder(sub, d, 0, rs) && Exclusive(sub, d) && EachPlain(sub, rs)
    ensures Plain(sub, rs)
  {
    forall i, k | 0 <= i < k < |rs| ensures PbRecords.Apart(sub, rs[i], rs[k]) {
      assert Follows(sub, rs[i], rs[k]);
    }
    forall i, m, k | 0 <= i < m < k < |rs| ensures Together(sub, rs[i], rs[m], rs[k]) {
      assert Follows(sub, rs[i], rs[m]) && Follows(sub, rs[m], rs[k]);
    }
  }

  ghost predicate EachPlain(sub: seq<Field>, rs: seq<Rec>) {
    forall i :: 0 <= i < |rs| ==> PlainRec(sub, rs[i])
  }

  lemma EachConcat(sub: seq<Field>, a: seq<Rec>, b: seq<Rec>)
    requires EachPlain(sub, a) && EachPlain(sub, b)
    ensures EachPlain(sub, a + b)
  {
  }

  lemma {:induction false} MessagePlainRecs(fields: seq<Field>, slots: seq<seq<Value>>, ks: seq<bool>, n: nat,
                                            sub: seq<Field>)
    requires |fields| == |slots| && Knows(sub, n, fields, ks)
    requires forall i :: 0 <= i < |fields| ==> SlotTyped(fields[i], slots[i])
    ensures EachPlain(sub, RecsOf(fields, slots, ks, n))
    decreases fields, 1
  {
    if fields != [] {
      var k, n' := if ks[0] then Some(n) else None, if ks[0] then n + 1 else n;
      KnowsNext(sub, n, fields, ks);
      FieldPlainRecs(fields[0], k, slots[0], sub);
      MessagePlainRecs(fields[1..], slots[1..], ks[1..], n', sub);
      EachConcat(sub, FieldRecs(fields[0], k, slots[0]), RecsOf(fields[1..], slots[1..], ks[1..], n'));
    }
  }

  lemma {:induction false} FieldPlainRecs(f: Field, k: Option<nat>, items: seq<Value>, sub: seq<Field>)
    requires SlotTyped(f, items) && (k.Some? ==> k.value < |sub| && sub[k.value] == f)
    ensures EachPlain(sub, FieldRecs(f, k, items))
    decreases f
  {
    var rs := FieldRecs(f, k, items);
    FieldInOrder(f, k, items);
    forall i | 0 <= i < |rs| ensures PlainRec(sub, rs[i]) {
      if k.Some? && rs[i].One? {
        assert !Skipped(f, items) && !(IsPacked(f) && items != []);
        assert rs[i] == ItemRec(f, k, items[i]) == One(k.value, ItemOf(f.ltype, items[i]));
        ItemPlain(f.ltype, items[i]);
        assert sub[rs[i].j] == f && rs[i].item == ItemOf(f.ltype, items[i]);
      }
    }
  }

  lemma {:induction false} ItemPlain(t: FieldType, v: Value)
    requires Typed(t, v)
    ensures ItemOf(t, v).Nested? ==> t.SubmessageType? && Plain(t.fields, ItemOf(t, v).recs)
    decreases t
  {
    if t.SubmessageType? {
      MessagePlain(t.fields, v.slots);
    }
  }

  /** A whole message is plain. */
  lemma {:induction false} MessagePlain(fields: seq<Field>, slots: seq<seq<Value>>)
    requires Shaped(fields, slots)
    ensures Plain(fields, RecsOf(fields, slots, All(|fields|), 0))
    decreases fields, 2
  {
    SubAll(fields);
    SubAll(slots);
    assert fields[0..] == fields && slots[0..] == slots;
    MessageInOrder(fields, slots, All(|fields|), 0, fields, slots);
    MessagePlainRecs(fields, slots, All(|fields|), 0, fields);
    OrderIsPlain(fields, slots, RecsOf(fields, slots, All(|fields|), 0));
  }

  // ---------- they deliver the message ----------

  /** The records of one field, after records of other fields, give its items. */
  lemma {:induction false} FieldGives(f: Field, j: nat, items: seq<Value>, before: seq<Rec>)
    requires FieldWellFormed(f) && SlotTyped(f, items) && FieldRestorable(f, items) && !Has(before, j)
    requires Gives(f, j, DefaultSlot(f), before)
    ensures Gives(f, j, items, before + FieldRecs(f, Some(j), items))
    decreases f, 1
  {
    var rs := FieldRecs(f, Some(j), items);
    if Skipped(f, items) {
      DefaultIsDefault(f.ltype, items[0]);
      assert items == [items[0]] == DefaultSlot(f) && before + rs == before;
    } else if IsPacked(f) && items != [] {
      GivesSnoc(f, j, items, before, rs[0]);
      PartsRead(f.ltype, items);
      assert items[..0] == [] && items[0..] == items && rs == [rs[0]];
    } else if items == [] {
      assert before + rs == before && items == DefaultSlot(f);
    } else {
      ItemsGive(f, j, items, before, |items|);
      assert rs[..|items|] == rs && items[..|items|] == items;
    }
  }

  lemma PartsRead(t: FieldType, items: seq<Value>)
    requires TypeWellFormed(t) && Packable(t) && forall i :: 0 <= i < |items| ==> Typed(t, items[i])
    ensures AllRead(t, Parts(t, items)) && PbRecords.Values(t, Parts(t, items)) == items
  {
    forall i | 0 <= i < |items| ensures Reads(t, Parts(t, items)[i]) == Some(items[i]) {
      ReadsBack(t, items[i]);
    }
  }

  lemma {:induction false} ItemsGive(f: Field, j: nat, items: seq<Value>, before: seq<Rec>, n: nat)
    requires FieldWellFormed(f) && SlotTyped(f, items) && FieldRestorable(f, items) && !Skipped(f, items)
    requires !IsPacked(f) && 0 < n <= |items|
    requires Gives(f, j, DefaultSlot(f), before)
    ensures var rs := FieldRecs(f, Some(j), items); |rs| == |items| && Gives(f, j, items[..n], before + rs[..n])
    decreases f, 0, n
  {
    var rs := FieldRecs(f, Some(j), items);
    assert rs[n - 1] == ItemRec(f, Some(j), items[n - 1]) == One(j, ItemOf(f.ltype, items[n - 1]));
    ItemGivesIt(f.ltype, items[n - 1]);
    assert before + rs[..n] == (before + rs[..n - 1]) + [rs[n - 1]];
    assert items[..n][..n - 1] == items[..n - 1];
    if n > 1 {
      ItemsGive(f, j, items, before, n - 1);
    } else {
      assert before + rs[..0] == before && items[..0] == [];
    }
    GivesSnoc(f, j, items[..n], before + rs[..n - 1], rs[n - 1]);
  }

  lemma {:induction false} ItemGivesIt(t: FieldType, v: Value)
    requires TypeWellFormed(t) && Typed(t, v) && Restorable(t, v)
    ensures ItemGives(t, ItemOf(t, v), v)
    decreases t
  {
    if t.SubmessageType? {
      MessageDelivers(t.fields, v.slots);
    } else {
      ReadsBack(t, v);
    }
  }

  /** The values of a field that fits can be read. */
  lemma FieldReads(f: Field, k: Option<nat>, items: seq<Value>, sub: seq<Field>)
    requires FieldWellFormed(f) && SlotTyped(f, items) && (k.Some? ==> k.value < |sub| && sub[k.value] == f)
    requires k.Some? ==> FieldRestorable(f, items)
    ensures RecsRead(sub, FieldRecs(f, k, items))
  {
    var rs := FieldRecs(f, k, items);
    if k.Some? && rs != [] {
      if IsPacked(f) {
        PartsRead(f.ltype, items);
      } else {
        forall i | 0 <= i < |rs| ensures RecReads(sub, rs[i]) {
          ItemReads(f.ltype, items[i]);
          assert rs[i] == One(k.value, ItemOf(f.ltype, items[i]));
        }
      }
    }
  }

  lemma ItemReads(t: FieldType, v: Value)
    requires TypeWellFormed(t) && Typed(t, v) && Restorable(t, v)
    ensures ItemOf(t, v).Raw? ==> Reads(t, ItemOf(t, v).b) == Some(v)
  {
    if !t.SubmessageType? { ReadsBack(t, v); }
  }

  /** Without a record of it a field has its default. */
  lemma {:induction false} NoneGives(f: Field, j: nat, rs: seq<Rec>)
    requires !Has(rs, j)
    ensures Gives(f, j, DefaultSlot(f), rs)
    decreases |rs|
  {
    if rs != [] {
      var n := |rs| - 1;
      assert rs == rs[..n] + [rs[n]];
      HasSnoc(rs[..n], rs[n], j);
      NoneGives(f, j, rs[..n]);
    }
  }

  /** What field j gets from these records is right. */
  ghost predicate Right(sub: seq<Field>, d: seq<seq<Value>>, j: nat, rs: seq<Rec>)
    requires j < |sub| == |d|
  {
    CountRight(sub, j, d[j], rs) && Gives(sub[j], j, d[j], rs)
  }

  lemma FieldRight(sub: seq<Field>, d: seq<seq<Value>>, j: nat, before: seq<Rec>, after: seq<Rec>)
    requires j < |sub| == |d| && FieldWellFormed(sub[j]) && SlotTyped(sub[j], d[j]) && FieldRestorable(sub[j], d[j])
    requires !Has(before, j) && !Has(after, j)
    ensures Right(sub, d, j, before + FieldRecs(sub[j], Some(j), d[j]) + after)
    decreases sub[j], 3
  {
    var f, rs := sub[j], FieldRecs(sub[j], Some(j), d[j]);
    NoneGives(f, j, before);
    FieldGives(f, j, d[j], before);
    GivesStill(f, j, d[j], before + rs, after);
    HasMore(before + rs, after, j);
    HasMore(before, rs, j);
    FieldInOrder(f, Some(j), d[j]);
    if f.rule.Required? {
      assert Of(rs[0], j);
    }
  }

  lemma {:induction false} EachRight(fields: seq<Field>, slots: seq<seq<Value>>, ks: seq<bool>, n: nat,
                                     sub: seq<Field>, d: seq<seq<Value>>, before: seq<Rec>)
    requires |fields| == |slots| && |d| == |sub| && Knows(sub, n, fields, ks) && Holds(d, n, slots, ks)
    requires forall i :: 0 <= i < |fields| ==> FieldWellFormed(fields[i]) && SlotTyped(fields[i], slots[i])
    requires forall i :: 0 <= i < |fields| && ks[i] ==> FieldRestorable(fields[i], slots[i])
    requires forall j :: n <= j < |sub| ==> !Has(before, j)
    ensures forall j :: n <= j < |sub| ==> Right(sub, d, j, before + RecsOf(fields, slots, ks, n))
    ensures RecsRead(sub, RecsOf(fields, slots, ks, n))
    decreases fields, 1
  {
    if fields != [] {
      var k, n' := if ks[0] then Some(n) else None, if ks[0] then n + 1 else n;
      var a, b := FieldRecs(fields[0], k, slots[0]), RecsOf(fields[1..], slots[1..], ks[1..], n');
      KnowsNext(sub, n, fields, ks);
      HoldsNext(d, n, slots, ks);
      FieldInOrder(fields[0], k, slots[0]);
      MessageInOrder(fields[1..], slots[1..], ks[1..], n', sub, d);
      forall j | n' <= j < |sub| ensures !Has(before + a, j) {
        HasMore(before, a, j);
      }
      EachRight(fields[1..], slots[1..], ks[1..], n', sub, d, before + a);
      FieldReads(fields[0], k, slots[0], sub);
      ReadMore(sub, a, b);
      assert before + (a + b) == before + a + b;
      if ks[0] {
        assert !Has(b, n);
        FieldRight(sub, d, n, before, b);
      }
    } else {
      assert |sub[n..]| == 0;
    }
  }

  /** The records of a message deliver, to a reader of some of its fields, those fields. */
  lemma RecsDeliver(fields: seq<Field>, slots: seq<seq<Value>>, ks: seq<bool>)
    requires |fields| == |slots| == |ks| && WellFormed(fields) && Shaped(fields, slots)
    requires forall i :: 0 <= i < |fields| && ks[i] ==> FieldRestorable(fields[i], slots[i])
    ensures Delivers(Sub(fields, ks), Sub(slots, ks), RecsOf(fields, slots, ks, 0))
    decreases fields, 2
  {
    var sub, d, rs := Sub(fields, ks), Sub(slots, ks), RecsOf(fields, slots, ks, 0);
    SubLength(fields, slots, ks);
    assert sub[0..] == sub && d[0..] == d;
    EachRight(fields, slots, ks, 0, sub, d, []);
    assert [] + rs == rs;
    AllRight(sub, d, rs);
  }

  lemma AllRight(sub: seq<Field>, d: seq<seq<Value>>, rs: seq<Rec>)
    requires |d| == |sub| && RecsRead(sub, rs) && forall j :: 0 <= j < |sub| ==> Right(sub, d, j, rs)
    ensures Delivers(sub, d, rs)
  {
    forall j | 0 <= j < |sub| ensures CountRight(sub, j, d[j], rs) && Gives(sub[j], j, d[j], rs) {
      assert Right(sub, d, j, rs);
    }
  }

  lemma {:induction false} SubLength<S, T>(xs: seq<S>, ys: seq<T>, ks: seq<bool>)
    requires |xs| == |ys| == |ks|
    ensures |Sub(xs, ks)| == |Sub(ys, ks)|
  {
    if xs != [] {
      SubLength(xs[1..], ys[1..], ks[1..]);
    }
  }

  lemma {:induction false} MessageDelivers(fields: seq<Field>, slots: seq<seq<Value>>)
    requires WellFormed(fields) && Shaped(fields, slots) && MessageRestorable(fields, slots)
    ensures Delivers(fields, slots, RecsOf(fields, slots, All(|fields|), 0))
    decreases fields, 3
  {
    SubAll(fields);
    SubAll(slots);
    RecsDeliver(fields, slots, All(|fields|));
  }

  // ---------- what a reader of some fields knows ----------

  /** Where the member at place j of the marked ones comes from. */
  lemma {:induction false} SubAt<T>(xs: seq<T>, ks: seq<bool>, j: nat) returns (i: nat)
    requires |xs| == |ks| && j < |Sub(xs, ks)|
    ensures i < |xs| && ks[i] && Sub(xs, ks)[j] == xs[i] && i == Place(ks, j)
  {
    if ks[0] && j == 0 {
      i := 0;
    } else {
      var k := SubAt(xs[1..], ks[1..], if ks[0] then j - 1 else j);
      i := k + 1;
    }
  }

  /** The place of the j-th mark. */
  function Place(ks: seq<bool>, j: nat): nat {
    if ks == [] || (ks[0] && j == 0) then 0 else 1 + Place(ks[1..], if ks[0] then j - 1 else j)
  }

  lemma {:induction false} PlaceRises(ks: seq<bool>, j: nat, k: nat)
    requires j < k && k < |Sub(ks, ks)|
    ensures Place(ks, j) < Place(ks, k)
  {
    if !(ks[0] && j == 0) {
      SubLength(ks[1..], ks[1..], ks[1..]);
      PlaceRises(ks[1..], if ks[0] then j - 1 else j, if ks[0] then k - 1 else k);
    }
  }

  /** What is kept of a well-formed descriptor is one, and its tags are its own. */
  lemma SubWellFormed(fields: seq<Field>, ks: seq<bool>)
    requires |fields| == |ks| && WellFormed(fields)
    ensures WellFormed(Sub(fields, ks)) && Strangers(Sub(fields, ks), fields, ks)
  {
    var sub := Sub(fields, ks);
    SubLength(fields, ks, ks);
    forall j | 0 <= j < |sub| ensures FieldWellFormed(sub[j]) {
      var i := SubAt(fields, ks, j);
    }
    forall j, k | 0 <= j < k < |sub| ensures sub[j].tag != sub[k].tag {
      var a := SubAt(fields, ks, j);
      var b := SubAt(fields, ks, k);
      PlaceRises(ks, j, k);
    }
    forall i, j | 0 <= i < |fields| && !ks[i] && 0 <= j < |sub| ensures sub[j].tag != fields[i].tag {
      var a := SubAt(fields, ks, j);
      assert a != i;
    }
  }

  /** The kept slots of a message are as exclusive as all of them. */
  lemma SubMembers(fields: seq<Field>, slots: seq<seq<Value>>, ks: seq<bool>)
    requires |fields| == |slots| == |ks| && WellFormed(fields) && Shaped(fields, slots)
    ensures Strangers(Sub(fields, ks), fields, ks) && Exclusive(Sub(fields, ks), Sub(slots, ks))
  {
    var sub, d := Sub(fields, ks), Sub(slots, ks);
    SubWellFormed(fields, ks);
    SubLength(fields, slots, ks);
    SubLength(fields, ks, ks);
    forall i, j | 0 <= i < j < |sub| && sub[i].rule.Oneof? && sub[i].rule == sub[j].rule
      ensures d[i] == [] || d[j] == []
    {
      var a := SubAt(fields, ks, i);
      var b := SubAt(fields, ks, j);
      var a' := SubAt(slots, ks, i);
      var b' := SubAt(slots, ks, j);
      PlaceRises(ks, i, j);
    }
  }
}
