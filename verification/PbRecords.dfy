/** A message on the wire as the records it is made of, in any order and with unknown
    ones among them; what a decoder makes of them one by one; and what they say taken
    together (Protocol Buffers encoding guide, section "Message Structure"). */
module PbRecords {
  import opened Keys
  import opened Coding
  import opened PbWire
  import opened PbMessage
  import opened PbFieldIter
  import opened PbStructure

  /** A value on the wire, in whatever bytes; a submessage is its own records. */
  datatype Item = Raw(b: Bytes) | Nested(recs: seq<Rec>)

  /** A record of field j, a packed record of an array field j with the bytes of its items,
      or a record whose tag is not in the descriptor. */
  datatype Rec =
    | One(j: nat, item: Item)
    | Pack(j: nat, parts: seq<Bytes>)
    | Unknown(tag: nat, wire: nat, payload: Bytes)

  // ---------- values ----------

  /** The bytes are one payload of this wire type: what any reader can skip. */
  ghost predicate Skippable(wire: nat, b: Bytes) {
    match wire
    case 0 => IsVarint(b)
    case 1 => |b| == 8
    case 2 => exists k :: 0 < k <= 5 && k <= |b| && IsVarint(b[..k]) && GroupsValue(b[..k]) == |b| - k < U32
    case 5 => |b| == 4
    case _ => false
  }

  /** What this decoder takes: the length of a string may be any varint that
      pb_decode_varint32 reads. */
  ghost predicate Passed(wire: nat, b: Bytes) {
    if wire == 2 then exists k :: 0 < k <= |b| && IsVarint(b[..k]) && GroupsValue(b[..k]) % U32 == |b| - k
    else Skippable(wire, b)
  }

  /** One value of the type, right or wrong; a bool in no more groups than 32 bits need. */
  ghost predicate Framed(t: FieldType, b: Bytes) {
    Skippable(WireType(t), b) && (t.BoolType? ==> |b| <= 5)
  }

  /** What follows a length. */
  function Content(b: Bytes): Bytes {
    b[Front(b)..]
  }

  lemma ContentIs(b: Bytes, k: nat)
    requires k <= |b| && IsVarint(b[..k])
    ensures Content(b) == b[k..]
  {
    FrontIs(b, k);
  }

  /** An integer in 64 bits received; below eight bytes a signed one is first cut to 32. */
  function ReadsInteger(t: FieldType, value: nat): Option<int>
    requires (t.VarintType? || t.UVarintType? || t.SVarintType?) && t.size in {1, 2, 4, 8}
  {
    if t.UVarintType? then if value < Modulus(t.size) then Some(value) else None
    else
      var n := if t.SVarintType? then UnZigZag(value) else Signed(value, if t.size == 8 then 8 else 4);
      if Signed(n, t.size) == n then Some(n) else None
  }

  /** The value that the payload of a field of this type stands for; None if it does not
      fit the member. */
  function Reads(t: FieldType, b: Bytes): Option<Value> {
    match t
    case BoolType =>
      var n := GroupsValue(b);
      if |b| <= 5 && n >= U32 then None else Some(Int(if n % U32 != 0 then 1 else 0))
    case Fixed32Type => Some(Int(Unfixed(b)))
    case Fixed64Type => Some(Int(Unfixed(b)))
    case BytesType(max) => if |Content(b)| <= max then Some(Blob(Content(b))) else None
    case StringType(size) => if |Content(b)| < size then Some(Blob(Content(b))) else None
    case FixedBytesType(size) =>
      var c := Content(b);
      if c == [] then Some(Blob(seq(size, _ => 0))) else if |c| == size then Some(Blob(c)) else None
    case SubmessageType(_) => None
    case _ =>
      if |b| > 10 || t.size !in {1, 2, 4, 8} then None
      else
        match ReadsInteger(t, GroupsValue(b) % U64)
        case Some(n) => Some(Int(n))
        case None => None
  }

  /** The integers of n bytes, with a sign or without. */
  predicate InRange(t: FieldType, n: int)
    requires (t.VarintType? || t.UVarintType? || t.SVarintType?) && t.size in {1, 2, 4, 8}
  {
    if t.UVarintType? then 0 <= n < Modulus(t.size) else -(Modulus(t.size) / 2) <= n < Modulus(t.size) / 2
  }

  /** The groups stand for n: as they are, in zigzag form, or in two's complement. */
  predicate StandFor(t: FieldType, groups: nat, n: int)
    requires t.VarintType? || t.UVarintType? || t.SVarintType?
  {
    match t
    case UVarintType(_) => groups == n
    case SVarintType(_) => groups == if n >= 0 then 2 * n else -2 * n - 1
    case VarintType(size) => if size == 8 then n % U64 == groups else n % U32 == groups % U32
  }

  /** An integer is read exactly when it is in range and the groups stand for it. */
  lemma ReadsExactly(t: FieldType, b: Bytes, n: int)
    requires (t.VarintType? || t.UVarintType? || t.SVarintType?) && t.size in {1, 2, 4, 8}
    ensures Reads(t, b) == Some(Int(n)) <==> |b| <= 10 && InRange(t, n) && StandFor(t, GroupsValue(b) % U64, n)
  {
    IntegerExactly(t, GroupsValue(b) % U64, n);
  }

  lemma IntegerExactly(t: FieldType, groups: nat, n: int)
    requires (t.VarintType? || t.UVarintType? || t.SVarintType?) && t.size in {1, 2, 4, 8} && groups < U64
    ensures ReadsInteger(t, groups) == Some(n) <==> InRange(t, n) && StandFor(t, groups, n)
  {
    match t
    case UVarintType(size) =>
    case SVarintType(size) =>
      SignedInRange(n, size);
      ZigZagExactly(groups, n);
    case VarintType(size) => CutExactly(t, groups, n);
  }

  lemma ZigZagExactly(groups: nat, n: int)
    ensures UnZigZag(groups) == n <==> groups == if n >= 0 then 2 * n else -2 * n - 1
  {
  }

  lemma CutExactly(t: FieldType, groups: nat, n: int)
    requires t.VarintType? && t.size in {1, 2, 4, 8} && groups < U64
    ensures ReadsInteger(t, groups) == Some(n) <==> InRange(t, n) && StandFor(t, groups, n)
  {
    var wide: nat := if t.size == 8 then 8 else 4;
    SignedInRange(n, t.size);
    CutTo(groups, n, wide);
    assert t.size != 8 ==> Modulus(t.size) <= Modulus(4);
    assert ReadsInteger(t, groups) == Some(n) <==> Signed(groups, wide) == n && Signed(n, t.size) == n;
  }

  lemma SignedInRange(n: int, size: nat)
    requires size in {1, 2, 4, 8}
    ensures Signed(n, size) == n <==> -(Modulus(size) / 2) <= n < Modulus(size) / 2
  {
    var m := Modulus(size);
    if 0 <= n < m / 2 {
      assert n % m == n;
    } else if -(m / 2) <= n < 0 {
      assert n % m == n + m;
    }
  }

  lemma CutTo(groups: nat, n: int, size: nat)
    requires size in {4, 8} && groups < U64
    ensures Signed(groups, size) == n <==>
              -(Modulus(size) / 2) <= n < Modulus(size) / 2 && n % Modulus(size) == groups % Modulus(size)
  {
    var m := Modulus(size);
    var k := groups % m;
    if 0 <= n < m / 2 {
      assert n % m == n;
    } else if -(m / 2) <= n < 0 {
      assert n % m == n + m;
    }
  }

  predicate AllRead(t: FieldType, parts: seq<Bytes>) {
    forall i :: 0 <= i < |parts| ==> Reads(t, parts[i]).Some?
  }

  function Values(t: FieldType, parts: seq<Bytes>): (vs: seq<Value>)
    ensures |vs| == |parts|
  {
    seq(|parts|, i requires 0 <= i < |parts| =>
      if Reads(t, parts[i]).Some? then Reads(t, parts[i]).value else DefaultValue(t))
  }

  function Flat(parts: seq<Bytes>): Bytes {
    if parts == [] then [] else parts[0] + Flat(parts[1..])
  }

  // ---------- bytes ----------

  function ItemWire(t: FieldType, item: Item): Bytes
    decreases item
  {
    match item
    case Raw(b) => b
    case Nested(recs) =>
      if t.SubmessageType? then Varint(|RecsWire(t.fields, recs)|) + RecsWire(t.fields, recs) else []
  }

  /** What follows the tag of a record of a known field. */
  function Payload(t: FieldType, r: Rec): Bytes
    decreases r, 0
  {
    match r
    case One(_, item) => ItemWire(t, item)
    case Pack(_, parts) => Varint(|Flat(parts)|) + Flat(parts)
    case Unknown(_, _, payload) => payload
  }

  function RecWire(fields: seq<Field>, r: Rec): Bytes
    decreases r, 1
  {
    match r
    case Unknown(tag, wire, payload) => TagBytes(tag, wire) + payload
    case Pack(j, _) => if j < |fields| then TagBytes(fields[j].tag, 2) + Payload(fields[j].ltype, r) else []
    case One(j, _) =>
      if j < |fields| then TagBytes(fields[j].tag, WireType(fields[j].ltype)) + Payload(fields[j].ltype, r) else []
  }

  function RecsWire(fields: seq<Field>, rs: seq<Rec>): Bytes
    decreases rs
  {
    if rs == [] then [] else RecWire(fields, rs[0]) + RecsWire(fields, rs[1..])
  }

  /** Records in the wire types of their fields; whether their values fit is another matter. */
  ghost predicate ItemOk(t: FieldType, item: Item)
    decreases item
  {
    match item
    case Raw(b) => !t.SubmessageType? && Framed(t, b)
    case Nested(recs) => t.SubmessageType? && RecsOk(t.fields, recs) && |RecsWire(t.fields, recs)| < U32
  }

  ghost predicate PartsOk(t: FieldType, parts: seq<Bytes>) {
    |Flat(parts)| < U32 && forall k :: 0 <= k < |parts| ==> Framed(t, parts[k])
  }

  ghost predicate RecOk(fields: seq<Field>, r: Rec)
    decreases r
  {
    match r
    case One(j, item) => j < |fields| && ItemOk(fields[j].ltype, item)
    case Pack(j, parts) => j < |fields| && IsPacked(fields[j]) && PartsOk(fields[j].ltype, parts)
    case Unknown(tag, wire, payload) =>
      && 1 <= tag < TAG_LIMIT && wire < 8 && Skippable(wire, payload)
      && forall j :: 0 <= j < |fields| ==> fields[j].tag != tag
  }

  ghost predicate RecsOk(fields: seq<Field>, rs: seq<Rec>)
    decreases rs
  {
    forall i :: 0 <= i < |rs| ==> RecOk(fields, rs[i])
  }

  // ---------- one record after the other ----------

  /** What pb_decode_noinit keeps while it reads: the structure, the fixed-count
      array last met, and the required fields seen. */
  datatype Progress = Progress(dest: seq<seq<Value>>, fixed: Option<nat>, seen: set<nat>)

  const MAX_REQUIRED: nat := 64

  predicate Sized(fields: seq<Field>, p: Progress) {
    |p.dest| == |fields| && (p.fixed.Some? ==> p.fixed.value < |fields|)
  }

  /** The fields of one oneof other than field i are cleared. */
  function ClearUnion(fields: seq<Field>, i: nat, dest: seq<seq<Value>>): (d: seq<seq<Value>>)
    requires i < |fields| == |dest|
    ensures |d| == |dest| && d[i] == dest[i]
  {
    if fields[i].rule.Oneof? then
      seq(|dest|, j requires 0 <= j < |dest| => if j != i && fields[j].rule == fields[i].rule then [] else dest[j])
    else dest
  }

  /** The fixed-count array met last has all its items. */
  predicate FixedDone(fields: seq<Field>, p: Progress)
    requires Sized(fields, p)
  {
    p.fixed.Some? && fields[p.fixed.value].rule.FixedCount? ==>
      |p.dest[p.fixed.value]| == fields[p.fixed.value].rule.count
  }

  /** Before a record of field j is read: a fixed-count array met anew starts from nothing,
      and the one met before must be complete; a required field is marked; a oneof is
      cleared. */
  function Prepared(fields: seq<Field>, j: nat, p: Progress): (r: Option<Progress>)
    requires j < |fields| && Sized(fields, p)
    ensures r.Some? ==> Sized(fields, r.value)
  {
    var f := fields[j];
    if f.rule.FixedCount? && p.fixed != Some(j) && !FixedDone(fields, p) then None
    else
      var q := if f.rule.FixedCount? && p.fixed != Some(j) then p.(fixed := Some(j), dest := p.dest[j := []]) else p;
      var s := if f.rule.Required? && RequiredBefore(fields, j) < MAX_REQUIRED
               then q.(seen := q.seen + {RequiredBefore(fields, j)}) else q;
      Some(s.(dest := ClearUnion(fields, j, s.dest)))
  }

  function MaxItems(f: Field): nat {
    match f.rule
    case Repeated(max) => max
    case FixedCount(count) => count
    case _ => 1
  }

  /** A value decoded over what is already there; None if that fails. */
  function TakeItem(t: FieldType, base: Value, item: Item): (r: Option<Value>)
    decreases item
  {
    match item
    case Raw(b) => Reads(t, b)
    case Nested(recs) =>
      if t.SubmessageType? && base.Msg? && |base.slots| == |t.fields| then
        match TakeMessage(t.fields, base.slots, recs)
        case Some(slots) => Some(Msg(slots))
        case None => None
      else None
  }

  /** What a field holds after one more record of it. */
  function TakeSlot(f: Field, held: seq<Value>, r: Rec): (items: Option<seq<Value>>)
    decreases r, 0
  {
    match r
    case Unknown(_, _, _) => Some(held)
    case Pack(_, parts) =>
      if AllRead(f.ltype, parts) && (parts == [] || |held| + |parts| <= MaxItems(f)) then
        Some(held + Values(f.ltype, parts))
      else None
    case One(_, item) =>
      if IsArray(f) then
        if |held| >= MaxItems(f) then None
        else
          match TakeItem(f.ltype, DefaultValue(f.ltype), item)
          case Some(v) => Some(held + [v])
          case None => None
      else
        match TakeItem(f.ltype, if held == [] then DefaultValue(f.ltype) else held[0], item)
        case Some(v) => Some([v])
        case None => None
  }

  function TakeRec(fields: seq<Field>, p: Progress, r: Rec): (q: Option<Progress>)
    requires Sized(fields, p)
    ensures q.Some? ==> Sized(fields, q.value)
    decreases r, 1
  {
    if r.Unknown? || r.j >= |fields| then Some(p)
    else
      match Prepared(fields, r.j, p)
      case None => None
      case Some(s) =>
        match TakeSlot(fields[r.j], s.dest[r.j], r)
        case None => None
        case Some(items) => Some(s.(dest := s.dest[r.j := items]))
  }

  function TakeRecs(fields: seq<Field>, p: Progress, rs: seq<Rec>): (q: Option<Progress>)
    requires Sized(fields, p)
    ensures q.Some? ==> Sized(fields, q.value)
    decreases rs, 0
  {
    if rs == [] then Some(p)
    else
      match TakeRecs(fields, p, rs[..|rs| - 1])
      case None => None
      case Some(q) => TakeRec(fields, q, rs[|rs| - 1])
  }

  predicate AllSeen(fields: seq<Field>, seen: set<nat>) {
    forall r | 0 <= r < RequiredBefore(fields, |fields|) && r < MAX_REQUIRED :: r in seen
  }

  /** A whole message decoded into a structure. */
  function TakeMessage(fields: seq<Field>, base: seq<seq<Value>>, rs: seq<Rec>): (d: Option<seq<seq<Value>>>)
    requires |base| == |fields|
    ensures d.Some? ==> |d.value| == |fields|
    decreases rs, 1
  {
    match TakeRecs(fields, Progress(base, None, {}), rs)
    case None => None
    case Some(p) => if FixedDone(fields, p) && AllSeen(fields, p.seen) then Some(p.dest) else None
  }

  // ---------- what the records say together ----------

  predicate Of(r: Rec, j: nat) {
    !r.Unknown? && r.j == j
  }

  ghost predicate Has(rs: seq<Rec>, j: nat) {
    exists i :: 0 <= i < |rs| && Of(rs[i], j)
  }

  ghost predicate ItemGives(t: FieldType, item: Item, v: Value)
    decreases item
  {
    match item
    case Raw(b) => Reads(t, b) == Some(v)
    case Nested(recs) => t.SubmessageType? && v.Msg? && Delivers(t.fields, v.slots, recs)
  }

  ghost predicate RecGives(t: FieldType, r: Rec, v: Value)
    decreases r
  {
    r.One? && ItemGives(t, r.item, v)
  }

  /** The records of field j among these give it these items: of an array all, one after
      the other, packed or not; of any other field the last.  Without a record it has its
      default. */
  ghost predicate Gives(f: Field, j: nat, items: seq<Value>, rs: seq<Rec>)
    decreases rs, 0
  {
    if rs == [] then items == DefaultSlot(f)
    else
      var n, m := |rs| - 1, |items|;
      var r, before := rs[n], rs[..n];
      if !Of(r, j) then Gives(f, j, items, before)
      else
        match r
        case Pack(_, parts) =>
          var l := m - |parts|;
          l >= 0 && items[l..] == Values(f.ltype, parts) && Gives(f, j, items[..l], before)
        case One(_, _) =>
          if IsArray(f) then m > 0 && RecGives(f.ltype, r, items[m - 1]) && Gives(f, j, items[..m - 1], before)
          else m == 1 && RecGives(f.ltype, r, items[0])
        case Unknown(_, _, _) => false
  }

  /** The field's items are as many as its rule asks for. */
  ghost predicate CountRight(fields: seq<Field>, j: nat, items: seq<Value>, rs: seq<Rec>)
    requires j < |fields|
  {
    match fields[j].rule
    case Repeated(max) => |items| <= max
    case FixedCount(count) => Has(rs, j) ==> |items| == count
    case Required => RequiredBefore(fields, j) < MAX_REQUIRED ==> Has(rs, j)
    case _ => true
  }

  /** The values of the record fit its field. */
  predicate RecReads(fields: seq<Field>, r: Rec) {
    !r.Unknown? && r.j < |fields| ==>
      match r
      case Pack(j, parts) => AllRead(fields[j].ltype, parts)
      case One(j, item) => item.Raw? ==> Reads(fields[j].ltype, item.b).Some?
  }

  predicate RecsRead(fields: seq<Field>, rs: seq<Rec>) {
    forall i :: 0 <= i < |rs| ==> RecReads(fields, rs[i])
  }

  /** These records, wherever each stands among the others, are the message `slots`. */
  ghost predicate Delivers(fields: seq<Field>, slots: seq<seq<Value>>, rs: seq<Rec>)
    decreases rs, 1
  {
    && |slots| == |fields| && RecsRead(fields, rs)
    && (forall j :: 0 <= j < |fields| ==> CountRight(fields, j, slots[j], rs))
    && (forall j :: 0 <= j < |fields| ==> Gives(fields[j], j, slots[j], rs))
  }

  /** Each submessage that is no array item comes at most once, of a oneof only one member
      comes, and the records of a fixed-count array come with no other such array between
      them. */
  ghost predicate Plain(fields: seq<Field>, rs: seq<Rec>)
    decreases rs
  {
    && (forall i, k :: 0 <= i < k < |rs| ==> Apart(fields, rs[i], rs[k]))
    && (forall i, m, k :: 0 <= i < m < k < |rs| ==> Together(fields, rs[i], rs[m], rs[k]))
    && (forall i :: 0 <= i < |rs| ==> PlainRec(fields, rs[i]))
  }

  ghost predicate PlainRec(fields: seq<Field>, r: Rec)
    decreases r
  {
    r.One? && r.item.Nested? && r.j < |fields| && fields[r.j].ltype.SubmessageType? ==>
      Plain(fields[r.j].ltype.fields, r.item.recs)
  }

  ghost predicate Apart(fields: seq<Field>, r: Rec, s: Rec) {
    !r.Unknown? && !s.Unknown? && r.j < |fields| && s.j < |fields| ==>
      if r.j == s.j then IsArray(fields[r.j]) || !fields[r.j].ltype.SubmessageType?
      else fields[r.j].rule.Oneof? ==> fields[r.j].rule != fields[s.j].rule
  }

  ghost predicate Together(fields: seq<Field>, r: Rec, s: Rec, t: Rec) {
    (!r.Unknown? && !s.Unknown? && !t.Unknown? && r.j < |fields| && s.j < |fields| && r.j == t.j
     && fields[r.j].rule.FixedCount? && fields[s.j].rule.FixedCount?) ==> s.j == r.j
  }
}
