/** Block and its iterator (block.cc).  On a block that BlockBuilder finished it is a
    cursor over the entries.  On any bytes it stays within the entries unless an entry
    header's two lengths add up to 2^32 or more: their sum is a 32-bit one, so such a
    header can be accepted, and `overrun` records that what it describes lies outside. */
module BlockReader {
  import opened Keys
  import opened Coding
  import opened BlockFormat
  import opened Comparator

  /** Three varints at position p, before `limit`: the entry's key delta follows. */
  datatype Header = Header(delta: nat, shared: nat, nonShared: nat, valueLength: nat)

  ghost predicate Small(e: Pair) {
    |e.key| < U32 && |e.value| < U32
  }

  /** The last test of DecodeEntry, in 32-bit arithmetic: `room` bytes are left. */
  predicate Accepts(room: nat, nonShared: nat, valueLength: nat) {
    room % U32 >= (nonShared + valueLength) % U32
  }

  /** The header and what it describes end within `limit`. */
  predicate Within(h: Header, limit: nat) {
    h.delta + h.nonShared + h.valueLength <= limit
  }

  /** An accepted header stays within the entries exactly when its lengths do not wrap. */
  lemma AcceptedWithin(limit: nat, h: Header)
    requires h.delta <= limit < U32 && h.nonShared < U32 && h.valueLength < U32
    requires Accepts(limit - h.delta, h.nonShared, h.valueLength)
    ensures Within(h, limit) <==> h.nonShared + h.valueLength < U32
  {
  }

  /** The bytes 00, FF FF FF FF 0F, 01 are an accepted header of an entry of 2^32 bytes. */
  lemma WrappedHeader()
    ensures Varint(0) + (Varint(U32 - 1) + (Varint(1) + [])) == [0, 255, 255, 255, 255, 15, 1]
    ensures Accepts(0, U32 - 1, 1) && !Within(Header(7, 0, U32 - 1, 1), 7)
  {
    assert Varint(U32 - 1) == [255] + Varint(0x1ff_ffff);
    assert Varint(0x1ff_ffff) == [255] + Varint(0x3_ffff);
    assert Varint(0x3_ffff) == [255] + Varint(0x7ff);
    assert Varint(0x7ff) == [255] + Varint(15);
  }

  /** Three 32-bit varints at the front, and what follows them. */
  function ThreeAt(b: Bytes): Option<((nat, nat, nat), Bytes)> {
    match VarintAt(b, 5, U32)
    case None => None
    case Some(s) =>
      match VarintAt(s.1, 5, U32)
      case None => None
      case Some(n) =>
        match VarintAt(n.1, 5, U32)
        case None => None
        case Some(v) => Some(((s.0, n.0, v.0), v.1))
  }

  /** DecodeEntry on any bytes: three varints that are there and that are accepted. */
  function HeaderAt(b: Bytes, p: nat): Option<Header>
    requires p <= |b|
  {
    match ThreeAt(b[p..])
    case None => None
    case Some(t) =>
      var delta := |b| - |t.1|;
      if delta >= 0 && Accepts(|t.1|, t.0.1, t.0.2) then Some(Header(delta, t.0.0, t.0.1, t.0.2)) else None
  }

  lemma ThreeBack(s: nat, n: nat, v: nat, tail: Bytes)
    requires s < U32 && n < U32 && v < U32
    ensures ThreeAt(Varint(s) + (Varint(n) + (Varint(v) + tail))) == Some(((s, n, v), tail))
  {
    ScaleLimits();
    VarintBack(s, Varint(n) + (Varint(v) + tail), 5, U32);
    VarintBack(n, Varint(v) + tail, 5, U32);
    VarintBack(v, tail, 5, U32);
  }

  /** What is decoded of three varints that were written. */
  lemma HeaderBack(b: Bytes, p: nat, s: nat, n: nat, v: nat, tail: Bytes)
    requires p <= |b| && s < U32 && n < U32 && v < U32 && b[p..] == Varint(s) + (Varint(n) + (Varint(v) + tail))
    ensures |tail| <= |b|
    ensures HeaderAt(b, p) == if Accepts(|tail|, n, v) then Some(Header(|b| - |tail|, s, n, v)) else None
  {
    ThreeBack(s, n, v, tail);
    HeaderIs(b, p, ((s, n, v), tail));
  }

  lemma HeaderIs(b: Bytes, p: nat, t: ((nat, nat, nat), Bytes))
    requires p <= |b| && ThreeAt(b[p..]) == Some(t)
    ensures |t.1| <= |b|
    ensures HeaderAt(b, p)
         == if Accepts(|t.1|, t.0.1, t.0.2) then Some(Header(|b| - |t.1|, t.0.0, t.0.1, t.0.2)) else None
  {
    ThreeShort(b[p..]);
  }

  lemma OneByte(b: Bytes, p: nat)
    requires p < |b| && b[p] < 128
    ensures VarintAt(b[p..], 5, U32) == Some((b[p] as nat, b[p + 1..]))
  {
    ScaleLimits();
    assert b[p..] == Varint(b[p] as nat) + b[p + 1..];
    VarintBack(b[p] as nat, b[p + 1..], 5, U32);
  }

  lemma ThreeShort(b: Bytes)
    ensures ThreeAt(b).Some? ==> |ThreeAt(b).value.1| + 3 <= |b|
  {
  }

  method ReadThree(b: Bytes, p: nat) returns (next: Option<nat>, shared: nat, nonShared: nat, valueLength: nat)
    requires p <= |b|
    ensures Agrees(b, next, (shared, nonShared, valueLength), ThreeAt(b[p..]))
  {
    next, shared := GetVarint32(b, p, 0, []);
    nonShared, valueLength := 0, 0;
    if next.Some? {
      next, nonShared := GetVarint32(b, next.value, 0, []);
    }
    if next.Some? {
      next, valueLength := GetVarint32(b, next.value, 0, []);
    }
  }

  /** DecodeEntry, on the bytes before the restart array: whatever follows three 32-bit
      varints, they are accepted exactly when `Accepts` says so. */
  method DecodeEntry(b: Bytes, p: nat) returns (r: Option<Header>)
    requires p <= |b| < U32
    ensures r == HeaderAt(b, p)
    ensures r.Some? ==> p < r.value.delta <= |b|
    ensures r.Some? ==> (Within(r.value, |b|) <==> r.value.nonShared + r.value.valueLength < U32)
  {
    ThreeShort(b[p..]);
    if |b| - p < 3 {
      return None;
    }
    var next, shared, ns, vl;
    if b[p] < 128 && b[p + 1] < 128 && b[p + 2] < 128 {
      next, shared, ns, vl := Some(p + 3), b[p], b[p + 1], b[p + 2];
      OneByte(b, p);
      OneByte(b, p + 1);
      OneByte(b, p + 2);
    } else {
      next, shared, ns, vl := ReadThree(b, p);
    }
    r := MakeHeader(b, p, next, shared, ns, vl);
  }

  /** The last test. */
  method MakeHeader(b: Bytes, p: nat, next: Option<nat>, shared: nat, nonShared: nat, valueLength: nat)
    returns (r: Option<Header>)
    requires p <= |b| < U32 && Agrees(b, next, (shared, nonShared, valueLength), ThreeAt(b[p..]))
    ensures r == HeaderAt(b, p) && (r.Some? ==> p < r.value.delta <= |b|)
    ensures r.Some? ==> (Within(r.value, |b|) <==> r.value.nonShared + r.value.valueLength < U32)
  {
    ThreeShort(b[p..]);
    if next == None || !Accepts(|b| - next.value, nonShared, valueLength) {
      return None;
    }
    ThreeLimits(b[p..]);
    AcceptedWithin(|b|, Header(next.value, shared, nonShared, valueLength));
    r := Some(Header(next.value, shared, nonShared, valueLength));
  }

  lemma ThreeLimits(b: Bytes)
    ensures ThreeAt(b).Some? ==> ThreeAt(b).value.0.1 < U32 && ThreeAt(b).value.0.2 < U32
  {
  }

  /** The header was that of entry e, whose key delta and value follow it. */
  ghost predicate EntryAt(b: Bytes, h: Header, shared: nat, e: Pair, rest: Bytes)
    requires shared <= |e.key|
  {
    && h.shared == shared && h.nonShared == |e.key| - shared && h.valueLength == |e.value|
    && h.delta <= |b| && b[h.delta..] == e.key[shared..] + e.value + rest
  }

  lemma HeaderSplits(shared: nat, e: Pair, rest: Bytes)
    requires shared <= |e.key|
    ensures EntryBytes(shared, e) + rest
         == Varint(shared) + (Varint(|e.key| - shared) + (Varint(|e.value|) + (e.key[shared..] + e.value + rest)))
  {
  }

  // ---------- facts about finished blocks ----------

  ghost predicate Sorted(less: (Bytes, Bytes) -> bool, es: seq<Pair>) {
    Linear(less) && forall i, j :: 0 <= i < j < |es| ==> less(es[i].key, es[j].key)
  }

  /** A finished block of sorted entries, its offsets fitting 32 bits. */
  ghost predicate Formed(data: Bytes, es: seq<Pair>, interval: nat) {
    interval >= 1 && data == BlockBytes(es, interval) && |data| < U32
  }

  /** What the reader finds at the end of a finished block. */
  lemma FormedTail(data: Bytes, es: seq<Pair>, interval: nat)
    requires Formed(data, es, interval)
    ensures var r := Offset(es, interval, |es|);
            && |data| == r + 4 * |Restarts(es, interval)| + 4 && data[..r] == Buffer(es, interval, |es|)
            && data[r..] == Words(Restarts(es, interval)) + Fixed(|Restarts(es, interval)|, 4)
            && Unfixed(data[|data| - 4..]) == |Restarts(es, interval)|
  {
    var ns, r := Restarts(es, interval), Offset(es, interval, |es|);
    assert data == Buffer(es, interval, |es|) + (Words(ns) + Fixed(|ns|, 4));
    assert data[|data| - 4..] == Fixed(|ns|, 4);
    FixedRoundTrip(|ns|, 4);
    assert Bound(4) == U32;
  }

  lemma RestartInside(es: seq<Pair>, interval: nat, j: nat)
    requires j < |Restarts(es, interval)|
    ensures RestartEntries(interval, |es|)[j] <= |es|
    ensures Restarts(es, interval)[j]
              == Offset(es, interval, RestartEntries(interval, |es|)[j]) <= Offset(es, interval, |es|)
  {
    RestartsBound(interval, |es|);
    OffsetsRise(es, interval, RestartEntries(interval, |es|)[j], |es|);
  }

  lemma AfterPrefix(b: Bytes, before: Bytes, x: Bytes)
    requires before + x <= b
    ensures b[|before|..] == x + b[|before| + |x|..]
  {
    assert b == before + x + b[|before| + |x|..];
  }

  /** The bytes from an entry on: the entry, then the rest. */
  lemma EntryThere(es: seq<Pair>, interval: nat, i: nat)
    requires i < |es|
    ensures var b := Buffer(es, interval, |es|);
            && Offset(es, interval, i) < Offset(es, interval, i + 1) <= |b|
            && b[Offset(es, interval, i)..]
              == EntryBytes(SharedAt(es, interval, i), es[i]) + b[Offset(es, interval, i + 1)..]
  {
    BufferPrefix(es, interval, i + 1, |es|);
    AfterPrefix(Buffer(es, interval, |es|), Buffer(es, interval, i), EntryBytes(SharedAt(es, interval, i), es[i]));
  }

  lemma {:induction false} OffsetsRise(es: seq<Pair>, interval: nat, i: nat, j: nat)
    requires i <= j <= |es|
    ensures Offset(es, interval, i) <= Offset(es, interval, j)
    ensures i < j ==> Offset(es, interval, i) < Offset(es, interval, j)
    decreases j
  {
    if i < j {
      OffsetsRise(es, interval, i, j - 1);
      assert |EntryBytes(SharedAt(es, interval, j - 1), es[j - 1])| > 0;
    }
  }

  // ---------- the layout, as the iterator sees it ----------

  /** Where the entries of a block are: entry i begins at offsets[i] and shares
      shares[i] bytes with the key before; the restart points are entries points[j]. */
  datatype Layout = Layout(es: seq<Pair>, offsets: seq<nat>, shares: seq<nat>, points: seq<nat>)

  function RestartPoint(data: Bytes, restarts: nat, index: nat): nat
    requires restarts + 4 * index + 4 <= |data|
  {
    Unfixed(data[restarts + 4 * index..restarts + 4 * index + 4])
  }

  ghost predicate LaidOut(data: Bytes, restarts: nat, numRestarts: nat, l: Layout) {
    && restarts + 4 * numRestarts + 4 <= |data| && restarts < U32
    && |l.offsets| == |l.es| + 1 && l.offsets[|l.es|] == restarts && |l.shares| == |l.es|
    && |l.points| == numRestarts > 0
    && (forall i, j :: 0 <= i < j <= |l.es| ==> l.offsets[i] < l.offsets[j])
    && (forall j :: 0 <= j < numRestarts ==> PointOk(data, restarts, l, j))
    && l.points[0] == 0 && (forall i, j :: 0 <= i < j < numRestarts ==> l.points[i] < l.points[j])
    && (forall i :: 0 <= i < |l.es| ==> EntryOk(data, restarts, l, i))
  }

  ghost predicate PointOk(data: Bytes, restarts: nat, l: Layout, j: nat)
    requires j < |l.points| && restarts + 4 * j + 4 <= |data| && |l.offsets| == |l.es| + 1 && |l.shares| == |l.es|
  {
    && l.points[j] <= |l.es| && (|l.es| > 0 ==> l.points[j] < |l.es| && l.shares[l.points[j]] == 0)
    && RestartPoint(data, restarts, j) == l.offsets[l.points[j]]
  }

  ghost predicate EntryOk(data: Bytes, restarts: nat, l: Layout, i: nat)
    requires i < |l.es| && |l.offsets| == |l.es| + 1 && |l.shares| == |l.es| && restarts <= |data|
  {
    && l.shares[i] <= |l.es[i].key| && Small(l.es[i])
    && (if i == 0 then l.shares[0] == 0
        else l.shares[i] <= |l.es[i - 1].key| && l.es[i - 1].key[..l.shares[i]] == l.es[i].key[..l.shares[i]])
    && l.offsets[i] <= restarts && l.offsets[i + 1] <= restarts
    && data[..restarts][l.offsets[i]..] == EntryBytes(l.shares[i], l.es[i]) + data[..restarts][l.offsets[i + 1]..]
  }

  function LayoutOf(es: seq<Pair>, interval: nat): Layout {
    Layout(es, seq(|es| + 1, i requires 0 <= i <= |es| => Offset(es, interval, i)),
           seq(|es|, i requires 0 <= i < |es| => SharedAt(es, interval, i)), RestartEntries(interval, |es|))
  }

  /** A finished block has the layout its builder gave it. */
  lemma FinishedLayout(data: Bytes, es: seq<Pair>, interval: nat)
    requires Formed(data, es, interval)
    ensures LaidOut(data, Offset(es, interval, |es|), |Restarts(es, interval)|, LayoutOf(es, interval))
  {
    var l, r := LayoutOf(es, interval), Offset(es, interval, |es|);
    FormedTail(data, es, interval);
    RestartsBound(interval, |es|);
    forall i, j | 0 <= i < j <= |es| ensures l.offsets[i] < l.offsets[j] {
      OffsetsRise(es, interval, i, j);
    }
    forall j | 0 <= j < |l.points| ensures PointOk(data, r, l, j) {
      FinishedPoint(data, es, interval, j);
    }
    forall i | 0 <= i < |es| ensures EntryOk(data, r, l, i) {
      FinishedSmall(es, interval, i);
      FinishedEntry(data, es, interval, i);
    }
  }

  /** No key or value is longer than the block up to its end. */
  lemma {:induction false} EntrySmall(es: seq<Pair>, interval: nat, i: nat)
    requires i < |es|
    ensures |es[i].key| <= Offset(es, interval, i + 1) && |es[i].value| <= Offset(es, interval, i + 1)
  {
    if i > 0 {
      EntrySmall(es, interval, i - 1);
    }
    EntryLength(SharedAt(es, interval, i), es[i]);
    assert Offset(es, interval, i + 1) == Offset(es, interval, i) + |EntryBytes(SharedAt(es, interval, i), es[i])|;
  }

  lemma EntryLength(shared: nat, e: Pair)
    requires shared <= |e.key|
    ensures |EntryBytes(shared, e)| >= |e.key| - shared + |e.value|
  {
  }

  lemma FinishedSmall(es: seq<Pair>, interval: nat, i: nat)
    requires i < |es| && Offset(es, interval, |es|) < U32
    ensures Small(es[i])
  {
    EntrySmall(es, interval, i);
    OffsetsRise(es, interval, i + 1, |es|);
  }

  lemma FinishedPoint(data: Bytes, es: seq<Pair>, interval: nat, j: nat)
    requires var r, ns := Offset(es, interval, |es|), Restarts(es, interval);
             r + 4 * |ns| + 4 == |data| < U32 && data[r..] == Words(ns) + Fixed(|ns|, 4) && j < |ns|
    ensures PointOk(data, Offset(es, interval, |es|), LayoutOf(es, interval), j)
  {
    var ns := Restarts(es, interval);
    PointLaid(es, interval, j);
    RestartInside(es, interval, j);
    PointRead(data, Offset(es, interval, |es|), ns, j, Words(ns) + Fixed(|ns|, 4));
  }

  /** Restart point j is at an entry that shares nothing, and holds its offset. */
  lemma PointLaid(es: seq<Pair>, interval: nat, j: nat)
    requires j < |Restarts(es, interval)|
    ensures var l, ns := LayoutOf(es, interval), Restarts(es, interval);
            && |l.points| == |ns| && l.points[j] <= |es| && l.offsets[l.points[j]] == ns[j]
            && (|es| > 0 ==> l.points[j] < |es| && l.shares[l.points[j]] == 0)
  {
    RestartInside(es, interval, j);
    RestartsBound(interval, |es|);
  }

  lemma PointRead(data: Bytes, r: nat, ns: seq<nat>, j: nat, tail: Bytes)
    requires r <= |data| && data[r..] == tail && tail == Words(ns) + Fixed(|ns|, 4) && j < |ns| && ns[j] < U32
    ensures r + 4 * j + 4 <= |data| && RestartPoint(data, r, j) == ns[j]
  {
    WordIn(ns, j, tail);
    PointFixed(data, r, tail, j, ns[j]);
  }

  lemma PointFixed(data: Bytes, r: nat, tail: Bytes, j: nat, n: nat)
    requires r <= |data| && data[r..] == tail && 4 * j + 4 <= |tail| && tail[4 * j..4 * j + 4] == Fixed(n, 4) && n < U32
    ensures r + 4 * j + 4 <= |data| && RestartPoint(data, r, j) == n
  {
    var k := 4 * j;
    FixedAt(data, r, tail, k, n);
    assert RestartPoint(data, r, j) == Unfixed(data[r + k..r + k + 4]);
  }

  lemma WordIn(ns: seq<nat>, j: nat, tail: Bytes)
    requires tail == Words(ns) + Fixed(|ns|, 4) && j < |ns|
    ensures 4 * j + 4 <= |tail| && tail[4 * j..4 * j + 4] == Fixed(ns[j], 4)
  {
    WordAt(ns, j, Fixed(|ns|, 4));
  }

  lemma FinishedEntry(data: Bytes, es: seq<Pair>, interval: nat, i: nat)
    requires i < |es| && Small(es[i])
    requires Offset(es, interval, |es|) <= |data| && data[..Offset(es, interval, |es|)] == Buffer(es, interval, |es|)
    ensures EntryOk(data, Offset(es, interval, |es|), LayoutOf(es, interval), i)
  {
    var l, r := LayoutOf(es, interval), Offset(es, interval, |es|);
    EntryThere(es, interval, i);
    EntryFrom(data, r, l, i, l.offsets[i], l.offsets[i + 1], SharedAt(es, interval, i), Buffer(es, interval, |es|));
  }

  lemma EntryFrom(data: Bytes, r: nat, l: Layout, i: nat, from: nat, to: nat, shared: nat, b: Bytes)
    requires i < |l.es| && |l.offsets| == |l.es| + 1 && |l.shares| == |l.es| && r <= |data| && data[..r] == b
    requires Small(l.es[i])
    requires l.offsets[i] == from < to == l.offsets[i + 1] <= r && l.shares[i] == shared <= |l.es[i].key|
    requires if i == 0 then shared == 0
             else shared <= |l.es[i - 1].key| && l.es[i - 1].key[..shared] == l.es[i].key[..shared]
    requires b[from..] == EntryBytes(shared, l.es[i]) + b[to..]
    ensures EntryOk(data, r, l, i)
  {
  }

  // ---------- the iterator ----------

  class BlockIter {
    const data: Bytes
    const restarts: nat
    const numRestarts: nat
    var current: nat
    var restartIndex: nat
    var key: Bytes
    var valueStart: nat
    var valueEnd: nat
    var corrupt: bool
    /** An entry was accepted that does not lie within the block. */
    var overrun: bool
    ghost const l: Layout

    ghost predicate Shape() {
      numRestarts > 0 && restarts + 4 * numRestarts + 4 <= |data| && restarts < U32
    }

    /** The block is laid out as l says. */
    ghost predicate Known() {
      LaidOut(data, restarts, numRestarts, l)
    }

    constructor (data: Bytes, restarts: nat, numRestarts: nat, ghost l: Layout)
      requires numRestarts > 0 && restarts + 4 * numRestarts + 4 <= |data| && restarts < U32
      ensures Good() && !Valid() && !corrupt && !overrun
      ensures this.data == data && this.restarts == restarts && this.numRestarts == numRestarts && this.l == l
    {
      this.data, this.restarts, this.numRestarts, this.l := data, restarts, numRestarts, l;
      current, restartIndex, key, valueStart, valueEnd := restarts, numRestarts, [], 0, 0;
      corrupt, overrun := false, false;
    }

    predicate Valid()
      reads this
    {
      current < restarts
    }

    ghost predicate Good()
      reads this
    {
      Shape() && (Valid() ==> restartIndex < numRestarts && valueStart <= valueEnd <= |data|)
    }

    /** key() and value(). */
    function Current(): Pair
      requires Good() && Valid()
      reads this
    {
      Pair(key, data[valueStart..valueEnd])
    }

    function GetRestartPoint(index: nat): nat
      requires Shape() && index < numRestarts
    {
      RestartPoint(data, restarts, index)
    }

    /** The iterator holds entry i. */
    ghost predicate Holds(i: nat)
      requires Known()
      reads `current, `key, `valueStart, `valueEnd
    {
      && i < |l.es| && current == l.offsets[i] < restarts && valueEnd == l.offsets[i + 1]
      && key == l.es[i].key && valueStart <= valueEnd <= |data| && data[valueStart..valueEnd] == l.es[i].value
    }

    /** The next entry to parse is i, whose shared prefix is in key. */
    ghost predicate Ready(i: nat)
      requires Known()
      reads `key, `valueEnd
    {
      && i <= |l.es| && valueEnd == l.offsets[i]
      && (i < |l.es| ==>
        l.shares[i] <= |key| && l.shares[i] <= |l.es[i].key| && key[..l.shares[i]] == l.es[i].key[..l.shares[i]])
    }

    lemma HoldsReady(i: nat)
      requires Known() && Holds(i)
      ensures Ready(i + 1) && (valueEnd < restarts <==> i + 1 < |l.es|)
    {
      assert i + 1 < |l.es| ==> EntryOk(data, restarts, l, i + 1);
      assert i + 1 < |l.es| ==> l.offsets[i + 1] < l.offsets[|l.es|];
    }

    method SeekToRestartPoint(index: nat)
      requires Shape() && index < numRestarts
      modifies `key, `restartIndex, `valueStart, `valueEnd
      ensures restartIndex == index
      ensures Known() ==> Ready(l.points[index])
    {
      assert Known() ==> PointOk(data, restarts, l, index);
      key, restartIndex := [], index;
      valueStart, valueEnd := GetRestartPoint(index), GetRestartPoint(index);
    }

    method CorruptionError()
      modifies this
      ensures corrupt && !Valid() && overrun == old(overrun)
    {
      current, restartIndex, corrupt, key, valueStart, valueEnd := restarts, numRestarts, true, [], 0, 0;
    }

    /** An accepted header's lengths wrapped: the code reads on outside the block, and
        what it does then is not defined.  The iterator records it and stops. */
    method Overrun()
      modifies this
      ensures overrun && !Valid() && corrupt == old(corrupt)
    {
      current, restartIndex, overrun, key, valueStart, valueEnd := restarts, numRestarts, true, [], 0, 0;
    }

    /** Nothing has gone wrong since. */
    twostate predicate Undisturbed()
      reads this
    {
      corrupt == old(corrupt) && overrun == old(overrun)
    }

    /** The next entry, or none after the last. */
    method ParseNextKey(ghost i: nat) returns (more: bool)
      requires Shape()
      modifies this
      ensures more ==> Valid() && Undisturbed() && valueStart <= valueEnd
      ensures more ==> |data| >= valueEnd > current == old(valueEnd)
      ensures more && old(restartIndex) < numRestarts ==> restartIndex < numRestarts
      ensures !more ==> !Valid()
      ensures Known() && old(Ready(i)) ==> Undisturbed() && more == (i < |l.es|) && (more ==> Holds(i))
    {
      var h := ParseHeader(i);
      if h == None {
        return false;
      }
      key := key[..h.value.shared] + data[h.value.delta..h.value.delta + h.value.nonShared];
      valueStart := h.value.delta + h.value.nonShared;
      valueEnd := valueStart + h.value.valueLength;
      AdvanceRestart();
      more := true;
    }

    /** Moves to where the next entry begins, and reads its header. */
    method ParseHeader(ghost i: nat) returns (h: Option<Header>)
      requires Shape()
      modifies this
      ensures h == None ==> !Valid()
      ensures h.Some? ==> Valid() && current == old(valueEnd) && Undisturbed() && key == old(key)
                          && restartIndex == old(restartIndex) && h.value.delta > current
                          && h.value.shared <= |key| && Within(h.value, restarts)
      ensures Known() && old(Ready(i)) ==>
                && Undisturbed() && h.Some? == (i < |l.es|)
                && (h.Some? ==> current == l.offsets[i] && Makes(data, h.value, key, l.es[i], l.offsets[i + 1]))
    {
      ghost var hyp, e, rest: Bytes := Known() && Ready(i) && i < |l.es|, Pair([], []), [];
      if hyp {
        assert EntryOk(data, restarts, l, i) && l.offsets[i] < l.offsets[|l.es|];
        e, rest := l.es[i], data[..restarts][l.offsets[i + 1]..];
      }
      current := valueEnd;
      if current >= restarts {
        current, restartIndex := restarts, numRestarts;
        return None;
      }
      h := ReadHeader(data, restarts, current, key, if hyp then l.shares[i] else 0, e, rest);
      if h == None {
        CorruptionError();
      } else if h.value.nonShared + h.value.valueLength >= U32 {
        Overrun();
        h := None;
      }
    }

    /** restart_index_ moves to the last restart point before the current entry. */
    method AdvanceRestart()
      requires Shape()
      modifies `restartIndex
      ensures old(restartIndex) < numRestarts ==> old(restartIndex) <= restartIndex < numRestarts
    {
      while restartIndex + 1 < numRestarts && GetRestartPoint(restartIndex + 1) < current
        invariant old(restartIndex) < numRestarts ==> old(restartIndex) <= restartIndex < numRestarts
        decreases numRestarts - restartIndex
      {
        restartIndex := restartIndex + 1;
      }
    }

    // ---------- the cursor ----------

    /** The iterator is at entry i; |es| is past the end. */
    ghost predicate At(i: nat)
      requires Known()
      reads this
    {
      if i < |l.es| then Holds(i) else i == |l.es| && !Valid()
    }

    method SeekToFirst()
      requires Good()
      modifies this
      ensures Good() && (Known() ==> At(0) && Undisturbed())
    {
      SeekToRestartPoint(0);
      var more := ParseNextKey(0);
    }

    method Next(ghost i: nat)
      requires Good() && Valid()
      modifies this
      ensures Good() && (Known() && old(At(i)) ==> At(i + 1) && Undisturbed())
    {
      if Known() && Holds(i) { HoldsReady(i); }
      var more := ParseNextKey(i + 1);
    }

    method SeekToLast()
      requires Good()
      modifies this
      ensures Good() && (Known() ==> At(if |l.es| == 0 then 0 else |l.es| - 1) && Undisturbed())
    {
      ghost var i: nat := if Known() then l.points[numRestarts - 1] else 0;
      assert Known() ==> PointOk(data, restarts, l, numRestarts - 1);
      SeekToRestartPoint(numRestarts - 1);
      var more := ParseNextKey(i);
      while more && valueEnd < restarts
        invariant Good() && (more ==> Valid())
        invariant Known() ==> Undisturbed() && At(i) && (more <==> i < |l.es|) && (more || |l.es| == 0)
        decreases more, restarts - valueEnd
      {
        if Known() { HoldsReady(i); }
        more := ParseNextKey(i + 1);
        i := i + 1;
      }
      if Known() && more { HoldsReady(i); }
    }

    /** Back to a restart point before the current entry, then forward to the entry
        before it: Prev undoes Next. */
    method Prev(ghost i: nat)
      requires Good() && Valid()
      modifies this
      ensures Good()
      ensures Known() && old(At(i)) ==> At(if i == 0 then |l.es| else i - 1) && Undisturbed()
    {
      ghost var hyp := Known() && At(i);
      var original := current;
      while GetRestartPoint(restartIndex) >= original
        invariant Shape() && restartIndex < numRestarts && Undisturbed()
        decreases restartIndex
      {
        if restartIndex == 0 {
          if hyp { PointBefore(0, i); }
          current, restartIndex := restarts, numRestarts;
          return;
        }
        restartIndex := restartIndex - 1;
      }
      ghost var m: nat := if hyp then l.points[restartIndex] else 0;
      if hyp { PointBefore(restartIndex, i); }
      SeekToRestartPoint(restartIndex);
      var more := ParseNextKey(m);
      while more && valueEnd < original
        invariant Good() && (more ==> Valid())
        invariant hyp ==> Undisturbed() && more && m < i && At(m)
        decreases more, original - valueEnd
      {
        if hyp {
          HoldsReady(m);
          Step(m, i);
        }
        more := ParseNextKey(m + 1);
        m := m + 1;
      }
      if hyp { Step(m, i); }
    }

    lemma PointBefore(index: nat, i: nat)
      requires Known() && index < numRestarts && i < |l.es|
      ensures GetRestartPoint(index) < l.offsets[i] <==> l.points[index] < i
    {
      assert PointOk(data, restarts, l, index);
    }

    lemma Step(m: nat, i: nat)
      requires Known() && m < i < |l.es|
      ensures l.offsets[m + 1] < l.offsets[i] <==> m + 1 < i
    {
    }

    /** Seek: the first entry whose key is not below the target. */
    method Seek(less: (Bytes, Bytes) -> bool, target: Bytes) returns (ghost p: nat)
      requires Good()
      modifies this
      ensures Good()
      ensures Known() && Sorted(less, l.es) ==>
                && Undisturbed() && p <= |l.es| && At(p)
                && (forall k :: 0 <= k < p ==> less(l.es[k].key, target)) && (p < |l.es| ==> !less(l.es[p].key, target))
    {
      ghost var hyp := Known() && Sorted(less, l.es);
      var found, left := FindRestart(less, target);
      if !found {
        return 0;
      }
      p := if hyp then l.points[left] else 0;
      if hyp { AllBefore(less, target, left); }
      SeekToRestartPoint(left);
      p := SeekForward(less, target, p);
    }

    /** Forward from a restart point to the first key not below the target. */
    method SeekForward(less: (Bytes, Bytes) -> bool, target: Bytes, ghost from: nat) returns (ghost p: nat)
      requires Shape() && restartIndex < numRestarts
      modifies this
      ensures Good()
      ensures Known() && old(Ready(from)) && (forall k :: 0 <= k < from ==> less(l.es[k].key, target)) ==>
                && Undisturbed() && p <= |l.es| && At(p)
                && (forall k :: 0 <= k < p ==> less(l.es[k].key, target)) && (p < |l.es| ==> !less(l.es[p].key, target))
    {
      ghost var hyp := Known() && Ready(from) && forall k :: 0 <= k < from ==> less(l.es[k].key, target);
      p := from;
      var more := ParseNextKey(p);
      while more && less(key, target)
        invariant Good() && (more ==> Valid())
        invariant hyp ==> Undisturbed() && p <= |l.es| && At(p) && (more <==> p < |l.es|)
        invariant hyp ==> forall k :: 0 <= k < p ==> less(l.es[k].key, target)
        invariant more ==> valueEnd <= |data|
        decreases more, |data| - valueEnd
      {
        if hyp { HoldsReady(p); }
        more := ParseNextKey(p + 1);
        p := p + 1;
      }
    }

    lemma AllBefore(less: (Bytes, Bytes) -> bool, target: Bytes, left: nat)
      requires Known() && Sorted(less, l.es) && left < numRestarts
      requires left == 0 || (l.points[left] < |l.es| && less(l.es[l.points[left]].key, target))
      ensures l.points[left] <= |l.es| && forall k :: 0 <= k < l.points[left] ==> less(l.es[k].key, target)
    {
    }

    /** The binary search: the last restart point whose key is below the target. */
    method FindRestart(less: (Bytes, Bytes) -> bool, target: Bytes) returns (ok: bool, left: nat)
      requires Shape()
      modifies this
      ensures left < numRestarts && if ok then unchanged(this) else !Valid() && (corrupt || overrun)
      ensures Known() ==> ok && (left == 0 || (l.points[left] < |l.es| && less(l.es[l.points[left]].key, target)))
    {
      var right := numRestarts - 1;
      left := 0;
      while left < right
        invariant left <= right < numRestarts && unchanged(this)
        invariant Known() ==> left == 0 || (l.points[left] < |l.es| && less(l.es[l.points[left]].key, target))
      {
        var mid := (left + right + 1) / 2;
        var key;
        ok, key := KeyAtRestart(mid);
        if !ok {
          return false, 0;
        }
        if less(key, target) {
          left := mid;
        } else {
          right := mid - 1;
        }
      }
      ok := true;
    }

    method KeyAtRestart(index: nat) returns (ok: bool, key: Bytes)
      requires Shape() && 0 < index < numRestarts
      modifies this
      ensures if ok then unchanged(this) else !Valid() && (corrupt || overrun)
      ensures Known() ==> ok && l.points[index] < |l.es| && key == l.es[l.points[index]].key
    {
      ghost var m: nat, e, rest: Bytes := 0, Pair([], []), [];
      if Known() {
        m := l.points[index];
        assert PointOk(data, restarts, l, index) && PointOk(data, restarts, l, 0) && l.points[0] < m;
        assert EntryOk(data, restarts, l, m);
        e, rest := l.es[m], data[..restarts][l.offsets[m + 1]..];
      }
      ok, key := false, [];
      var offset, h := GetRestartPoint(index), None;
      if offset <= restarts {
        h := ReadHeader(data, restarts, offset, [], 0, e, rest);
      }
      if h == None {
        CorruptionError();
      } else if h.value.nonShared + h.value.valueLength >= U32 {
        Overrun();
      } else {
        ok, key := true, data[h.value.delta..h.value.delta + h.value.nonShared];
      }
    }
  }

  /** DecodeEntry, and the test that the shared prefix is there. */
  method ReadHeader(data: Bytes, limit: nat, p: nat, key: Bytes, ghost shared: nat, ghost e: Pair, ghost rest: Bytes)
    returns (h: Option<Header>)
    requires p <= limit <= |data| && limit < U32
    ensures h.Some? ==> h.value.shared <= |key| && p < h.value.delta
    ensures h.Some? ==> (Within(h.value, limit) <==> h.value.nonShared + h.value.valueLength < U32)
    ensures shared <= |key| && shared <= |e.key| && key[..shared] == e.key[..shared] && Small(e) ==>
              (data[..limit][p..] == EntryBytes(shared, e) + rest ==>
                h.Some? && Within(h.value, limit) && Makes(data, h.value, key, e, limit - |rest|))
  {
    if shared <= |key| && shared <= |e.key| && key[..shared] == e.key[..shared] && Small(e)
       && data[..limit][p..] == EntryBytes(shared, e) + rest {
      EntryHeader(data, limit, p, key, shared, e, rest);
    }
    h := DecodeEntry(data[..limit], p);
    if h.Some? && |key| < h.value.shared {
      h := None;
    }
  }

  /** The header of an entry that is there. */
  lemma EntryHeader(data: Bytes, limit: nat, p: nat, key: Bytes, shared: nat, e: Pair, rest: Bytes)
    requires p <= limit <= |data| && limit < U32 && shared <= |key| && shared <= |e.key|
    requires key[..shared] == e.key[..shared] && Small(e) && data[..limit][p..] == EntryBytes(shared, e) + rest
    ensures var h := HeaderAt(data[..limit], p);
            && h.Some? && h.value.shared == shared && Within(h.value, limit)
            && Makes(data, h.value, key, e, limit - |rest|)
  {
    var b, n := data[..limit], |e.key| - shared;
    var h := Header(limit - n - |e.value| - |rest|, shared, n, |e.value|);
    HeaderThere(b, p, shared, e, rest, h);
    EntryParts(data, limit, h, shared, e, rest, key);
  }

  lemma HeaderThere(b: Bytes, p: nat, shared: nat, e: Pair, rest: Bytes, h: Header)
    requires p <= |b| < U32 && shared <= |e.key| && Small(e) && b[p..] == EntryBytes(shared, e) + rest
    requires h == Header(|b| - |e.key| + shared - |e.value| - |rest|, shared, |e.key| - shared, |e.value|)
    ensures HeaderAt(b, p) == Some(h) && EntryAt(b, h, shared, e, rest)
  {
    var tail := e.key[shared..] + e.value + rest;
    HeaderSplits(shared, e, rest);
    RoomFor(b, p, shared, e, rest, tail);
    HeaderBack(b, p, shared, |e.key| - shared, |e.value|, tail);
  }

  /** An entry that is there has room. */
  lemma RoomFor(b: Bytes, p: nat, shared: nat, e: Pair, rest: Bytes, tail: Bytes)
    requires p <= |b| < U32 && shared <= |e.key| && b[p..] == EntryBytes(shared, e) + rest
    requires tail == e.key[shared..] + e.value + rest
    ensures |tail| <= |b| && b[|b| - |tail|..] == tail && |tail| < U32 && |e.key| - shared + |e.value| <= |tail|
    ensures Accepts(|tail|, |e.key| - shared, |e.value|)
  {
    HeaderSplits(shared, e, rest);
    var head := Varint(shared) + Varint(|e.key| - shared) + Varint(|e.value|);
    assert b[p..] == head + tail;
    assert b[|b| - |tail|..] == b[p..][|head|..];
  }

  /** With the key before it, the header makes entry e, which ends at `end`. */
  ghost predicate Makes(data: Bytes, h: Header, key: Bytes, e: Pair, end: int)
    requires h.shared <= |key| && h.delta + h.nonShared + h.valueLength <= |data|
  {
    var v := h.delta + h.nonShared;
    key[..h.shared] + data[h.delta..v] == e.key && data[v..v + h.valueLength] == e.value && v + h.valueLength == end
  }

  /** The key and the value that follow a header. */
  lemma EntryParts(data: Bytes, limit: nat, h: Header, shared: nat, e: Pair, rest: Bytes, key: Bytes)
    requires limit <= |data| && shared <= |e.key| && EntryAt(data[..limit], h, shared, e, rest)
    requires shared <= |key| && key[..shared] == e.key[..shared]
    ensures h.delta + h.nonShared + h.valueLength <= limit && Makes(data, h, key, e, limit - |rest|)
  {
    var x := e.key[shared..];
    Parts(data, limit, h.delta, x, e.value, rest);
    assert key[..shared] + x == e.key;
  }

  lemma Parts(data: Bytes, limit: nat, d: nat, x: Bytes, y: Bytes, rest: Bytes)
    requires d <= limit <= |data| && data[..limit][d..] == x + y + rest
    ensures limit == d + |x| + |y| + |rest| && data[d..d + |x|] == x && data[d + |x|..d + |x| + |y|] == y
  {
    var after, all := data[..limit][d..], x + y + rest;
    forall k | 0 <= k < |after| ensures data[d + k] == all[k] {
      assert after[k] == data[d + k];
    }
    assert forall k :: 0 <= k < |x| ==> all[k] == x[k];
    forall k | 0 <= k < |y| ensures data[d + |x| + k] == y[k] {
      assert all[|x| + k] == y[k];
    }
  }

  lemma FormedBlock(data: Bytes, es: seq<Pair>, interval: nat) returns (n: nat)
    requires Formed(data, es, interval)
    ensures |data| >= 4 && n == Unfixed(data[|data| - 4..]) && 0 < n <= (|data| - 4) / 4
    ensures LaidOut(data, (|data| - (1 + n) * 4) % U32, n, LayoutOf(es, interval))
  {
    n := |Restarts(es, interval)|;
    FormedTail(data, es, interval);
    FinishedLayout(data, es, interval);
    BeforeRestarts(|data|, Offset(es, interval, |es|), n);
  }

  lemma BeforeRestarts(size: nat, r: nat, n: nat)
    requires size == r + 4 * n + 4 && size < U32
    ensures (size - (1 + n) * 4) % U32 == r && n <= (size - 4) / 4
  {
  }

  /** Block's constructor and NewIterator: an error for contents too short for
      their restart array, an empty iterator for a block without restart points. */
  method NewIterator(data: Bytes, ghost es: seq<Pair>, ghost interval: nat) returns (ok: bool, iter: Option<BlockIter>)
    ensures iter.Some? ==> ok && fresh(iter.value) && iter.value.Good()
    ensures Formed(data, es, interval) ==>
              iter.Some? && iter.value.Known() && iter.value.l.es == es && !iter.value.corrupt
  {
    if Formed(data, es, interval) {
      var n := FormedBlock(data, es, interval);
    }
    if |data| < 4 {
      return false, None;
    }
    var numRestarts := Unfixed(data[|data| - 4..]);
    if numRestarts > (|data| - 4) / 4 {
      return false, None;
    }
    if numRestarts == 0 {
      return true, None;
    }
    var it := new BlockIter(data, (|data| - (1 + numRestarts) * 4) % U32, numRestarts, LayoutOf(es, interval));
    ok, iter := true, Some(it);
  }
}
