/** The write-ahead log's reader (log_reader.cc, initial offset 0), and the round
    trip: a log cut off at any byte gives back exactly the records that were
    written whole, and reports no corruption. */
module LogReader {
  import opened Keys
  import opened Coding
  import opened LogFile
  import opened LogFragments

  lemma SameBlock(x: nat, y: nat, e: nat)
    requires x <= y <= e
    ensures y < e == BlockEnd(x) ==> BlockEnd(y) == e
    ensures e < BlockEnd(x) ==> e < BlockEnd(y)
  {
  }

  // ---------- what the reader sees at a position ----------

  datatype Outcome = Fragment(kind: byte, data: Bytes) | BadRecord | Eof

  /** What is at a position, where the reader goes next, and the sizes of the
      drops it reports. */
  datatype Parsed = Parsed(outcome: Outcome, next: nat, drops: seq<nat>)

  function Parse(sum: Bytes -> word, file: Bytes, x: nat): (p: Parsed)
    requires x <= |file|
    ensures x <= p.next <= |file| && (p.outcome != Eof ==> p.next > x)
    decreases |file| - x
  {
    var full := BlockEnd(x) <= |file|;
    var end := if full then BlockEnd(x) else |file|;
    if end - x < HEADER then
      if full then Parse(sum, file, end) else Parsed(Eof, |file|, [])
    else ParseHeader(sum, file[x..end], x, full)
  }

  /** A buffer that holds a header at file offset x; `full` when it ends a block. */
  function ParseHeader(sum: Bytes -> word, buffer: Bytes, x: nat, full: bool): (p: Parsed)
    requires |buffer| >= HEADER
    ensures x <= p.next <= x + |buffer| && (p.outcome != Eof ==> p.next > x)
  {
    var length := buffer[4] as int + 256 * buffer[5] as int;
    if HEADER + length > |buffer| then
      if full then Parsed(BadRecord, x + |buffer|, [|buffer|]) else Parsed(Eof, x + |buffer|, [])
    else if buffer[6] == ZERO_TYPE && length == 0 then Parsed(BadRecord, x + |buffer|, [])
    else if Unmask(DecodeFixed32(buffer)) != sum(buffer[6..HEADER + length]) then Parsed(BadRecord, x + |buffer|,
      [|buffer|])
    else Parsed(Fragment(buffer[6], buffer[HEADER..HEADER + length]), x + HEADER + length, [])
  }

  /** What ReadRecord's switch makes of one outcome: it is done, or it goes on,
      inside a fragmented record or not, with what it has put together. */
  datatype Assembly = Done(record: Option<Bytes>, drops: seq<nat>) | More(inFragment: bool, scratch: Bytes,
    drops: seq<nat>)

  function Assemble(o: Outcome, inFragment: bool, scratch: Bytes): (a: Assembly)
    ensures o == Eof ==> a == Done(None, [])
    ensures a.Done? && o != Eof ==> a.record.Some?
  {
    var unfinished := if inFragment && scratch != [] then [|scratch|] else [];
    match o
    case Eof => Done(None, [])
    case BadRecord => More(false, [], if inFragment then [|scratch|] else [])
    case Fragment(kind, data) =>
      if kind == FULL then Done(Some(data), unfinished)
      else if kind == FIRST then More(true, data, unfinished)
      else if kind == MIDDLE then
        if inFragment then More(true, scratch + data, []) else More(false, scratch, [|data|])
      else if kind == LAST then
        if inFragment then Done(Some(scratch + data), []) else More(false, scratch, [|data|])
      else More(false, [], [|data| + if inFragment then |scratch| else 0])
  }

  /** One call of ReadRecord, with the drops reported so far. */
  datatype Read = Read(record: Option<Bytes>, next: nat, drops: seq<nat>)

  function ReadFrom(sum: Bytes -> word, file: Bytes, x: nat, inFragment: bool, scratch: Bytes,
                    drops: seq<nat>): (r: Read)
    requires x <= |file|
    ensures x <= r.next <= |file| && (r.record.Some? ==> r.next > x)
    decreases |file| - x
  {
    var p := Parse(sum, file, x);
    match Assemble(p.outcome, inFragment, scratch)
    case Done(record, more) => Read(record, p.next, drops + p.drops + more)
    case More(inFragment', scratch', more) => ReadFrom(sum, file, p.next, inFragment', scratch', drops + p.drops + more)
  }

  // ---------- on any bytes ----------

  /** What is parsed at x is what the bytes say at the next header. */
  lemma ParseMeans(sum: Bytes -> word, file: Bytes, x: nat)
    requires x <= |file|
    ensures var y, p := HeaderFrom(x), Parse(sum, file, x);
            && (p.outcome.Fragment? <==> Sound(sum, file, y))
            && (p.outcome.Fragment? ==> p == Parsed(Fragment(KindAt(file, y), PayloadAt(file, y)), EndAt(file, y), []))
            && (p.outcome.BadRecord? ==> HasHeader(file, y) && p.next == Limit(file, y))
            && (Damaged(sum, file, y) ==> p.outcome.BadRecord? && p.drops == [Limit(file, y) - y])
            && (p.outcome.Eof? ==> p.next == |file|)
  {
    var y := HeaderFrom(x);
    if HasHeader(file, y) {
      assert Parse(sum, file, x) == Parse(sum, file, y);
      HeaderTells(sum, file, y);
    }
  }

  lemma HeaderTells(sum: Bytes -> word, file: Bytes, y: nat)
    requires HasHeader(file, y)
    ensures var p := Parse(sum, file, y);
            && (p.outcome.Fragment? <==> Sound(sum, file, y))
            && (p.outcome.Fragment? ==> p == Parsed(Fragment(KindAt(file, y), PayloadAt(file, y)), EndAt(file, y), []))
            && (p.outcome.BadRecord? ==> p.next == Limit(file, y))
            && (Damaged(sum, file, y) ==> p.outcome.BadRecord? && p.drops == [Limit(file, y) - y])
            && (p.outcome.Eof? ==> p.next == |file|)
  {
    HeaderMeans(sum, file, y);
  }

  lemma HeaderMeans(sum: Bytes -> word, file: Bytes, y: nat)
    requires HasHeader(file, y)
    ensures var buffer := file[y..Limit(file, y)];
            && Parse(sum, file, y) == ParseHeader(sum, buffer, y, BlockEnd(y) <= |file|)
            && |buffer| == Limit(file, y) - y && buffer[4] == file[y + 4] && buffer[5] == file[y + 5]
            && buffer[6] == file[y + 6] && DecodeFixed32(buffer) == DecodeFixed32(file[y..y + 4])
            && (EndAt(file, y) <= Limit(file, y) ==>
              buffer[6..HEADER + LengthAt(file, y)] == file[y + 6..EndAt(file, y)]
              && buffer[HEADER..HEADER + LengthAt(file, y)] == PayloadAt(file, y))
  {
    var buffer := file[y..Limit(file, y)];
    assert file[y..y + 4][..4] == file[y..y + 4] == buffer[..4];
  }

  lemma ChainMore(sum: Bytes -> word, file: Bytes, xs: seq<nat>, y: nat)
    requires Chain(sum, file, xs) && Sound(sum, file, y)
    requires xs != [] ==> y == HeaderFrom(EndAt(file, xs[|xs| - 1]))
    ensures Chain(sum, file, xs + [y])
    ensures Payloads(sum, file, xs + [y]) == Payloads(sum, file, xs) + PayloadAt(file, y)
  {
    var ys := xs + [y];
    assert ys[..|xs|] == xs;
    forall i | 0 <= i < |ys|
      ensures Sound(sum, file, ys[i]) && (0 < i ==> ys[i] == HeaderFrom(EndAt(file, ys[i - 1])))
    {
      assert i < |xs| ==> Sound(sum, file, xs[i]);
    }
    assert Chain(sum, file, ys);
  }

  /** What a reader has put together comes from the chain it has followed. */
  ghost predicate Gathered(sum: Bytes -> word, file: Bytes, xs: seq<nat>, x: nat, scratch: Bytes) {
    Begun(sum, file, xs) && EndAt(file, xs[|xs| - 1]) == x && scratch == Payloads(sum, file, xs)
  }

  lemma GatherMore(sum: Bytes -> word, file: Bytes, xs: seq<nat>, x: nat, scratch: Bytes)
    requires Gathered(sum, file, xs, x, scratch) && Sound(sum, file, HeaderFrom(x))
    ensures var y := HeaderFrom(x);
            && (KindAt(file, y) == MIDDLE ==>
              Gathered(sum, file, xs + [y], EndAt(file, y), scratch + PayloadAt(file, y)))
            && (KindAt(file, y) == LAST ==> Carry(sum, file, xs + [y], scratch + PayloadAt(file, y)))
  {
    var y := HeaderFrom(x);
    ChainMore(sum, file, xs, y);
    assert (xs + [y])[..|xs|] == xs;
  }

  lemma GatherFirst(sum: Bytes -> word, file: Bytes, y: nat)
    requires Sound(sum, file, y)
    ensures KindAt(file, y) == FIRST ==> Gathered(sum, file, [y], EndAt(file, y), PayloadAt(file, y))
    ensures KindAt(file, y) == FULL ==> Carry(sum, file, [y], PayloadAt(file, y))
  {
    ChainMore(sum, file, [], y);
    assert [] + [y] == [y];
  }

  /** The record is carried by sound fragments that end where reading stops, and begin at
      a header met on the way; or with those that xs0 begins with. */
  ghost predicate Carried(sum: Bytes -> word, file: Bytes, record: Bytes, x: nat, end: nat, xs0: seq<nat>) {
    exists xs :: Carry(sum, file, xs, record) && EndAt(file, xs[|xs| - 1]) == end
                 && (xs[0] in Headers(sum, file, x, end) || (xs0 != [] && xs[0] == xs0[0]))
  }

  lemma {:induction false} ReadSound(sum: Bytes -> word, file: Bytes, x: nat, inFragment: bool, scratch: Bytes,
                                     drops: seq<nat>, xs: seq<nat>)
    requires x <= |file| && (if inFragment then Gathered(sum, file, xs, x, scratch) else xs == [])
    ensures var r := ReadFrom(sum, file, x, inFragment, scratch, drops);
            r.record.Some? ==> Carried(sum, file, r.record.value, x, r.next, xs)
    decreases |file| - x
  {
    var p, y, r := Parse(sum, file, x), HeaderFrom(x), ReadFrom(sum, file, x, inFragment, scratch, drops);
    ParseMeans(sum, file, x);
    var xs' := Onward(sum, file, x, inFragment, scratch, xs);
    match Assemble(p.outcome, inFragment, scratch)
    case Done(record, more) =>
      if record.Some? {
        HeadersOn(sum, file, x, r.next);
        assert Carry(sum, file, xs', record.value) && EndAt(file, xs'[|xs'| - 1]) == p.next;
      }
    case More(inFragment', scratch', more) =>
      ReadSound(sum, file, p.next, inFragment', scratch', drops + p.drops + more, xs');
      HeadersOn(sum, file, x, r.next);
  }

  /** The chain after one more outcome. */
  lemma Onward(sum: Bytes -> word, file: Bytes, x: nat, inFragment: bool, scratch: Bytes, xs: seq<nat>)
    returns (xs': seq<nat>)
    requires x <= |file| && (if inFragment then Gathered(sum, file, xs, x, scratch) else xs == [])
    ensures var p := Parse(sum, file, x);
            var a := Assemble(p.outcome, inFragment, scratch);
            && (a.Done? && a.record.Some? ==>
                  Carry(sum, file, xs', a.record.value) && EndAt(file, xs'[|xs'| - 1]) == p.next)
            && (a.More? ==> if a.inFragment then Gathered(sum, file, xs', p.next, a.scratch) else xs' == [])
    ensures xs' != [] ==> xs'[0] == HeaderFrom(x) || (xs != [] && xs'[0] == xs[0])
    ensures xs' != [] ==> Parse(sum, file, x).outcome.Fragment?
  {
    var p, y := Parse(sum, file, x), HeaderFrom(x);
    ParseMeans(sum, file, x);
    xs' := [];
    if p.outcome.Fragment? {
      GatherFirst(sum, file, y);
      if KindAt(file, y) == FIRST || KindAt(file, y) == FULL {
        xs' := [y];
      } else if inFragment && (KindAt(file, y) == MIDDLE || KindAt(file, y) == LAST) {
        GatherMore(sum, file, xs, x, scratch);
        xs' := xs + [y];
      }
    }
  }

  /** Headers met later are met. */
  lemma HeadersOn(sum: Bytes -> word, file: Bytes, x: nat, b: nat)
    requires x <= |file| && Parse(sum, file, x).next <= b <= |file| && !Parse(sum, file, x).outcome.Eof?
    ensures var y, p := HeaderFrom(x), Parse(sum, file, x);
            && y in Headers(sum, file, x, b)
            && forall z :: z in Headers(sum, file, p.next, b) ==> z in Headers(sum, file, x, b)
  {
    ParseMeans(sum, file, x);
  }

  /** Of the headers met on the way, each with a damaged fragment is reported, with
      the rest of its block. */
  ghost predicate Reported(sum: Bytes -> word, file: Bytes, ys: seq<nat>, drops: seq<nat>) {
    forall y :: y in ys && Damaged(sum, file, y) ==> Limit(file, y) - y in drops
  }

  lemma {:induction false} ReadReports(sum: Bytes -> word, file: Bytes, x: nat, inFragment: bool, scratch: Bytes,
                                       drops: seq<nat>)
    requires x <= |file|
    ensures var r := ReadFrom(sum, file, x, inFragment, scratch, drops);
            drops <= r.drops && Reported(sum, file, Headers(sum, file, x, r.next), r.drops[|drops|..])
    decreases |file| - x
  {
    var p := Parse(sum, file, x);
    var r := ReadFrom(sum, file, x, inFragment, scratch, drops);
    match Assemble(p.outcome, inFragment, scratch)
    case Done(record, more) =>
      ReportedThen(sum, file, x, r.next, drops, more, []);
      assert r.drops == drops + p.drops + more + [];
    case More(inFragment', scratch', more) =>
      var drops' := drops + p.drops + more;
      ReadReports(sum, file, p.next, inFragment', scratch', drops');
      ReportedThen(sum, file, x, r.next, drops, more, r.drops[|drops'|..]);
      assert r.drops == drops' + r.drops[|drops'|..];
  }

  lemma ReportedThen(sum: Bytes -> word, file: Bytes, x: nat, b: nat, drops: seq<nat>, more: seq<nat>, tail: seq<nat>)
    requires x <= |file| && Parse(sum, file, x).next <= b <= |file|
    requires Parse(sum, file, x).next < b ==> Reported(sum, file, Headers(sum, file, Parse(sum, file, x).next, b), tail)
    ensures var all := drops + Parse(sum, file, x).drops + more + tail;
            drops <= all && Reported(sum, file, Headers(sum, file, x, b), all[|drops|..])
  {
    HeadersThen(sum, file, x, b);
    var dropped := Parse(sum, file, x).drops;
    assert (drops + dropped + more + tail)[|drops|..] == dropped + more + tail;
  }

  /** The headers met: the first, which is reported if its fragment is damaged, and
      those met from where it leads to. */
  lemma HeadersThen(sum: Bytes -> word, file: Bytes, x: nat, b: nat)
    requires x <= |file| && Parse(sum, file, x).next <= b <= |file|
    ensures var y, p := HeaderFrom(x), Parse(sum, file, x);
            && (Damaged(sum, file, y) ==> p.drops == [Limit(file, y) - y])
            && forall z :: z in Headers(sum, file, x, b) ==>
              z == y || (p.next < b && z in Headers(sum, file, p.next, b))
  {
    ParseMeans(sum, file, x);
    var y, p := HeaderFrom(x), Parse(sum, file, x);
    if HasHeader(file, y) && p.next == b {
      LastHeader(sum, file, x, b);
    }
  }

  /** Reading that ends where the first header's fragment ends has met no other. */
  lemma LastHeader(sum: Bytes -> word, file: Bytes, x: nat, b: nat)
    requires x <= |file| && b == Parse(sum, file, x).next
    ensures forall y :: y in Headers(sum, file, x, b) ==> y == HeaderFrom(x)
  {
    ParseMeans(sum, file, x);
    var y := HeaderFrom(x);
    if HasHeader(file, y) {
      assert Past(sum, file, y) >= b;
      assert Headers(sum, file, Past(sum, file, y), b) == [];
    }
  }

  /** From inside a complete chain reading gets to its end. */
  lemma {:induction false} FollowChain(sum: Bytes -> word, file: Bytes, xs: seq<nat>, record: Bytes, i: nat, x: nat,
                                       drops: seq<nat>)
    requires Carry(sum, file, xs, record) && 0 < i < |xs| && x == EndAt(file, xs[i - 1]) && x <= |file|
    ensures var r := ReadFrom(sum, file, x, true, PayloadsTo(sum, file, xs, i), drops);
            r.record == Some(record) && r.next == EndAt(file, xs[|xs| - 1])
    decreases |xs| - i
  {
    Link(sum, file, xs, record, i);
    ParseMeans(sum, file, x);
    if i < |xs| - 1 {
      FollowChain(sum, file, xs, record, i + 1, EndAt(file, xs[i]), drops + [] + []);
    }
  }

  /** The next link of a chain. */
  lemma Link(sum: Bytes -> word, file: Bytes, xs: seq<nat>, record: Bytes, i: nat)
    requires Carry(sum, file, xs, record) && 0 < i < |xs|
    ensures Sound(sum, file, xs[i]) && xs[i] == HeaderFrom(EndAt(file, xs[i - 1])) && EndAt(file, xs[i]) <= |file|
    ensures KindAt(file, xs[i]) == if i < |xs| - 1 then MIDDLE else LAST
    ensures PayloadsTo(sum, file, xs, i + 1) == PayloadsTo(sum, file, xs, i) + PayloadAt(file, xs[i])
    ensures i == |xs| - 1 ==> PayloadsTo(sum, file, xs, i + 1) == record
  {
    PayloadsNext(sum, file, xs, i);
    assert i < |xs| - 1 ==> KindAt(file, xs[..|xs| - 1][i]) == MIDDLE;
    assert xs[..|xs|] == xs;
  }

  /** What the first i fragments of a chain carry. */
  ghost function PayloadsTo(sum: Bytes -> word, file: Bytes, xs: seq<nat>, i: nat): Bytes
    requires Chain(sum, file, xs) && i <= |xs|
  {
    ChainFront(sum, file, xs, i);
    Payloads(sum, file, xs[..i])
  }

  lemma ChainFront(sum: Bytes -> word, file: Bytes, xs: seq<nat>, i: nat)
    requires Chain(sum, file, xs) && i <= |xs|
    ensures Chain(sum, file, xs[..i])
  {
    forall k | 0 <= k < i ensures Sound(sum, file, xs[..i][k]) {
      assert Sound(sum, file, xs[k]);
    }
  }

  lemma PayloadsNext(sum: Bytes -> word, file: Bytes, xs: seq<nat>, i: nat)
    requires Chain(sum, file, xs) && i < |xs|
    ensures Sound(sum, file, xs[i]) && EndAt(file, xs[i]) <= |file|
    ensures PayloadsTo(sum, file, xs, i + 1) == PayloadsTo(sum, file, xs, i) + PayloadAt(file, xs[i])
  {
    ChainFront(sum, file, xs, i + 1);
    assert xs[..i + 1][..i] == xs[..i];
  }

  /** The first complete chain whose beginning is met is what is read. */
  lemma {:induction false} ReadComplete(sum: Bytes -> word, file: Bytes, x: nat, inFragment: bool, scratch: Bytes,
                                        drops: seq<nat>, xs: seq<nat>, record: Bytes)
    requires x <= |file| && Carry(sum, file, xs, record)
    ensures var r := ReadFrom(sum, file, x, inFragment, scratch, drops);
            xs[0] in Headers(sum, file, x, r.next) ==> r.record == Some(record) && r.next == EndAt(file, xs[|xs| - 1])
    decreases |file| - x
  {
    var p, y := Parse(sum, file, x), HeaderFrom(x);
    ParseMeans(sum, file, x);
    if xs[0] == y {
      StartChain(sum, file, xs, record, x, inFragment, scratch, drops);
    } else {
      match Assemble(p.outcome, inFragment, scratch)
      case Done(_, _) =>
        LastHeader(sum, file, x, p.next);
      case More(inFragment', scratch', more) =>
        ReadComplete(sum, file, p.next, inFragment', scratch', drops + p.drops + more, xs, record);
    }
  }

  lemma StartChain(sum: Bytes -> word, file: Bytes, xs: seq<nat>, record: Bytes, x: nat, inFragment: bool,
                   scratch: Bytes, drops: seq<nat>)
    requires x <= |file| && Carry(sum, file, xs, record) && HeaderFrom(x) == xs[0]
    ensures var r := ReadFrom(sum, file, x, inFragment, scratch, drops);
            r.record == Some(record) && r.next == EndAt(file, xs[|xs| - 1])
  {
    ParseMeans(sum, file, x);
    FirstLink(sum, file, xs, record);
    var unfinished := if inFragment && scratch != [] then [|scratch|] else [];
    var a := Assemble(Parse(sum, file, x).outcome, inFragment, scratch);
    if |xs| == 1 {
      assert a == Done(Some(record), unfinished);
    } else {
      assert a == More(true, PayloadsTo(sum, file, xs, 1), unfinished);
      FollowChain(sum, file, xs, record, 1, EndAt(file, xs[0]), drops + [] + unfinished);
    }
  }

  lemma FirstLink(sum: Bytes -> word, file: Bytes, xs: seq<nat>, record: Bytes)
    requires Carry(sum, file, xs, record)
    ensures Sound(sum, file, xs[0]) && EndAt(file, xs[0]) <= |file|
    ensures KindAt(file, xs[0]) == if |xs| == 1 then FULL else FIRST
    ensures PayloadsTo(sum, file, xs, 1) == PayloadAt(file, xs[0])
    ensures |xs| == 1 ==> record == PayloadAt(file, xs[0])
  {
    PayloadsNext(sum, file, xs, 0);
    assert PayloadsTo(sum, file, xs, 0) == [];
    if |xs| == 1 {
      assert xs[..1] == xs;
    } else {
      assert KindAt(file, xs[..|xs| - 1][0]) == FIRST;
    }
  }

  /** All that is said of one call of ReadRecord. */
  lemma ReadTells(sum: Bytes -> word, file: Bytes, x: nat, drops: seq<nat>)
    requires x <= |file|
    ensures var r := ReadFrom(sum, file, x, false, [], drops);
            && (if r.record.Some? then Carried(sum, file, r.record.value, x, r.next, []) else r.next == |file|)
            && (forall xs, record :: Carry(sum, file, xs, record) && xs[0] in Headers(sum, file, x, r.next) ==>
              r.record == Some(record) && r.next == EndAt(file, xs[|xs| - 1]))
            && drops <= r.drops && Reported(sum, file, Headers(sum, file, x, r.next), r.drops[|drops|..])
  {
    var r := ReadFrom(sum, file, x, false, [], drops);
    ReadSound(sum, file, x, false, [], drops, []);
    ReadReports(sum, file, x, false, [], drops);
    ReadEnds(sum, file, x, false, [], drops);
    forall xs, record | Carry(sum, file, xs, record) && xs[0] in Headers(sum, file, x, r.next)
      ensures r.record == Some(record) && r.next == EndAt(file, xs[|xs| - 1])
    {
      ReadComplete(sum, file, x, false, [], drops, xs, record);
    }
  }

  lemma {:induction false} ReadEnds(sum: Bytes -> word, file: Bytes, x: nat, inFragment: bool, scratch: Bytes,
                                    drops: seq<nat>)
    requires x <= |file|
    ensures var r := ReadFrom(sum, file, x, inFragment, scratch, drops); r.record == None ==> r.next == |file|
    decreases |file| - x
  {
    var p := Parse(sum, file, x);
    ParseMeans(sum, file, x);
    match Assemble(p.outcome, inFragment, scratch)
    case Done(_, _) =>
    case More(inFragment', scratch', more) =>
      ReadEnds(sum, file, p.next, inFragment', scratch', drops + p.drops + more);
  }

  // ---------- the reader ----------

  class Reader {
    const sum: Bytes -> word
    const file: Bytes
    var read: nat
    var buffer: Bytes
    var eof: bool
    var drops: seq<nat>

    /** The buffer ends at `read`: a whole block's rest, or the file's last part. */
    ghost predicate Valid()
      reads this
    {
      && |buffer| <= read <= |file| && buffer == file[read - |buffer|..read]
      && if eof then read == |file| < BlockEnd(read - |buffer|)
         else InBlock(read) == 0 && (buffer != [] ==> BlockEnd(read - |buffer|) == read)
    }

    ghost function At(): nat
      requires Valid()
      reads this
    {
      read - |buffer|
    }

    constructor (sum: Bytes -> word, file: Bytes)
      ensures Valid() && At() == 0 && drops == [] && this.sum == sum && this.file == file
    {
      this.sum, this.file, read, buffer, eof, drops := sum, file, 0, [], false, [];
      new;
      assert InBlock(0) == 0 && file[0..0] == [];
    }

    /** file_->Read(kBlockSize): the next block, or what is left of the file. */
    method ReadBlock()
      requires Valid() && !eof && |buffer| < HEADER
      modifies this
      ensures Valid() && drops == old(drops)
      ensures |old(buffer)| > 0 ==> At() == old(read)
      ensures |old(buffer)| == 0 ==> At() == old(At())
      ensures eof || |buffer| == BLOCK
    {
      var n := if read + BLOCK <= |file| then BLOCK else |file| - read;
      buffer := file[read..read + n];
      read := read + n;
      eof := n < BLOCK;
    }

    /** Reads on until the buffer holds a header, or the file ends. */
    method FillBuffer() returns (more: bool)
      requires Valid()
      modifies this
      ensures Valid() && drops == old(drops) && Parse(sum, file, At()) == Parse(sum, file, old(At()))
      ensures if more then |buffer| >= HEADER else eof && |buffer| < HEADER
    {
      while |buffer| < HEADER && !eof
        invariant Valid() && drops == old(drops) && Parse(sum, file, At()) == Parse(sum, file, old(At()))
        decreases !eof, |buffer| < HEADER
      {
        ReadBlock();
      }
      more := |buffer| >= HEADER;
    }

    method ReadPhysicalRecord() returns (r: Outcome)
      requires Valid()
      modifies this
      ensures Valid()
      ensures var p := Parse(sum, file, old(At())); r == p.outcome && At() == p.next && drops == old(drops) + p.drops
    {
      var more := FillBuffer();
      if more {
        assert Parse(sum, file, At()) == ParseHeader(sum, buffer, At(), !eof);
        r := TakeFragment();
      } else {
        buffer := [];
        r := Eof;
      }
    }

    method TakeFragment() returns (r: Outcome)
      requires Valid() && |buffer| >= HEADER
      modifies `buffer, `drops
      ensures Valid()
      ensures var p := ParseHeader(sum, old(buffer), old(At()), !eof);
              r == p.outcome && At() == p.next && drops == old(drops) + p.drops
    {
      var length := buffer[4] as int + 256 * buffer[5] as int;
      var size := |buffer|;
      if HEADER + length > size {
        buffer := [];
        if !eof {
          drops := drops + [size];
          return BadRecord;
        }
        return Eof;
      }
      if buffer[6] == ZERO_TYPE && length == 0 {
        buffer := [];
        return BadRecord;
      }
      if Unmask(DecodeFixed32(buffer)) != sum(buffer[6..HEADER + length]) {
        buffer := [];
        drops := drops + [size];
        return BadRecord;
      }
      r := Fragment(buffer[6], buffer[HEADER..HEADER + length]);
      SameBlock(At(), At() + HEADER + length, if eof then |file| else read);
      buffer := buffer[HEADER + length..];
    }

    /** The next record whose last fragment is there; None at the end of the file.
        Whatever the file holds, a record that is returned is carried by sound fragments;
        the first complete chain that begins on the way is not passed over; and every
        damaged fragment met is reported. */
    method ReadRecord() returns (record: Option<Bytes>)
      requires Valid()
      modifies this
      ensures Valid()
      ensures Read(record, At(), drops) == ReadFrom(sum, file, old(At()), false, [], old(drops))
      ensures if record.Some? then Carried(sum, file, record.value, old(At()), At(), []) else At() == |file|
      ensures forall xs, r :: Carry(sum, file, xs, r) && xs[0] in Headers(sum, file, old(At()), At()) ==>
                record == Some(r) && At() == EndAt(file, xs[|xs| - 1])
      ensures old(drops) <= drops
      ensures Reported(sum, file, Headers(sum, file, old(At()), At()), drops[|old(drops)|..])
    {
      ReadTells(sum, file, At(), drops);
      var a := More(false, [], []);
      while a.More?
        invariant Valid() && Coming(a) == ReadFrom(sum, file, old(At()), false, [], old(drops))
        decreases a.More?, |file| - At()
      {
        a := AssembleNext(a);
      }
      record := a.record;
    }

    ghost function Coming(a: Assembly): Read
      requires Valid()
      reads this
    {
      if a.Done? then Read(a.record, At(), drops) else ReadFrom(sum, file, At(), a.inFragment, a.scratch, drops)
    }

    /** One turn of ReadRecord's loop. */
    method AssembleNext(a: Assembly) returns (b: Assembly)
      requires Valid() && a.More?
      modifies this
      ensures Valid() && Coming(b) == old(Coming(a)) && (b.More? ==> At() > old(At()))
    {
      var physical := ReadPhysicalRecord();
      b := Assemble(physical, a.inFragment, a.scratch);
      drops := drops + b.drops;
    }
  }

  // ---------- the round trip ----------

  /** The file is `whole` cut off somewhere, or goes on after it. */
  ghost predicate Agrees(file: Bytes, whole: Bytes) {
    forall i :: 0 <= i < |whole| && i < |file| ==> file[i] == whole[i]
  }

  lemma AgreesShorter(file: Bytes, d: Bytes, whole: Bytes)
    requires Agrees(file, whole) && d <= whole
    ensures Agrees(file, d)
  {
  }

  /** The next fragment of a record: read back if it is all there, end of file if not. */
  lemma FragmentRead(sum: Bytes -> word, file: Bytes, dest: Bytes, data: Bytes, begin: bool)
    requires dest <= file && Agrees(file, WithFragment(sum, dest, data, begin))
    ensures var d, len := WithFragment(sum, dest, data, begin), FragmentLength(|dest|, data);
            Parse(sum, file, |dest|) ==
              if |d| <= |file| then Parsed(Fragment(FragmentType(begin, len == |data|), data[..len]), |d|, [])
              else Parsed(Eof, |file|, [])
  {
    var n, len := |dest|, FragmentLength(|dest|, data);
    PieceRead(sum, file, n, dest + Zeros(Pad(n)), FragmentType(begin, len == |data|), data[..len]);
  }

  lemma PieceRead(sum: Bytes -> word, file: Bytes, n: nat, before: Bytes, kind: byte, data: Bytes)
    requires n <= |file| && |before| == n + Pad(n) && kind != ZERO_TYPE && |data| <= Room(n)
    requires Agrees(file, before + Physical(sum, kind, data))
    ensures var next := |before| + HEADER + |data|;
            Parse(sum, file, n)
              == if next <= |file| then Parsed(Fragment(kind, data), next, []) else Parsed(Eof, |file|, [])
  {
    if |before| <= |file| {
      ParseSkips(sum, file, n);
      AgreesAfter(file, before, Physical(sum, kind, data));
      FragmentInBlock(sum, file, |before|, kind, data);
    } else {
      ParseInTrailer(sum, file, n);
    }
  }

  lemma AgreesAfter(file: Bytes, a: Bytes, b: Bytes)
    requires Agrees(file, a + b) && |a| <= |file|
    ensures Agrees(file[|a|..], b)
  {
    var t := if |b| <= |file| - |a| then |b| else |file| - |a|;
    forall i | 0 <= i < t ensures file[|a|..][i] == b[i] {
      assert file[|a| + i] == (a + b)[|a| + i];
    }
    assert file[|a|..][..t] == b[..t];
  }

  lemma ParseInTrailer(sum: Bytes -> word, file: Bytes, n: nat)
    requires n <= |file| < n + Pad(n)
    ensures Parse(sum, file, n) == Parsed(Eof, |file|, [])
  {
  }

  /** The reader steps over a trailer. */
  lemma ParseSkips(sum: Bytes -> word, file: Bytes, n: nat)
    requires n + Pad(n) <= |file|
    ensures Parse(sum, file, n) == Parse(sum, file, n + Pad(n))
  {
  }

  lemma FragmentInBlock(sum: Bytes -> word, file: Bytes, m: nat, kind: byte, data: Bytes)
    requires m <= |file| && InBlock(m) + HEADER + |data| <= BLOCK && kind != ZERO_TYPE
    requires Agrees(file[m..], Physical(sum, kind, data))
    ensures Parse(sum, file, m) ==
              if m + HEADER + |data| <= |file| then Parsed(Fragment(kind, data), m + HEADER + |data|, [])
              else Parsed(Eof, |file|, [])
  {
    var full := BlockEnd(m) <= |file|;
    var end := if full then BlockEnd(m) else |file|;
    if end - m >= HEADER {
      HeaderRead(sum, kind, data, file[m..end], m, full);
    }
  }

  /** A fragment's header and payload, whole or cut short. */
  lemma HeaderRead(sum: Bytes -> word, kind: byte, data: Bytes, buffer: Bytes, x: nat, full: bool)
    requires |data| <= 0xffff && kind != ZERO_TYPE && |buffer| >= HEADER && Agrees(buffer, Physical(sum, kind, data))
    requires full ==> |Physical(sum, kind, data)| <= |buffer|
    ensures ParseHeader(sum, buffer, x, full) ==
              if HEADER + |data| <= |buffer| then Parsed(Fragment(kind, data), x + HEADER + |data|, [])
              else Parsed(Eof, x + |buffer|, [])
  {
    var whole := Physical(sum, kind, data);
    assert whole[4] == |data| % 256 && whole[5] == |data| / 256 && whole[6] == kind;
    assert buffer[4] == whole[4] && buffer[5] == whole[5] && buffer[6] == whole[6];
    if HEADER + |data| <= |buffer| {
      assert buffer[6..HEADER + |data|] == whole[6..] == [kind] + data;
      assert buffer == Fixed(Mask(sum([kind] + data)), 4) + buffer[4..];
      Fixed32RoundTrip(Mask(sum([kind] + data)), buffer[4..]);
      UnmaskMask(sum([kind] + data));
      assert buffer[HEADER..HEADER + |data|] == whole[HEADER..] == data;
    }
  }

  lemma {:induction false} RecordGrows(sum: Bytes -> word, dest: Bytes, data: Bytes, begin: bool)
    ensures WithFragment(sum, dest, data, begin) <= WithRecord(sum, dest, data, begin)
    ensures dest < WithRecord(sum, dest, data, begin)
    decreases |data|, Room(|dest|) == 0
  {
    var len, d := FragmentLength(|dest|, data), WithFragment(sum, dest, data, begin);
    assert dest < d;
    if len < |data| {
      NextBlock(|dest|);
      RecordGrows(sum, d, data[len..], false);
    }
  }

  /** ReadFrom over the first fragment of the rest of a record. */
  lemma FragmentStep(sum: Bytes -> word, file: Bytes, dest: Bytes, data: Bytes, begin: bool, scratch: Bytes,
                     drops: seq<nat>)
    requires dest <= file && Agrees(file, WithFragment(sum, dest, data, begin)) && (begin ==> scratch == [])
    ensures var len, d := FragmentLength(|dest|, data), WithFragment(sum, dest, data, begin);
            ReadFrom(sum, file, |dest|, !begin, scratch, drops) ==
              if |d| > |file| then Read(None, |file|, drops)
              else if len == |data| then Read(Some(scratch + data), |d|, drops)
              else ReadFrom(sum, file, |d|, true, scratch + data[..len], drops)
  {
    var len := FragmentLength(|dest|, data);
    FragmentRead(sum, file, dest, data, begin);
    assert drops + [] + [] == drops;
    assert begin ==> scratch + data[..len] == data[..len];
    assert len == |data| ==> data[..len] == data;
  }

  /** The rest of a record, read from where it starts: the whole record if its last
      fragment is there, the end of the file if not; nothing is reported. */
  lemma {:induction false} RecordRead(sum: Bytes -> word, file: Bytes, dest: Bytes, data: Bytes, begin: bool,
                                      scratch: Bytes,
                                      drops: seq<nat>)
    requires dest <= file && Agrees(file, WithRecord(sum, dest, data, begin)) && (begin ==> scratch == [])
    ensures ReadFrom(sum, file, |dest|, !begin, scratch, drops)
         == WholeOrNone(file, |WithRecord(sum, dest, data, begin)|, scratch + data, drops)
    decreases |data|, Room(|dest|) == 0
  {
    var len, d := FragmentLength(|dest|, data), WithFragment(sum, dest, data, begin);
    RecordGrows(sum, dest, data, begin);
    AgreesShorter(file, d, WithRecord(sum, dest, data, begin));
    FragmentStep(sum, file, dest, data, begin, scratch, drops);
    if len < |data| && |d| <= |file| {
      Progresses(dest, data, len, |d|);
      Rejoin(scratch, data, len);
      RecordRead(sum, file, d, data[len..], false, scratch + data[..len], drops);
    }
  }

  /** A fragment carries data, or fills up a block that had no room for any. */
  lemma Progresses(dest: Bytes, data: Bytes, len: nat, n: nat)
    requires len == FragmentLength(|dest|, data) < |data| && n == |dest| + |Zeros(Pad(|dest|))| + HEADER + len
    ensures len > 0 || (Room(|dest|) == 0 && Room(n) > 0)
  {
    NextBlock(|dest|);
  }

  lemma Rejoin(scratch: Bytes, data: Bytes, len: nat)
    requires len <= |data|
    ensures scratch + data[..len] + data[len..] == scratch + data
  {
  }

  /** A record that ends at `end`, if the file reaches that far. */
  function WholeOrNone(file: Bytes, end: nat, record: Bytes, drops: seq<nat>): Read {
    if end <= |file| then Read(Some(record), end, drops) else Read(None, |file|, drops)
  }

  /** Records written whole within the first k bytes. */
  function Whole(sum: Bytes -> word, records: seq<Bytes>, k: nat): (n: nat)
    ensures n <= |records|
  {
    if records == [] then 0
    else if |LogBytes(sum, records)| <= k then |records|
    else Whole(sum, records[..|records| - 1], k)
  }

  lemma {:induction false} LogPrefix(sum: Bytes -> word, records: seq<Bytes>, i: nat)
    requires i <= |records|
    ensures LogBytes(sum, records[..i]) <= LogBytes(sum, records)
    ensures i < |records| ==> LogBytes(sum, records[..i]) < LogBytes(sum, records)
    decreases |records|
  {
    if i < |records| {
      var n := |records| - 1;
      LogPrefix(sum, records[..n], i);
      assert records[..n][..i] == records[..i];
      RecordGrows(sum, LogBytes(sum, records[..n]), records[n], true);
    } else {
      assert records[..i] == records;
    }
  }

  lemma {:induction false} WholeIs(sum: Bytes -> word, records: seq<Bytes>, k: nat, n: nat)
    requires n <= |records| && |LogBytes(sum, records[..n])| <= k
    requires n < |records| ==> k < |LogBytes(sum, records[..n + 1])|
    ensures Whole(sum, records, k) == n
    decreases |records|
  {
    if n < |records| {
      var front := records[..|records| - 1];
      PrefixLength(sum, records, n + 1);
      WholeOfFront(sum, records, k);
      Prefixes(records, front, n);
      WholeIs(sum, front, k, n);
    } else {
      assert records[..n] == records;
    }
  }

  lemma PrefixLength(sum: Bytes -> word, records: seq<Bytes>, i: nat)
    requires i <= |records|
    ensures |LogBytes(sum, records[..i])| <= |LogBytes(sum, records)|
  {
    LogPrefix(sum, records, i);
  }

  /** A cut inside the last record, or just before it, leaves all the others whole. */
  lemma AllButLast(sum: Bytes -> word, rs: seq<Bytes>, k: nat)
    requires rs != [] && |LogBytes(sum, rs[..|rs| - 1])| <= k < |LogBytes(sum, rs)|
    ensures Whole(sum, rs, k) == |rs| - 1
  {
    var n := |rs| - 1;
    assert rs[..n + 1] == rs;
    WholeIs(sum, rs, k, n);
  }

  lemma WholeOfFront(sum: Bytes -> word, records: seq<Bytes>, k: nat)
    requires records != [] && |LogBytes(sum, records)| > k
    ensures Whole(sum, records, k) == Whole(sum, records[..|records| - 1], k)
  {
  }

  lemma Prefixes(records: seq<Bytes>, front: seq<Bytes>, n: nat)
    requires n < |records| && front == records[..|records| - 1]
    ensures front[..n] == records[..n] && (n < |front| ==> front[..n + 1] == records[..n + 1])
  {
  }

  /** Reading on from the end of record i - 1. */
  lemma NextRead(sum: Bytes -> word, file: Bytes, records: seq<Bytes>, i: nat, drops: seq<nat>)
    requires i < |records| && LogBytes(sum, records[..i]) <= file <= LogBytes(sum, records)
    ensures var next := LogBytes(sum, records[..i + 1]);
            ReadFrom(sum, file, |LogBytes(sum, records[..i])|, false, [], drops) ==
              if |next| <= |file| then Read(Some(records[i]), |next|, drops) else Read(None, |file|, drops)
    ensures |LogBytes(sum, records[..i + 1])| <= |file| ==> LogBytes(sum, records[..i + 1]) <= file
  {
    LogPrefix(sum, records, i + 1);
    assert records[..i + 1][..i] == records[..i];
    assert [] + records[i] == records[i];
    RecordRead(sum, file, LogBytes(sum, records[..i]), records[i], true, [], drops);
  }

  lemma EndRead(sum: Bytes -> word, file: Bytes, drops: seq<nat>)
    ensures ReadFrom(sum, file, |file|, false, [], drops) == Read(None, |file|, drops)
  {
    assert drops + [] + [] == drops;
  }

  /** One ReadRecord on a cut-off log, after i records. */
  lemma ReadStep(sum: Bytes -> word, file: Bytes, records: seq<Bytes>, i: nat, drops: seq<nat>)
    requires i <= |records| && LogBytes(sum, records[..i]) <= file <= LogBytes(sum, records)
    ensures var n := Whole(sum, records, |file|);
            ReadFrom(sum, file, |LogBytes(sum, records[..i])|, false, [], drops) ==
              if i < n then Read(Some(records[i]), |LogBytes(sum, records[..i + 1])|, drops) else Read(None, |file|,
                drops)
    ensures i <= Whole(sum, records, |file|)
    ensures i < Whole(sum, records, |file|) ==> LogBytes(sum, records[..i + 1]) <= file
  {
    if i < |records| {
      NextRead(sum, file, records, i, drops);
      LogPrefix(sum, records, i);
      if |LogBytes(sum, records[..i + 1])| <= |file| {
        WholeAbove(sum, records, |file|, i + 1);
      } else {
        WholeIs(sum, records, |file|, i);
      }
    } else {
      assert records[..i] == records;
      EndRead(sum, file, drops);
    }
  }

  lemma {:induction false} WholeAbove(sum: Bytes -> word, records: seq<Bytes>, k: nat, n: nat)
    requires n <= |records| && |LogBytes(sum, records[..n])| <= k
    ensures n <= Whole(sum, records, k)
    decreases |records|
  {
    if n < |records| {
      assert records[..|records| - 1][..n] == records[..n];
      WholeAbove(sum, records[..|records| - 1], k, n);
    } else {
      assert records[..n] == records;
    }
  }

  /** A ReadRecord that starts where record i does. */
  ghost predicate Step(sum: Bytes -> word, file: Bytes, records: seq<Bytes>, starts: nat -> nat, i: nat)
    requires i <= Whole(sum, records, |file|)
  {
    && starts(i) <= |file|
    && ReadFrom(sum, file, starts(i), false, [], []) ==
         if i < Whole(sum, records, |file|) then Read(Some(records[i]), starts(i + 1), []) else Read(None, |file|, [])
  }

  ghost predicate Steps(sum: Bytes -> word, file: Bytes, records: seq<Bytes>, starts: nat -> nat) {
    forall i {:trigger Step(sum, file, records, starts, i)} ::
      0 <= i <= Whole(sum, records, |file|) ==> Step(sum, file, records, starts, i)
  }

  lemma {:induction false} LogSteps(sum: Bytes -> word, file: Bytes, records: seq<Bytes>, starts: nat -> nat, i: nat)
    requires file <= LogBytes(sum, records) && i <= Whole(sum, records, |file|)
    requires forall j :: 0 <= j <= |records| ==> starts(j) == |LogBytes(sum, records[..j])|
    ensures LogBytes(sum, records[..i]) <= file && Step(sum, file, records, starts, i)
  {
    if i > 0 {
      LogSteps(sum, file, records, starts, i - 1);
      ReadStep(sum, file, records, i - 1, []);
    }
    ReadStep(sum, file, records, i, []);
  }

  /** The reader stands where record i of an undamaged log begins. */
  ghost predicate OnTrack(reader: Reader, records: seq<Bytes>, starts: nat -> nat, i: nat)
    requires reader.Valid()
    reads reader
  {
    && reader.drops == [] && i <= Whole(reader.sum, records, |reader.file|)
    && Steps(reader.sum, reader.file, records, starts) && reader.At() == starts(i)
  }

  /** The records read and the one just read are those of an undamaged log. */
  ghost predicate ReadSoFar(reader: Reader, records: seq<Bytes>, starts: nat -> nat, rs: seq<Bytes>,
                            record: Option<Bytes>)
    requires reader.Valid()
    reads reader
  {
    var n := Whole(reader.sum, records, |reader.file|);
    && reader.drops == [] && |rs| <= n <= |records| && rs == records[..|rs|]
    && record == (if |rs| < n then Some(records[|rs|]) else None)
    && (record.Some? ==> OnTrack(reader, records, starts, |rs| + 1))
  }

  method ReadNext(reader: Reader, ghost records: seq<Bytes>, ghost starts: nat -> nat, ghost i: nat)
    returns (record: Option<Bytes>)
    requires reader.Valid()
    modifies reader
    ensures reader.Valid() && (record.Some? ==> Genuine(reader.sum, reader.file, record.value))
    ensures reader.At() > old(reader.At()) || record == None
    ensures old(OnTrack(reader, records, starts, i)) ==>
              && reader.drops == []
              && record == (if i < Whole(reader.sum, records, |reader.file|) then Some(records[i]) else None)
              && (record.Some? ==> OnTrack(reader, records, starts, i + 1))
  {
    if OnTrack(reader, records, starts, i) {
      assert Step(reader.sum, reader.file, records, starts, i);
    }
    record := reader.ReadRecord();
  }

  lemma OneRecordMore(records: seq<Bytes>, n: nat)
    requires n <= |records|
    ensures records[..0] == [] && (n < |records| ==> records[..n + 1] == records[..n] + [records[n]])
  {
  }

  /** RecoverLogFile's loop: ReadRecord until it finds no more. */
  method ReadRest(reader: Reader, ghost records: seq<Bytes>, ghost starts: nat -> nat)
    returns (rs: seq<Bytes>, drops: seq<nat>)
    requires reader.Valid()
    modifies reader
    ensures forall r :: r in rs ==> Genuine(reader.sum, reader.file, r)
    ensures old(OnTrack(reader, records, starts, 0)) ==>
              drops == [] && |records| >= Whole(reader.sum, records, |reader.file|)
              && rs == records[..Whole(reader.sum, records, |reader.file|)]
  {
    ghost var hyp := OnTrack(reader, records, starts, 0);
    OneRecordMore(records, 0);
    rs := [];
    var record := ReadNext(reader, records, starts, 0);
    while record.Some?
      invariant reader.Valid() && (record.Some? ==> Genuine(reader.sum, reader.file, record.value))
      invariant forall r :: r in rs ==> Genuine(reader.sum, reader.file, r)
      invariant hyp ==> ReadSoFar(reader, records, starts, rs, record)
      decreases record.Some?, |reader.file| - reader.At()
    {
      if hyp { OneRecordMore(records, |rs|); }
      rs := rs + [record.value];
      record := ReadNext(reader, records, starts, |rs|);
    }
    drops := reader.drops;
  }

  /** Reading a log to its end.  Every record it gives is carried by sound fragments,
      whatever the file holds.  A log of these records cut off at any byte gives back
      exactly the records that were written whole, in order, and reports no corruption. */
  method ReadAll(sum: Bytes -> word, file: Bytes, ghost records: seq<Bytes>) returns (rs: seq<Bytes>, drops: seq<nat>)
    ensures forall r :: r in rs ==> Genuine(sum, file, r)
    ensures file <= LogBytes(sum, records) ==> rs == records[..Whole(sum, records, |file|)] && drops == []
  {
    ghost var starts := (i: nat) => if i <= |records| then |LogBytes(sum, records[..i])| else 0;
    ghost var hyp := file <= LogBytes(sum, records);
    if hyp {
      forall i | 0 <= i <= Whole(sum, records, |file|) ensures Step(sum, file, records, starts, i) {
        LogSteps(sum, file, records, starts, i);
      }
      assert records[..0] == [];
    }
    var reader := new Reader(sum, file);
    rs, drops := ReadRest(reader, records, starts);
  }
}
