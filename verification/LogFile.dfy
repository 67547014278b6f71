/** The write-ahead log's file format and its writer (log_format.h, log_writer.cc,
    crc32c.h): records cut into checksummed fragments that never cross a block. */
module LogFile {
  import opened Keys
  import opened Coding

  const BLOCK: nat := 32768
  const HEADER: nat := 7

  /** Position of file offset n within its block. */
  function InBlock(n: nat): nat {
    n % 32768
  }

  const ZERO_TYPE: byte := 0
  const FULL: byte := 1
  const FIRST: byte := 2
  const MIDDLE: byte := 3
  const LAST: byte := 4

  // ---------- words ----------

  type word = w: int | 0 <= w < 0x1_0000_0000

  /** crc32c::Mask: rotate right by 15 bits and add a constant, on 32 bits. */
  function Mask(crc: word): word {
    (crc / 0x8000 + (crc % 0x8000) * 0x2_0000 + 0xa282ead8) % 0x1_0000_0000
  }

  function Unmask(masked: word): word {
    var rot := (masked - 0xa282ead8) % 0x1_0000_0000;
    rot / 0x2_0000 + (rot % 0x2_0000) * 0x8000
  }

  lemma UnmaskMask(crc: word)
    ensures Unmask(Mask(crc)) == crc
  {
    var rot := crc / 0x8000 + (crc % 0x8000) * 0x2_0000;
    assert (Mask(crc) - 0xa282ead8) % 0x1_0000_0000 == rot;
    assert rot / 0x2_0000 == crc % 0x8000 && rot % 0x2_0000 == crc / 0x8000;
  }

  function DecodeFixed32(b: Bytes): word
    requires |b| >= 4
  {
    UnfixedBound(b[..4]);
    assert Bound(4) == 0x1_0000_0000;
    Unfixed(b[..4])
  }

  lemma Fixed32RoundTrip(w: word, rest: Bytes)
    ensures DecodeFixed32(Fixed(w, 4) + rest) == w
  {
    FixedRoundTrip(w, 4);
    assert Bound(4) == 0x1_0000_0000;
    assert (Fixed(w, 4) + rest)[..4] == Fixed(w, 4);
  }

  // ---------- fragments ----------

  /** A fragment on disk: checksum of type and payload, length, type, payload. */
  function Physical(sum: Bytes -> word, kind: byte, data: Bytes): (b: Bytes)
    requires |data| <= 0xffff
    ensures |b| == HEADER + |data|
  {
    Fixed(Mask(sum([kind] + data)), 4) + [|data| % 256, |data| / 256, kind] + data
  }

  function Zeros(n: nat): (b: Bytes)
    ensures |b| == n
  {
    seq(n, _ => 0)
  }

  /** Trailer bytes at file offset n: a block's last bytes hold no header. */
  function Pad(n: nat): (p: nat)
    ensures p < HEADER && (p > 0 ==> InBlock(n + p) == 0)
    ensures InBlock(n) + p <= BLOCK && InBlock(n + p) + HEADER <= BLOCK
  {
    var leftover := BLOCK - InBlock(n);
    if leftover < HEADER then leftover else 0
  }

  /** Payload room of the next fragment. */
  function Room(n: nat): nat {
    BLOCK - InBlock(n + Pad(n)) - HEADER
  }

  function FragmentType(begin: bool, end: bool): byte {
    if begin && end then FULL else if begin then FIRST else if end then LAST else MIDDLE
  }

  /** Payload length of the fragment that carries the first part of data. */
  function FragmentLength(n: nat, data: Bytes): (len: nat)
    ensures len <= |data| && len <= Room(n)
    ensures len < |data| ==> len == Room(n)
  {
    if |data| < Room(n) then |data| else Room(n)
  }

  /** The file after a trailer, if one is due, and the first fragment of data. */
  function WithFragment(sum: Bytes -> word, dest: Bytes, data: Bytes, begin: bool): (d: Bytes)
    ensures |d| == |dest| + Pad(|dest|) + HEADER + FragmentLength(|dest|, data)
  {
    var len := FragmentLength(|dest|, data);
    dest + Zeros(Pad(|dest|)) + Physical(sum, FragmentType(begin, len == |data|), data[..len])
  }

  /** The file after the rest of a record. */
  function WithRecord(sum: Bytes -> word, dest: Bytes, data: Bytes, begin: bool): Bytes
    decreases |data|, Room(|dest|) == 0
  {
    var len, d := FragmentLength(|dest|, data), WithFragment(sum, dest, data, begin);
    if len == |data| then d else NextBlock(|dest|); WithRecord(sum, d, data[len..], false)
  }

  /** A fragment that leaves some of its record over fills its block. */
  lemma NextBlock(n: nat)
    ensures InBlock(n + Pad(n) + HEADER + Room(n)) == 0
    ensures Room(n + Pad(n) + HEADER + Room(n)) > 0
  {
  }

  /** A fresh log file with these records. */
  function LogBytes(sum: Bytes -> word, records: seq<Bytes>): Bytes {
    if records == [] then [] else
      WithRecord(sum, LogBytes(sum, records[..|records| - 1]), records[|records| - 1], true)
  }

  // ---------- the writer ----------

  /** block_offset_ is the file length within its block; a full block counts as BLOCK or 0. */
  predicate Offset(n: nat, offset: nat) {
    offset == InBlock(n) || (offset == BLOCK && InBlock(n) == 0)
  }

  lemma TrailerDue(n: nat, offset: nat)
    requires Offset(n, offset)
    ensures offset <= BLOCK && Pad(n) == if BLOCK - offset < HEADER then BLOCK - offset else 0
    ensures Room(n) == if BLOCK - offset < HEADER then BLOCK - HEADER else BLOCK - offset - HEADER
    ensures BLOCK - offset < HEADER ==> Offset(n + BLOCK - offset, 0)
  {
  }

  lemma OffsetAdvances(n: nat, offset: nat, len: nat)
    requires Offset(n, offset) && offset + len <= BLOCK
    ensures Offset(n + len, offset + len)
  {
  }

  class Writer {
    const sum: Bytes -> word
    var dest: Bytes
    var blockOffset: nat

    ghost predicate Valid()
      reads this
    {
      Offset(|dest|, blockOffset)
    }

    constructor (sum: Bytes -> word)
      ensures Valid() && dest == [] && this.sum == sum
    {
      this.sum, dest, blockOffset := sum, [], 0;
    }

    method AddRecord(slice: Bytes)
      requires Valid()
      modifies this
      ensures Valid() && dest == WithRecord(sum, old(dest), slice, true)
    {
      var left, begin, more := slice, true, true;
      while more
        invariant Valid()
        invariant (if more then WithRecord(sum, dest, left, begin) else dest) == WithRecord(sum, old(dest), slice, true)
        decreases more, |left|, Room(|dest|) == 0
      {
        NextBlock(|dest|);
        var len := AddFragment(left, begin);
        left := left[len..];
        begin := false;
        more := left != [];
      }
    }

    /** One turn of AddRecord's loop: a trailer if the block is used up, then a fragment. */
    method AddFragment(left: Bytes, begin: bool) returns (len: nat)
      requires Valid()
      modifies this
      ensures Valid() && len == FragmentLength(|old(dest)|, left) && dest == WithFragment(sum, old(dest), left, begin)
    {
      TrailerDue(|dest|, blockOffset);
      var leftover := BLOCK - blockOffset;
      if leftover < HEADER {
        dest := dest + Zeros(leftover);
        blockOffset := 0;
      }
      var avail := BLOCK - blockOffset - HEADER;
      len := if |left| < avail then |left| else avail;
      EmitPhysicalRecord(FragmentType(begin, len == |left|), left[..len]);
    }

    method EmitPhysicalRecord(kind: byte, data: Bytes)
      requires Valid() && blockOffset + HEADER + |data| <= BLOCK
      modifies this
      ensures Valid() && dest == old(dest) + Physical(sum, kind, data)
    {
      OffsetAdvances(|dest|, blockOffset, HEADER + |data|);
      dest := dest + Physical(sum, kind, data);
      blockOffset := blockOffset + HEADER + |data|;
    }
  }
}
