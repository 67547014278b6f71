/** Bytes that other programs read and write: small values of each format written out in
    full (util/coding.cc, db/log_format.h, util/crc32c.h, db/write_batch.cc,
    db/version_edit.cc, table/block_builder.cc, and the examples of the Protocol Buffers
    encoding guide). */
module Formats {
  import opened Keys
  import opened Coding
  import opened PbMessage
  import PbWire
  import LogFile
  import WriteBatch
  import VersionEdit
  import BlockFormat
  import DecodedTable

  // ---------- words ----------

  /** A fixed-width word is little-endian: byte i is the i-th from the right in base 256. */
  lemma {:induction false} LittleEndian(value: nat, n: nat, i: nat)
    requires i < n
    ensures Bound(i) > 0 && Fixed(value, n)[i] as nat == value / Bound(i) % 256
  {
    if i > 0 {
      LittleEndian(value / 256, n - 1, i - 1);
      DivideTwice(value, Bound(i - 1));
    }
  }

  lemma DivideTwice(value: nat, m: nat)
    requires m > 0
    ensures value / 256 / m == value / (256 * m)
  {
    var q := value / 256 / m;
    var low, r := value % 256, value / 256 % m;
    assert value == 256 * (q * m + r) + low;
    assert 256 * (q * m) == q * (256 * m);
    var rest := 256 * r + low;
    assert value == q * (256 * m) + rest && 0 <= rest < 256 * m;
    QuotientIs(value, 256 * m, q, rest);
  }

  lemma QuotientIs(value: nat, d: nat, q: nat, rest: nat)
    requires d > 0 && value == q * d + rest && rest < d
    ensures value / d == q
  {
    var p, r := value / d, value % d;
    assert value == p * d + r;
    if p < q {
      TimesLess(p, q, d);
    } else if p > q {
      TimesLess(q, p, d);
    }
  }

  lemma {:induction false} TimesLess(p: nat, q: nat, d: nat)
    requires p < q
    ensures p * d + d <= q * d
  {
    if p + 1 < q {
      TimesLess(p, q - 1, d);
    }
    assert (q - 1) * d + d == q * d;
  }

  /** 128, 300 and the largest 32-bit value as varints; masked checksums; zigzag forms. */
  lemma Words()
    ensures Varint(127) == [0x7f] && Varint(128) == [0x80, 1] && Varint(300) == [0xac, 2]
    ensures Varint(0xffff_ffff) == [0xff, 0xff, 0xff, 0xff, 0x0f]
    ensures LogFile.Mask(0) == 0xa282ead8 && LogFile.Mask(0x8001) == 0xa284ead9
    ensures PbWire.ZigZag(0) == 0 && PbWire.ZigZag(-1) == 1 && PbWire.ZigZag(1) == 2 && PbWire.ZigZag(-2) == 3
  {
    assert Varint(0xffff) == [0xff, 0xff, 3];
    assert Varint(0xffff_ffff / 0x4000) == [0xff, 0xff, 0x0f];
  }

  // ---------- leveldb ----------

  /** The record "abc" at the start of a log: checksum, length 3, type FULL. */
  lemma LogRecord(sum: Bytes -> LogFile.word)
    ensures LogFile.LogBytes(sum, [[97, 98, 99]])
         == Fixed(LogFile.Mask(sum([1, 97, 98, 99])), 4) + [3, 0, 1, 97, 98, 99]
  {
    var data: Bytes := [97, 98, 99];
    assert [data][..0] == [];
    assert data[..3] == data && LogFile.FragmentLength(0, data) == 3;
    assert [1] + data == [1, 97, 98, 99];
    assert LogFile.LogBytes(sum, [data]) == LogFile.WithRecord(sum, [], data, true);
  }

  /** A batch at sequence number 258 that puts "v" under "k" and deletes "ab". */
  lemma Batch()
    ensures WriteBatch.Encode(258, [WriteBatch.Put([107], [118]), WriteBatch.Delete([97, 98])])
         == [2, 1, 0, 0, 0, 0, 0, 0, 2, 0, 0, 0, 1, 1, 107, 1, 118, 0, 2, 97, 98]
  {
    Fixed4(2);
    Fixed258();
    BatchBody();
  }

  lemma Fixed258()
    ensures Fixed(258, 8) == [2, 1, 0, 0, 0, 0, 0, 0]
  {
    Fixed4(0);
    assert Fixed(0, 6) == [0, 0] + Fixed(0, 4);
    assert Fixed(258, 8) == [2] + ([1] + Fixed(0, 6));
  }

  lemma BatchBody()
    ensures WriteBatch.Body([WriteBatch.Put([107], [118]), WriteBatch.Delete([97, 98])])
         == [1, 1, 107, 1, 118, 0, 2, 97, 98]
  {
    var u, w := WriteBatch.Put([107], [118]), WriteBatch.Delete([97, 98]);
    WriteBatch.BodyOne([u], w);
    WriteBatch.BodyOne([], u);
    assert [u] + [w] == [u, w] && [] + [u] == [u];
    assert WriteBatch.UpdateBytes(u) == [1, 1, 107, 1, 118] && WriteBatch.UpdateBytes(w) == [0, 2, 97, 98];
  }

  lemma Fixed4(n: byte)
    ensures Fixed(n as nat, 4) == [n, 0, 0, 0] && Fixed(0, 4) == [0, 0, 0, 0]
  {
    assert Fixed(0, 3) == [0] + Fixed(0, 2);
  }

  /** The key to look "k" up by at sequence number 5: the number shifted past the type. */
  lemma LookupKey()
    ensures DecodedTable.LookupKey([107], 5) == [107, 1, 5, 0, 0, 0, 0, 0, 0]
  {
    Fixed4(0);
    assert Fixed(0, 6) == [0, 0] + Fixed(0, 4);
    assert Fixed(1281, 8) == [1] + ([5] + Fixed(0, 6));
  }

  /** Every kind of manifest item. */
  lemma Edit()
    ensures VersionEdit.ItemBytes(VersionEdit.Comparator([99]), []) == [1, 1, 99]
    ensures VersionEdit.ItemBytes(VersionEdit.LogNumber(300), []) == [2, 0xac, 2]
    ensures VersionEdit.ItemBytes(VersionEdit.NextFileNumber(7), []) == [3, 7]
    ensures VersionEdit.ItemBytes(VersionEdit.LastSequence(8), []) == [4, 8]
    ensures VersionEdit.ItemBytes(VersionEdit.CompactPointer(2, [97]), []) == [5, 2, 1, 97]
    ensures VersionEdit.ItemBytes(VersionEdit.DeletedFile(1, 5), []) == [6, 1, 5]
    ensures VersionEdit.ItemBytes(
              VersionEdit.AddedFile(VersionEdit.NewFile(0, 6, 9, [97], [98])), []) == [7, 0, 6, 9, 1, 97, 1, 98]
    ensures VersionEdit.ItemBytes(VersionEdit.PrevLogNumber(0), []) == [9, 0]
  {
    Words();
  }

  /** A block of "ab" -> "x" and "ac" -> "y": the second key shares one byte, and one
      restart point is at offset 0. */
  lemma Block()
    ensures BlockFormat.BlockBytes([BlockFormat.Pair([97, 98], [120]), BlockFormat.Pair([97, 99], [121])], 16)
         == [0, 2, 1, 97, 98, 120, 1, 1, 1, 99, 121, 0, 0, 0, 0, 1, 0, 0, 0]
  {
    var a, b := BlockFormat.Pair([97, 98], [120]), BlockFormat.Pair([97, 99], [121]);
    BlockEntries(a, b);
    BlockRestarts([a, b]);
  }

  lemma BlockEntries(a: BlockFormat.Pair, b: BlockFormat.Pair)
    requires a == BlockFormat.Pair([97, 98], [120]) && b == BlockFormat.Pair([97, 99], [121])
    ensures BlockFormat.Buffer([a, b], 16, 2) == [0, 2, 1, 97, 98, 120, 1, 1, 1, 99, 121]
  {
    assert BlockFormat.Counter(16, 1) == 1;
    assert a.key[1..] == [98] && b.key[1..] == [99] && BlockFormat.Shared([98], [99]) == 0;
    assert BlockFormat.Shared(a.key, b.key) == 1;
    assert BlockFormat.EntryBytes(0, a) == [0, 2, 1, 97, 98, 120];
    assert BlockFormat.EntryBytes(1, b) == [1, 1, 1, 99, 121];
    assert BlockFormat.Buffer([a, b], 16, 1) == [] + [0, 2, 1, 97, 98, 120];
  }

  lemma BlockRestarts(es: seq<BlockFormat.Pair>)
    requires |es| == 2
    ensures BlockFormat.BlockBytes(es, 16) == BlockFormat.Buffer(es, 16, 2) + [0, 0, 0, 0] + [1, 0, 0, 0]
  {
    assert BlockFormat.Counter(16, 1) == 1;
    assert BlockFormat.RestartEntries(16, 1) == [0];
    assert BlockFormat.RestartEntries(16, 2) == [0];
    assert BlockFormat.Offset(es, 16, 0) == 0;
    assert [0][..0] == [];
    assert Coding.Words([0]) == Coding.Words([]) + Fixed(0, 4);
    Fixed4(1);
  }

  // ---------- nanopb ----------

  function Single(f: Field, v: Value): Bytes {
    Wire([f], [[v]])
  }

  lemma SingleIs(f: Field, v: Value)
    requires !f.rule.Implicit? && !IsPacked(f)
    ensures Single(f, v) == TagBytes(f.tag, WireType(f.ltype)) + ItemBytes(f.ltype, v)
  {
    assert [f][1..] == [] && [[v]][1..] == [] && [v][1..] == [];
    assert Unpacked(f, [v]) == TagBytes(f.tag, WireType(f.ltype)) + ItemBytes(f.ltype, v) + Unpacked(f, []);
    assert FieldBytes(f, [v]) == Unpacked(f, [v]);
    assert Wire([], []) == [];
  }

  /** The encoding guide's examples of a varint, a string and a submessage. */
  lemma Guide()
    ensures Single(Field(1, Required, VarintType(4)), Int(150)) == [0x08, 0x96, 0x01]
    ensures Single(Field(2, Required, StringType(16)), Blob([0x74, 0x65, 0x73, 0x74, 0x69, 0x6e, 0x67]))
         == [0x12, 0x07, 0x74, 0x65, 0x73, 0x74, 0x69, 0x6e, 0x67]
    ensures Single(Field(3, Required, SubmessageType([Field(1, Required, VarintType(4))])), Msg([[Int(150)]]))
         == [0x1a, 0x03, 0x08, 0x96, 0x01]
  {
    var f := Field(1, Required, VarintType(4));
    SingleIs(f, Int(150));
    assert Varint(150) == [0x96, 1];
    SingleIs(Field(2, Required, StringType(16)), Blob([0x74, 0x65, 0x73, 0x74, 0x69, 0x6e, 0x67]));
    SingleIs(Field(3, Required, SubmessageType([f])), Msg([[Int(150)]]));
  }

  /** Words of four and of eight bytes. */
  lemma GuideWords()
    ensures Single(Field(1, Required, Fixed32Type), Int(5)) == [0x0d, 5, 0, 0, 0]
    ensures Single(Field(1, Required, Fixed64Type), Int(5)) == [0x09, 5, 0, 0, 0, 0, 0, 0, 0]
  {
    SingleIs(Field(1, Required, Fixed32Type), Int(5));
    SingleIs(Field(1, Required, Fixed64Type), Int(5));
    Fixed4(5);
    Fixed8(5);
  }

  lemma Fixed8(n: byte)
    ensures Fixed(n as nat, 8) == [n, 0, 0, 0, 0, 0, 0, 0]
  {
    Fixed4(0);
    assert Fixed(0, 7) == [0, 0, 0] + Fixed(0, 4);
    assert Fixed(n as nat, 8) == [n] + Fixed(0, 7);
  }

  /** A zigzag number, a boolean and a tag of two bytes. */
  lemma GuideNumbers()
    ensures Single(Field(1, Required, SVarintType(4)), Int(-2)) == [0x08, 3]
    ensures Single(Field(1, Required, BoolType), Int(1)) == [0x08, 1]
    ensures Single(Field(16, Required, UVarintType(4)), Int(1)) == [0x80, 0x01, 1]
  {
    SingleIs(Field(1, Required, SVarintType(4)), Int(-2));
    SingleIs(Field(1, Required, BoolType), Int(1));
    SingleIs(Field(16, Required, UVarintType(4)), Int(1));
  }

  /** The guide's packed array, 3, 270, 86942 in field 4, and the same sent unpacked. */
  lemma GuidePacked()
    ensures Wire([Field(4, Repeated(8), VarintType(4))], [[Int(3), Int(270), Int(86942)]])
         == [0x22, 0x06, 0x03, 0x8e, 0x02, 0x9e, 0xa7, 0x05]
  {
    var f, items: seq<Value> := Field(4, Repeated(8), VarintType(4)), [Int(3), Int(270), Int(86942)];
    assert [f][1..] == [] && [items][1..] == [];
    assert items[1..] == [Int(270), Int(86942)] && items[1..][1..] == [Int(86942)] && items[1..][1..][1..] == [];
    assert Varint(270) == [0x8e, 2] && Varint(679) == [0xa7, 5] && Varint(86942) == [0x9e] + Varint(679);
    assert Packed(f.ltype, items[1..][1..]) == [0x9e, 0xa7, 5];
    assert Packed(f.ltype, items[1..]) == [0x8e, 2, 0x9e, 0xa7, 5];
    assert Packed(f.ltype, items) == [3, 0x8e, 2, 0x9e, 0xa7, 5];
    assert Wire([], []) == [];
  }
}
