/** Byte strings, the bytewise comparator, and internal keys. */
module Keys {

  datatype Option<+T> = None | Some(value: T)

  type byte = b: int | 0 <= b < 256
  type Bytes = seq<byte>

  /** The order of Slice::compare: unsigned bytewise, a proper prefix first. */
  predicate BytesLess(a: Bytes, b: Bytes) {
    if b == [] then false
    else if a == [] then true
    else a[0] < b[0] || (a[0] == b[0] && BytesLess(a[1..], b[1..]))
  }

  /** A user key is only ever compared, so the storage engine is modelled over
      the reals: Rank embeds the byte strings, and with them every countable key
      order, and Dafny knows the reals are linearly ordered. */
  type UserKey = real

  function Rank(a: Bytes): (r: UserKey)
    ensures 0.0 <= r < 1.0
  {
    if a == [] then 0.0 else (a[0] as real + 1.0 + Rank(a[1..])) / 258.0
  }

  /** The embedding is exact: order and equality of byte strings are order and
      equality of their ranks. */
  lemma {:induction false} RankOrder(a: Bytes, b: Bytes)
    ensures BytesLess(a, b) <==> Rank(a) < Rank(b)
    ensures a == b <==> Rank(a) == Rank(b)
  {
    if a != [] && b != [] {
      RankOrder(a[1..], b[1..]);
      assert a == [a[0]] + a[1..] && b == [b[0]] + b[1..];
    }
  }

  datatype Kind = Deletion | Value

  datatype IKey = IKey(user: UserKey, sn: nat, kind: Kind)

  datatype Entry = Entry(k: IKey, value: Bytes)

  /** kMaxSequenceNumber: 56 bits, the low eight bits of a tag hold the type. */
  const MAX_SEQ: nat := 0xff_ffff_ffff_ffff

  /** PackSequenceAndType. */
  function Tag(k: IKey): nat {
    k.sn * 256 + if k.kind == Value then 1 else 0
  }

  /** InternalKeyComparator: user key ascending, then packed number descending. */
  predicate Less(a: IKey, b: IKey) {
    a.user < b.user || (a.user == b.user && Tag(a) > Tag(b))
  }

  /** The key a lookup of u at sequence s seeks to (kValueTypeForSeek). */
  function SeekKey(u: UserKey, s: nat): IKey {
    IKey(u, s, Value)
  }

  /** Seeking past SeekKey(u, s) skips exactly the entries that come before u
      and the entries of u that are too new. */
  lemma SeekSkips(k: IKey, u: UserKey, s: nat)
    ensures !Less(k, SeekKey(u, s)) <==> u < k.user || (k.user == u && k.sn <= s)
  {
  }

  /** A table file: FileMetaData, and the contents of the table. */
  datatype File = File(number: nat, size: nat, smallest: IKey, largest: IKey, entries: seq<Entry>)

  predicate SortedEntries(es: seq<Entry>) {
    forall i, j :: 0 <= i < j < |es| ==> Less(es[i].k, es[j].k)
  }

  predicate ValidFile(f: File) {
    && |f.entries| > 0 && SortedEntries(f.entries)
    && f.smallest == f.entries[0].k && f.largest == f.entries[|f.entries| - 1].k
  }

  /** Every entry of a table lies between its bounds. */
  lemma Bounded(f: File, e: Entry)
    requires ValidFile(f) && e in f.entries
    ensures !Less(e.k, f.smallest) && !Less(f.largest, e.k)
    ensures f.smallest.user <= e.k.user <= f.largest.user
  {
    var i :| 0 <= i < |f.entries| && f.entries[i] == e;
    assert i > 0 ==> Less(f.entries[0].k, f.entries[i].k);
    assert i < |f.entries| - 1 ==> Less(f.entries[i].k, f.entries[|f.entries| - 1].k);
  }
}
