/** Manifest records (version_edit.cc): an edit as a list of tagged items, written
    and read back. */
module VersionEdit {
  import opened Keys
  import opened Coding

  const LEVEL_LIMIT: nat := 7

  /** FileMetaData as a manifest stores it, with its level. */
  datatype NewFile = NewFile(level: nat, number: nat, size: nat, smallest: Bytes, largest: Bytes)

  /** The fields of a VersionEdit; deletedFiles is a std::set in its order. */
  datatype Fields = Fields(comparator: Option<Bytes>, logNumber: Option<nat>, prevLogNumber: Option<nat>,
                           nextFileNumber: Option<nat>, lastSequence: Option<nat>,
                           compactPointers: seq<(nat, Bytes)>, deletedFiles: seq<(nat, nat)>, newFiles: seq<NewFile>)

  datatype Item =
    | Comparator(name: Bytes)
    | LogNumber(n: nat)
    | NextFileNumber(n: nat)
    | LastSequence(n: nat)
    | CompactPointer(level: nat, key: Bytes)
    | DeletedFile(level: nat, n: nat)
    | AddedFile(file: NewFile)
    | PrevLogNumber(n: nat)

  function TagOf(i: Item): nat {
    match i
    case Comparator(_) => 1
    case LogNumber(_) => 2
    case NextFileNumber(_) => 3
    case LastSequence(_) => 4
    case CompactPointer(_, _) => 5
    case DeletedFile(_, _) => 6
    case AddedFile(_) => 7
    case PrevLogNumber(_) => 9
  }

  /** An item's bytes after its tag, followed by rest. */
  function Payload(i: Item, rest: Bytes): Bytes {
    match i
    case Comparator(name) => Prefixed(name) + rest
    case CompactPointer(level, key) => Varint(level) + (Prefixed(key) + rest)
    case DeletedFile(level, n) => Varint(level) + (Varint(n) + rest)
    case AddedFile(f) =>
      Varint(f.level) + (Varint(f.number) + (Varint(f.size) + (Prefixed(f.smallest) + (Prefixed(f.largest) + rest))))
    case _ => Varint(i.n) + rest
  }

  function ItemBytes(i: Item, rest: Bytes): Bytes {
    Varint(TagOf(i)) + Payload(i, rest)
  }

  function ItemsBytes(items: seq<Item>): Bytes {
    if items == [] then [] else ItemBytes(items[0], ItemsBytes(items[1..]))
  }

  // ---------- an edit as items ----------

  function Counter(n: Option<nat>, item: nat -> Item): seq<Item> {
    if n.Some? then [item(n.value)] else []
  }

  function PointerItems(ps: seq<(nat, Bytes)>): (r: seq<Item>) {
    seq(|ps|, i requires 0 <= i < |ps| => CompactPointer(ps[i].0, ps[i].1))
  }

  function DeletedItems(ds: seq<(nat, nat)>): (r: seq<Item>) {
    seq(|ds|, i requires 0 <= i < |ds| => DeletedFile(ds[i].0, ds[i].1))
  }

  function AddedItems(fs: seq<NewFile>): (r: seq<Item>) {
    seq(|fs|, i requires 0 <= i < |fs| => AddedFile(fs[i]))
  }

  function Counters(e: Fields): seq<Item> {
    (if e.comparator.Some? then [Comparator(e.comparator.value)] else [])
    + Counter(e.logNumber, (n: nat) => LogNumber(n)) + Counter(e.prevLogNumber, (n: nat) => PrevLogNumber(n))
    + Counter(e.nextFileNumber, (n: nat) => NextFileNumber(n)) + Counter(e.lastSequence, (n: nat) => LastSequence(n))
  }

  function Items(e: Fields): seq<Item> {
    Counters(e) + PointerItems(e.compactPointers) + DeletedItems(e.deletedFiles) + AddedItems(e.newFiles)
  }

  /** What EncodeTo writes. */
  function Encoding(e: Fields): Bytes {
    ItemsBytes(Items(e))
  }

  // ---------- items back to an edit ----------

  predicate Before(a: (nat, nat), b: (nat, nat)) {
    a.0 < b.0 || (a.0 == b.0 && a.1 < b.1)
  }

  /** std::set::insert. */
  function SetInsert(ds: seq<(nat, nat)>, d: (nat, nat)): seq<(nat, nat)> {
    if ds == [] || Before(d, ds[0]) then [d] + ds
    else if d == ds[0] then ds
    else [ds[0]] + SetInsert(ds[1..], d)
  }

  ghost predicate AscendingPairs(ds: seq<(nat, nat)>) {
    forall i, j :: 0 <= i < j < |ds| ==> Before(ds[i], ds[j])
  }

  lemma {:induction false} InsertLast(ds: seq<(nat, nat)>, d: (nat, nat))
    requires forall i :: 0 <= i < |ds| ==> Before(ds[i], d)
    ensures SetInsert(ds, d) == ds + [d]
  {
    if ds != [] {
      InsertLast(ds[1..], d);
      assert ds == [ds[0]] + ds[1..];
    }
  }

  /** Inserting keeps the set's order and adds one member. */
  lemma {:induction false} InsertMember(ds: seq<(nat, nat)>, d: (nat, nat))
    requires AscendingPairs(ds)
    ensures AscendingPairs(SetInsert(ds, d))
    ensures forall x :: x in SetInsert(ds, d) <==> x == d || x in ds
  {
    if ds != [] && !Before(d, ds[0]) && d != ds[0] {
      InsertMember(ds[1..], d);
      var r := SetInsert(ds[1..], d);
      forall j | 0 <= j < |r| ensures Before(ds[0], r[j]) {
        assert r[j] in r;
      }
    }
  }

  /** One case of DecodeFrom's switch. */
  function Absorb(e: Fields, i: Item): Fields {
    match i
    case Comparator(name) => e.(comparator := Some(name))
    case LogNumber(n) => e.(logNumber := Some(n))
    case PrevLogNumber(n) => e.(prevLogNumber := Some(n))
    case NextFileNumber(n) => e.(nextFileNumber := Some(n))
    case LastSequence(n) => e.(lastSequence := Some(n))
    case CompactPointer(level, key) => e.(compactPointers := e.compactPointers + [(level, key)])
    case DeletedFile(level, n) => e.(deletedFiles := SetInsert(e.deletedFiles, (level, n)))
    case AddedFile(f) => e.(newFiles := e.newFiles + [f])
  }

  function AbsorbAll(e: Fields, items: seq<Item>): Fields {
    if items == [] then e else Absorb(AbsorbAll(e, items[..|items| - 1]), items[|items| - 1])
  }

  lemma {:induction false} AbsorbConcat(e: Fields, a: seq<Item>, b: seq<Item>)
    ensures AbsorbAll(e, a + b) == AbsorbAll(AbsorbAll(e, a), b)
  {
    if b == [] {
      assert a + b == a;
    } else {
      var n := |b| - 1;
      AbsorbConcat(e, a, b[..n]);
      assert (a + b)[..|a| + n] == a + b[..n];
    }
  }

  lemma {:induction false} AbsorbPointers(e: Fields, ps: seq<(nat, Bytes)>)
    ensures AbsorbAll(e, PointerItems(ps)) == e.(compactPointers := e.compactPointers + ps)
  {
    if ps != [] {
      var n := |ps| - 1;
      AbsorbPointers(e, ps[..n]);
      assert PointerItems(ps)[..n] == PointerItems(ps[..n]);
      assert e.compactPointers + ps == e.compactPointers + ps[..n] + [ps[n]];
    } else {
      assert e.compactPointers + ps == e.compactPointers;
    }
  }

  lemma {:induction false} AbsorbDeleted(e: Fields, ds: seq<(nat, nat)>)
    requires e.deletedFiles == [] && AscendingPairs(ds)
    ensures AbsorbAll(e, DeletedItems(ds)) == e.(deletedFiles := ds)
  {
    if ds != [] {
      var n := |ds| - 1;
      AbsorbDeleted(e, ds[..n]);
      assert DeletedItems(ds)[..n] == DeletedItems(ds[..n]);
      InsertLast(ds[..n], ds[n]);
      assert ds == ds[..n] + [ds[n]];
    }
  }

  lemma {:induction false} AbsorbAdded(e: Fields, fs: seq<NewFile>)
    ensures AbsorbAll(e, AddedItems(fs)) == e.(newFiles := e.newFiles + fs)
  {
    if fs != [] {
      var n := |fs| - 1;
      AbsorbAdded(e, fs[..n]);
      assert AddedItems(fs)[..n] == AddedItems(fs[..n]);
      assert e.newFiles + fs == e.newFiles + fs[..n] + [fs[n]];
    } else {
      assert e.newFiles + fs == e.newFiles;
    }
  }

  /** Clear leaves the compaction pointers. */
  function Cleared(e: Fields): Fields {
    Fields(None, None, None, None, None, e.compactPointers, [], [])
  }

  lemma AbsorbOne(e: Fields, i: Item)
    ensures AbsorbAll(e, [i]) == Absorb(e, i) && AbsorbAll(e, []) == e
  {
    assert [i][..0] == [];
  }

  lemma AbsorbCounters(e: Fields, was: Fields)
    ensures AbsorbAll(Cleared(e), Counters(was))
         == Fields(was.comparator, was.logNumber, was.prevLogNumber, was.nextFileNumber, was.lastSequence,
           e.compactPointers, [], [])
  {
    var a := if was.comparator.Some? then [Comparator(was.comparator.value)] else [];
    var b, c := Counter(was.logNumber, (n: nat) => LogNumber(n)),
      Counter(was.prevLogNumber, (n: nat) => PrevLogNumber(n));
    var d, f := Counter(was.nextFileNumber, (n: nat) => NextFileNumber(n)),
      Counter(was.lastSequence, (n: nat) => LastSequence(n));
    var e0 := Cleared(e);
    if was.comparator.Some? { AbsorbOne(e0, Comparator(was.comparator.value)); }
    var e1 := e0.(comparator := was.comparator);
    assert AbsorbAll(e0, a) == e1;
    AbsorbConcat(e0, a, b);
    AbsorbConcat(e0, a + b, c);
    AbsorbConcat(e0, a + b + c, d);
    AbsorbConcat(e0, a + b + c + d, f);
    if was.logNumber.Some? { AbsorbOne(e1, LogNumber(was.logNumber.value)); }
    var e2 := e1.(logNumber := was.logNumber);
    assert AbsorbAll(e1, b) == e2;
    if was.prevLogNumber.Some? { AbsorbOne(e2, PrevLogNumber(was.prevLogNumber.value)); }
    var e3 := e2.(prevLogNumber := was.prevLogNumber);
    assert AbsorbAll(e2, c) == e3;
    if was.nextFileNumber.Some? { AbsorbOne(e3, NextFileNumber(was.nextFileNumber.value)); }
    var e4 := e3.(nextFileNumber := was.nextFileNumber);
    assert AbsorbAll(e3, d) == e4;
    if was.lastSequence.Some? { AbsorbOne(e4, LastSequence(was.lastSequence.value)); }
  }

  /** The items of an edit make the edit again. */
  lemma ItemsRestore(e: Fields, was: Fields)
    requires AscendingPairs(was.deletedFiles)
    ensures AbsorbAll(Cleared(e), Items(was)) == was.(compactPointers := e.compactPointers + was.compactPointers)
  {
    var e0, a, b := Cleared(e), Counters(was), PointerItems(was.compactPointers);
    var c, d := DeletedItems(was.deletedFiles), AddedItems(was.newFiles);
    AbsorbConcat(e0, a, b);
    AbsorbConcat(e0, a + b, c);
    AbsorbConcat(e0, a + b + c, d);
    AbsorbCounters(e, was);
    var e1 := AbsorbAll(e0, a);
    AbsorbPointers(e1, was.compactPointers);
    var e2 := AbsorbAll(e1, b);
    AbsorbDeleted(e2, was.deletedFiles);
    var e3 := AbsorbAll(e2, c);
    AbsorbAdded(e3, was.newFiles);
  }

  // ---------- writing ----------

  /** dst with x appended, rest to follow. */
  method Put(dst: Bytes, x: Bytes, ghost rest: Bytes) returns (r: Bytes)
    ensures r + rest == dst + (x + rest)
  {
    r := dst + x;
  }

  method PutItem(dst: Bytes, i: Item, ghost rest: Bytes) returns (r: Bytes)
    ensures r + rest == dst + ItemBytes(i, rest)
  {
    r := Put(dst, Varint(TagOf(i)), Payload(i, rest));
    match i
    case Comparator(name) =>
      r := Put(r, Prefixed(name), rest);
    case CompactPointer(level, key) =>
      r := Put(r, Varint(level), Prefixed(key) + rest);
      r := Put(r, Prefixed(key), rest);
    case DeletedFile(level, n) =>
      r := Put(r, Varint(level), Varint(n) + rest);
      r := Put(r, Varint(n), rest);
    case AddedFile(f) =>
      r := PutFile(r, f, rest);
    case _ =>
      r := Put(r, Varint(i.n), rest);
  }

  method PutFile(dst: Bytes, f: NewFile, ghost rest: Bytes) returns (r: Bytes)
    ensures r + rest == dst + Payload(AddedFile(f), rest)
  {
    ghost var r4 := Prefixed(f.largest) + rest;
    ghost var r3 := Prefixed(f.smallest) + r4;
    ghost var r2 := Varint(f.size) + r3;
    ghost var r1 := Varint(f.number) + r2;
    r := Put(dst, Varint(f.level), r1);
    r := Put(r, Varint(f.number), r2);
    r := Put(r, Varint(f.size), r3);
    r := Put(r, Prefixed(f.smallest), r4);
    r := Put(r, Prefixed(f.largest), rest);
  }

  method PutItems(items: seq<Item>) returns (dst: Bytes)
    ensures dst == ItemsBytes(items)
  {
    dst := [];
    for n := 0 to |items|
      invariant dst + ItemsBytes(items[n..]) == ItemsBytes(items)
    {
      assert items[n..][1..] == items[n + 1..];
      dst := PutItem(dst, items[n], ItemsBytes(items[n + 1..]));
    }
    assert dst + [] == dst;
  }

  // ---------- reading ----------

  ghost predicate Readable(i: Item) {
    match i
    case Comparator(name) => |name| < U32
    case CompactPointer(level, key) => level < LEVEL_LIMIT && |key| < U32
    case DeletedFile(level, n) => level < LEVEL_LIMIT && n < U64
    case AddedFile(f) => f.level < LEVEL_LIMIT && f.number < U64 && f.size < U64 && |f.smallest| < U32
      && |f.largest| < U32
    case _ => i.n < U64
  }

  // What the bytes say: the item at the front and what follows it, None if there is none.

  function LevelAt(b: Bytes): Option<(nat, Bytes)> {
    match VarintAt(b, 5, U32)
    case Some(v) => if v.0 < LEVEL_LIMIT then Some(v) else None
    case None => None
  }

  function PointerAt(b: Bytes): Option<(Item, Bytes)> {
    match LevelAt(b)
    case None => None
    case Some(l) =>
      match StringAt(l.1)
      case None => None
      case Some(k) => Some((CompactPointer(l.0, k.0), k.1))
  }

  function DeletedAt(b: Bytes): Option<(Item, Bytes)> {
    match LevelAt(b)
    case None => None
    case Some(l) =>
      match VarintAt(l.1, 10, U64)
      case None => None
      case Some(n) => Some((DeletedFile(l.0, n.0), n.1))
  }

  function FileAt(b: Bytes): Option<(Item, Bytes)> {
    match LevelAt(b)
    case None => None
    case Some(l) =>
      match VarintAt(l.1, 10, U64)
      case None => None
      case Some(n) =>
        match VarintAt(n.1, 10, U64)
        case None => None
        case Some(z) => RangeAt(l.0, n.0, z.0, z.1)
  }

  function RangeAt(level: nat, number: nat, size: nat, b: Bytes): Option<(Item, Bytes)> {
    match StringAt(b)
    case None => None
    case Some(s) =>
      match StringAt(s.1)
      case None => None
      case Some(e) => Some((AddedFile(NewFile(level, number, size, s.0, e.0)), e.1))
  }

  function CounterAt(tag: nat, b: Bytes): Option<(Item, Bytes)> {
    match VarintAt(b, 10, U64)
    case None => None
    case Some(n) =>
      if tag == 2 then Some((LogNumber(n.0), n.1))
      else if tag == 3 then Some((NextFileNumber(n.0), n.1))
      else if tag == 4 then Some((LastSequence(n.0), n.1))
      else if tag == 9 then Some((PrevLogNumber(n.0), n.1))
      else None
  }

  function PayloadAt(tag: nat, b: Bytes): Option<(Item, Bytes)> {
    if tag == 1 then
      match StringAt(b)
      case Some(s) => Some((Comparator(s.0), s.1))
      case None => None
    else if tag == 5 then PointerAt(b)
    else if tag == 6 then DeletedAt(b)
    else if tag == 7 then FileAt(b)
    else CounterAt(tag, b)
  }

  function ItemAt(b: Bytes): Option<(Item, Bytes)> {
    match VarintAt(b, 5, U32)
    case Some(t) => PayloadAt(t.0, t.1)
    case None => None
  }

  lemma VarintShorter(b: Bytes, limit: nat, modulus: nat)
    requires modulus > 0
    ensures VarintAt(b, limit, modulus).Some? ==>
              VarintAt(b, limit, modulus).value.0 < modulus && |VarintAt(b, limit, modulus).value.1| < |b|
  {
  }

  lemma StringShorter(b: Bytes)
    ensures StringAt(b).Some? ==> |StringAt(b).value.0| < U32 && |StringAt(b).value.1| < |b|
  {
    VarintShorter(b, 5, U32);
  }

  lemma LevelShorter(b: Bytes)
    ensures LevelAt(b).Some? ==> LevelAt(b).value.0 < LEVEL_LIMIT && |LevelAt(b).value.1| < |b|
  {
    VarintShorter(b, 5, U32);
  }

  lemma FileValid(b: Bytes)
    ensures FileAt(b).Some? ==>
              |FileAt(b).value.1| < |b| && Readable(FileAt(b).value.0) && TagOf(FileAt(b).value.0) == 7
  {
    if FileAt(b).Some? {
      LevelShorter(b);
      var l := LevelAt(b).value;
      VarintShorter(l.1, 10, U64);
      var n := VarintAt(l.1, 10, U64).value;
      VarintShorter(n.1, 10, U64);
      var z := VarintAt(n.1, 10, U64).value;
      StringShorter(z.1);
      StringShorter(StringAt(z.1).value.1);
    }
  }

  /** An item found is one that can be written, and has the tag that is there. */
  lemma PayloadValid(tag: nat, b: Bytes)
    ensures PayloadAt(tag, b).Some? ==>
              var r := PayloadAt(tag, b).value;
              |r.1| < |b| && Readable(r.0) && TagOf(r.0) == tag
  {
    if tag == 1 {
      StringShorter(b);
    } else if tag == 5 {
      LevelShorter(b);
      if LevelAt(b).Some? { StringShorter(LevelAt(b).value.1); }
    } else if tag == 6 {
      LevelShorter(b);
      if LevelAt(b).Some? { VarintShorter(LevelAt(b).value.1, 10, U64); }
    } else if tag == 7 {
      FileValid(b);
    } else {
      VarintShorter(b, 10, U64);
    }
  }

  lemma ItemValid(b: Bytes)
    ensures ItemAt(b).Some? ==>
              var r := ItemAt(b).value;
              |r.1| < |b| && Readable(r.0) && VarintAt(b, 5, U32).Some? && VarintAt(b, 5, U32).value.0 == TagOf(r.0)
  {
    VarintShorter(b, 5, U32);
    if VarintAt(b, 5, U32).Some? { PayloadValid(VarintAt(b, 5, U32).value.0, VarintAt(b, 5, U32).value.1); }
  }

  /** All of the bytes as items; None if that is not what they are. */
  function ItemsAt(b: Bytes): Option<seq<Item>>
    decreases |b|
  {
    ItemValid(b);
    if b == [] then Some([])
    else
      match ItemAt(b)
      case None => None
      case Some(i) => After([i.0], ItemsAt(i.1))
  }

  /** The items read so far, and then those that follow. */
  function After(items: seq<Item>, more: Option<seq<Item>>): Option<seq<Item>> {
    if more.Some? then Some(items + more.value) else None
  }

  lemma AfterMore(items: seq<Item>, i: Item, more: Option<seq<Item>>)
    ensures After(items, After([i], more)) == After(items + [i], more)
  {
    assert more.Some? ==> items + ([i] + more.value) == items + [i] + more.value;
  }

  lemma ItemBack(i: Item, rest: Bytes)
    requires Readable(i)
    ensures ItemAt(ItemBytes(i, rest)) == Some((i, rest))
  {
    ScaleLimits();
    VarintBack(TagOf(i), Payload(i, rest), 5, U32);
    match i
    case Comparator(name) => StringBack(name, rest);
    case CompactPointer(level, key) =>
      VarintBack(level, Prefixed(key) + rest, 5, U32);
      StringBack(key, rest);
    case DeletedFile(level, n) =>
      VarintBack(level, Varint(n) + rest, 5, U32);
      VarintBack(n, rest, 10, U64);
    case AddedFile(f) => FileBack(f, rest);
    case _ => VarintBack(i.n, rest, 10, U64);
  }

  lemma FileBack(f: NewFile, rest: Bytes)
    requires Readable(AddedFile(f))
    ensures FileAt(Payload(AddedFile(f), rest)) == Some((AddedFile(f), rest))
  {
    ScaleLimits();
    var r3 := Prefixed(f.smallest) + (Prefixed(f.largest) + rest);
    var r2 := Varint(f.size) + r3;
    VarintBack(f.level, Varint(f.number) + r2, 5, U32);
    VarintBack(f.number, r2, 10, U64);
    VarintBack(f.size, r3, 10, U64);
    RangeBack(f, rest);
    assert LevelAt(Varint(f.level) + (Varint(f.number) + r2)) == Some((f.level, Varint(f.number) + r2));
  }

  lemma RangeBack(f: NewFile, rest: Bytes)
    requires |f.smallest| < U32 && |f.largest| < U32
    ensures RangeAt(f.level, f.number, f.size, Prefixed(f.smallest) + (Prefixed(f.largest) + rest))
         == Some((AddedFile(f), rest))
  {
    StringBack(f.smallest, Prefixed(f.largest) + rest);
    StringBack(f.largest, rest);
  }

  /** Items that were written are read. */
  lemma {:induction false} ItemsBack(items: seq<Item>)
    requires forall i :: i in items ==> Readable(i)
    ensures ItemsAt(ItemsBytes(items)) == Some(items)
  {
    if items != [] {
      ItemBack(items[0], ItemsBytes(items[1..]));
      ItemsBack(items[1..]);
      assert items == [items[0]] + items[1..];
    }
  }

  method GetLevel(b: Bytes, p: nat) returns (next: Option<nat>, r: nat)
    requires p <= |b|
    ensures Agrees(b, next, r, LevelAt(b[p..]))
  {
    next, r := GetVarint32(b, p, 0, []);
    if r >= LEVEL_LIMIT {
      next := None;
    }
  }

  /** One item at position p. */
  method ReadItem(b: Bytes, p: nat) returns (next: Option<nat>, r: Item)
    requires p <= |b|
    ensures Agrees(b, next, r, ItemAt(b[p..]))
  {
    r := LogNumber(0);
    var tag, at, n, key;
    next, tag := GetVarint32(b, p, 0, []);
    if next == None {
      return;
    }
    at := next.value;
    match tag {
      case 1 =>
        next, key := GetPrefixed(b, at, [], []);
        r := Comparator(key);
      case 5 =>
        next, r := ReadPointer(b, at);
      case 6 =>
        next, r := ReadDeleted(b, at);
      case 7 =>
        next, r := ReadFile(b, at);
      case _ =>
        if tag != 2 && tag != 3 && tag != 4 && tag != 9 {
          return None, r;
        }
        next, n := GetVarint64(b, at, 0, []);
        r := if tag == 2 then LogNumber(n) else if tag == 3 then NextFileNumber(n) else if tag
          == 4 then LastSequence(n) else PrevLogNumber(n);
    }
  }

  method ReadPointer(b: Bytes, p: nat) returns (next: Option<nat>, r: Item)
    requires p <= |b|
    ensures Agrees(b, next, r, PointerAt(b[p..]))
  {
    r := LogNumber(0);
    var level, key;
    next, level := GetLevel(b, p);
    if next.Some? {
      next, key := GetPrefixed(b, next.value, [], []);
      r := CompactPointer(level, key);
    }
  }

  method ReadDeleted(b: Bytes, p: nat) returns (next: Option<nat>, r: Item)
    requires p <= |b|
    ensures Agrees(b, next, r, DeletedAt(b[p..]))
  {
    r := LogNumber(0);
    var level, n;
    next, level := GetLevel(b, p);
    if next.Some? {
      next, n := GetVarint64(b, next.value, 0, []);
      r := DeletedFile(level, n);
    }
  }

  method ReadFile(b: Bytes, p: nat) returns (next: Option<nat>, r: Item)
    requires p <= |b|
    ensures Agrees(b, next, r, FileAt(b[p..]))
  {
    r := LogNumber(0);
    var level, number, size, smallest, largest;
    next, level := GetLevel(b, p);
    if next == None { return; }
    next, number := GetVarint64(b, next.value, 0, []);
    if next == None { return; }
    next, size := GetVarint64(b, next.value, 0, []);
    if next == None { return; }
    next, smallest := GetPrefixed(b, next.value, [], []);
    if next == None { return; }
    next, largest := GetPrefixed(b, next.value, [], []);
    r := AddedFile(NewFile(level, number, size, smallest, largest));
  }

  /** The items before position p have been read, and make e. */
  ghost predicate Absorbed(b: Bytes, p: nat, items: seq<Item>, start: Fields, e: Fields) {
    p <= |b| && e == AbsorbAll(start, items) && ItemsAt(b) == After(items, ItemsAt(b[p..]))
  }

  lemma AbsorbStart(b: Bytes, start: Fields)
    ensures Absorbed(b, 0, [], start, start)
  {
    assert b[0..] == b;
    assert ItemsAt(b).Some? ==> [] + ItemsAt(b).value == ItemsAt(b).value;
  }

  lemma AbsorbMore(b: Bytes, p: nat, items: seq<Item>, start: Fields, e: Fields, next: Option<nat>, i: Item)
    requires Absorbed(b, p, items, start, e) && p < |b| && Agrees(b, next, i, ItemAt(b[p..]))
    ensures if next.Some? then p < next.value && Absorbed(b, next.value, items + [i], start, Absorb(e, i))
            else ItemsAt(b) == None
  {
    var c := b[p..];
    ItemValid(c);
    ItemsStep(c, ItemAt(c));
    if next.Some? {
      AfterMore(items, i, ItemsAt(b[next.value..]));
      assert (items + [i])[..|items|] == items;
    }
  }

  lemma ItemsStep(b: Bytes, first: Option<(Item, Bytes)>)
    requires b != [] && first == ItemAt(b)
    ensures ItemsAt(b) == if first.Some? then After([first.value.0], ItemsAt(first.value.1)) else None
  {
  }

  lemma AbsorbEnd(b: Bytes, items: seq<Item>, start: Fields, e: Fields)
    requires Absorbed(b, |b|, items, start, e)
    ensures ItemsAt(b) == Some(items) && e == AbsorbAll(start, items)
  {
    assert items + [] == items;
  }

  /** An edit DecodeFrom can read back. */
  ghost predicate Encodable(e: Fields) {
    AscendingPairs(e.deletedFiles) && forall i :: i in Items(e) ==> Readable(i)
  }

  class VersionEdit {
    var fields: Fields

    constructor ()
      ensures fields == Fields(None, None, None, None, None, [], [], [])
    {
      fields := Fields(None, None, None, None, None, [], [], []);
    }

    method EncodeTo() returns (dst: Bytes)
      ensures dst == Encoding(fields)
    {
      dst := PutItems(Items(fields));
    }

    /** Succeeds exactly when the bytes are items and no other bytes, and makes the edit of
        them; so it reads back what EncodeTo wrote.  But it adds to the compaction pointers
        that were already there. */
    method DecodeFrom(src: Bytes, ghost was: Fields) returns (ok: bool)
      modifies this
      ensures ok <==> ItemsAt(src).Some?
      ensures ok ==> fields == AbsorbAll(Cleared(old(fields)), ItemsAt(src).value)
      ensures Encodable(was) && src == Encoding(was) ==>
                ok && fields == was.(compactPointers := old(fields).compactPointers + was.compactPointers)
    {
      ghost var items, start := [], Cleared(fields);
      if Encodable(was) && src == Encoding(was) {
        ItemsBack(Items(was));
        ItemsRestore(fields, was);
      }
      fields := Cleared(fields);
      var p := 0;
      AbsorbStart(src, start);
      while p < |src|
        invariant Absorbed(src, p, items, start, fields)
        decreases |src| - p
      {
        var next, item := ReadItem(src, p);
        AbsorbMore(src, p, items, start, fields, next, item);
        if next == None {
          return false;
        }
        p, fields, items := next.value, Absorb(fields, item), items + [item];
      }
      AbsorbEnd(src, items, start, fields);
      ok := true;
    }
  }
}
