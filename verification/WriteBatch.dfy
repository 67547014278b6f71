/** Write batches (db/write_batch.cc): an eight-byte sequence number, a four-byte
    count, then the updates, each with its length-prefixed strings. */
module WriteBatch {
  import opened Sequences
  import opened Keys
  import opened Coding

  datatype Update = Put(key: Bytes, value: Bytes) | Delete(key: Bytes)

  const HEADER: nat := 12

  /** kTypeDeletion is 0 and kTypeValue is 1. */
  function UpdateBytes(u: Update): (b: Bytes)
    ensures |b| > 0
  {
    match u
    case Put(key, value) => [1] + Prefixed(key) + Prefixed(value)
    case Delete(key) => [0] + Prefixed(key)
  }

  function Body(us: seq<Update>): Bytes {
    if us == [] then [] else UpdateBytes(us[0]) + Body(us[1..])
  }

  ghost predicate Small(u: Update) {
    |u.key| < U32 && (u.Put? ==> |u.value| < U32)
  }

  lemma {:induction false} BodyConcat(a: seq<Update>, b: seq<Update>)
    ensures Body(a + b) == Body(a) + Body(b)
  {
    if a == [] {
      assert a + b == b;
    } else {
      assert (a + b)[1..] == a[1..] + b;
      BodyConcat(a[1..], b);
    }
  }

  lemma BodyOne(us: seq<Update>, u: Update)
    ensures Body(us + [u]) == Body(us) + UpdateBytes(u)
  {
    BodyConcat(us, [u]);
    assert [u][1..] == [] && Body([u]) == UpdateBytes(u) + [];
  }

  /** rep_ of a batch. */
  function Encode(sn: nat, us: seq<Update>): Bytes {
    Fixed(sn, 8) + Fixed(|us|, 4) + Body(us)
  }

  lemma EncodeParts(sn: nat, us: seq<Update>)
    requires |us| < U32 && sn < U64
    ensures var rep := Encode(sn, us);
            |rep| >= HEADER && Unfixed(rep[..8]) == sn && Unfixed(rep[8..12]) == |us| && rep[HEADER..] == Body(us)
  {
    var rep := Encode(sn, us);
    FixedRoundTrip(sn, 8);
    FixedRoundTrip(|us|, 4);
    assert Bound(8) == U64 && Bound(4) == U32;
    assert rep[..8] == Fixed(sn, 8) && rep[8..12] == Fixed(|us|, 4) && rep[HEADER..] == Body(us);
  }

  lemma Recount(rep: Bytes, a: Bytes, b: Bytes, c: Bytes, b': Bytes, d: Bytes, all: Bytes)
    requires rep == a + b + c && |a| == 8 && |b| == 4 && all == c + d
    ensures |rep| >= 12 && rep[..8] + b' + rep[12..] + d == a + b' + all
  {
    assert rep[..8] == a && rep[12..] == c;
    assert a + b' + c + d == a + b' + (c + d);
  }

  lemma Extended(rep: Bytes, sn: nat, us: seq<Update>, more: seq<Update>, n: nat, count: Bytes, body: Bytes)
    requires rep == Encode(sn, us) && n == |us| + |more| && count == Fixed(n, 4) && body == Body(more)
    ensures |rep| >= HEADER && rep[..8] + count + rep[HEADER..] + body == Encode(sn, us + more)
  {
    var a, c, all := Fixed(sn, 8), Body(us), Body(us + more);
    BodyConcat(us, more);
    Recount(rep, a, Fixed(|us|, 4), c, count, body, all);
    EncodeIs(sn, us + more, n, a, count, all);
  }

  lemma EncodeIs(sn: nat, us: seq<Update>, n: nat, a: Bytes, b: Bytes, c: Bytes)
    requires n == |us| && a == Fixed(sn, 8) && b == Fixed(n, 4) && c == Body(us)
    ensures Encode(sn, us) == a + b + c
  {
  }

  lemma Renumber(a: Bytes, b: Bytes, c: Bytes, a': Bytes)
    requires |a| == 8
    ensures |a + b + c| >= 8 && a' + (a + b + c)[8..] == a' + b + c
  {
    assert (a + b + c)[8..] == b + c;
  }

  class WriteBatch {
    var rep: Bytes
    /** The updates put in, and the sequence number set. */
    ghost var updates: seq<Update>
    ghost var sn: nat

    ghost predicate Valid()
      reads this
    {
      rep == Encode(sn, updates) && |updates| < U32 && sn < U64
    }

    constructor ()
      ensures Valid() && updates == [] && sn == 0
    {
      rep, updates, sn := seq(HEADER, _ => 0), [], 0;
      new;
      assert Fixed(0, 8) == seq(8, _ => 0) && Fixed(0, 4) == seq(4, _ => 0);
    }

    method Count() returns (n: nat)
      requires Valid()
      ensures n == |updates|
    {
      EncodeParts(sn, updates);
      n := Unfixed(rep[8..12]);
    }

    /** Set the count, and append to the body. */
    method Extend(n: nat, body: Bytes, ghost more: seq<Update>)
      requires Valid() && body == Body(more) && n == |updates| + |more| < U32
      modifies this
      ensures Valid() && updates == old(updates) + more && sn == old(sn)
    {
      Extended(rep, sn, updates, more, n, Fixed(n, 4), body);
      rep := rep[..8] + Fixed(n, 4) + rep[HEADER..] + body;
      updates := updates + more;
    }

    method Put(key: Bytes, value: Bytes)
      requires Valid() && |updates| + 1 < U32
      modifies this
      ensures Valid() && updates == old(updates) + [Update.Put(key, value)] && sn == old(sn)
    {
      ghost var u := Update.Put(key, value);
      BodyOne([], u);
      assert [] + [u] == [u];
      var n := Count();
      Extend(n + 1, [1] + Prefixed(key) + Prefixed(value), [u]);
    }

    method Delete(key: Bytes)
      requires Valid() && |updates| + 1 < U32
      modifies this
      ensures Valid() && updates == old(updates) + [Update.Delete(key)] && sn == old(sn)
    {
      ghost var u := Update.Delete(key);
      BodyOne([], u);
      assert [] + [u] == [u];
      var n := Count();
      Extend(n + 1, [0] + Prefixed(key), [u]);
    }

    method SetSequence(seqno: nat)
      requires Valid() && seqno < U64
      modifies this
      ensures Valid() && updates == old(updates) && sn == seqno
    {
      Renumber(Fixed(sn, 8), Fixed(|updates|, 4), Body(updates), Fixed(seqno, 8));
      rep := Fixed(seqno, 8) + rep[8..];
      sn := seqno;
    }

    /** WriteBatchInternal::Append. */
    method Append(source: WriteBatch)
      requires Valid() && source.Valid() && source != this && |updates| + |source.updates| < U32
      modifies this
      ensures Valid() && updates == old(updates) + source.updates && sn == old(sn)
    {
      EncodeParts(source.sn, source.updates);
      var n := Count();
      var m := source.Count();
      Extend(n + m, source.rep[HEADER..], source.updates);
    }
  }

  // ---------- numbering ----------

  /** An update under its sequence number. */
  datatype Stamped = Stamped(sn: nat, update: Update)

  /** MemTableInserter: the updates take consecutive sequence numbers. */
  function Stamp(us: seq<Update>, first: nat): (ss: seq<Stamped>)
    ensures |ss| == |us| && forall i :: 0 <= i < |ss| ==> ss[i] == Stamped(first + i, us[i])
  {
    seq(|us|, i requires 0 <= i < |us| => Stamped(first + i, us[i]))
  }

  /** The memtable entry of an update. */
  function EntryOf(s: Stamped): Entry {
    match s.update
    case Put(key, value) => Entry(IKey(Rank(key), s.sn, Value), value)
    case Delete(key) => Entry(IKey(Rank(key), s.sn, Deletion), [])
  }

  function Entries(ss: seq<Stamped>): (es: seq<Entry>)
    ensures |es| == |ss| && forall i :: 0 <= i < |es| ==> es[i] == EntryOf(ss[i])
  {
    seq(|ss|, i requires 0 <= i < |ss| => EntryOf(ss[i]))
  }

  /** The entries a batch inserts, numbered from `first` on. */
  function EntriesOf(first: nat, us: seq<Update>): (es: seq<Entry>)
    ensures |es| == |us| && forall i :: 0 <= i < |es| ==> es[i].k.sn == first + i
  {
    Entries(Stamp(us, first))
  }

  // ---------- reading ----------

  /** The update at the front of these bytes, and what follows it; None if they begin with
      no tag of an update, or end before its strings do. */
  function UpdateAt(b: Bytes): Option<(Update, Bytes)> {
    if b == [] || b[0] > 1 then None
    else
      match StringAt(b[1..])
      case None => None
      case Some(k) =>
        if b[0] == 0 then Some((Update.Delete(k.0), k.1))
        else
          match StringAt(k.1)
          case None => None
          case Some(v) => Some((Update.Put(k.0, v.0), v.1))
  }

  lemma UpdateShorter(b: Bytes)
    ensures UpdateAt(b).Some? ==> |UpdateAt(b).value.1| < |b|
  {
  }

  /** All of the bytes as updates; None if that is not what they are. */
  function UpdatesAt(b: Bytes): Option<seq<Update>>
    decreases |b|
  {
    UpdateShorter(b);
    if b == [] then Some([])
    else
      match UpdateAt(b)
      case None => None
      case Some(u) =>
        match UpdatesAt(u.1)
        case None => None
        case Some(us) => Some([u.0] + us)
  }

  /** The updates up to where the bytes stop being updates. */
  function UpdatesIn(b: Bytes): seq<Update>
    decreases |b|
  {
    UpdateShorter(b);
    if UpdateAt(b) == None then [] else [UpdateAt(b).value.0] + UpdatesIn(UpdateAt(b).value.1)
  }

  lemma {:induction false} AllIn(b: Bytes)
    ensures UpdatesAt(b).Some? ==> UpdatesIn(b) == UpdatesAt(b).value
    decreases |b|
  {
    UpdateShorter(b);
    if UpdateAt(b).Some? {
      AllIn(UpdateAt(b).value.1);
    }
  }

  lemma UpdateBack(u: Update, rest: Bytes)
    requires Small(u)
    ensures UpdateAt(UpdateBytes(u) + rest) == Some((u, rest))
  {
    if u.Put? {
      StringBack(u.key, Prefixed(u.value) + rest);
      StringBack(u.value, rest);
      TagFirst(1, Prefixed(u.key), Prefixed(u.value), rest);
    } else {
      StringBack(u.key, rest);
      TagFirst(0, Prefixed(u.key), [], rest);
      assert UpdateBytes(u) + [] == UpdateBytes(u) && [] + rest == rest;
    }
  }

  lemma TagFirst(tag: byte, a: Bytes, b: Bytes, rest: Bytes)
    ensures var all := [tag] + a + b + rest; all[0] == tag && all[1..] == a + (b + rest)
  {
    Regroup([tag], a, b, rest);
  }

  /** The body of a batch is read as its updates. */
  lemma {:induction false} UpdatesBack(us: seq<Update>)
    requires forall u :: u in us ==> Small(u)
    ensures UpdatesAt(Body(us)) == Some(us)
  {
    if us != [] {
      UpdateBack(us[0], Body(us[1..]));
      UpdatesBack(us[1..]);
      assert us == [us[0]] + us[1..];
    }
  }

  /** Iterate: what the handler is given.  It succeeds exactly when the bytes after the
      header are updates and no other bytes, and the header counts them right; and it gives
      those updates in order.  For a batch they are the ones put in.  If it fails the
      handler has been given the updates before the bytes that are none. */
  method Iterate(rep: Bytes, ghost sn: nat, ghost us: seq<Update>) returns (ok: bool, updates: seq<Update>)
    ensures ok <==> |rep| >= HEADER && UpdatesAt(rep[HEADER..]).Some?
                    && |UpdatesAt(rep[HEADER..]).value| == Unfixed(rep[8..12])
    ensures ok ==> UpdatesAt(rep[HEADER..]) == Some(updates)
    ensures updates == if |rep| >= HEADER then UpdatesIn(rep[HEADER..]) else []
    ensures |us| < U32 && sn < U64 && rep == Encode(sn, us) && (forall u :: u in us ==> Small(u)) ==>
              ok && updates == us
  {
    if |us| < U32 && sn < U64 && forall u :: u in us ==> Small(u) {
      EncodeParts(sn, us);
      UpdatesBack(us);
    }
    updates := [];
    if |rep| < HEADER {
      return false, updates;
    }
    var p := HEADER;
    ReadStart(rep);
    while p < |rep|
      invariant ReadUpTo(rep, p, updates)
      decreases |rep| - p
    {
      var next, u := ReadUpdate(rep, p);
      ReadMore(rep, p, updates, next, u);
      if next == None {
        return false, updates;
      }
      updates, p := updates + [u], next.value;
    }
    ReadEnd(rep, updates);
    ok := |updates| == Unfixed(rep[8..12]);
  }

  /** The updates read so far, and then those that follow. */
  function After(us: seq<Update>, more: Option<seq<Update>>): Option<seq<Update>> {
    if more.Some? then Some(us + more.value) else None
  }

  /** The updates before position p have been read. */
  ghost predicate ReadUpTo(rep: Bytes, p: nat, us: seq<Update>) {
    && HEADER <= p <= |rep| && UpdatesAt(rep[HEADER..]) == After(us, UpdatesAt(rep[p..]))
    && UpdatesIn(rep[HEADER..]) == us + UpdatesIn(rep[p..])
  }

  lemma ReadStart(rep: Bytes)
    requires |rep| >= HEADER
    ensures ReadUpTo(rep, HEADER, [])
  {
    var all := UpdatesAt(rep[HEADER..]);
    assert all.Some? ==> [] + all.value == all.value;
  }

  lemma ReadMore(rep: Bytes, p: nat, us: seq<Update>, next: Option<nat>, u: Update)
    requires ReadUpTo(rep, p, us) && p < |rep| && Agrees(rep, next, u, UpdateAt(rep[p..]))
    ensures if next.Some? then p < next.value && ReadUpTo(rep, next.value, us + [u])
            else UpdatesAt(rep[HEADER..]) == None && UpdatesIn(rep[HEADER..]) == us
  {
    var c := rep[p..];
    UpdateShorter(c);
    FirstUpdate(c, UpdateAt(c));
    if next.Some? {
      var rest := rep[next.value..];
      AfterMore(us, u, UpdatesAt(rest));
      Associate(us, [u], UpdatesIn(rest));
    } else {
      assert us + [] == us;
    }
  }

  lemma FirstUpdate(b: Bytes, first: Option<(Update, Bytes)>)
    requires b != [] && first == UpdateAt(b)
    ensures UpdatesAt(b) == if first.Some? then After([first.value.0], UpdatesAt(first.value.1)) else None
    ensures UpdatesIn(b) == if first.Some? then [first.value.0] + UpdatesIn(first.value.1) else []
  {
  }

  lemma AfterMore(us: seq<Update>, u: Update, more: Option<seq<Update>>)
    ensures After(us, After([u], more)) == After(us + [u], more)
  {
    assert more.Some? ==> us + ([u] + more.value) == us + [u] + more.value;
  }

  lemma ReadEnd(rep: Bytes, us: seq<Update>)
    requires ReadUpTo(rep, |rep|, us)
    ensures UpdatesAt(rep[HEADER..]) == Some(us) && UpdatesIn(rep[HEADER..]) == us
  {
    assert us + [] == us;
  }

  /** One update: its tag, then its strings. */
  method ReadUpdate(rep: Bytes, p: nat) returns (next: Option<nat>, r: Update)
    requires p < |rep|
    ensures Agrees(rep, next, r, UpdateAt(rep[p..]))
  {
    var tag := rep[p];
    assert rep[p..][1..] == rep[p + 1..];
    r := Update.Delete([]);
    if tag != 0 && tag != 1 {
      return None, r;
    }
    var key, value;
    next, key := GetPrefixed(rep, p + 1, [], []);
    if next == None {
      return None, r;
    }
    r := Update.Delete(key);
    if tag == 1 {
      next, value := GetPrefixed(rep, next.value, [], []);
      r := Update.Put(key, value);
    }
  }
}
