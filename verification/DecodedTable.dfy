/** A table of encoded internal keys, and the entries of the store that it holds: the
    lookup in the bytes is the lookup among the entries (SaveValue, LookupKey). */
module DecodedTable {
  import opened Keys
  import opened Reads
  import opened Cursors
  import opened Get
  import opened Coding
  import opened Comparator
  import opened BlockFormat
  import opened Table
  import opened TableReader
  import Bloom
  import opened LogFile

  /** The internal key in these bytes: sequence number and type share the tag. */
  function DecodeKey(k: Bytes): IKey
    requires IsInternal(k)
  {
    IKey(Rank(UserKeyOf(k)), TagOf(k) / 256, if TagOf(k) % 256 == 1 then Value else Deletion)
  }

  /** ParseInternalKey accepts the key: its type is a deletion or a value. */
  predicate Parses(k: Bytes) {
    IsInternal(k) && TagOf(k) % 256 <= 1
  }

  function DecodeAll(es: seq<Pair>): (r: seq<Entry>)
    requires forall i :: 0 <= i < |es| ==> IsInternal(es[i].key)
    ensures |r| == |es| && forall i :: 0 <= i < |es| ==> r[i] == Entry(DecodeKey(es[i].key), es[i].value)
  {
    seq(|es|, i requires 0 <= i < |es| => Entry(DecodeKey(es[i].key), es[i].value))
  }

  ghost predicate AllParse(es: seq<Pair>) {
    forall i :: 0 <= i < |es| ==> Parses(es[i].key)
  }

  lemma TagsAgree(k: Bytes)
    requires Parses(k)
    ensures Tag(DecodeKey(k)) == TagOf(k)
  {
    var t := TagOf(k);
    assert t == 256 * (t / 256) + t % 256;
  }

  /** The two internal key orders are one. */
  lemma OrdersAgree(a: Bytes, b: Bytes)
    requires Parses(a) && Parses(b)
    ensures InternalLess(a, b) <==> Less(DecodeKey(a), DecodeKey(b))
  {
    RankOrder(UserKeyOf(a), UserKeyOf(b));
    TagsAgree(a);
    TagsAgree(b);
  }

  lemma DecodedSorted(es: seq<Pair>)
    requires Rising(es) && AllParse(es)
    ensures SortedEntries(DecodeAll(es))
  {
    var r := DecodeAll(es);
    forall i, j | 0 <= i < j < |r| ensures Less(r[i].k, r[j].k) {
      OrdersAgree(es[i].key, es[j].key);
    }
  }

  /** LookupKey: the user key with the sequence number and the type to seek from. */
  function LookupKey(u: Bytes, s: nat): (k: Bytes)
    ensures IsInternal(k)
  {
    InternalKeyOf(u, s * 256 + 1)
  }

  lemma LookupDecodes(u: Bytes, s: nat)
    requires s <= MAX_SEQ
    ensures Parses(LookupKey(u, s)) && DecodeKey(LookupKey(u, s)) == SeekKey(Rank(u), s)
    ensures UserKeyOf(LookupKey(u, s)) == u
  {
    var t := s * 256 + 1;
    InternalKeyParts(u, t);
    assert t / 256 == s && t % 256 == 1;
  }

  /** One entry at most answers a lookup key. */
  lemma AnswersOnce(es: seq<Pair>, k: Bytes, d: Pair, e: Pair)
    requires IsInternal(k) && Rising(es) && Answers(es, k, d) && Answers(es, k, e)
    ensures d == e
  {
    var i :| 0 <= i < |es| && es[i] == d;
    var j :| 0 <= j < |es| && es[j] == e;
    SameKeySameLess(d.key, e.key);
  }

  lemma SameKeySameLess(a: Bytes, b: Bytes)
    requires IsInternal(a) && IsInternal(b) && UserKeyOf(a) == UserKeyOf(b) && TagOf(a) == TagOf(b)
    ensures !InternalLess(a, b) && !InternalLess(b, a)
  {
    BytesTotal(UserKeyOf(a), UserKeyOf(a));
  }

  /** What answers in the bytes is where the lookup among the entries stops. */
  lemma AnswerIsGet(es: seq<Pair>, u: Bytes, s: nat, r: Option<Pair>)
    requires Rising(es) && AllParse(es) && s <= MAX_SEQ
    requires if r.Some? then Answers(es, LookupKey(u, s), r.value) else forall e :: e in es ==>
               !Answers(es, LookupKey(u, s), e)
    ensures GetFrom(DecodeAll(es), Rank(u), s) == OutcomeOfPair(r)
  {
    var k, all := LookupKey(u, s), DecodeAll(es);
    LookupDecodes(u, s);
    DecodedSorted(es);
    var p := SeekIndex(all, SeekKey(Rank(u), s));
    forall i | 0 <= i < |es| ensures InternalLess(es[i].key, k) <==> Less(all[i].k, SeekKey(Rank(u), s)) {
      OrdersAgree(es[i].key, k);
    }
    FirstAnswers(es, k, p);
    if p < |es| {
      RankOrder(UserKeyOf(es[p].key), u);
      if UserKeyOf(es[p].key) == u && r.Some? {
        AnswersOnce(es, k, es[p], r.value);
      }
    }
  }

  /** SaveValue: the type of the entry found says whether there is a value. */
  function OutcomeOfPair(r: Option<Pair>): Outcome {
    if r == None || !IsInternal(r.value.key) then NotFound
    else if TagOf(r.value.key) % 256 == 1 then Found(r.value.value) else Deleted
  }

  /** TableCache::Get on a table that holds encoded entries: the lookup in its bytes
      answers as the lookup among those entries does. */
  method TableGet(sum: Bytes -> word, hashOf: Bytes -> Bloom.hash, t: TableFile, verify: bool, u: Bytes, s: nat,
                  ghost c: Contents)
    returns (r: Outcome)
    requires s <= MAX_SEQ
    ensures Written(sum, hashOf, t, c) && AllParse(Join(c.parts)) ==> r == GetFrom(DecodeAll(Join(c.parts)), Rank(u), s)
  {
    var found := InternalGet(sum, hashOf, t, verify, LookupKey(u, s), c);
    r := OutcomeOfPair(found);
    if Written(sum, hashOf, t, c) && AllParse(Join(c.parts)) {
      AnswerIsGet(Join(c.parts), u, s, found);
    }
  }
}
