/** Key orders on bytes and the keys put between others: the bytewise comparator
    (util/comparator.cc) and the internal-key comparator over it (db/dbformat.cc). */
module Comparator {
  import opened Keys
  import opened Coding

  /** A strict linear order of byte strings. */
  ghost predicate Linear(less: (Bytes, Bytes) -> bool) {
    && (forall a :: !less(a, a))
    && (forall a, b :: a != b ==> less(a, b) || less(b, a))
    && (forall a, b, c :: less(a, b) && less(b, c) ==> less(a, c))
  }

  // ---------- the bytewise order ----------

  lemma {:induction false} BytesTotal(a: Bytes, b: Bytes)
    ensures !BytesLess(a, a)
    ensures a == b || BytesLess(a, b) || BytesLess(b, a)
  {
    if a != [] {
      BytesTotal(a[1..], if b == [] then [] else b[1..]);
      assert a == [a[0]] + a[1..] && (b != [] ==> b == [b[0]] + b[1..]);
    }
  }

  lemma {:induction false} BytesTransitive(a: Bytes, b: Bytes, c: Bytes)
    requires BytesLess(a, b) && BytesLess(b, c)
    ensures BytesLess(a, c)
  {
    if a != [] && a[0] == b[0] == c[0] {
      BytesTransitive(a[1..], b[1..], c[1..]);
    }
  }

  /** The first byte that differs decides. */
  lemma {:induction false} DecidedAt(a: Bytes, b: Bytes, d: nat)
    requires d < |a| && d < |b| && a[..d] == b[..d] && a[d] < b[d]
    ensures BytesLess(a, b)
  {
    if d > 0 {
      assert a[0] == a[..d][0] == b[..d][0] == b[0];
      assert a[1..][..d - 1] == a[..d][1..] == b[..d][1..] == b[1..][..d - 1];
      DecidedAt(a[1..], b[1..], d - 1);
    }
  }

  /** The two keys first differ at i, and leave room for a byte in between. */
  predicate RoomAt(start: Bytes, limit: Bytes, i: nat) {
    i < |start| && i < |limit| && start[..i] == limit[..i] && start[i] as int + 1 < limit[i] as int
  }

  lemma RoomIsFirst(a: Bytes, b: Bytes, d: nat, i: nat)
    requires RoomAt(a, b, i)
    requires d <= |a| && d <= |b| && a[..d] == b[..d] && (d < |a| && d < |b| ==> a[d] != b[d])
    ensures i == d
  {
    SamePrefix(a, b, d);
    SamePrefix(a, b, i);
  }

  lemma SamePrefix(a: Bytes, b: Bytes, n: nat)
    requires n <= |a| && n <= |b| && a[..n] == b[..n]
    ensures forall j :: 0 <= j < n ==> a[j] == b[j]
  {
    forall j | 0 <= j < n ensures a[j] == b[j] {
      assert a[..n][j] == b[..n][j];
    }
  }

  /** BytewiseComparatorImpl::FindShortestSeparator: start itself, or a key no longer
      than it, after it and before the limit; start itself only without room. */
  method FindShortestSeparator(start: Bytes, limit: Bytes) returns (r: Bytes)
    ensures r == start || (|r| <= |start| && BytesLess(start, r) && BytesLess(r, limit))
    ensures forall i: nat :: RoomAt(start, limit, i) ==> |r| == i + 1 && BytesLess(start, r)
    ensures (forall i: nat :: !RoomAt(start, limit, i)) ==> r == start
  {
    r := start;
    var minLength := if |start| < |limit| then |start| else |limit|;
    var diff := 0;
    while diff < minLength && start[diff] == limit[diff]
      invariant diff <= minLength && start[..diff] == limit[..diff]
    {
      diff := diff + 1;
    }
    forall i: nat | RoomAt(start, limit, i) ensures i == diff {
      RoomIsFirst(start, limit, diff, i);
    }
    if diff < minLength {
      var b := start[diff];
      if b < 0xff && b + 1 < limit[diff] {
        assert RoomAt(start, limit, diff);
        r := start[..diff] + [b + 1];
        DecidedAt(start, r, diff);
        DecidedAt(r, limit, diff);
      }
    }
  }

  /** BytewiseComparatorImpl::FindShortSuccessor: a key after it and no longer, cut
      after the first byte that can go up; the key itself if none can. */
  method FindShortSuccessor(key: Bytes) returns (r: Bytes)
    ensures r == key || (|r| <= |key| && BytesLess(key, r))
    ensures r == key <==> forall i :: 0 <= i < |key| ==> key[i] == 0xff
    ensures r != key ==> forall i :: 0 <= i < |r| - 1 ==> key[i] == 0xff
  {
    var i := 0;
    while i < |key|
      invariant i <= |key| && forall j :: 0 <= j < i ==> key[j] == 0xff
    {
      if key[i] != 0xff {
        r := key[..i] + [key[i] + 1];
        DecidedAt(key, r, i);
        return;
      }
      i := i + 1;
    }
    r := key;
  }

  // ---------- internal keys ----------

  /** The user key, then sequence number and type in eight bytes. */
  predicate IsInternal(k: Bytes) {
    |k| >= 8
  }

  function UserKeyOf(k: Bytes): Bytes
    requires IsInternal(k)
  {
    k[..|k| - 8]
  }

  function TagOf(k: Bytes): nat
    requires IsInternal(k)
  {
    Unfixed(k[|k| - 8..])
  }

  function InternalKeyOf(user: Bytes, tag: nat): (k: Bytes)
    ensures IsInternal(k)
  {
    user + Fixed(tag, 8)
  }

  const TAG_BOUND: nat := 0x1_0000_0000_0000_0000

  lemma InternalKeyParts(user: Bytes, tag: nat)
    requires tag < TAG_BOUND
    ensures UserKeyOf(InternalKeyOf(user, tag)) == user && TagOf(InternalKeyOf(user, tag)) == tag
  {
    FixedRoundTrip(tag, 8);
    assert Bound(8) == TAG_BOUND;
    var k := InternalKeyOf(user, tag);
    assert k[|k| - 8..] == Fixed(tag, 8);
  }

  /** InternalKeyComparator::Compare.  Strings too short for an internal key do not
      occur; here they come first, so that the order is one of all strings. */
  predicate InternalLess(a: Bytes, b: Bytes) {
    if !IsInternal(a) then IsInternal(b) || BytesLess(a, b)
    else
      && IsInternal(b)
      && (BytesLess(UserKeyOf(a), UserKeyOf(b)) || (UserKeyOf(a) == UserKeyOf(b) && TagOf(a) > TagOf(b)))
  }

  lemma {:induction false} UnfixedInjective(a: Bytes, b: Bytes)
    requires |a| == |b| && Unfixed(a) == Unfixed(b)
    ensures a == b
  {
    if a != [] {
      UnfixedInjective(a[1..], b[1..]);
      assert a == [a[0]] + a[1..] && b == [b[0]] + b[1..];
    }
  }

  lemma InternalTotal(a: Bytes, b: Bytes)
    ensures !InternalLess(a, a)
    ensures a == b || InternalLess(a, b) || InternalLess(b, a)
  {
    if IsInternal(a) && IsInternal(b) {
      BytesTotal(UserKeyOf(a), UserKeyOf(b));
      if UserKeyOf(a) == UserKeyOf(b) && TagOf(a) == TagOf(b) {
        UnfixedInjective(a[|a| - 8..], b[|b| - 8..]);
        assert a == UserKeyOf(a) + a[|a| - 8..] && b == UserKeyOf(b) + b[|b| - 8..];
      }
      BytesTotal(UserKeyOf(a), UserKeyOf(a));
    } else {
      BytesTotal(a, b);
      if IsInternal(a) {
        BytesTotal(UserKeyOf(a), UserKeyOf(a));
      }
    }
  }

  lemma InternalTransitive(a: Bytes, b: Bytes, c: Bytes)
    requires InternalLess(a, b) && InternalLess(b, c)
    ensures InternalLess(a, c)
  {
    if IsInternal(a) {
      if BytesLess(UserKeyOf(a), UserKeyOf(b)) && BytesLess(UserKeyOf(b), UserKeyOf(c)) {
        BytesTransitive(UserKeyOf(a), UserKeyOf(b), UserKeyOf(c));
      }
    } else if !IsInternal(b) && !IsInternal(c) {
      BytesTransitive(a, b, c);
    }
  }

  lemma InternalLinear()
    ensures Linear(InternalLess)
  {
    forall a, b ensures !InternalLess(a, a) && (a != b ==> InternalLess(a, b) || InternalLess(b, a)) {
      InternalTotal(a, b);
    }
    forall a, b, c | InternalLess(a, b) && InternalLess(b, c) ensures InternalLess(a, c) {
      InternalTransitive(a, b, c);
    }
  }

  /** PackSequenceAndType(kMaxSequenceNumber, kValueTypeForSeek): the earliest tag. */
  const SEEK_TAG: nat := MAX_SEQ * 256 + 1

  /** InternalKeyComparator::FindShortestSeparator: not before start, and before
      the limit if start is. */
  method InternalSeparator(start: Bytes, limit: Bytes) returns (r: Bytes)
    requires IsInternal(start) && IsInternal(limit)
    ensures IsInternal(r) && !InternalLess(r, start)
    ensures InternalLess(start, limit) ==> InternalLess(r, limit)
    ensures r == start || (BytesLess(UserKeyOf(start), UserKeyOf(r)) && BytesLess(UserKeyOf(r), UserKeyOf(limit))
              && |r| < |start|)
    ensures forall i: nat :: RoomAt(UserKeyOf(start), UserKeyOf(limit), i) && i + 9 < |start| ==> |r| == i + 9
    ensures (forall i: nat :: !RoomAt(UserKeyOf(start), UserKeyOf(limit), i)) ==> r == start
  {
    var tmp := FindShortestSeparator(UserKeyOf(start), UserKeyOf(limit));
    InternalTotal(start, start);
    r := start;
    if |tmp| < |UserKeyOf(start)| && BytesLess(UserKeyOf(start), tmp) {
      r := InternalKeyOf(tmp, SEEK_TAG);
      InternalKeyParts(tmp, SEEK_TAG);
      After(UserKeyOf(start), tmp);
    }
  }

  lemma After(a: Bytes, b: Bytes)
    requires BytesLess(a, b)
    ensures !BytesLess(b, a) && a != b
  {
    BytesTotal(a, a);
    if BytesLess(b, a) {
      BytesTransitive(a, b, a);
    }
  }

  /** InternalKeyComparator::FindShortSuccessor. */
  method InternalSuccessor(key: Bytes) returns (r: Bytes)
    requires IsInternal(key)
    ensures IsInternal(r) && !InternalLess(r, key)
  {
    var tmp := FindShortSuccessor(UserKeyOf(key));
    InternalTotal(key, key);
    r := key;
    if |tmp| < |UserKeyOf(key)| && BytesLess(UserKeyOf(key), tmp) {
      r := InternalKeyOf(tmp, SEEK_TAG);
      InternalKeyParts(tmp, SEEK_TAG);
      After(UserKeyOf(key), tmp);
    }
  }
}
