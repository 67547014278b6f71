/** Sorted tables as lists of blocks: what a reader may rely on, and what that says
    about a lookup (table/table.cc, db/version_set.cc). */
module Table {
  import opened Keys
  import opened Coding
  import opened Comparator
  import opened BlockFormat

  function Join(parts: seq<seq<Pair>>): seq<Pair> {
    if parts == [] then [] else Join(parts[..|parts| - 1]) + parts[|parts| - 1]
  }

  ghost predicate Rising(es: seq<Pair>) {
    && (forall i :: 0 <= i < |es| ==> IsInternal(es[i].key))
    && forall i, j :: 0 <= i < j < |es| ==> InternalLess(es[i].key, es[j].key)
  }

  lemma {:induction false} JoinPrefix(parts: seq<seq<Pair>>, i: nat)
    requires i <= |parts|
    ensures Join(parts[..i]) <= Join(parts)
    decreases |parts|
  {
    if i < |parts| {
      JoinPrefix(parts[..|parts| - 1], i);
      assert parts[..|parts| - 1][..i] == parts[..i];
    } else {
      assert parts[..i] == parts;
    }
  }

  /** Entry p of part i has its place in the whole. */
  lemma JoinAt(parts: seq<seq<Pair>>, i: nat, p: nat)
    requires i < |parts| && p < |parts[i]|
    ensures |Join(parts[..i])| + p < |Join(parts)| && Join(parts)[|Join(parts[..i])| + p] == parts[i][p]
  {
    JoinPrefix(parts, i + 1);
    assert parts[..i + 1][..i] == parts[..i];
  }

  // ---------- separators ----------

  /** An index key for a block whose last key is `last`: not before it, before every
      later key, and, unless it is that key itself, with a user key of its own. */
  ghost predicate Separates(sep: Bytes, last: Bytes, later: Bytes)
    requires IsInternal(last) && IsInternal(later)
  {
    && IsInternal(sep) && !InternalLess(sep, last) && InternalLess(sep, later)
    && (sep == last || BytesLess(UserKeyOf(sep), UserKeyOf(later)))
  }

  /** Index keys for all parts: each separates its part from all later ones. */
  ghost predicate Indexed(index: seq<Bytes>, parts: seq<seq<Pair>>) {
    && |index| == |parts| && Rising(Join(parts))
    && (forall i {:trigger KeyOk(index[i], parts[i])} :: 0 <= i < |parts| ==> KeyOk(index[i], parts[i]))
    && (forall i, j {:trigger KeyBefore(index[i], parts[i], parts[j])} :: 0 <= i < j < |parts| ==>
      KeyBefore(index[i], parts[i], parts[j]))
  }

  ghost predicate KeyOk(sep: Bytes, part: seq<Pair>) {
    part != [] && IsInternal(sep) && !InternalLess(sep, part[|part| - 1].key)
  }

  ghost predicate KeyBefore(sep: Bytes, part: seq<Pair>, later: seq<Pair>) {
    part != [] && forall e :: e in later ==>
      IsInternal(e.key) && IsInternal(part[|part| - 1].key) && Separates(sep, part[|part| - 1].key, e.key)
  }

  // ---------- lookups ----------

  /** The place of the first key not below the target: a Seek. */
  ghost predicate SeeksTo(keys: seq<Bytes>, target: Bytes, p: nat) {
    && p <= |keys| && (forall k :: 0 <= k < p ==> InternalLess(keys[k], target))
    && (p < |keys| ==> !InternalLess(keys[p], target))
  }

  function KeysOf(es: seq<Pair>): (ks: seq<Bytes>)
    ensures |ks| == |es| && forall i :: 0 <= i < |es| ==> ks[i] == es[i].key
  {
    seq(|es|, i requires 0 <= i < |es| => es[i].key)
  }

  /** e answers the lookup key k: it has k's user key, a tag no later than k's, and
      of all such entries the latest tag. */
  ghost predicate Answers(es: seq<Pair>, k: Bytes, e: Pair)
    requires IsInternal(k) && Rising(es)
  {
    && e in es && UserKeyOf(e.key) == UserKeyOf(k) && TagOf(e.key) <= TagOf(k)
    && forall d :: d in es && UserKeyOf(d.key) == UserKeyOf(k) && TagOf(d.key) <= TagOf(k) ==>
      TagOf(d.key) <= TagOf(e.key)
  }

  /** An entry of the lookup's user key is not below the lookup key exactly when its
      tag is no later. */
  lemma NotBelow(key: Bytes, k: Bytes)
    requires IsInternal(key) && IsInternal(k) && UserKeyOf(key) == UserKeyOf(k)
    ensures !InternalLess(key, k) <==> TagOf(key) <= TagOf(k)
  {
    BytesTotal(UserKeyOf(k), UserKeyOf(k));
  }

  /** The first entry not below the lookup key answers it if it has its user key;
      otherwise nothing does. */
  lemma FirstAnswers(es: seq<Pair>, k: Bytes, p: nat)
    requires IsInternal(k) && Rising(es) && SeeksTo(KeysOf(es), k, p)
    ensures p < |es| && UserKeyOf(es[p].key) == UserKeyOf(k) ==> Answers(es, k, es[p])
    ensures !(p < |es| && UserKeyOf(es[p].key) == UserKeyOf(k)) ==> forall e :: e in es ==> !Answers(es, k, e)
  {
    forall d | d in es && UserKeyOf(d.key) == UserKeyOf(k) && TagOf(d.key) <= TagOf(k)
      ensures p < |es| && UserKeyOf(es[p].key) == UserKeyOf(k) && TagOf(d.key) <= TagOf(es[p].key)
    {
      var i :| 0 <= i < |es| && es[i] == d;
      NotBelow(d.key, k);
      assert KeysOf(es)[i] == d.key;
      assert p <= i;
      Between(es, k, p, i);
    }
    if p < |es| && UserKeyOf(es[p].key) == UserKeyOf(k) {
      NotBelow(es[p].key, k);
    }
  }

  /** Between the lookup key and an entry of its user key there is only that user key. */
  lemma Between(es: seq<Pair>, k: Bytes, p: nat, i: nat)
    requires IsInternal(k) && Rising(es) && p <= i < |es| && !InternalLess(es[p].key, k)
    requires UserKeyOf(es[i].key) == UserKeyOf(k)
    ensures UserKeyOf(es[p].key) == UserKeyOf(k) && TagOf(es[i].key) <= TagOf(es[p].key)
  {
    var a, b := UserKeyOf(es[p].key), UserKeyOf(k);
    BytesTotal(a, b);
    if p < i {
      assert InternalLess(es[p].key, es[i].key);
      if BytesLess(b, a) && BytesLess(a, b) {
        After(a, b);
      }
    }
  }

  // ---------- exact lookup through an index ----------

  /** Everything up to part i is below a target that the part's last key is below. */
  lemma PartsBelow(index: seq<Bytes>, parts: seq<seq<Pair>>, k: Bytes, i: nat, e: Pair)
    requires Indexed(index, parts) && SeeksTo(index, k, i) && i <= |parts| && IsInternal(k)
    requires exists j :: 0 <= j < i && e in parts[j]
    ensures InternalLess(e.key, k)
  {
    var j :| 0 <= j < i && e in parts[j];
    var last := parts[j][|parts[j]| - 1].key;
    LastIsLast(parts, j, e);
    assert KeyOk(index[j], parts[j]);
    InternalChain(last, index[j], k);
    InternalChain(e.key, last, k);
  }

  lemma LastIsLast(parts: seq<seq<Pair>>, j: nat, e: Pair)
    requires Rising(Join(parts)) && j < |parts| && e in parts[j]
    ensures parts[j] != [] && !InternalLess(parts[j][|parts[j]| - 1].key, e.key)
  {
    var p :| 0 <= p < |parts[j]| && parts[j][p] == e;
    var q := |parts[j]| - 1;
    JoinAt(parts, j, p);
    JoinAt(parts, j, q);
    if p < q {
      InternalBefore(e.key, parts[j][q].key);
    } else {
      InternalTotal(e.key, e.key);
    }
  }

  lemma InternalBefore(a: Bytes, b: Bytes)
    requires InternalLess(a, b)
    ensures !InternalLess(b, a)
  {
    InternalTotal(a, a);
    if InternalLess(b, a) {
      InternalTransitive(a, b, a);
    }
  }

  /** Not after b, which is before c. */
  lemma InternalChain(a: Bytes, b: Bytes, c: Bytes)
    requires !InternalLess(b, a) && InternalLess(b, c)
    ensures InternalLess(a, c)
  {
    InternalTotal(a, b);
    if a != b {
      InternalTransitive(a, b, c);
    }
  }

  lemma {:induction false} HomeOf(parts: seq<seq<Pair>>, e: Pair) returns (j: nat)
    requires e in Join(parts)
    ensures j < |parts| && e in parts[j]
  {
    var n := |parts| - 1;
    if e in parts[n] {
      j := n;
    } else {
      j := HomeOf(parts[..n], e);
    }
  }

  /** Past the last index key there is nothing for the lookup. */
  lemma PastIndex(index: seq<Bytes>, parts: seq<seq<Pair>>, k: Bytes, e: Pair)
    requires Indexed(index, parts) && SeeksTo(index, k, |parts|) && IsInternal(k) && e in Join(parts)
    ensures InternalLess(e.key, k)
  {
    var j := HomeOf(parts, e);
    PartsBelow(index, parts, k, |parts|, e);
  }

  /** When the block the index names has nothing left, neither has the table: what
      follows the index key has another user key. */
  lemma PastBlock(index: seq<Bytes>, parts: seq<seq<Pair>>, k: Bytes, i: nat, e: Pair)
    requires Indexed(index, parts) && i < |parts| && SeeksTo(index, k, i) && IsInternal(k)
    requires SeeksTo(KeysOf(parts[i]), k, |parts[i]|) && e in Join(parts)
    ensures InternalLess(e.key, k) || UserKeyOf(e.key) != UserKeyOf(k)
  {
    var j := HomeOf(parts, e);
    if j < i {
      PartsBelow(index, parts, k, i, e);
    } else if j == i {
      var p :| 0 <= p < |parts[i]| && parts[i][p] == e;
      assert KeysOf(parts[i])[p] == e.key;
    } else {
      BehindSeparator(index[i], parts[i], parts[j], k, e);
    }
  }

  lemma BehindSeparator(sep: Bytes, part: seq<Pair>, later: seq<Pair>, k: Bytes, e: Pair)
    requires KeyBefore(sep, part, later) && e in later && IsInternal(k) && !InternalLess(sep, k)
    requires SeeksTo(KeysOf(part), k, |part|)
    ensures UserKeyOf(e.key) != UserKeyOf(k)
  {
    var last := part[|part| - 1].key;
    assert KeysOf(part)[|part| - 1] == last && InternalLess(last, k);
    assert Separates(sep, last, e.key) && sep != last;
  }

  /** What is below the lookup key does not answer it. */
  lemma BelowNoAnswer(es: seq<Pair>, k: Bytes)
    requires IsInternal(k) && Rising(es)
    requires forall e :: e in es ==> InternalLess(e.key, k) || UserKeyOf(e.key) != UserKeyOf(k)
    ensures forall e :: e in es ==> !Answers(es, k, e)
  {
    forall e | e in es && UserKeyOf(e.key) == UserKeyOf(k) ensures TagOf(e.key) > TagOf(k) {
      NotBelow(e.key, k);
    }
  }

  lemma EarlierBelow(index: seq<Bytes>, parts: seq<seq<Pair>>, k: Bytes, i: nat, m: nat)
    requires Indexed(index, parts) && i <= |parts| && SeeksTo(index, k, i) && IsInternal(k)
    requires m < |Join(parts[..i])|
    ensures m < |Join(parts)| && InternalLess(Join(parts)[m].key, k)
  {
    JoinPrefix(parts, i);
    var e := Join(parts[..i])[m];
    var j := HomeOf(parts[..i], e);
    PartsBelow(index, parts, k, i, e);
  }

  /** The entry found in the block is the first of the whole table not below k. */
  lemma FoundInBlock(index: seq<Bytes>, parts: seq<seq<Pair>>, k: Bytes, i: nat, p: nat)
    requires Indexed(index, parts) && i < |parts| && SeeksTo(index, k, i) && IsInternal(k)
    requires SeeksTo(KeysOf(parts[i]), k, p) && p < |parts[i]|
    ensures |Join(parts[..i])| + p < |Join(parts)| && Join(parts)[|Join(parts[..i])| + p] == parts[i][p]
    ensures SeeksTo(KeysOf(Join(parts)), k, |Join(parts[..i])| + p)
  {
    var n := |Join(parts[..i])|;
    JoinAt(parts, i, p);
    forall m | 0 <= m < n + p ensures InternalLess(KeysOf(Join(parts))[m], k) {
      if m < n {
        EarlierBelow(index, parts, k, i, m);
      } else {
        SameBlockBelow(parts, k, i, p, m - n);
      }
    }
  }

  lemma SameBlockBelow(parts: seq<seq<Pair>>, k: Bytes, i: nat, p: nat, q: nat)
    requires i < |parts| && SeeksTo(KeysOf(parts[i]), k, p) && q < p
    ensures |Join(parts[..i])| + q < |Join(parts)| && InternalLess(Join(parts)[|Join(parts[..i])| + q].key, k)
  {
    JoinAt(parts, i, q);
    assert KeysOf(parts[i])[q] == parts[i][q].key;
  }
}
