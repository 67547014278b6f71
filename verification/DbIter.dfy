/** DBIter: the user's view of the internal entries at one sequence number
    (db_iter.cc).  The view is a sorted list of rows, and the iterator is proved
    to be a cursor over it whichever way it turns. */
module DbIter {
  import opened Keys
  import opened Reads
  import opened Cursors
  import opened Merger

  // ---------- the view ----------

  datatype Row = Row(user: UserKey, value: Bytes)

  /** Entry i shows: it is a value, visible, and no newer visible entry of its
      user key comes before it. */
  ghost predicate Shows(es: seq<Entry>, q: nat, i: nat) {
    && i < |es| && es[i].k.kind == Value && es[i].k.sn <= q
    && forall j :: 0 <= j < i && es[j].k.user == es[i].k.user ==> es[j].k.sn > q
  }

  /** The rows of the first n entries. */
  ghost function Rows(es: seq<Entry>, q: nat, n: nat): seq<Row>
    requires n <= |es|
  {
    if n == 0 then []
    else
      Rows(es, q, n - 1) + if Shows(es, q, n - 1) then [Row(es[n - 1].k.user, es[n - 1].value)] else []
  }

  ghost function View(es: seq<Entry>, q: nat): seq<Row> {
    Rows(es, q, |es|)
  }

  lemma UsersRise(es: seq<Entry>, i: nat, j: nat)
    requires SortedEntries(es) && i <= j < |es|
    ensures es[i].k.user <= es[j].k.user
    ensures i < j && es[i].k.user == es[j].k.user ==> es[i].k.sn >= es[j].k.sn
  {
  }

  /** Each row comes from an entry that shows, in order, without repeats. */
  lemma {:induction false} RowsExact(es: seq<Entry>, q: nat, n: nat)
    requires SortedEntries(es) && n <= |es|
    ensures forall r :: r in Rows(es, q, n)
              <==> exists i :: 0 <= i < n && Shows(es, q, i) && r == Row(es[i].k.user, es[i].value)
    ensures forall a, b :: 0 <= a < b < |Rows(es, q, n)| ==> Rows(es, q, n)[a].user < Rows(es, q, n)[b].user
  {
    if n > 0 {
      RowsExact(es, q, n - 1);
      var m := n - 1;
      if Shows(es, q, m) {
        forall r | r in Rows(es, q, m) ensures r.user < es[m].k.user {
          var i :| 0 <= i < m && Shows(es, q, i) && r == Row(es[i].k.user, es[i].value);
          UsersRise(es, i, m);
        }
      }
    }
  }

  lemma NewestShows(es: seq<Entry>, q: nat, i: nat)
    requires SortedEntries(es) && Distinct(EntrySet(es)) && i < |es| && es[i].k.kind == Value
    requires IsNewest(EntrySet(es), es[i].k.user, q, es[i])
    ensures Shows(es, q, i)
  {
    forall j | 0 <= j < i && es[j].k.user == es[i].k.user ensures es[j].k.sn > q {
      assert es[j] in EntrySet(es) && Less(es[j].k, es[i].k);
    }
  }

  /** The view holds exactly the keys a Get at the same sequence finds, with the
      values it finds, in strictly rising key order. */
  lemma ViewIsLookup(es: seq<Entry>, q: nat, u: UserKey, v: Bytes)
    requires SortedEntries(es) && Distinct(EntrySet(es))
    ensures Row(u, v) in View(es, q) <==> Lookup(EntrySet(es), u, q) == Some(v)
    ensures forall a, b :: 0 <= a < b < |View(es, q)| ==> View(es, q)[a].user < View(es, q)[b].user
  {
    RowsExact(es, q, |es|);
    var S := EntrySet(es);
    if Row(u, v) in View(es, q) {
      var i :| 0 <= i < |es| && Shows(es, q, i) && Row(u, v) == Row(es[i].k.user, es[i].value);
      forall d | d in S && Sees(d, u, q) ensures d.k.sn <= es[i].k.sn {
        var j :| 0 <= j < |es| && es[j] == d;
        if i < j { UsersRise(es, i, j); }
      }
      assert IsNewest(S, u, q, es[i]);
      LookupIs(S, u, q, es[i]);
    }
    if Lookup(S, u, q) == Some(v) {
      var e :| IsNewest(S, u, q, e) && Answer(e) == Some(v);
      var i :| 0 <= i < |es| && es[i] == e;
      NewestShows(es, q, i);
    }
  }

  /** Entries that do not show add no rows. */
  lemma {:induction false} NoRows(es: seq<Entry>, q: nat, a: nat, b: nat)
    requires a <= b <= |es| && forall k :: a <= k < b ==> !Shows(es, q, k)
    ensures Rows(es, q, a) == Rows(es, q, b)
    decreases b
  {
    if a < b {
      NoRows(es, q, a, b - 1);
    }
  }

  lemma {:induction false} RowsPrefix(es: seq<Entry>, q: nat, a: nat, b: nat)
    requires a <= b <= |es|
    ensures |Rows(es, q, a)| <= |Rows(es, q, b)| && Rows(es, q, a) == Rows(es, q, b)[..|Rows(es, q, a)|]
    decreases b
  {
    if a < b {
      RowsPrefix(es, q, a, b - 1);
    }
  }

  /** The row of an entry that shows. */
  lemma RowAt(es: seq<Entry>, q: nat, j: nat)
    requires Shows(es, q, j)
    ensures |Rows(es, q, j)| < |View(es, q)|
    ensures View(es, q)[|Rows(es, q, j)|] == Row(es[j].k.user, es[j].value)
  {
    RowsPrefix(es, q, j + 1, |es|);
  }

  // ---------- moving forward ----------

  /** What FindNextUserEntry may assume at position p, so that it finds the first
      entry from `lo` on that shows.  With `skipping`, entries of user keys up to
      `skip` are hidden. */
  ghost predicate Skipped(es: seq<Entry>, q: nat, p: nat, lo: nat, skipping: bool, skip: Option<UserKey>) {
    var n := if p < lo then lo else p;
    && lo <= |es| && p <= |es| && (skipping ==> skip.Some?)
    && (forall k :: p <= k < lo && es[k].k.sn <= q ==> skipping && es[k].k.user == skip.value)
    && (forall k :: lo <= k < p ==> !Shows(es, q, k))
    && (skipping ==> forall k :: n <= k < |es| && es[k].k.sn <= q ==> skip.value <= es[k].k.user)
    && (skipping ==> Older(es, q, n, skip.value))
    && (forall m, k :: 0 <= m < n <= k < |es| && es[m].k.sn <= q && es[k].k.sn <= q && es[m].k.user == es[k].k.user ==>
          skipping && es[k].k.user == skip.value)
  }

  /** A visible entry of user key u comes before position n. */
  ghost predicate Older(es: seq<Entry>, q: nat, n: nat, u: UserKey)
    requires n <= |es|
  {
    exists m :: 0 <= m < n && es[m].k.sn <= q && es[m].k.user == u
  }

  lemma SkipInvisible(es: seq<Entry>, q: nat, p: nat, lo: nat, skipping: bool, skip: Option<UserKey>)
    requires SortedEntries(es) && p < |es| && Skipped(es, q, p, lo, skipping, skip) && es[p].k.sn > q
    ensures Skipped(es, q, p + 1, lo, skipping, skip)
  {
  }

  lemma SkipHidden(es: seq<Entry>, q: nat, p: nat, lo: nat, skip: Option<UserKey>)
    requires SortedEntries(es) && p < |es| && Skipped(es, q, p, lo, true, skip)
    requires es[p].k.sn <= q && es[p].k.user <= skip.value
    ensures Skipped(es, q, p + 1, lo, true, skip)
  {
  }

  lemma SkipDeletion(es: seq<Entry>, q: nat, p: nat, lo: nat, skipping: bool, skip: Option<UserKey>)
    requires SortedEntries(es) && p < |es| && Skipped(es, q, p, lo, skipping, skip)
    requires es[p].k.sn <= q && es[p].k.kind == Deletion
    ensures Skipped(es, q, p + 1, lo, true, Some(es[p].k.user))
  {
  }

  /** The entry FindNextUserEntry stops at shows, and none before it does. */
  lemma FoundShown(es: seq<Entry>, q: nat, p: nat, lo: nat, skipping: bool, skip: Option<UserKey>)
    requires SortedEntries(es) && p < |es| && Skipped(es, q, p, lo, skipping, skip)
    requires es[p].k.sn <= q && es[p].k.kind == Value && !(skipping && es[p].k.user <= skip.value)
    ensures lo <= p && Shows(es, q, p) && Rows(es, q, lo) == Rows(es, q, p)
  {
    assert lo <= p;
    NoRows(es, q, lo, p);
  }

  /** Leaving the shown entry j: its user key is what must be skipped. */
  lemma SkipCurrent(es: seq<Entry>, q: nat, p: nat, j: nat)
    requires SortedEntries(es) && p <= j && Shows(es, q, j)
    requires forall k :: p <= k < j ==> es[k].k.sn > q
    ensures Skipped(es, q, p, j + 1, true, Some(es[j].k.user))
    ensures |Rows(es, q, j + 1)| == |Rows(es, q, j)| + 1
  {
    forall k | j < k < |es| ensures es[j].k.user <= es[k].k.user {
      UsersRise(es, j, k);
    }
    forall m, k | 0 <= m <= j < k < |es| && es[m].k.user == es[k].k.user ensures es[k].k.user == es[j].k.user {
      UsersRise(es, m, j);
    }
  }

  /** Nothing visible of a user key is left behind by a Seek. */
  lemma SkipSeek(es: seq<Entry>, q: nat, p: nat, target: UserKey)
    requires SortedEntries(es) && p == SeekIndex(es, SeekKey(target, q))
    ensures Skipped(es, q, p, p, false, None)
    ensures |Rows(es, q, p)| <= |View(es, q)|
    ensures forall a :: 0 <= a < |Rows(es, q, p)| ==> View(es, q)[a].user < target
    ensures |Rows(es, q, p)| < |View(es, q)| ==> target <= View(es, q)[|Rows(es, q, p)|].user
  {
    forall k | p <= k < |es| ensures !Less(es[k].k, SeekKey(target, q)) {
      assert k == p || Less(es[p].k, es[k].k);
    }
    forall k: nat | k < |es| ensures es[k].k.sn <= q ==> (es[k].k.user < target <==> k < p) {
      SeekSkips(es[k].k, target, q);
    }
    SeekRows(es, q, p, |es|, target);
  }

  lemma {:induction false} SeekRows(es: seq<Entry>, q: nat, p: nat, n: nat, target: UserKey)
    requires p <= n <= |es|
    requires forall k: nat :: k < |es| ==> es[k].k.sn <= q ==> (es[k].k.user < target <==> k < p)
    ensures |Rows(es, q, p)| <= |Rows(es, q, n)| && Rows(es, q, n)[..|Rows(es, q, p)|] == Rows(es, q, p)
    ensures forall a :: 0 <= a < |Rows(es, q, n)| ==> (Rows(es, q, n)[a].user < target <==> a < |Rows(es, q, p)|)
    decreases n
  {
    if n > p {
      SeekRows(es, q, p, n - 1, target);
    } else if n > 0 {
      AllBelow(es, q, n, target);
    }
  }

  lemma {:induction false} AllBelow(es: seq<Entry>, q: nat, n: nat, target: UserKey)
    requires n <= |es| && forall k: nat :: k < n ==> es[k].k.sn <= q ==> es[k].k.user < target
    ensures forall a :: 0 <= a < |Rows(es, q, n)| ==> Rows(es, q, n)[a].user < target
  {
    if n > 0 {
      AllBelow(es, q, n - 1, target);
    }
  }

  // ---------- moving backwards ----------

  /** FindPrevUserEntry has scanned entries i to b - 1: c is the visible one it
      saw last, of kind `kind`, or c == b when it has seen none. */
  ghost predicate Scanned(es: seq<Entry>, q: nat, i: nat, b: nat, c: nat, kind: Kind) {
    && i <= c <= b <= |es|
    && (forall k :: i <= k < c ==> es[k].k.sn > q)
    && (forall k :: c < k < b ==> !Shows(es, q, k))
    && if c == b then kind == Deletion else es[c].k.sn <= q && es[c].k.kind == kind
  }

  /** A visible entry at i - 1 takes the place of c unless c is a value of a
      later user key. */
  lemma ScanVisible(es: seq<Entry>, q: nat, i: nat, b: nat, c: nat, kind: Kind)
    requires SortedEntries(es) && i > 0 && Scanned(es, q, i, b, c, kind) && es[i - 1].k.sn <= q
    requires kind == Deletion || es[c].k.user <= es[i - 1].k.user
    ensures Scanned(es, q, i - 1, b, i - 1, es[i - 1].k.kind)
  {
    if c < b && kind == Value {
      UsersRise(es, i - 1, c);
    }
  }

  lemma ScanInvisible(es: seq<Entry>, q: nat, i: nat, b: nat, c: nat, kind: Kind)
    requires i > 0 && Scanned(es, q, i, b, c, kind) && es[i - 1].k.sn > q
    ensures Scanned(es, q, i - 1, b, c, kind)
  {
  }

  /** When the scan stops at a smaller user key, or at the front, c shows. */
  lemma ScanStops(es: seq<Entry>, q: nat, i: nat, b: nat, c: nat)
    requires SortedEntries(es) && Scanned(es, q, i, b, c, Value)
    requires i > 0 ==> es[i - 1].k.user < es[c].k.user
    ensures Shows(es, q, c) && |Rows(es, q, b)| == |Rows(es, q, c)| + 1
  {
    forall m | 0 <= m < c && es[m].k.user == es[c].k.user ensures es[m].k.sn > q {
      if m < i {
        UsersRise(es, m, i - 1);
      }
    }
    NoRows(es, q, c + 1, b);
  }

  // ---------- the iterator ----------

  class DBIter {
    const iter: MergingIterator
    const sequence: nat
    var savedKey: Option<UserKey>
    var savedValue: Bytes
    var direction: Direction
    var valid: bool
    /** The entry that shows as key() and value(), when valid. */
    ghost var shown: nat

    /** Moving backwards, the internal iterator stands before the shown entry,
        and only invisible entries lie between. */
    ghost function Behind(): nat
      reads this, iter
    {
      Passed(iter)
    }

    ghost predicate Good()
      reads this, iter, iter.objects
    {
      && iter.Good() && this !in iter.objects
      && (valid ==> Shows(iter.merged, sequence, shown))
      && (valid && direction == Forward ==> iter.at == shown)
      && (valid && direction == Reverse ==>
            && Behind() <= shown && (forall k :: Behind() <= k < shown ==> iter.merged[k].k.sn > sequence)
            && savedKey == Some(iter.merged[shown].k.user) && savedValue == iter.merged[shown].value)
    }

    /** The position in the view: its length when the iterator is not valid. */
    ghost function At(): nat
      requires Good()
      reads this, iter, iter.objects
    {
      if valid then |Rows(iter.merged, sequence, shown)| else |View(iter.merged, sequence)|
    }

    constructor (iter: MergingIterator, sequence: nat)
      requires iter.Good()
      ensures Good() && !valid && this.iter == iter && this.sequence == sequence
    {
      this.iter, this.sequence, direction, valid, savedKey, savedValue := iter, sequence, Forward, false, None, [];
    }

    /** key() and value(): the row the iterator stands at, whichever way it came. */
    function Current(): (row: Row)
      requires Good() && valid
      reads this, iter, iter.objects
      ensures At() < |View(iter.merged, sequence)| && row == View(iter.merged, sequence)[At()]
    {
      RowAt(iter.merged, sequence, shown);
      if direction == Forward then Row(iter.Current().k.user, iter.Current().value)
      else Row(savedKey.value, savedValue)
    }

    method FindNextUserEntry(skipping: bool, skip: Option<UserKey>, ghost lo: nat)
      requires iter.Good() && this !in iter.objects && iter.Valid() && direction == Forward
      requires Skipped(iter.merged, sequence, iter.at, lo, skipping, skip)
      modifies this, iter, iter.objects
      ensures Good() && direction == Forward
      ensures At() == |Rows(iter.merged, sequence, lo)|
    {
      FindAcceptable(iter, sequence, skipping, skip, lo);
      valid, savedKey, shown := iter.Valid(), None, iter.at;
    }

    method FindPrevUserEntry()
      requires iter.Good() && this !in iter.objects && direction == Reverse
      modifies this, iter, iter.objects
      ensures Good()
      ensures valid <==> |Rows(iter.merged, sequence, old(Behind()))| > 0
      ensures valid ==> At() == |Rows(iter.merged, sequence, old(Behind()))| - 1
    {
      ghost var es, b := iter.merged, Behind();
      ghost var c;
      var kind;
      kind, savedKey, savedValue, c := ScanBack(iter, sequence);
      if kind == Deletion {
        NoRows(es, sequence, 0, b);
        valid, savedKey, savedValue, direction := false, None, [], Forward;
      } else {
        ScanStops(es, sequence, Behind(), b, c);
        Show(c);
      }
    }

    /** The saved entry is the one that shows. */
    method Show(ghost c: nat)
      requires iter.Good() && this !in iter.objects && direction == Reverse && Shows(iter.merged, sequence, c)
      requires Behind() <= c && forall k :: Behind() <= k < c ==> iter.merged[k].k.sn > sequence
      requires savedKey == Some(iter.merged[c].k.user) && savedValue == iter.merged[c].value
      modifies `valid, `shown
      ensures Good() && valid && shown == c
    {
      valid, shown := true, c;
    }

    /** One row forward. */
    method Next()
      requires Good() && valid
      modifies this, iter, iter.objects
      ensures Good() && At() == old(At()) + 1
    {
      ghost var j := shown;
      Leave();
      FindNextUserEntry(true, savedKey, j + 1);
    }

    /** Next, up to its call of FindNextUserEntry. */
    method Leave()
      requires Good() && valid
      modifies `savedKey, `direction, iter, iter.objects
      ensures iter.Good() && iter.Valid() && direction == Forward
      ensures Skipped(iter.merged, sequence, iter.at, shown + 1, true, savedKey)
      ensures |Rows(iter.merged, sequence, shown + 1)| == |Rows(iter.merged, sequence, shown)| + 1
    {
      if direction == Reverse {
        SkipCurrent(iter.merged, sequence, Behind(), shown);
        ComeBack();
      } else {
        SkipCurrent(iter.merged, sequence, iter.at, shown);
        savedKey := Some(iter.Current().k.user);
      }
    }

    /** Turning forward: the internal iterator stands just before the entries of
        this->key(), so it goes on into them. */
    method ComeBack()
      requires Good() && valid && direction == Reverse
      modifies `direction, iter, iter.objects
      ensures iter.Good() && iter.Valid() && iter.at == old(Behind()) && direction == Forward
    {
      direction := Forward;
      if !iter.Valid() {
        iter.SeekToFirst();
      } else {
        iter.Next();
      }
    }

    /** One row back; before the first row there is none. */
    method Prev()
      requires Good() && valid
      modifies this, iter, iter.objects
      ensures Good() && At() == if old(At()) == 0 then |View(iter.merged, sequence)| else old(At()) - 1
    {
      ghost var es, j := iter.merged, shown;
      if direction == Forward {
        savedKey := Some(iter.Current().k.user);
        var more := BackPastUser(iter);
        if !more {
          BackOverUser(es, sequence, 0, j);
          valid, savedKey, savedValue := false, None, [];
          return;
        }
        direction := Reverse;
      }
      BackOverUser(es, sequence, Behind(), j);
      FindPrevUserEntry();
    }

    /** The first row whose key is not below the target. */
    method Seek(target: UserKey)
      requires Good()
      modifies this, iter, iter.objects
      ensures Good() && At() <= |View(iter.merged, sequence)|
      ensures forall a :: 0 <= a < At() ==> View(iter.merged, sequence)[a].user < target
      ensures At() < |View(iter.merged, sequence)| ==> target <= View(iter.merged, sequence)[At()].user
    {
      direction, savedValue := Forward, [];
      iter.Seek(SeekKey(target, sequence));
      SkipSeek(iter.merged, sequence, iter.at, target);
      if iter.Valid() {
        FindNextUserEntry(false, None, iter.at);
      } else {
        valid := false;
      }
    }

    method SeekToFirst()
      requires Good()
      modifies this, iter, iter.objects
      ensures Good() && At() == 0
    {
      direction, savedValue := Forward, [];
      iter.SeekToFirst();
      if iter.Valid() {
        FindNextUserEntry(false, None, 0);
      } else {
        valid := false;
      }
    }

    method SeekToLast()
      requires Good()
      modifies this, iter, iter.objects
      ensures Good() && At() == if |View(iter.merged, sequence)| == 0 then 0 else |View(iter.merged, sequence)| - 1
    {
      direction, savedValue := Reverse, [];
      iter.SeekToLast();
      FindPrevUserEntry();
    }
  }

  /** One entry of FindNextUserEntry's loop: whether it is acceptable, and what is
      skipped after it if it is not. */
  method Judge(e: Entry, sequence: nat, skipping: bool, skip: Option<UserKey>, ghost es: seq<Entry>, ghost i: nat,
               ghost lo: nat)
    returns (found: bool, skipping': bool, skip': Option<UserKey>)
    requires SortedEntries(es) && i < |es| && e == es[i] && Skipped(es, sequence, i, lo, skipping, skip)
    ensures found ==> Shows(es, sequence, i) && Rows(es, sequence, i) == Rows(es, sequence, lo)
    ensures !found ==> Skipped(es, sequence, i + 1, lo, skipping', skip')
  {
    found, skipping', skip' := false, skipping, skip;
    if e.k.sn > sequence {
      SkipInvisible(es, sequence, i, lo, skipping, skip);
    } else if e.k.kind == Deletion {
      SkipDeletion(es, sequence, i, lo, skipping, skip);
      skip', skipping' := Some(e.k.user), true;
    } else if skipping && e.k.user <= skip.value {
      SkipHidden(es, sequence, i, lo, skip);
    } else {
      FoundShown(es, sequence, i, lo, skipping, skip);
      found := true;
    }
  }

  /** The loop of FindNextUserEntry: to the first entry from `lo` on that shows. */
  method FindAcceptable(iter: MergingIterator, sequence: nat, skipping: bool, skip: Option<UserKey>, ghost lo: nat)
    requires iter.Good() && iter.Valid() && Skipped(iter.merged, sequence, iter.at, lo, skipping, skip)
    modifies iter, iter.objects
    ensures iter.Good() && (iter.Valid() ==> Shows(iter.merged, sequence, iter.at))
    ensures Rows(iter.merged, sequence, iter.at) == Rows(iter.merged, sequence, lo)
  {
    ghost var es := iter.merged;
    var skipping, skip := skipping, skip;
    while iter.Valid()
      invariant iter.Good() && iter.at <= |es| && Skipped(es, sequence, iter.at, lo, skipping, skip)
      decreases |es| - iter.at
    {
      var found;
      found, skipping, skip := SkipOne(iter, sequence, skipping, skip, lo);
      if found {
        return;
      }
    }
    NoRows(es, sequence, lo, iter.at);
  }

  /** One round of it: iter goes on unless its entry is acceptable. */
  method SkipOne(iter: MergingIterator, sequence: nat, skipping: bool, skip: Option<UserKey>, ghost lo: nat)
    returns (found: bool, skipping': bool, skip': Option<UserKey>)
    requires iter.Good() && iter.Valid() && Skipped(iter.merged, sequence, iter.at, lo, skipping, skip)
    modifies iter, iter.objects
    ensures iter.Good() && iter.at == old(iter.at) + if found then 0 else 1
    ensures found ==> Shows(iter.merged, sequence, iter.at)
    ensures found ==> Rows(iter.merged, sequence, iter.at) == Rows(iter.merged, sequence, lo)
    ensures !found ==> iter.at <= |iter.merged| && Skipped(iter.merged, sequence, iter.at, lo, skipping', skip')
  {
    found, skipping', skip' := Judge(iter.Current(), sequence, skipping, skip, iter.merged, iter.at, lo);
    if !found {
      iter.Next();
    }
  }

  /** Where the internal iterator stands when it moves backwards. */
  ghost function Passed(iter: MergingIterator): nat
    reads iter
  {
    if iter.at < |iter.merged| then iter.at + 1 else 0
  }

  /** The loop of FindPrevUserEntry: the newest visible entry it saw last, if that is a
      value, is saved. */
  method ScanBack(iter: MergingIterator, sequence: nat)
    returns (kind: Kind, savedKey: Option<UserKey>, savedValue: Bytes, ghost c: nat)
    requires iter.Good()
    modifies iter, iter.objects
    ensures iter.Good() && Scanned(iter.merged, sequence, Passed(iter), old(Passed(iter)), c, kind)
    ensures kind == Value ==> savedKey == Some(iter.merged[c].k.user) && savedValue == iter.merged[c].value
    ensures Passed(iter) > 0 ==> kind == Value && iter.merged[Passed(iter) - 1].k.user < iter.merged[c].k.user
  {
    ghost var es, b := iter.merged, Passed(iter);
    kind, savedKey, savedValue, c := Deletion, None, [], b;
    while iter.Valid()
      invariant iter.Good() && Scanned(es, sequence, Passed(iter), b, c, kind)
      invariant kind == Value ==> savedKey == Some(es[c].k.user) && savedValue == es[c].value
      decreases Passed(iter)
    {
      var stop;
      stop, kind, savedKey, savedValue,
        c := Save(iter.Current(), sequence, kind, savedKey, savedValue, es, iter.at, b, c);
      if stop {
        return;
      }
      iter.Prev();
    }
  }

  /** One entry of that loop: it stops at a smaller user key once a value is saved. */
  method Save(e: Entry, sequence: nat, kind: Kind, savedKey: Option<UserKey>, savedValue: Bytes,
              ghost es: seq<Entry>, ghost i: nat, ghost b: nat, ghost c: nat)
    returns (stop: bool, kind': Kind, savedKey': Option<UserKey>, savedValue': Bytes, ghost c': nat)
    requires SortedEntries(es) && i < |es| && e == es[i] && Scanned(es, sequence, i + 1, b, c, kind)
    requires kind == Value ==> savedKey == Some(es[c].k.user) && savedValue == es[c].value
    ensures Scanned(es, sequence, if stop then i + 1 else i, b, c', kind')
    ensures kind' == Value ==> savedKey' == Some(es[c'].k.user) && savedValue' == es[c'].value
    ensures stop ==> kind' == Value && e.k.user < es[c'].k.user
  {
    stop, kind', savedKey', savedValue', c' := false, kind, savedKey, savedValue, c;
    if e.k.sn <= sequence {
      if kind != Deletion && e.k.user < savedKey.value {
        stop := true;
        return;
      }
      ScanVisible(es, sequence, i + 1, b, c, kind);
      c', kind' := i, e.k.kind;
      if kind' == Deletion {
        savedKey', savedValue' := None, [];
      } else {
        savedKey', savedValue' := Some(e.k.user), e.value;
      }
    } else {
      ScanInvisible(es, sequence, i + 1, b, c, kind);
    }
  }

  /** The loop of Prev when it turns round: to the last entry of a smaller user key. */
  method BackPastUser(iter: MergingIterator) returns (more: bool)
    requires iter.Good() && iter.Valid()
    modifies iter, iter.objects
    ensures iter.Good() && Passed(iter) <= old(iter.at)
    ensures forall k :: Passed(iter) <= k < old(iter.at) ==> iter.merged[k].k.user == iter.merged[old(iter.at)].k.user
    ensures if more then Passed(iter) > 0 && iter.merged[Passed(iter) - 1].k.user < iter.merged[old(iter.at)].k.user
            else Passed(iter) == 0
  {
    ghost var j := iter.at;
    var user := iter.Current().k.user;
    iter.Prev();
    more := BackWhile(iter, user, j);
  }

  method BackWhile(iter: MergingIterator, user: UserKey, ghost j: nat) returns (more: bool)
    requires iter.Good() && Passed(iter) == j < |iter.merged| && iter.merged[j].k.user == user
    modifies iter, iter.objects
    ensures iter.Good() && Passed(iter) <= j
    ensures forall k :: Passed(iter) <= k < j ==> iter.merged[k].k.user == user
    ensures if more then Passed(iter) > 0 && iter.merged[Passed(iter) - 1].k.user < user else Passed(iter) == 0
  {
    ghost var es := iter.merged;
    while iter.Valid()
      invariant iter.Good() && Passed(iter) <= j && forall k :: Passed(iter) <= k < j ==> es[k].k.user == user
      decreases Passed(iter)
    {
      if iter.Current().k.user < user {
        return true;
      }
      UsersRise(es, iter.at, j);
      iter.Prev();
    }
    more := false;
  }

  /** Between the entries of smaller user keys and the shown entry nothing shows. */
  lemma BackOverUser(es: seq<Entry>, q: nat, b: nat, j: nat)
    requires SortedEntries(es) && Shows(es, q, j) && b <= j
    requires forall k :: b <= k < j ==> es[k].k.user == es[j].k.user || es[k].k.sn > q
    ensures Rows(es, q, b) == Rows(es, q, j)
  {
    NoRows(es, q, b, j);
  }
}
