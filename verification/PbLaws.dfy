/** Taking records one by one gives what they say together: on records that are plain a
    message is decoded exactly when some message is delivered, and then it is that one. */
module PbLaws {
  import opened Keys
  import opened Coding
  import opened PbMessage
  import opened PbFieldIter
  import opened PbStructure
  import opened PbRecords

  // ---------- what records give a field ----------

  /** The records rs and then r give the items. */
  ghost predicate GivesWith(f: Field, j: nat, items: seq<Value>, rs: seq<Rec>, r: Rec) {
    if !Of(r, j) then Gives(f, j, items, rs)
    else if r.Pack? then
      var m := |items| - |r.parts|;
      m >= 0 && items[m..] == Values(f.ltype, r.parts) && Gives(f, j, items[..m], rs)
    else if IsArray(f) then
      |items| > 0 && ItemGives(f.ltype, r.item, items[|items| - 1]) && Gives(f, j, items[..|items| - 1], rs)
    else |items| == 1 && ItemGives(f.ltype, r.item, items[0])
  }

  lemma GivesSnoc(f: Field, j: nat, items: seq<Value>, rs: seq<Rec>, r: Rec)
    ensures Gives(f, j, items, rs + [r]) <==> GivesWith(f, j, items, rs, r)
  {
    assert (rs + [r])[..|rs|] == rs;
  }

  lemma HasSnoc(rs: seq<Rec>, r: Rec, j: nat)
    ensures Has(rs + [r], j) <==> Has(rs, j) || Of(r, j)
  {
    var all := rs + [r];
    if Has(rs, j) {
      var i :| 0 <= i < |rs| && Of(rs[i], j);
      assert all[i] == rs[i];
    }
    if Of(r, j) {
      assert all[|rs|] == r;
    }
  }

  /** A field that no record is of has its default. */
  lemma {:induction false} GivesNone(f: Field, j: nat, items: seq<Value>, rs: seq<Rec>)
    requires !Has(rs, j) && Gives(f, j, items, rs)
    ensures items == DefaultSlot(f)
    decreases |rs|
  {
    if rs != [] {
      var n := |rs| - 1;
      assert rs == rs[..n] + [rs[n]];
      HasSnoc(rs[..n], rs[n], j);
      GivesNone(f, j, items, rs[..n]);
    }
  }

  /** The number of items that records give an array. */
  function CountIn(j: nat, rs: seq<Rec>): nat {
    if rs == [] then 0
    else
      var r := rs[|rs| - 1];
      CountIn(j, rs[..|rs| - 1]) + if !Of(r, j) then 0 else if r.Pack? then |r.parts| else 1
  }

  lemma CountSnoc(j: nat, rs: seq<Rec>, r: Rec)
    ensures CountIn(j, rs + [r]) == CountIn(j, rs) + if !Of(r, j) then 0 else if r.Pack? then |r.parts| else 1
  {
    assert (rs + [r])[..|rs|] == rs;
  }

  lemma {:induction false} GivesCount(f: Field, j: nat, items: seq<Value>, rs: seq<Rec>)
    requires IsArray(f) && Gives(f, j, items, rs)
    ensures |items| == CountIn(j, rs)
    decreases |rs|
  {
    if rs != [] {
      var n, r := |rs| - 1, rs[|rs| - 1];
      if !Of(r, j) {
        GivesCount(f, j, items, rs[..n]);
      } else if r.Pack? {
        GivesCount(f, j, items[..|items| - |r.parts|], rs[..n]);
      } else {
        GivesCount(f, j, items[..|items| - 1], rs[..n]);
      }
    }
  }

  lemma {:induction false} CountRises(j: nat, a: seq<Rec>, b: seq<Rec>)
    ensures CountIn(j, a) <= CountIn(j, a + b)
    ensures !Has(b, j) ==> CountIn(j, a) == CountIn(j, a + b)
    decreases |b|
  {
    if b == [] {
      assert a + b == a;
    } else {
      var n := |b| - 1;
      assert b == b[..n] + [b[n]] && a + b == (a + b[..n]) + [b[n]];
      HasSnoc(b[..n], b[n], j);
      CountSnoc(j, a + b[..n], b[n]);
      CountRises(j, a, b[..n]);
    }
  }

  /** What all records give an array begins with what the first of them give it. */
  lemma {:induction false} GivesFront(f: Field, j: nat, items: seq<Value>, a: seq<Rec>, b: seq<Rec>) returns (m: nat)
    requires IsArray(f) && Gives(f, j, items, a + b)
    ensures m <= |items| && Gives(f, j, items[..m], a)
    decreases |b|
  {
    if b == [] {
      assert a + b == a && items[..|items|] == items;
      m := |items|;
    } else {
      var n, r := |b| - 1, b[|b| - 1];
      assert a + b == (a + b[..n]) + [r];
      GivesSnoc(f, j, items, a + b[..n], r);
      var k := if !Of(r, j) then |items| else if r.Pack? then |items| - |r.parts| else |items| - 1;
      assert items[..|items|] == items;
      m := GivesFront(f, j, items[..k], a, b[..n]);
      assert items[..k][..m] == items[..m];
    }
  }

  /** Records of other fields after them change nothing. */
  lemma {:induction false} GivesStill(f: Field, j: nat, items: seq<Value>, a: seq<Rec>, b: seq<Rec>)
    requires !Has(b, j)
    ensures Gives(f, j, items, a + b) <==> Gives(f, j, items, a)
    decreases |b|
  {
    if b == [] {
      assert a + b == a;
    } else {
      var n := |b| - 1;
      assert b == b[..n] + [b[n]] && a + b == (a + b[..n]) + [b[n]];
      HasSnoc(b[..n], b[n], j);
      GivesSnoc(f, j, items, a + b[..n], b[n]);
      GivesStill(f, j, items, a, b[..n]);
    }
  }

  // ---------- one record after the other ----------

  /** What has been taken so far is what the records so far give. */
  ghost predicate SoFar(fields: seq<Field>, rs: seq<Rec>, p: Progress) {
    && Sized(fields, p) && RecsRead(fields, rs)
    && (forall j :: 0 <= j < |fields| ==> Gives(fields[j], j, p.dest[j], rs))
    && (forall j :: 0 <= j < |fields| ==> FieldSoFar(fields, j, rs, p))
    && (p.fixed.Some? ==> fields[p.fixed.value].rule.FixedCount? && Has(rs, p.fixed.value))
    && (forall j, a :: 0 <= j < |fields| && fields[j].rule.FixedCount? && 0 <= a < |rs| && Of(rs[a], j) ==>
          p.fixed == Some(j) || Overtaken(rs, a, p.fixed))
  }

  /** A record of the field that is now in `fixed` has come after record a. */
  ghost predicate Overtaken(rs: seq<Rec>, a: nat, fixed: Option<nat>) {
    fixed.Some? && exists b :: a < b < |rs| && Of(rs[b], fixed.value)
  }

  ghost predicate FieldSoFar(fields: seq<Field>, j: nat, rs: seq<Rec>, p: Progress)
    requires j < |fields| && Sized(fields, p)
  {
    var f := fields[j];
    && (IsArray(f) ==> |p.dest[j]| <= MaxItems(f))
    && (f.rule.Required? && RequiredBefore(fields, j) < MAX_REQUIRED ==>
          (RequiredBefore(fields, j) in p.seen <==> Has(rs, j)))
    && (f.rule.FixedCount? && Has(rs, j) && p.fixed != Some(j) ==> |p.dest[j]| == f.rule.count)
  }

  /** A nested item is decoded exactly when it gives a value, and to that value. */
  ghost predicate ItemExactly(t: FieldType, item: Item) {
    forall v :: TakeItem(t, DefaultValue(t), item) == Some(v) <==> ItemGives(t, item, v)
  }

  ghost predicate RecExactly(fields: seq<Field>, r: Rec) {
    r.One? && r.j < |fields| ==> ItemExactly(fields[r.j].ltype, r.item)
  }

  /** All records but the last are as plain as all of them. */
  lemma PlainFront(fields: seq<Field>, rs: seq<Rec>, n: nat)
    requires n <= |rs|
    ensures Plain(fields, rs) ==> Plain(fields, rs[..n])
    ensures RecsOk(fields, rs) ==> RecsOk(fields, rs[..n])
  {
    var front := rs[..n];
    if Plain(fields, rs) {
      forall i, k | 0 <= i < k < n ensures PbRecords.Apart(fields, front[i], front[k]) {
        assert PbRecords.Apart(fields, rs[i], rs[k]);
      }
      forall i, m, k | 0 <= i < m < k < n ensures Together(fields, front[i], front[m], front[k]) {
        assert Together(fields, rs[i], rs[m], rs[k]);
      }
      forall i | 0 <= i < n ensures PlainRec(fields, front[i]) {
        assert PlainRec(fields, rs[i]);
      }
    }
    if RecsOk(fields, rs) {
      forall i | 0 <= i < n ensures RecOk(fields, front[i]) {
        assert RecOk(fields, rs[i]);
      }
    }
  }

  /** Record n of plain records, seen from those before it. */
  ghost predicate Fits(fields: seq<Field>, rs: seq<Rec>, r: Rec) {
    && (forall i :: 0 <= i < |rs| ==> PbRecords.Apart(fields, rs[i], r))
    && (forall i, m :: 0 <= i < m < |rs| ==> Together(fields, rs[i], rs[m], r))
  }

  lemma PlainAt(fields: seq<Field>, rs: seq<Rec>, n: nat)
    requires Plain(fields, rs) && n < |rs|
    ensures Fits(fields, rs[..n], rs[n]) && PlainRec(fields, rs[n])
  {
    forall i | 0 <= i < n ensures PbRecords.Apart(fields, rs[..n][i], rs[n]) {
      assert PbRecords.Apart(fields, rs[i], rs[n]);
    }
    forall i, m | 0 <= i < m < n ensures Together(fields, rs[..n][i], rs[..n][m], rs[n]) {
      assert Together(fields, rs[i], rs[m], rs[n]);
    }
  }

  /** A fixed-count array that is not the one met last has not been met at all. */
  lemma NotMet(fields: seq<Field>, rs: seq<Rec>, r: Rec, p: Progress)
    requires SoFar(fields, rs, p) && Fits(fields, rs, r) && !r.Unknown? && r.j < |fields|
    requires fields[r.j].rule.FixedCount? && p.fixed != Some(r.j)
    ensures !Has(rs, r.j)
  {
  }

  /** No other member of its oneof has been met. */
  lemma UnionAlone(fields: seq<Field>, rs: seq<Rec>, r: Rec, k: nat)
    requires Fits(fields, rs, r) && !r.Unknown? && r.j < |fields| && k < |fields| && k != r.j
    requires fields[r.j].rule.Oneof? && fields[k].rule == fields[r.j].rule
    ensures !Has(rs, k)
  {
  }

  /** So making ready for a record changes nothing in the structure. */
  lemma PreparedSame(fields: seq<Field>, rs: seq<Rec>, r: Rec, p: Progress)
    requires SoFar(fields, rs, p) && Fits(fields, rs, r) && !r.Unknown? && r.j < |fields|
    ensures var f := fields[r.j];
            match Prepared(fields, r.j, p)
            case Some(s) =>
              && s.dest == p.dest
              && s.fixed == (if f.rule.FixedCount? then Some(r.j) else p.fixed)
              && s.seen == (if f.rule.Required? && RequiredBefore(fields, r.j) < MAX_REQUIRED
                            then p.seen + {RequiredBefore(fields, r.j)} else p.seen)
              && (f.rule.FixedCount? && p.fixed != Some(r.j) ==> FixedDone(fields, p))
            case None => f.rule.FixedCount? && p.fixed != Some(r.j) && !FixedDone(fields, p)
  {
    var j, f := r.j, fields[r.j];
    if f.rule.FixedCount? && p.fixed != Some(j) {
      NotMet(fields, rs, r, p);
      GivesNone(f, j, p.dest[j], rs);
      assert p.dest[j := []] == p.dest;
    }
    forall k | 0 <= k < |fields| && k != j && f.rule.Oneof? && fields[k].rule == f.rule ensures p.dest[k] == [] {
      UnionAlone(fields, rs, r, k);
      GivesNone(fields[k], k, p.dest[k], rs);
    }
    assert ClearUnion(fields, j, p.dest) == p.dest;
  }

  /** What a record makes of the items before it is what both give. */
  lemma SlotTaken(f: Field, j: nat, held: seq<Value>, rs: seq<Rec>, r: Rec)
    requires Gives(f, j, held, rs) && Of(r, j) && (r.Pack? ==> IsArray(f)) && (IsArray(f) ==> |held| <= MaxItems(f))
    requires r.One? ==> ItemExactly(f.ltype, r.item)
    requires r.One? && r.item.Nested? && !IsArray(f) ==> held == DefaultSlot(f)
    ensures match TakeSlot(f, held, r)
            case Some(items) => Gives(f, j, items, rs + [r]) && (IsArray(f) ==> |items| <= MaxItems(f))
            case None => (IsArray(f) && CountIn(j, rs + [r]) > MaxItems(f)) || (r.Pack? && !AllRead(f.ltype, r.parts))
                         || (r.One? && r.item.Raw? && Reads(f.ltype, r.item.b) == None)
                         || (r.One? && r.item.Nested? && forall v :: !ItemGives(f.ltype, r.item, v))
  {
    CountSnoc(j, rs, r);
    if IsArray(f) {
      GivesCount(f, j, held, rs);
    }
    match TakeSlot(f, held, r)
    case Some(items) =>
      GivesSnoc(f, j, items, rs, r);
      if r.Pack? {
        assert items[|items| - |r.parts|..] == Values(f.ltype, r.parts) && items[..|items| - |r.parts|] == held;
      } else if IsArray(f) {
        assert items[..|items| - 1] == held;
      }
    case None =>
      if r.One? && !(IsArray(f) && CountIn(j, rs + [r]) > MaxItems(f)) {
        var base := if IsArray(f) || held == [] then DefaultValue(f.ltype) else held[0];
        assert TakeItem(f.ltype, base, r.item) == TakeItem(f.ltype, DefaultValue(f.ltype), r.item) == None;
        forall v ensures !ItemGives(f.ltype, r.item, v) {
        }
      }
  }

  /** A record of a submessage is the first of it. */
  lemma FirstNested(fields: seq<Field>, rs: seq<Rec>, r: Rec, p: Progress)
    requires SoFar(fields, rs, p) && Fits(fields, rs, r) && RecOk(fields, r) && r.One? && r.item.Nested?
    ensures !IsArray(fields[r.j]) ==> p.dest[r.j] == DefaultSlot(fields[r.j]) && !Has(rs, r.j)
  {
    if !IsArray(fields[r.j]) {
      GivesNone(fields[r.j], r.j, p.dest[r.j], rs);
    }
  }

  /** What a record does to the structure: its field has one more item, or another. */
  lemma DestTaken(fields: seq<Field>, rs: seq<Rec>, r: Rec, p: Progress, q: Progress)
    requires SoFar(fields, rs, p) && Fits(fields, rs, r) && RecOk(fields, r) && RecExactly(fields, r) && !r.Unknown?
    requires TakeRec(fields, p, r) == Some(q)
    ensures var f := fields[r.j];
            && (forall k :: 0 <= k < |fields| && k != r.j ==> q.dest[k] == p.dest[k])
            && Gives(f, r.j, q.dest[r.j], rs + [r]) && (IsArray(f) ==> |q.dest[r.j]| <= MaxItems(f))
            && q.fixed == (if f.rule.FixedCount? then Some(r.j) else p.fixed)
            && q.seen == (if f.rule.Required? && RequiredBefore(fields, r.j) < MAX_REQUIRED
                          then p.seen + {RequiredBefore(fields, r.j)} else p.seen)
            && (f.rule.FixedCount? && p.fixed != Some(r.j) ==> FixedDone(fields, p))
  {
    PreparedSame(fields, rs, r, p);
    if r.One? && r.item.Nested? { FirstNested(fields, rs, r, p); }
    assert FieldSoFar(fields, r.j, rs, p);
    SlotTaken(fields[r.j], r.j, p.dest[r.j], rs, r);
  }

  /** One record taken: what has been taken so far is what the records so far give. */
  lemma OneTaken(fields: seq<Field>, rs: seq<Rec>, r: Rec, p: Progress, q: Progress)
    requires SoFar(fields, rs, p) && Fits(fields, rs, r) && RecOk(fields, r) && RecExactly(fields, r)
    requires TakeRec(fields, p, r) == Some(q)
    ensures SoFar(fields, rs + [r], q)
  {
    if !r.Unknown? { DestTaken(fields, rs, r, p, q); }
    forall j | 0 <= j < |fields|
      ensures Gives(fields[j], j, q.dest[j], rs + [r]) && FieldSoFar(fields, j, rs + [r], q)
    {
      if r.Unknown? || j != r.j { GivesSnoc(fields[j], j, q.dest[j], rs, r); }
      FieldTaken(fields, rs, r, p, q, j);
    }
    if q.fixed.Some? { HasSnoc(rs, r, q.fixed.value); }
    FixedOrder(fields, rs, r, p, q);
    TakenReads(fields, rs, r, p);
  }

  /** What has been taken could be read. */
  lemma TakenReads(fields: seq<Field>, rs: seq<Rec>, r: Rec, p: Progress)
    requires Sized(fields, p) && RecOk(fields, r) && TakeRec(fields, p, r).Some? && RecsRead(fields, rs)
    ensures RecsRead(fields, rs + [r])
  {
    if !r.Unknown? {
      var s := Prepared(fields, r.j, p).value;
      SlotReads(fields[r.j], s.dest[r.j], r);
    }
    assert RecReads(fields, [r][0]);
    ReadMore(fields, rs, [r]);
  }

  lemma SlotReads(f: Field, held: seq<Value>, r: Rec)
    requires TakeSlot(f, held, r).Some?
    ensures r.Pack? ==> AllRead(f.ltype, r.parts)
    ensures r.One? && r.item.Raw? ==> Reads(f.ltype, r.item.b).Some?
  {
    if r.One? {
      var base := if IsArray(f) || held == [] then DefaultValue(f.ltype) else held[0];
      assert r.item.Raw? ==> TakeItem(f.ltype, base, r.item) == Reads(f.ltype, r.item.b);
    }
  }

  lemma FieldTaken(fields: seq<Field>, rs: seq<Rec>, r: Rec, p: Progress, q: Progress, j: nat)
    requires SoFar(fields, rs, p) && RecOk(fields, r) && Sized(fields, q) && j < |fields|
    requires r.Unknown? ==> q == p
    requires !r.Unknown? ==>
               var f := fields[r.j];
               && (forall k :: 0 <= k < |fields| && k != r.j ==> q.dest[k] == p.dest[k])
               && (IsArray(f) ==> |q.dest[r.j]| <= MaxItems(f))
               && q.fixed == (if f.rule.FixedCount? then Some(r.j) else p.fixed)
               && q.seen == (if f.rule.Required? && RequiredBefore(fields, r.j) < MAX_REQUIRED
                             then p.seen + {RequiredBefore(fields, r.j)} else p.seen)
               && (f.rule.FixedCount? && p.fixed != Some(r.j) ==> FixedDone(fields, p))
    ensures FieldSoFar(fields, j, rs + [r], q)
  {
    HasSnoc(rs, r, j);
    assert FieldSoFar(fields, j, rs, p);
    if !r.Unknown? && j != r.j {
      OtherSeen(fields, j, r.j);
    }
  }

  /** Required fields have numbers of their own. */
  lemma OtherSeen(fields: seq<Field>, j: nat, k: nat)
    requires j < |fields| && k < |fields| && j != k
    ensures fields[j].rule.Required? && fields[k].rule.Required? ==>
              RequiredBefore(fields, j) != RequiredBefore(fields, k)
  {
    if j < k { RequiredRises(fields, j, k); } else { RequiredRises(fields, k, j); }
  }

  lemma {:induction false} RequiredRises(fields: seq<Field>, j: nat, k: nat)
    requires j < k <= |fields|
    ensures RequiredBefore(fields, j) + (if fields[j].rule.Required? then 1 else 0) <= RequiredBefore(fields, k)
    decreases k
  {
    if j + 1 < k {
      RequiredRises(fields, j, k - 1);
    }
  }

  lemma FixedOrder(fields: seq<Field>, rs: seq<Rec>, r: Rec, p: Progress, q: Progress)
    requires SoFar(fields, rs, p) && Sized(fields, q) && RecOk(fields, r)
    requires q.fixed == if !r.Unknown? && fields[r.j].rule.FixedCount? then Some(r.j) else p.fixed
    ensures forall j, a ::
              0 <= j < |fields| && fields[j].rule.FixedCount? && 0 <= a < |rs + [r]| && Of((rs + [r])[a], j) ==>
              q.fixed == Some(j) || Overtaken(rs + [r], a, q.fixed)
  {
    var all := rs + [r];
    forall j, a | 0 <= j < |fields| && fields[j].rule.FixedCount? && 0 <= a < |all| && Of(all[a], j)
      ensures q.fixed == Some(j) || Overtaken(all, a, q.fixed)
    {
      if q.fixed != Some(j) {
        assert a < |rs| && Of(rs[a], j);
        if q.fixed == p.fixed {
          assert Overtaken(rs, a, p.fixed);
          var b :| a < b < |rs| && Of(rs[b], p.fixed.value);
          assert Of(all[b], q.fixed.value);
        } else {
          assert Of(all[|rs|], q.fixed.value);
        }
      }
    }
  }

  // ---------- when a record cannot be taken ----------

  /** An array that already has too many items is no part of any message. */
  lemma TooMany(fields: seq<Field>, d: seq<seq<Value>>, a: seq<Rec>, b: seq<Rec>, j: nat)
    requires j < |fields| && IsArray(fields[j]) && CountIn(j, a) > MaxItems(fields[j]) && Has(a, j)
    ensures !Delivers(fields, d, a + b)
  {
    if Delivers(fields, d, a + b) {
      GivesCount(fields[j], j, d[j], a + b);
      CountRises(j, a, b);
      HasMore(a, b, j);
    }
  }

  lemma HasMore(a: seq<Rec>, b: seq<Rec>, j: nat)
    ensures Has(a + b, j) <==> Has(a, j) || Has(b, j)
  {
    if Has(a, j) {
      var i :| 0 <= i < |a| && Of(a[i], j);
      assert (a + b)[i] == a[i];
    }
    if Has(b, j) {
      var i :| 0 <= i < |b| && Of(b[i], j);
      assert (a + b)[|a| + i] == b[i];
    }
  }

  /** The records after record n that are of the same field. */
  lemma NoneAfter(fields: seq<Field>, rs: seq<Rec>, n: nat)
    requires Plain(fields, rs) && n < |rs| && rs[n].One? && rs[n].j < |fields|
    requires fields[rs[n].j].ltype.SubmessageType?
    ensures !IsArray(fields[rs[n].j]) ==> !Has(rs[n + 1..], rs[n].j)
  {
    forall i | n < i < |rs| ensures PbRecords.Apart(fields, rs[n], rs[i]) {
    }
  }

  /** A submessage that gives no value is no part of any message either. */
  lemma NoValue(fields: seq<Field>, d: seq<seq<Value>>, rs: seq<Rec>, n: nat)
    requires Plain(fields, rs) && RecsOk(fields, rs) && n < |rs| && rs[n].One? && rs[n].j < |fields|
    requires rs[n].item.Nested? && forall v :: !ItemGives(fields[rs[n].j].ltype, rs[n].item, v)
    ensures !Delivers(fields, d, rs)
  {
    var r, a, b := rs[n], rs[..n], rs[n + 1..];
    var f := fields[r.j];
    if Delivers(fields, d, rs) {
      assert rs == (a + [r]) + b;
      assert Gives(f, r.j, d[r.j], (a + [r]) + b);
      if IsArray(f) {
        var m := GivesFront(f, r.j, d[r.j], a + [r], b);
        GivesSnoc(f, r.j, d[r.j][..m], a, r);
      } else {
        assert RecOk(fields, r);
        NoneAfter(fields, rs, n);
        GivesStill(f, r.j, d[r.j], a + [r], b);
        GivesSnoc(f, r.j, d[r.j], a, r);
      }
    }
  }

  /** A fixed-count array left behind with items missing never gets them. */
  lemma LeftBehind(fields: seq<Field>, d: seq<seq<Value>>, rs: seq<Rec>, n: nat, p: Progress)
    requires Plain(fields, rs) && n < |rs| && SoFar(fields, rs[..n], p) && p.fixed.Some? && !FixedDone(fields, p)
    requires !rs[n].Unknown? && rs[n].j < |fields| && fields[rs[n].j].rule.FixedCount? && rs[n].j != p.fixed.value
    ensures !Delivers(fields, d, rs)
  {
    var i, a, b := p.fixed.value, rs[..n], rs[n..];
    if Delivers(fields, d, rs) {
      assert rs == a + b;
      NotAgain(fields, rs, n, i);
      GivesCount(fields[i], i, p.dest[i], a);
      GivesCount(fields[i], i, d[i], a + b);
      CountRises(i, a, b);
      HasMore(a, b, i);
    }
  }

  lemma NotAgain(fields: seq<Field>, rs: seq<Rec>, n: nat, i: nat)
    requires Plain(fields, rs) && n < |rs| && i < |fields| && fields[i].rule.FixedCount? && Has(rs[..n], i)
    requires !rs[n].Unknown? && rs[n].j < |fields| && fields[rs[n].j].rule.FixedCount? && rs[n].j != i
    ensures !Has(rs[n..], i)
  {
    var x :| 0 <= x < n && Of(rs[..n][x], i);
    forall k | n < k < |rs| ensures Together(fields, rs[x], rs[n], rs[k]) {
    }
  }

  /** When a record cannot be taken, no message is delivered. */
  lemma NotTaken(fields: seq<Field>, d: seq<seq<Value>>, rs: seq<Rec>, n: nat, p: Progress)
    requires Plain(fields, rs) && RecsOk(fields, rs) && n < |rs| && SoFar(fields, rs[..n], p)
    requires RecExactly(fields, rs[n]) && TakeRec(fields, p, rs[n]) == None
    ensures !Delivers(fields, d, rs)
  {
    var r, a := rs[n], rs[..n];
    assert RecOk(fields, r) && FieldSoFar(fields, r.j, a, p);
    PlainAt(fields, rs, n);
    PreparedSame(fields, a, r, p);
    if Prepared(fields, r.j, p) == None {
      LeftBehind(fields, d, rs, n, p);
    } else {
      if r.One? && r.item.Nested? { FirstNested(fields, a, r, p); }
      SlotTaken(fields[r.j], r.j, p.dest[r.j], a, r);
      HasSnoc(a, r, r.j);
      assert rs == (a + [r]) + rs[n + 1..];
      if IsArray(fields[r.j]) && CountIn(r.j, a + [r]) > MaxItems(fields[r.j]) {
        TooMany(fields, d, a + [r], rs[n + 1..], r.j);
      } else if r.One? && r.item.Nested? {
        NoValue(fields, d, rs, n);
      } else {
        assert !RecReads(fields, rs[n]);
      }
    }
  }

  // ---------- whole messages ----------

  lemma NothingTaken(fields: seq<Field>)
    ensures SoFar(fields, [], Progress(Defaults(fields), None, {}))
  {
  }

  /** Either all records before n are taken, or no message is delivered. */
  lemma {:induction false} Taken(fields: seq<Field>, rs: seq<Rec>, n: nat, d: seq<seq<Value>>)
    requires Plain(fields, rs) && RecsOk(fields, rs) && n <= |rs|
    requires forall i :: 0 <= i < |rs| ==> RecExactly(fields, rs[i])
    ensures match TakeRecs(fields, Progress(Defaults(fields), None, {}), rs[..n])
            case Some(p) => SoFar(fields, rs[..n], p)
            case None => !Delivers(fields, d, rs)
    decreases n
  {
    var start := Progress(Defaults(fields), None, {});
    if n == 0 {
      NothingTaken(fields);
    } else {
      Taken(fields, rs, n - 1, d);
      assert rs[..n] == rs[..n - 1] + [rs[n - 1]] && rs[..n][..n - 1] == rs[..n - 1];
      match TakeRecs(fields, start, rs[..n - 1])
      case None =>
      case Some(p) =>
        assert RecOk(fields, rs[n - 1]);
        match TakeRec(fields, p, rs[n - 1])
        case Some(q) =>
          PlainAt(fields, rs, n - 1);
          OneTaken(fields, rs[..n - 1], rs[n - 1], p, q);
        case None =>
          NotTaken(fields, d, rs, n - 1, p);
    }
  }

  /** Records give a field one list of items only. */
  lemma {:induction false} GivesSame(f: Field, j: nat, a: seq<Value>, b: seq<Value>, rs: seq<Rec>)
    requires forall i :: 0 <= i < |rs| && Of(rs[i], j) && rs[i].One? ==> ItemExactly(f.ltype, rs[i].item)
    requires Gives(f, j, a, rs) && Gives(f, j, b, rs)
    ensures a == b
    decreases |rs|
  {
    if rs != [] {
      var n, r, before := |rs| - 1, rs[|rs| - 1], rs[..|rs| - 1];
      if !Of(r, j) {
        GivesSame(f, j, a, b, before);
      } else if r.Pack? {
        GivesSame(f, j, a[..|a| - |r.parts|], b[..|b| - |r.parts|], before);
        assert a == a[..|a| - |r.parts|] + a[|a| - |r.parts|..] && b == b[..|b| - |r.parts|] + b[|b| - |r.parts|..];
      } else if IsArray(f) {
        GivesSame(f, j, a[..|a| - 1], b[..|b| - 1], before);
        OneValue(f.ltype, r.item, a[|a| - 1], b[|b| - 1]);
        assert a == a[..|a| - 1] + [a[|a| - 1]] && b == b[..|b| - 1] + [b[|b| - 1]];
      } else {
        OneValue(f.ltype, r.item, a[0], b[0]);
        assert a == [a[0]] && b == [b[0]];
      }
    }
  }

  lemma OneValue(t: FieldType, item: Item, v: Value, w: Value)
    requires ItemExactly(t, item) && ItemGives(t, item, v) && ItemGives(t, item, w)
    ensures v == w
  {
    assert TakeItem(t, DefaultValue(t), item) == Some(v) && TakeItem(t, DefaultValue(t), item) == Some(w);
  }

  /** At the end: everything asked for has come exactly when a message is delivered. */
  lemma AtEnd(fields: seq<Field>, rs: seq<Rec>, p: Progress)
    requires SoFar(fields, rs, p)
    ensures FixedDone(fields, p) && AllSeen(fields, p.seen) <==> Delivers(fields, p.dest, rs)
  {
    SeenAll(fields, rs, p);
    forall j | 0 <= j < |fields|
      ensures FixedDone(fields, p)
              && (fields[j].rule.Required? && RequiredBefore(fields, j) < MAX_REQUIRED ==> Has(rs, j))
              ==> CountRight(fields, j, p.dest[j], rs)
    {
      assert FieldSoFar(fields, j, rs, p);
    }
    if Delivers(fields, p.dest, rs) && p.fixed.Some? {
      assert CountRight(fields, p.fixed.value, p.dest[p.fixed.value], rs);
    }
    forall j | 0 <= j < |fields| ensures Delivers(fields, p.dest, rs) ==> CountRight(fields, j, p.dest[j], rs) {
    }
  }

  lemma SeenAll(fields: seq<Field>, rs: seq<Rec>, p: Progress)
    requires SoFar(fields, rs, p)
    ensures AllSeen(fields, p.seen) <==>
              forall j :: 0 <= j < |fields| && fields[j].rule.Required? && RequiredBefore(fields, j) < MAX_REQUIRED ==>
                Has(rs, j)
  {
    if AllSeen(fields, p.seen) {
      forall j | 0 <= j < |fields| && fields[j].rule.Required? && RequiredBefore(fields, j) < MAX_REQUIRED
        ensures Has(rs, j)
      {
        RequiredRises(fields, j, |fields|);
        assert FieldSoFar(fields, j, rs, p);
      }
    } else {
      var r :| 0 <= r < RequiredBefore(fields, |fields|) && r < MAX_REQUIRED && r !in p.seen;
      var j := RequiredNumber(fields, |fields|, r);
      assert FieldSoFar(fields, j, rs, p);
    }
  }

  /** pb_decode on plain records: it succeeds exactly when they deliver a message, in
      whatever order they come and whatever unknown ones are among them, and that is the
      message it gives. */
  lemma {:induction false} TakenIsDelivered(fields: seq<Field>, rs: seq<Rec>, d: seq<seq<Value>>)
    requires RecsOk(fields, rs) && Plain(fields, rs)
    ensures TakeMessage(fields, Defaults(fields), rs) == Some(d) <==> Delivers(fields, d, rs)
    decreases rs
  {
    forall i | 0 <= i < |rs| ensures RecExactly(fields, rs[i]) {
      RecIsExact(fields, rs[i]);
    }
    Taken(fields, rs, |rs|, d);
    assert rs[..|rs|] == rs;
    match TakeRecs(fields, Progress(Defaults(fields), None, {}), rs)
    case None =>
    case Some(p) =>
      AtEnd(fields, rs, p);
      if Delivers(fields, d, rs) {
        forall j | 0 <= j < |fields| ensures d[j] == p.dest[j] {
          GivesSame(fields[j], j, d[j], p.dest[j], rs);
        }
        assert d == p.dest;
      }
  }

  lemma {:induction false} RecIsExact(fields: seq<Field>, r: Rec)
    requires RecOk(fields, r) && PlainRec(fields, r)
    ensures RecExactly(fields, r)
    decreases r
  {
    if r.One? {
      ItemIsExact(fields[r.j].ltype, r.item);
    }
  }

  lemma {:induction false} ItemIsExact(t: FieldType, item: Item)
    requires ItemOk(t, item) && (item.Nested? && t.SubmessageType? ==> Plain(t.fields, item.recs))
    ensures ItemExactly(t, item)
    decreases item
  {
    if item.Nested? {
      forall v ensures TakeItem(t, DefaultValue(t), item) == Some(v) <==> ItemGives(t, item, v) {
        if v.Msg? {
          TakenIsDelivered(t.fields, item.recs, v.slots);
        }
      }
    }
  }

  // ---------- what makes no difference ----------

  /** Whatever comes after, records that give the same and are of the same fields can
      stand for each other. */
  lemma {:induction false} GivesInstead(f: Field, j: nat, items: seq<Value>, a: seq<Rec>, a': seq<Rec>, b: seq<Rec>)
    requires forall vs :: Gives(f, j, vs, a) <==> Gives(f, j, vs, a')
    ensures Gives(f, j, items, a + b) <==> Gives(f, j, items, a' + b)
    decreases |b|
  {
    if b == [] {
      assert a + b == a && a' + b == a';
    } else {
      var n, r := |b| - 1, b[|b| - 1];
      assert a + b == (a + b[..n]) + [r] && a' + b == (a' + b[..n]) + [r];
      GivesSnoc(f, j, items, a + b[..n], r);
      GivesSnoc(f, j, items, a' + b[..n], r);
      if !Of(r, j) {
        GivesInstead(f, j, items, a, a', b[..n]);
      } else if r.Pack? && |r.parts| <= |items| {
        GivesInstead(f, j, items[..|items| - |r.parts|], a, a', b[..n]);
      } else if items != [] {
        GivesInstead(f, j, items[..|items| - 1], a, a', b[..n]);
      }
    }
  }

  lemma ReadMore(fields: seq<Field>, a: seq<Rec>, b: seq<Rec>)
    ensures RecsRead(fields, a + b) <==> RecsRead(fields, a) && RecsRead(fields, b)
  {
    forall i | 0 <= i < |a| ensures (a + b)[i] == a[i] {
    }
    forall i | 0 <= i < |b| ensures (a + b)[|a| + i] == b[i] {
    }
  }

  /** Records that give every field the same deliver the same. */
  lemma DeliversInstead(fields: seq<Field>, d: seq<seq<Value>>, a: seq<Rec>, a': seq<Rec>, b: seq<Rec>)
    requires forall j, vs :: 0 <= j < |fields| ==> (Gives(fields[j], j, vs, a) <==> Gives(fields[j], j, vs, a'))
    requires forall j :: 0 <= j < |fields| ==> (Has(a, j) <==> Has(a', j))
    requires RecsRead(fields, a) <==> RecsRead(fields, a')
    ensures Delivers(fields, d, a + b) <==> Delivers(fields, d, a' + b)
  {
    ReadMore(fields, a, b);
    ReadMore(fields, a', b);
    if |d| == |fields| {
      forall j | 0 <= j < |fields|
        ensures Gives(fields[j], j, d[j], a + b) <==> Gives(fields[j], j, d[j], a' + b)
        ensures CountRight(fields, j, d[j], a + b) <==> CountRight(fields, j, d[j], a' + b)
      {
        GivesInstead(fields[j], j, d[j], a, a', b);
        HasMore(a, b, j);
        HasMore(a', b, j);
      }
    }
  }

  /** A record of an unknown field says nothing. */
  lemma UnknownInserted(fields: seq<Field>, d: seq<seq<Value>>, a: seq<Rec>, r: Rec, b: seq<Rec>)
    requires r.Unknown?
    ensures Delivers(fields, d, a + [r] + b) <==> Delivers(fields, d, a + b)
  {
    forall j, vs | 0 <= j < |fields| ensures Gives(fields[j], j, vs, a + [r]) <==> Gives(fields[j], j, vs, a) {
      GivesSnoc(fields[j], j, vs, a, r);
    }
    forall j | 0 <= j < |fields| ensures Has(a + [r], j) <==> Has(a, j) {
      HasSnoc(a, r, j);
    }
    ReadMore(fields, a, [r]);
    DeliversInstead(fields, d, a + [r], a, b);
  }

  /** The items of a packed record, sent one by one. */
  function Ones(j: nat, parts: seq<Bytes>): seq<Rec> {
    seq(|parts|, i requires 0 <= i < |parts| => One(j, Raw(parts[i])))
  }

  lemma {:induction false} OnesGive(f: Field, j: nat, items: seq<Value>, a: seq<Rec>, parts: seq<Bytes>)
    requires IsArray(f) && AllRead(f.ltype, parts)
    ensures Gives(f, j, items, a + Ones(j, parts)) <==>
              |parts| <= |items| && items[|items| - |parts|..] == Values(f.ltype, parts)
                && Gives(f, j, items[..|items| - |parts|], a)
    decreases |parts|
  {
    if parts == [] {
      assert a + Ones(j, parts) == a && items[..|items|] == items;
    } else {
      var n, m, vs := |parts| - 1, |items|, Values(f.ltype, parts);
      var r := One(j, Raw(parts[n]));
      assert a + Ones(j, parts) == (a + Ones(j, parts[..n])) + [r];
      GivesSnoc(f, j, items, a + Ones(j, parts[..n]), r);
      if m > 0 {
        OnesGive(f, j, items[..m - 1], a, parts[..n]);
        if m > n {
          assert items[..m - 1][..m - 1 - n] == items[..m - |parts|];
          assert items[m - |parts|..] == items[..m - 1][m - 1 - n..] + [items[m - 1]];
          assert vs == Values(f.ltype, parts[..n]) + [vs[n]];
        }
      }
    }
  }

  lemma OnesRead(fields: seq<Field>, j: nat, parts: seq<Bytes>)
    requires j < |fields|
    ensures RecsRead(fields, Ones(j, parts)) <==> RecReads(fields, Pack(j, parts))
  {
    if RecsRead(fields, Ones(j, parts)) {
      forall i | 0 <= i < |parts| ensures Reads(fields[j].ltype, parts[i]).Some? {
        assert RecReads(fields, Ones(j, parts)[i]);
      }
    }
  }

  /** A packed array says what its items say one by one. */
  lemma PackedOrNot(fields: seq<Field>, d: seq<seq<Value>>, a: seq<Rec>, j: nat, parts: seq<Bytes>, b: seq<Rec>)
    requires j < |fields| && IsArray(fields[j]) && parts != []
    ensures Delivers(fields, d, a + [Pack(j, parts)] + b) <==> Delivers(fields, d, a + Ones(j, parts) + b)
  {
    var r := Pack(j, parts);
    OnesRead(fields, j, parts);
    ReadMore(fields, a, [r]);
    ReadMore(fields, a, Ones(j, parts));
    ReadMore(fields, a + [r], b);
    ReadMore(fields, a + Ones(j, parts), b);
    assert RecsRead(fields, [r]) <==> RecReads(fields, [r][0]);
    if RecReads(fields, r) {
      SameReadOut(fields, a, j, parts);
      DeliversInstead(fields, d, a + [r], a + Ones(j, parts), b);
    }
  }

  lemma SameReadOut(fields: seq<Field>, a: seq<Rec>, j: nat, parts: seq<Bytes>)
    requires j < |fields| && IsArray(fields[j]) && parts != [] && AllRead(fields[j].ltype, parts)
    ensures forall i, us :: 0 <= i < |fields| ==>
              (Gives(fields[i], i, us, a + [Pack(j, parts)]) <==> Gives(fields[i], i, us, a + Ones(j, parts)))
    ensures forall i :: 0 <= i < |fields| ==> (Has(a + [Pack(j, parts)], i) <==> Has(a + Ones(j, parts), i))
  {
    var r := Pack(j, parts);
    forall i, us | 0 <= i < |fields|
      ensures Gives(fields[i], i, us, a + [r]) <==> Gives(fields[i], i, us, a + Ones(j, parts))
    {
      GivesSnoc(fields[i], i, us, a, r);
      if i == j {
        OnesGive(fields[i], i, us, a, parts);
      } else {
        GivesStill(fields[i], i, us, a, Ones(j, parts));
      }
    }
    forall i | 0 <= i < |fields| ensures Has(a + [r], i) <==> Has(a + Ones(j, parts), i) {
      HasSnoc(a, r, i);
      HasMore(a, Ones(j, parts), i);
      assert Of(Ones(j, parts)[0], j);
    }
  }

  /** Of a field that is no array only the last record counts; but a value that does not
      fit is an error wherever it stands. */
  lemma LastCounts(fields: seq<Field>, d: seq<seq<Value>>, a: seq<Rec>, r: Rec, s: Rec, b: seq<Rec>)
    requires r.One? && s.One? && r.j == s.j < |fields| && !IsArray(fields[r.j])
    ensures Delivers(fields, d, a + [r] + [s] + b) <==> RecReads(fields, r) && Delivers(fields, d, a + [s] + b)
  {
    forall j, vs | 0 <= j < |fields|
      ensures Gives(fields[j], j, vs, a + [r] + [s]) <==> Gives(fields[j], j, vs, a + [s])
    {
      GivesSnoc(fields[j], j, vs, a + [r], s);
      GivesSnoc(fields[j], j, vs, a, s);
      GivesSnoc(fields[j], j, vs, a, r);
    }
    forall j | 0 <= j < |fields| ensures Has(a + [r] + [s], j) <==> Has(a + [s], j) {
      HasSnoc(a + [r], s, j);
      HasSnoc(a, s, j);
      HasSnoc(a, r, j);
    }
    ReadMore(fields, a, [r]);
    ReadMore(fields, a + [r], [s]);
    ReadMore(fields, a, [s]);
    ReadMore(fields, a + [r] + [s], b);
    assert RecsRead(fields, [r]) <==> RecReads(fields, [r][0]);
    if RecReads(fields, r) {
      DeliversInstead(fields, d, a + [r] + [s], a + [s], b);
    }
  }
}
