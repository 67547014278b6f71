/** The converse of PbSent: what the records of a message deliver can be delivered only if
    every string, array and submessage of it fits. */
module PbFits {
  import opened Keys
  import opened Coding
  import opened PbMessage
  import opened PbFieldIter
  import opened PbStructure
  import opened PbRecords
  import opened PbLaws
  import opened PbSent

  /** The fields from n on have no records of fields before n. */
  lemma {:induction false} NoneBefore(fields: seq<Field>, slots: seq<seq<Value>>, ks: seq<bool>, n: nat, j: nat)
    requires |fields| == |slots| == |ks| && j < n
    requires forall i :: 0 <= i < |fields| ==> SlotTyped(fields[i], slots[i])
    ensures !Has(RecsOf(fields, slots, ks, n), j)
    decreases fields
  {
    if fields != [] {
      var k, n' := if ks[0] then Some(n) else None, if ks[0] then n + 1 else n;
      var a, b := FieldRecs(fields[0], k, slots[0]), RecsOf(fields[1..], slots[1..], ks[1..], n');
      FieldInOrder(fields[0], k, slots[0]);
      NoneBefore(fields[1..], slots[1..], ks[1..], n', j);
      HasMore(a, b, j);
    }
  }

  /** If the records deliver anything, the fields they are of fit. */
  lemma {:induction false} MessageFits(fields: seq<Field>, slots: seq<seq<Value>>, ks: seq<bool>, n: nat,
                                       sub: seq<Field>, d: seq<seq<Value>>, before: seq<Rec>)
    requires |fields| == |slots| && Knows(sub, n, fields, ks)
    requires forall i :: 0 <= i < |fields| ==> FieldWellFormed(fields[i]) && SlotTyped(fields[i], slots[i])
    requires Delivers(sub, d, before + RecsOf(fields, slots, ks, n)) && forall j :: n <= j < |sub| ==> !Has(before, j)
    ensures forall i :: 0 <= i < |fields| && ks[i] ==> FieldRestorable(fields[i], slots[i])
    decreases fields, 1
  {
    if fields != [] {
      var k, n' := if ks[0] then Some(n) else None, if ks[0] then n + 1 else n;
      var a, b := FieldRecs(fields[0], k, slots[0]), RecsOf(fields[1..], slots[1..], ks[1..], n');
      KnowsNext(sub, n, fields, ks);
      FieldInOrder(fields[0], k, slots[0]);
      assert before + (a + b) == before + a + b;
      forall j | n' <= j < |sub| ensures !Has(before + a, j) {
        HasMore(before, a, j);
      }
      MessageFits(fields[1..], slots[1..], ks[1..], n', sub, d, before + a);
      if ks[0] {
        NoneBefore(fields[1..], slots[1..], ks[1..], n', n);
        FieldFits(fields[0], n, slots[0], sub, d, before, b);
      }
      forall i | 0 <= i < |fields| && ks[i] ensures FieldRestorable(fields[i], slots[i]) {
        assert i > 0 ==> fields[i] == fields[1..][i - 1] && slots[i] == slots[1..][i - 1] && ks[1..][i - 1];
      }
    }
  }

  lemma {:induction false} FieldFits(f: Field, j: nat, items: seq<Value>, sub: seq<Field>, d: seq<seq<Value>>,
                                     before: seq<Rec>, after: seq<Rec>)
    requires FieldWellFormed(f) && SlotTyped(f, items) && j < |sub| && sub[j] == f
    requires Delivers(sub, d, before + FieldRecs(f, Some(j), items) + after) && !Has(before, j) && !Has(after, j)
    ensures FieldRestorable(f, items)
    decreases f, 1
  {
    var rs := FieldRecs(f, Some(j), items);
    var all := before + rs + after;
    if !Skipped(f, items) && items != [] {
      assert Gives(f, j, d[j], all) && CountRight(sub, j, d[j], all);
      if IsArray(f) {
        GivesCount(f, j, d[j], all);
        CountRises(j, before + rs, after);
        CountAll(f, j, items, before);
      }
      forall i | 0 <= i < |items| ensures Restorable(f.ltype, items[i]) {
        if !IsPacked(f) {
          ItemOfField(f, j, items, sub, d, before, after, i);
        }
      }
    }
  }

  lemma ItemOfField(f: Field, j: nat, items: seq<Value>, sub: seq<Field>, d: seq<seq<Value>>, before: seq<Rec>,
                    after: seq<Rec>, i: nat)
    requires FieldWellFormed(f) && SlotTyped(f, items) && j < |sub| && sub[j] == f && !Skipped(f, items)
    requires Delivers(sub, d, before + FieldRecs(f, Some(j), items) + after) && !Has(before, j) && !Has(after, j)
    requires i < |items| && !IsPacked(f)
    ensures Restorable(f.ltype, items[i])
    decreases f, 0
  {
    var rs, t, v := FieldRecs(f, Some(j), items), f.ltype, items[i];
    var all := before + rs + after;
    assert rs[i] == ItemRec(f, Some(j), v) == One(j, ItemOf(t, v));
    assert all[|before| + i] == rs[i];
    if !t.SubmessageType? {
      assert RecReads(sub, all[|before| + i]);
      ReadsBack(t, v);
    } else if IsArray(f) {
      var front, back := before + rs[..i], rs[i + 1..] + after;
      assert all == front + [rs[i]] + back;
      var m := GivesFront(f, j, d[j], front + [rs[i]], back);
      GivesSnoc(f, j, d[j][..m], front, rs[i]);
      ItemFits(t, v, d[j][..m][m - 1]);
    } else {
      assert rs == [rs[0]];
      GivesStill(f, j, d[j], before + rs, after);
      GivesSnoc(f, j, d[j], before, rs[0]);
      ItemFits(t, v, d[j][0]);
    }
  }

  lemma {:induction false} ItemFits(t: FieldType, v: Value, w: Value)
    requires TypeWellFormed(t) && t.SubmessageType? && Typed(t, v) && ItemGives(t, ItemOf(t, v), w)
    ensures Restorable(t, v)
    decreases t
  {
    var rs := RecsOf(t.fields, v.slots, All(|t.fields|), 0);
    SubAll(t.fields);
    assert t.fields[0..] == t.fields && [] + rs == rs;
    MessageFits(t.fields, v.slots, All(|t.fields|), 0, t.fields, w.slots, []);
  }

  /** The records of an array have all of its items. */
  lemma CountAll(f: Field, j: nat, items: seq<Value>, before: seq<Rec>)
    requires SlotTyped(f, items) && IsArray(f) && items != []
    ensures CountIn(j, before + FieldRecs(f, Some(j), items)) >= |items|
  {
    var rs := FieldRecs(f, Some(j), items);
    if IsPacked(f) {
      CountSnoc(j, before, rs[0]);
      assert rs == [rs[0]];
    } else {
      CountOnes(j, before, rs);
    }
  }

  lemma {:induction false} CountOnes(j: nat, before: seq<Rec>, rs: seq<Rec>)
    requires forall i :: 0 <= i < |rs| ==> rs[i].One? && rs[i].j == j
    ensures CountIn(j, before + rs) >= |rs|
    decreases |rs|
  {
    if rs != [] {
      var n := |rs| - 1;
      assert before + rs == (before + rs[..n]) + [rs[n]];
      CountSnoc(j, before + rs[..n], rs[n]);
      CountOnes(j, before, rs[..n]);
    }
  }
}
