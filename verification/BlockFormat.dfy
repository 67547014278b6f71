/** The block format and its builder (block_builder.cc): keys share prefixes with
    the key before, except at restart points, whose offsets end the block. */
module BlockFormat {
  import opened Keys
  import opened Coding

  datatype Pair = Pair(key: Bytes, value: Bytes)

  // ---------- the layout ----------

  /** Length of the common prefix. */
  function Shared(a: Bytes, b: Bytes): (n: nat)
    ensures n <= |a| && n <= |b| && a[..n] == b[..n]
    ensures n < |a| && n < |b| ==> a[n] != b[n]
  {
    if a == [] || b == [] || a[0] != b[0] then 0 else 1 + Shared(a[1..], b[1..])
  }

  /** counter_ when entry i is added: entries since the last restart point. */
  function Counter(interval: nat, i: nat): nat {
    if i == 0 then 0 else (if Counter(interval, i - 1) < interval then Counter(interval, i - 1) else 0) + 1
  }

  predicate IsRestart(interval: nat, i: nat) {
    i == 0 || Counter(interval, i) >= interval
  }

  /** The entries at restart points among the first n; the first block has one at
      offset 0 even when it is empty. */
  function RestartEntries(interval: nat, n: nat): (rs: seq<nat>)
    ensures |rs| > 0 && rs[0] == 0
  {
    if n == 0 then [0]
    else RestartEntries(interval, n - 1) + if n > 1 && IsRestart(interval, n - 1) then [n - 1] else []
  }

  function SharedAt(es: seq<Pair>, interval: nat, i: nat): (n: nat)
    requires i < |es|
    ensures n <= |es[i].key|
    ensures i > 0 ==> n <= |es[i - 1].key| && es[i - 1].key[..n] == es[i].key[..n]
  {
    if IsRestart(interval, i) then 0 else Shared(es[i - 1].key, es[i].key)
  }

  function EntryBytes(shared: nat, e: Pair): Bytes
    requires shared <= |e.key|
  {
    Varint(shared) + Varint(|e.key| - shared) + Varint(|e.value|) + e.key[shared..] + e.value
  }

  /** buffer_ after the first n entries. */
  function Buffer(es: seq<Pair>, interval: nat, n: nat): Bytes
    requires n <= |es|
  {
    if n == 0 then [] else Buffer(es, interval, n - 1) + EntryBytes(SharedAt(es, interval, n - 1), es[n - 1])
  }

  function Offset(es: seq<Pair>, interval: nat, i: nat): nat
    requires i <= |es|
  {
    |Buffer(es, interval, i)|
  }

  /** restarts_ after all entries. */
  function Restarts(es: seq<Pair>, interval: nat): (ns: seq<nat>)
    ensures |ns| == |RestartEntries(interval, |es|)|
  {
    RestartsBound(interval, |es|);
    var rs := RestartEntries(interval, |es|);
    seq(|rs|, j requires 0 <= j < |rs| => Offset(es, interval, rs[j]))
  }

  /** A finished block. */
  function BlockBytes(es: seq<Pair>, interval: nat): Bytes {
    Buffer(es, interval, |es|) + Words(Restarts(es, interval)) + Fixed(|Restarts(es, interval)|, 4)
  }

  lemma {:induction false} RestartsBound(interval: nat, n: nat)
    ensures forall j :: 0 <= j < |RestartEntries(interval, n)| ==> RestartEntries(interval, n)[j] <= n
    ensures n > 0 ==> forall j :: 0 <= j < |RestartEntries(interval, n)| ==> RestartEntries(interval, n)[j] < n
    ensures forall i, j :: 0 <= i < j < |RestartEntries(interval, n)| ==>
              RestartEntries(interval, n)[i] < RestartEntries(interval, n)[j]
    ensures forall j :: 0 <= j < |RestartEntries(interval, n)| ==> IsRestart(interval, RestartEntries(interval, n)[j])
  {
    if n > 0 {
      RestartsBound(interval, n - 1);
    }
  }

  lemma {:induction false} BufferPrefix(es: seq<Pair>, interval: nat, m: nat, n: nat)
    requires m <= n <= |es|
    ensures Buffer(es, interval, m) <= Buffer(es, interval, n)
    decreases n
  {
    if m < n {
      BufferPrefix(es, interval, m, n - 1);
    }
  }

  /** The layout of the entries so far does not depend on those to come. */
  lemma {:induction false} BufferOf(es: seq<Pair>, e: Pair, interval: nat, n: nat)
    requires n <= |es|
    ensures Buffer(es + [e], interval, n) == Buffer(es, interval, n)
  {
    if n > 0 {
      BufferOf(es, e, interval, n - 1);
      assert (es + [e])[n - 1] == es[n - 1] && (n > 1 ==> (es + [e])[n - 2] == es[n - 2]);
    }
  }

  // ---------- the builder ----------

  class BlockBuilder {
    const interval: nat
    var buffer: Bytes
    var restarts: seq<nat>
    var counter: nat
    var lastKey: Bytes
    ghost var entries: seq<Pair>

    ghost predicate Valid()
      reads this
    {
      && interval >= 1
      && buffer == Buffer(entries, interval, |entries|) && restarts == Restarts(entries, interval)
      && counter == Counter(interval, |entries|)
      && lastKey == if entries == [] then [] else entries[|entries| - 1].key
    }

    constructor (interval: nat)
      requires interval >= 1
      ensures Valid() && entries == [] && this.interval == interval
    {
      this.interval, buffer, restarts, counter, lastKey, entries := interval, [], [0], 0, [], [];
    }

    /** Appends an entry; the block's contents grow by that entry alone. */
    method Add(key: Bytes, value: Bytes)
      requires Valid()
      modifies this
      ensures Valid() && entries == old(entries) + [Pair(key, value)]
    {
      ghost var e := Pair(key, value);
      Grown(entries, e, interval, lastKey);
      var shared := 0;
      if counter < interval {
        shared := SharedLength(lastKey, key);
      } else {
        restarts := restarts + [|buffer|];
        counter := 0;
      }
      buffer := buffer + EntryBytes(shared, Pair(key, value));
      lastKey := lastKey[..shared] + key[shared..];
      counter := counter + 1;
      entries := entries + [e];
    }

    /** The finished block. */
    method Finish() returns (block: Bytes)
      requires Valid()
      ensures block == BlockBytes(entries, interval)
    {
      var tail := AppendWords(restarts);
      block := buffer + tail + Fixed(|restarts|, 4);
    }
  }

  method SharedLength(a: Bytes, b: Bytes) returns (n: nat)
    ensures n == Shared(a, b)
  {
    var minLength := if |a| < |b| then |a| else |b|;
    n := 0;
    while n < minLength && a[n] == b[n]
      invariant n <= minLength && a[..n] == b[..n]
    {
      n := n + 1;
    }
    SharedUnique(a, b, n);
  }

  lemma {:induction false} SharedUnique(a: Bytes, b: Bytes, n: nat)
    requires n <= |a| && n <= |b| && a[..n] == b[..n]
    requires n < |a| && n < |b| ==> a[n] != b[n]
    ensures Shared(a, b) == n
  {
    if n > 0 {
      assert a[0] == a[..n][0] == b[..n][0] == b[0];
      assert a[1..][..n - 1] == a[..n][1..] == b[..n][1..] == b[1..][..n - 1];
      SharedUnique(a[1..], b[1..], n - 1);
    }
  }

  lemma EntryAdded(es: seq<Pair>, e: Pair, interval: nat, lastKey: Bytes)
    requires interval >= 1 && lastKey == if es == [] then [] else es[|es| - 1].key
    ensures var shared := if Counter(interval, |es|) < interval then Shared(lastKey, e.key) else 0;
            && Buffer(es + [e], interval, |es| + 1) == Buffer(es, interval, |es|) + EntryBytes(shared, e)
            && lastKey[..shared] + e.key[shared..] == e.key
  {
    BufferOf(es, e, interval, |es|);
  }

  /** What one more entry does to the builder's buffer, restart points, counter and last key. */
  lemma Grown(es: seq<Pair>, e: Pair, interval: nat, lastKey: Bytes)
    requires interval >= 1 && lastKey == if es == [] then [] else es[|es| - 1].key
    ensures var n, es' := |es|, es + [e];
            var restart := Counter(interval, n) >= interval;
            var shared := if restart then 0 else Shared(lastKey, e.key);
            && Buffer(es', interval, n + 1) == Buffer(es, interval, n) + EntryBytes(shared, e)
            && Restarts(es', interval) == Restarts(es, interval) + (if restart then [|Buffer(es, interval, n)|] else [])
            && Counter(interval, n + 1) == (if restart then 0 else Counter(interval, n)) + 1
            && lastKey[..shared] + e.key[shared..] == e.key
  {
    RestartsGrow(es, e, interval);
    EntryAdded(es, e, interval, lastKey);
  }

  lemma RestartsGrow(es: seq<Pair>, e: Pair, interval: nat)
    requires interval >= 1
    ensures Restarts(es + [e], interval)
         == Restarts(es, interval) + if |es| > 0 && IsRestart(interval, |es|) then [Offset(es, interval, |es|)] else []
    ensures |es| == 0 ==> Counter(interval, 0) < interval
  {
    var es' := es + [e];
    RestartsBound(interval, |es|);
    RestartsBound(interval, |es'|);
    var rs, rs' := RestartEntries(interval, |es|), RestartEntries(interval, |es'|);
    forall j | 0 <= j < |rs'| ensures rs'[j] <= |es| && Offset(es', interval, rs'[j]) == Offset(es, interval, rs'[j]) {
      BufferOf(es, e, interval, rs'[j]);
    }
  }
}
