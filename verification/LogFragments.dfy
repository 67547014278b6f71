/** What the bytes of a log say on their own (log_format.h): where its fragments are,
    which of them are sound, and which sequences of them are records.  The file may be
    damaged anywhere. */
module LogFragments {
  import opened Keys
  import opened Coding
  import opened LogFile

  function BlockEnd(n: nat): (e: nat)
    ensures n < e <= n + BLOCK
  {
    n - InBlock(n) + BLOCK
  }

  /** The end of the block position x lies in, or of the file. */
  function Limit(file: Bytes, x: nat): nat {
    if BlockEnd(x) <= |file| then BlockEnd(x) else |file|
  }

  /** The next place at or after x where a header can be: the last bytes of a block that
      are too few for one are passed over. */
  function HeaderFrom(x: nat): (y: nat)
    ensures x <= y && y + HEADER <= BlockEnd(y)
  {
    if BlockEnd(x) - x < HEADER then BlockEnd(x) else x
  }

  predicate HasHeader(file: Bytes, x: nat) {
    x + HEADER <= Limit(file, x)
  }

  function LengthAt(file: Bytes, x: nat): nat
    requires HasHeader(file, x)
  {
    file[x + 4] as nat + 256 * file[x + 5] as nat
  }

  function KindAt(file: Bytes, x: nat): byte
    requires HasHeader(file, x)
  {
    file[x + 6]
  }

  function EndAt(file: Bytes, x: nat): (e: nat)
    requires HasHeader(file, x)
    ensures e >= x + HEADER
  {
    x + HEADER + LengthAt(file, x)
  }

  /** The fragment lies in its block, and the checksum stored in its first four bytes is
      that of its type and payload. */
  ghost predicate Sound(sum: Bytes -> word, file: Bytes, x: nat) {
    && HasHeader(file, x) && EndAt(file, x) <= Limit(file, x)
    && !(KindAt(file, x) == ZERO_TYPE && LengthAt(file, x) == 0)
    && Unmask(DecodeFixed32(file[x..x + 4])) == sum(file[x + 6..EndAt(file, x)])
  }

  function PayloadAt(file: Bytes, x: nat): Bytes
    requires HasHeader(file, x) && EndAt(file, x) <= |file|
  {
    file[x + HEADER..EndAt(file, x)]
  }

  /** A fragment that is not sound: its length leads out of a whole block, or its stored
      checksum is another.  A zero type with no payload is left by preallocation. */
  ghost predicate Damaged(sum: Bytes -> word, file: Bytes, x: nat) {
    && HasHeader(file, x) && !(KindAt(file, x) == ZERO_TYPE && LengthAt(file, x) == 0) && !Sound(sum, file, x)
    && (EndAt(file, x) <= Limit(file, x) || BlockEnd(x) <= |file|)
  }

  // ---------- records ----------

  /** Sound fragments, each where the one before ends, trailers aside. */
  ghost predicate Chain(sum: Bytes -> word, file: Bytes, xs: seq<nat>) {
    && (forall i :: 0 <= i < |xs| ==> Sound(sum, file, xs[i]))
    && forall i :: 0 < i < |xs| ==> xs[i] == HeaderFrom(EndAt(file, xs[i - 1]))
  }

  /** FIRST, then MIDDLE fragments only. */
  ghost predicate Begun(sum: Bytes -> word, file: Bytes, xs: seq<nat>) {
    && Chain(sum, file, xs) && |xs| > 0 && KindAt(file, xs[0]) == FIRST
    && forall i :: 0 < i < |xs| ==> KindAt(file, xs[i]) == MIDDLE
  }

  /** FULL, or FIRST, MIDDLE fragments and LAST. */
  ghost predicate Complete(sum: Bytes -> word, file: Bytes, xs: seq<nat>) {
    && Chain(sum, file, xs) && |xs| > 0
    && if |xs| == 1 then KindAt(file, xs[0]) == FULL
       else Begun(sum, file, xs[..|xs| - 1]) && KindAt(file, xs[|xs| - 1]) == LAST
  }

  ghost function Payloads(sum: Bytes -> word, file: Bytes, xs: seq<nat>): Bytes
    requires Chain(sum, file, xs)
  {
    if xs == [] then [] else
      Payloads(sum, file, xs[..|xs| - 1]) + PayloadAt(file, xs[|xs| - 1])
  }

  /** The record that these fragments carry. */
  ghost predicate Carry(sum: Bytes -> word, file: Bytes, xs: seq<nat>, record: Bytes) {
    Complete(sum, file, xs) && record == Payloads(sum, file, xs)
  }

  /** The bytes hold the record: some sound fragments carry it. */
  ghost predicate Genuine(sum: Bytes -> word, file: Bytes, record: Bytes) {
    exists xs :: Carry(sum, file, xs, record)
  }

  /** Where a reader that is at x goes on: past a sound fragment; past the whole rest of
      the block if the fragment is not. */
  ghost function Past(sum: Bytes -> word, file: Bytes, x: nat): nat {
    if Sound(sum, file, x) then EndAt(file, x) else Limit(file, x)
  }

  /** The headers a reader meets from position a on, before position b. */
  ghost function Headers(sum: Bytes -> word, file: Bytes, a: nat, b: nat): (xs: seq<nat>)
    decreases b - a
  {
    var x := HeaderFrom(a);
    if x >= b || !HasHeader(file, x) then [] else [x] + Headers(sum, file, Past(sum, file, x), b)
  }
}
