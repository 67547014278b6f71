/** Recovering a version from the bytes of a manifest that a crash may have cut off
    (VersionSet::Recover, version_set.cc lines 886-994). */
module ManifestFile {
  import opened Keys
  import opened Levels
  import opened Coding
  import opened Comparator
  import opened LogFile
  import opened LogReader
  import opened Inputs
  import opened Edits
  import opened Db
  import opened DecodedTable
  import opened Manifests
  import opened Store
  import V = VersionEdit

  /** What a table file holds, by its number. */
  type Tables = nat -> seq<Entry>

  // ---------- what a record says ----------

  function KeyOf(b: Bytes): IKey {
    if IsInternal(b) then DecodeKey(b) else IKey(0.0, 0, Deletion)
  }

  function FileOf(tables: Tables, f: V.NewFile): File {
    File(f.number, f.size, KeyOf(f.smallest), KeyOf(f.largest), tables(f.number))
  }

  function EditOf(tables: Tables, e: V.Fields): Edit {
    Edit(set d | d in e.deletedFiles,
         seq(|e.newFiles|, i requires 0 <= i < |e.newFiles| => (e.newFiles[i].level, FileOf(tables, e.newFiles[i]))))
  }

  function NumbersOf(e: V.Fields): Option<Numbers> {
    if e.logNumber.Some? && e.nextFileNumber.Some? && e.lastSequence.Some?
    then Some(Numbers(e.logNumber.value, e.nextFileNumber.value, e.lastSequence.value)) else None
  }

  function Marks(tables: Tables, es: seq<V.Fields>): (ms: seq<Mark>)
    ensures |ms| == |es| && forall i :: 0 <= i < |es| ==> ms[i] == Mark(EditOf(tables, es[i]), NumbersOf(es[i]))
  {
    seq(|es|, i requires 0 <= i < |es| => Mark(EditOf(tables, es[i]), NumbersOf(es[i])))
  }

  /** The records of the manifest's log. */
  function Encodings(es: seq<V.Fields>): (rs: seq<Bytes>)
    ensures |rs| == |es| && forall i :: 0 <= i < |es| ==> rs[i] == V.Encoding(es[i])
  {
    seq(|es|, i requires 0 <= i < |es| => V.Encoding(es[i]))
  }

  // ---------- the counters ----------

  /** have_log_number and the rest, with their values. */
  datatype Found = Found(logNumber: Option<nat>, prevLogNumber: Option<nat>, nextFile: Option<nat>,
                         lastSequence: Option<nat>)

  function Later(now: Option<nat>, was: Option<nat>): Option<nat> {
    if now.Some? then now else was
  }

  function Take(c: Found, e: V.Fields): Found {
    Found(Later(e.logNumber, c.logNumber), Later(e.prevLogNumber, c.prevLogNumber),
          Later(e.nextFileNumber, c.nextFile), Later(e.lastSequence, c.lastSequence))
  }

  /** The last value each counter was given. */
  function Counted(es: seq<V.Fields>): Found {
    if es == [] then Found(None, None, None, None) else Take(Counted(es[..|es| - 1]), es[|es| - 1])
  }

  datatype Status = Ok | NotAnEdit | WrongComparator | NoNextFile | NoLogNumber | NoLastSequence

  /** A record names another comparator. */
  predicate Foreign(name: Bytes, e: V.Fields) {
    e.comparator.Some? && e.comparator.value != name
  }

  function Complete(c: Found): Status {
    if c.nextFile == None then NoNextFile else if c.logNumber == None then NoLogNumber
    else if c.lastSequence == None then NoLastSequence else Ok
  }

  // ---------- recovering ----------

  /** The records are edits a Builder takes. */
  ghost predicate Applicable(tables: Tables, es: seq<V.Fields>) {
    && (forall e :: e in es ==> V.Encodable(e))
    && (forall e :: e in es ==> EditOk(EditOf(tables, e)))
    && forall l :: 0 <= l < LEVELS ==> AddedOnce({}, EditsOf(Marks(tables, es)), l)
  }

  lemma ApplicableFront(tables: Tables, es: seq<V.Fields>, n: nat)
    requires Applicable(tables, es) && n <= |es|
    ensures Applicable(tables, es[..n])
    decreases |es| - n
  {
    if n < |es| {
      ApplicableFront(tables, es, n + 1);
      OnceFront(tables, es[..n + 1]);
      assert es[..n + 1][..n] == es[..n];
    } else {
      assert es[..n] == es;
    }
  }

  lemma OnceFront(tables: Tables, es: seq<V.Fields>)
    requires Applicable(tables, es) && es != []
    ensures Applicable(tables, es[..|es| - 1])
  {
    var n := |es| - 1;
    var all, front := EditsOf(Marks(tables, es)), EditsOf(Marks(tables, es[..n]));
    assert all != [] && all[..|all| - 1] == front;
    forall l | 0 <= l < LEVELS ensures AddedOnce({}, front, l) {
      assert AddedOnce({}, all, l);
    }
  }

  /** One more edit for the builder. */
  lemma NextEdit(tables: Tables, es: seq<V.Fields>, i: nat)
    requires Applicable(tables, es) && i < |es|
    ensures var edits := EditsOf(Marks(tables, es[..i]));
            && EditsOf(Marks(tables, es[..i + 1])) == edits + [EditOf(tables, es[i])]
            && (forall l :: 0 <= l < LEVELS ==> AddedOnce({}, edits + [EditOf(tables, es[i])], l))
            && Counted(es[..i + 1]) == Take(Counted(es[..i]), es[i])
  {
    ApplicableFront(tables, es, i + 1);
    assert es[..i + 1][..i] == es[..i];
    assert EditsOf(Marks(tables, es[..i + 1])) == EditsOf(Marks(tables, es[..i])) + [EditOf(tables, es[i])];
  }

  /** Reads one record into a new VersionEdit. */
  method ReadEdit(record: Bytes, ghost was: V.Fields) returns (ok: bool, e: V.Fields)
    ensures V.Encodable(was) && record == V.Encoding(was) ==> ok && e == was
  {
    var edit := new V.VersionEdit();
    ok := edit.DecodeFrom(record, was);
    e := edit.fields;
    assert [] + was.compactPointers == was.compactPointers;
  }

  /** One round of the loop over the records. */
  method ReplayEdit(builder: Builder, record: Bytes, name: Bytes, tables: Tables, was: Found, ghost es: seq<V.Fields>,
                    ghost i: nat)
    returns (s: Status, c: Found)
    requires Applicable(tables, es) && i < |es| && record == V.Encoding(es[i]) && was == Counted(es[..i])
    requires builder.Valid() && builder.edits == EditsOf(Marks(tables, es[..i])) && Blank(builder.base)
    modifies builder
    ensures builder.Valid() && s == if Foreign(name, es[i]) then WrongComparator else Ok
    ensures c == Counted(es[..i + 1])
    ensures s == Ok ==> builder.edits == EditsOf(Marks(tables, es[..i + 1]))
  {
    assert es[i] in es;
    NextEdit(tables, es, i);
    var ok, e := ReadEdit(record, es[i]);
    s, c := Ok, Take(was, e);
    if !ok {
      s := NotAnEdit;
    } else if Foreign(name, e) {
      s := WrongComparator;
    } else {
      builder.Apply(EditOf(tables, e));
    }
  }

  ghost predicate Blank(v: FileLists) {
    |v| == LEVELS && forall l :: 0 <= l < LEVELS ==> v[l] == [] && ToSet(v[l]) == {}
  }

  /** The outcome of the first i records. */
  ghost predicate Replayed(name: Bytes, tables: Tables, es: seq<V.Fields>, i: nat, s: Status, c: Found,
                           edits: seq<Edit>)
    requires i <= |es|
  {
    if s == Ok then
      && c == Counted(es[..i]) && edits == EditsOf(Marks(tables, es[..i]))
      && forall e :: e in es[..i] ==> !Foreign(name, e)
    else s == WrongComparator && exists e :: e in es && Foreign(name, e)
  }

  lemma ReplayedStart(name: Bytes, tables: Tables, es: seq<V.Fields>)
    ensures Replayed(name, tables, es, 0, Ok, Found(None, None, None, None), [])
  {
    assert EditsOf(Marks(tables, es[..0])) == [];
  }

  lemma ReplayedMore(name: Bytes, tables: Tables, es: seq<V.Fields>, i: nat, was: Found, before: seq<Edit>, s: Status,
                     c: Found, edits: seq<Edit>)
    requires i < |es| && Replayed(name, tables, es, i, Ok, was, before)
    requires s == if Foreign(name, es[i]) then WrongComparator else Ok
    requires c == Counted(es[..i + 1]) && (s == Ok ==> edits == EditsOf(Marks(tables, es[..i + 1])))
    ensures Replayed(name, tables, es, i + 1, s, c, edits)
  {
    assert es[i] in es && es[..i + 1] == es[..i] + [es[i]];
  }

  lemma ReplayedEnd(name: Bytes, tables: Tables, es: seq<V.Fields>, i: nat, s: Status, c: Found, edits: seq<Edit>)
    requires i <= |es| && Replayed(name, tables, es, i, s, c, edits) && (s == Ok ==> i == |es|)
    ensures s == if exists e :: e in es && Foreign(name, e) then WrongComparator else Ok
    ensures s == Ok ==> c == Counted(es) && edits == EditsOf(Marks(tables, es))
  {
    assert i == |es| ==> es[..i] == es;
  }

  method ReplayNext(builder: Builder, record: Bytes, name: Bytes, tables: Tables, was: Found, ghost es: seq<V.Fields>,
                    ghost i: nat)
    returns (s: Status, c: Found)
    requires Applicable(tables, es) && i < |es| && record == V.Encoding(es[i]) && builder.Valid() && Blank(builder.base)
    requires Replayed(name, tables, es, i, Ok, was, builder.edits)
    modifies builder
    ensures builder.Valid() && Replayed(name, tables, es, i + 1, s, c, builder.edits)
  {
    ghost var before := builder.edits;
    s, c := ReplayEdit(builder, record, name, tables, was, es, i);
    ReplayedMore(name, tables, es, i, was, before, s, c, builder.edits);
  }

  /** The loop over the records. */
  method ReplayEdits(builder: Builder, records: seq<Bytes>, name: Bytes, tables: Tables, ghost es: seq<V.Fields>)
    returns (s: Status, c: Found)
    requires Applicable(tables, es) && records == Encodings(es)
    requires builder.Valid() && builder.edits == [] && Blank(builder.base)
    modifies builder
    ensures builder.Valid() && s == if exists e :: e in es && Foreign(name, e) then WrongComparator else Ok
    ensures s == Ok ==> c == Counted(es) && builder.edits == EditsOf(Marks(tables, es))
  {
    s, c := Ok, Found(None, None, None, None);
    ReplayedStart(name, tables, es);
    var i := 0;
    while i < |records| && s == Ok
      invariant i <= |records| && builder.Valid() && Replayed(name, tables, es, i, s, c, builder.edits)
    {
      s, c := ReplayNext(builder, records[i], name, tables, c, es, i);
      i := i + 1;
    }
    ReplayedEnd(name, tables, es, i, s, c, builder.edits);
  }

  /** A builder over the empty version. */
  method NewBuilder() returns (builder: Builder)
    ensures fresh(builder) && builder.Valid() && builder.edits == [] && Blank(builder.base)
  {
    var base: FileLists := seq(LEVELS, _ => []);
    builder := new Builder(base);
  }

  /** VersionSet::Recover: the version and the counters of the edits whose records
      are whole, or why they make none. */
  method Recover(sum: Bytes -> word, file: Bytes, name: Bytes, tables: Tables, ghost es: seq<V.Fields>)
    returns (s: Status, v: FileLists, c: Found)
    requires file <= LogBytes(sum, Encodings(es)) && Applicable(tables, es)
    ensures var read := es[..Whole(sum, Encodings(es), |file|)];
            && s == (if exists e :: e in read && Foreign(name, e) then WrongComparator else Complete(Counted(read)))
            && (s == Ok ==> c == Counted(read) && Ordered(v))
            && (s == Ok ==>
                 forall l :: 0 <= l < LEVELS ==> ToSet(v[l]) == ApplyEach({}, EditsOf(Marks(tables, read)), l))
  {
    ghost var n := Whole(sum, Encodings(es), |file|);
    var records, drops := ReadAll(sum, file, Encodings(es));
    assert Encodings(es)[..n] == Encodings(es[..n]);
    ApplicableFront(tables, es, n);
    var builder := NewBuilder();
    s, c := ReplayEdits(builder, records, name, tables, es[..n]);
    v := builder.base;
    if s == Ok {
      s := Complete(c);
      v := builder.SaveTo();
    }
  }

  // ---------- the store's version ----------

  /** The counters are those of the last record that has them all. */
  lemma LastCounted(tables: Tables, es: seq<V.Fields>, numbers: Numbers)
    requires es != [] && NumbersOf(es[|es| - 1]) == Some(numbers)
    ensures var c := Counted(es);
            && Complete(c) == Ok && c.logNumber == Some(numbers.logNumber) && c.nextFile == Some(numbers.nextFile)
            && c.lastSequence == Some(numbers.lastSequence)
  {
  }

  /** From a manifest that holds what is durable of the state s, Recover restores the
      files and the counters of s. */
  method RecoverState(sum: Bytes -> word, file: Bytes, name: Bytes, tables: Tables, ghost es: seq<V.Fields>,
                      ghost s: State)
    returns (r: Status, v: FileLists, c: Found)
    requires file <= LogBytes(sum, Encodings(es)) && Applicable(tables, es)
    requires Durable(Marks(tables, es[..Whole(sum, Encodings(es), |file|)]), s) && Good(s.files)
    requires forall e :: e in es ==> !Foreign(name, e)
    ensures r == Ok && Rep(v) && Ordered(v) && Abs(v) == s.files
    ensures c.logNumber == Some(s.logNumber) && c.nextFile == Some(s.manifestNext)
    ensures c.lastSequence == Some(s.manifestSeq)
  {
    ghost var read := es[..Whole(sum, Encodings(es), |file|)];
    r, v, c := Recover(sum, file, name, tables, es);
    LastCounted(tables, read, Numbers(s.logNumber, s.manifestNext, s.manifestSeq));
    OrderedRep(v, s.files);
  }

  /** A manifest cut inside its last record, or just before it, holds the records
      before: a crash while LogAndApply writes leaves the version as it was. */
  lemma CutManifest(sum: Bytes -> word, es: seq<V.Fields>, file: Bytes)
    requires es != [] && file <= LogBytes(sum, Encodings(es)) && |file| < |LogBytes(sum, Encodings(es))|
    requires |LogBytes(sum, Encodings(es[..|es| - 1]))| <= |file|
    ensures Whole(sum, Encodings(es), |file|) == |es| - 1
  {
    EncodingsBut(es);
    AllButLast(sum, Encodings(es), |file|);
  }

  lemma EncodingsBut(es: seq<V.Fields>)
    requires es != []
    ensures Encodings(es)[..|es| - 1] == Encodings(es[..|es| - 1])
  {
  }
}
