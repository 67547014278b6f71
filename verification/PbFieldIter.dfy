/** pb_field_iter_t, the circular iterator over a descriptor (pb_common.c). */
module PbFieldIter {
  import opened Keys
  import opened PbMessage

  /** Required fields before position i. */
  function RequiredBefore(fields: seq<Field>, i: nat): (n: nat)
    requires i <= |fields|
    ensures n <= i
  {
    if i == 0 then 0 else RequiredBefore(fields, i - 1) + if fields[i - 1].rule.Required? then 1 else 0
  }

  /** Required fields are numbered 0, 1, ... in order. */
  lemma {:induction false} RequiredNumber(fields: seq<Field>, n: nat, r: nat) returns (i: nat)
    requires n <= |fields| && r < RequiredBefore(fields, n)
    ensures i < n && fields[i].rule.Required? && RequiredBefore(fields, i) == r
  {
    if fields[n - 1].rule.Required? && RequiredBefore(fields, n - 1) == r {
      i := n - 1;
    } else {
      i := RequiredNumber(fields, n - 1, r);
    }
  }

  class FieldIter {
    const fields: seq<Field>
    var pos: nat
    var requiredIndex: nat

    ghost predicate Valid()
      reads this
    {
      (pos < |fields| || (fields == [] && pos == 0)) && requiredIndex == RequiredBefore(fields, pos)
    }

    constructor (fields: seq<Field>)
      ensures Valid() && this.fields == fields && pos == 0
    {
      this.fields, pos, requiredIndex := fields, 0, 0;
    }

    /** The next field; false when that wraps round to the first. */
    method Next() returns (more: bool)
      requires Valid()
      modifies this
      ensures Valid()
      ensures more <==> old(pos) + 1 < |fields|
      ensures pos == if more then old(pos) + 1 else 0
    {
      if fields == [] {
        return false;
      }
      var required := fields[pos].rule.Required?;
      pos := pos + 1;
      if pos == |fields| {
        pos, requiredIndex := 0, 0;
        return false;
      }
      if required {
        requiredIndex := requiredIndex + 1;
      }
      more := true;
    }

    /** The field with this tag, searched for all the way round.  An empty descriptor is
        its terminator alone, at position 0, whose tag is 0. */
    method Find(tag: nat) returns (found: bool)
      requires Valid()
      modifies this
      ensures Valid()
      ensures found <==> (exists i :: 0 <= i < |fields| && fields[i].tag == tag) || (fields == [] && tag == 0)
      ensures found ==> if fields == [] then pos == 0 else pos < |fields| && fields[pos].tag == tag
    {
      if fields == [] {
        return tag == 0;
      }
      var start := pos;
      var wrapped := false;
      while true
        invariant Valid() && (if wrapped then pos < start else start <= pos) && start < |fields|
        invariant forall i :: start <= i < (if wrapped then |fields| else pos) ==> fields[i].tag != tag
        invariant wrapped ==> forall i :: 0 <= i < pos ==> fields[i].tag != tag
        decreases !wrapped, |fields| - pos
      {
        if fields[pos].tag == tag {
          return true;
        }
        var more := Next();
        wrapped := wrapped || !more;
        if pos == start {
          return false;
        }
      }
    }

    /** The number of required fields, found by going on to the last field. */
    method CountRequired() returns (n: nat)
      requires Valid()
      modifies this
      ensures Valid() && n == RequiredBefore(fields, |fields|)
    {
      if fields == [] {
        return 0;
      }
      n := 0;
      var lastRequired, more := false, true;
      while more
        invariant Valid()
        invariant !more ==>
                    n == RequiredBefore(fields, |fields| - 1) && lastRequired == fields[|fields| - 1].rule.Required?
        decreases more, |fields| - pos
      {
        n := requiredIndex;
        lastRequired := fields[pos].rule.Required?;
        more := Next();
      }
      if lastRequired {
        n := n + 1;
      }
    }
  }
}
