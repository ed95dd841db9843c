/** The cyclic field iterator (nanopb/pb_common.c) and the required-field bitmap of pb_decode_noinit. */
module NanoFields {
  import opened NanoMessages

  function RequiredBefore(fields: seq<Field>, k: nat): (r: nat)
    requires k <= |fields|
    ensures r <= k
  {
    if k == 0 then 0 else RequiredBefore(fields, k - 1) + if fields[k - 1].htype.Required? then 1 else 0
  }

  lemma {:induction false} RequiredGrows(fields: seq<Field>, i: nat, k: nat)
    requires i <= k <= |fields|
    ensures RequiredBefore(fields, i) <= RequiredBefore(fields, k)
    ensures i < k && fields[i].htype.Required? ==> RequiredBefore(fields, i) < RequiredBefore(fields, k)
  {
    if i < k {
      RequiredGrows(fields, i, k - 1);
    }
  }

  /** Every index below the count belongs to a required field. */
  lemma {:induction false} RequiredAt(fields: seq<Field>, b: nat, k: nat) returns (i: nat)
    requires k <= |fields| && b < RequiredBefore(fields, k)
    ensures i < k && fields[i].htype.Required? && RequiredBefore(fields, i) == b
  {
    if RequiredBefore(fields, k - 1) == b {
      return k - 1;
    } else {
      i := RequiredAt(fields, b, k - 1);
    }
  }

  /** pb_field_iter_t; an empty message leaves it at the terminator, whose tag is 0. */
  class FieldIter {
    const fields: seq<Field>
    var pos: nat
    var requiredIndex: nat

    ghost predicate Valid()
      reads this
    {
      (pos < |fields| || pos == 0 == |fields|) && requiredIndex == RequiredBefore(fields, pos)
      && forall i :: 0 <= i < |fields| ==> fields[i].tag > 0
    }

    /** pb_field_iter_begin. */
    constructor Begin(descriptor: seq<Field>)
      requires forall i :: 0 <= i < |descriptor| ==> descriptor[i].tag > 0
      ensures Valid() && fields == descriptor && pos == 0
    {
      fields, pos, requiredIndex := descriptor, 0, 0;
    }

    function Tag(): nat
      requires Valid()
      reads this
    {
      if pos == |fields| then 0 else fields[pos].tag
    }

    /** pb_field_iter_next: false when it wraps around. */
    method Next() returns (more: bool)
      requires Valid()
      modifies this
      ensures Valid() && more == (old(pos) + 1 < |fields|) && pos == (if more then old(pos) + 1 else 0)
    {
      if Tag() == 0 {
        return false;
      }
      if pos + 1 == |fields| {
        pos, requiredIndex := 0, 0;
        return false;
      }
      if fields[pos].htype.Required? {
        requiredIndex := requiredIndex + 1;
      }
      pos := pos + 1;
      return true;
    }

    /** pb_field_iter_find: one turn around the fields from wherever the iterator stands. */
    method Find(tag: nat) returns (found: bool)
      requires Valid()
      modifies this
      ensures Valid()
      ensures |fields| == 0 ==> found == (tag == 0)
      ensures |fields| > 0 ==> found == exists i :: 0 <= i < |fields| && fields[i].tag == tag
      ensures found && |fields| > 0 ==> fields[pos].tag == tag
    {
      var start, first := pos, true;
      ghost var wrapped := false;
      while first || pos != start
        invariant Valid() && start < |fields| + 1 && (|fields| > 0 ==> start < |fields|)
        invariant first ==> pos == start && !wrapped
        invariant !first ==> (if wrapped then pos <= start else start < pos)
        invariant |fields| > 0 ==> forall i :: start <= i < (if wrapped then |fields| else pos) ==> fields[i].tag != tag
        invariant |fields| > 0 && wrapped ==> forall i :: 0 <= i < pos ==> fields[i].tag != tag
        invariant |fields| == 0 && !first ==> tag != 0
        decreases first, if wrapped then start - pos else |fields| + |fields| - pos
      {
        first := false;
        if Tag() == tag {
          return true;
        }
        var more := Next();
        wrapped := wrapped || !more;
      }
      return false;
    }

    /** The number of required fields, counted from where decoding left the iterator. */
    method CountRequired() returns (count: nat)
      requires Valid()
      modifies this
      ensures Valid() && count == RequiredBefore(fields, |fields|)
    {
      count := requiredIndex;
      var last: nat := pos;
      var more := Next();
      while more
        invariant Valid() && (|fields| > 0 ==> last < |fields|) && last <= |fields|
        invariant count == RequiredBefore(fields, last)
        invariant if more then pos == last + 1 else pos == 0 && last + 1 >= |fields|
        decreases more, |fields| - last
      {
        count, last := requiredIndex, pos;
        more := Next();
      }
      if Tag() != 0 && fields[last].htype.Required? {
        count := count + 1;
      }
    }
  }

  /** PB_MAX_REQUIRED_FIELDS. */
  const MAX_REQUIRED: nat := 64

  /** fields_seen: bit i of the two words stands for the i-th required field. */
  predicate WordIs(seen: set<nat>, word: nat, ones: nat) {
    forall b :: 32 * word <= b < 32 * word + 32 ==> (b in seen <==> b < 32 * word + ones)
  }

  /** The check at the end of pb_decode_noinit: whole words against all ones, then the rest. */
  method AllRequiredSeen(seen: set<nat>, required: nat) returns (ok: bool)
    requires forall b :: b in seen && required > 0 ==> b < required && b < MAX_REQUIRED
    ensures ok <==> forall b :: 0 <= b < required && b < MAX_REQUIRED ==> b in seen
  {
    var count := if required > MAX_REQUIRED then MAX_REQUIRED else required;
    if count > 0 {
      var i := 0;
      while i < count / 32
        invariant i <= count / 32
        invariant forall b :: 0 <= b < 32 * i ==> b in seen
      {
        if !WordIs(seen, i, 32) {
          assert exists b :: 32 * i <= b < 32 * i + 32 && b !in seen;
          return false;
        }
        i := i + 1;
      }
      if count % 32 != 0 && !WordIs(seen, count / 32, count % 32) {
        return false;
      }
    }
    return true;
  }
}
