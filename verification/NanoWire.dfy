/** How a decoder cuts bytes into records, whatever they hold: a key, and as many bytes as the type of its field
    asks for, or the wire type where the field is unknown (nanopb/pb_decode.c). */
module NanoWire {
  import opened Verdicts
  import opened Keys
  import opened LogFormat
  import opened Varints
  import opened NanoMessages
  import opened NanoFields

  /** Where a varint ends: behind the first byte without the top bit. */
  function VarintEnd(data: Bytes, p: nat, limit: nat): (r: Option<nat>)
    requires p <= limit <= |data|
    ensures r.Some? ==> p < r.value <= limit
    decreases limit - p
  {
    if p == limit then None else if data[p] < 128 then Some(p + 1) else VarintEnd(data, p + 1, limit)
  }

  /** The lower 32 bits of a varint. */
  function Low32(data: Bytes, p: nat, q: nat): (r: nat)
    requires p <= q <= |data|
    ensures r < 0x1_0000_0000
  {
    Groups(data, p, q) % 0x1_0000_0000
  }

  /** Where a length and as many bytes end. */
  function PrefixedEnd(data: Bytes, p: nat, limit: nat): (r: Option<nat>)
    requires p <= limit <= |data|
    ensures r.Some? ==> p < r.value <= limit
  {
    var q := VarintEnd(data, p, limit);
    if q.Some? && q.value + Low32(data, p, q.value) <= limit then Some(q.value + Low32(data, p, q.value)) else None
  }

  function FixedEnd(size: nat, p: nat, limit: nat): Option<nat> {
    if p + size <= limit then Some(p + size) else None
  }

  /** Where a value of the type ends; it is read as such whatever the wire type says. */
  function ValueEnd(lt: LType, data: Bytes, p: nat, limit: nat): (r: Option<nat>)
    requires p <= limit <= |data|
    ensures r.Some? ==> p < r.value <= limit
  {
    match lt
    case Bool => VarintEnd(data, p, limit)
    case Signed(_) => VarintEnd(data, p, limit)
    case Unsigned(_) => VarintEnd(data, p, limit)
    case ZigZag(_) => VarintEnd(data, p, limit)
    case Fixed32 => FixedEnd(4, p, limit)
    case Fixed64 => FixedEnd(8, p, limit)
    case _ => PrefixedEnd(data, p, limit)
  }

  /** Where the value of an unknown field ends. */
  function WireEnd(wire: nat, data: Bytes, p: nat, limit: nat): (r: Option<nat>)
    requires p <= limit <= |data|
    ensures r.Some? ==> p < r.value <= limit
  {
    if wire == 0 then VarintEnd(data, p, limit)
    else if wire == 1 then FixedEnd(8, p, limit)
    else if wire == 2 then PrefixedEnd(data, p, limit)
    else if wire == 5 then FixedEnd(4, p, limit)
    else None
  }

  /** Where the value of a known field ends: an array may be packed. */
  function FieldEnd(f: Field, wire: nat, data: Bytes, p: nat, limit: nat): (r: Option<nat>)
    requires p <= limit <= |data|
    ensures r.Some? ==> p < r.value <= limit
  {
    if f.htype.Repeated? && wire == 2 && Packable(f.ltype) then PrefixedEnd(data, p, limit) else ValueEnd(f.ltype, data, p, limit)
  }

  /** The field with the tag. */
  function FieldWith(fields: seq<Field>, tag: nat): (r: Option<nat>)
    ensures r.Some? ==> r.value < |fields| && fields[r.value].tag == tag
    ensures r.None? ==> forall i :: 0 <= i < |fields| ==> fields[i].tag != tag
  {
    if fields == [] then None
    else if fields[|fields| - 1].tag == tag then Some(|fields| - 1)
    else FieldWith(fields[..|fields| - 1], tag)
  }

  /** Where what follows a key ends. (In a message without fields tag 0 finds the terminator, which reads a varint.) */
  function EndOfRecord(d: Descriptor, key: nat, data: Bytes, p: nat, limit: nat): (r: Option<nat>)
    requires p <= limit <= |data|
    ensures r.Some? ==> p < r.value <= limit
  {
    var i := FieldWith(d.fields, key / 8);
    if i.Some? then FieldEnd(d.fields[i.value], key % 8, data, p, limit)
    else if |d.fields| == 0 && key / 8 == 0 then VarintEnd(data, p, limit)
    else WireEnd(key % 8, data, p, limit)
  }

  /** The tags of the records from p on, up to the limit or a zero key; None if they cannot be cut into records. */
  function Tags(d: Descriptor, data: Bytes, p: nat, limit: nat): Option<seq<nat>>
    requires p <= limit <= |data|
    decreases limit - p
  {
    if p == limit then Some([]) else
    var q := VarintEnd(data, p, limit);
    if q.None? then None else
    var key := Low32(data, p, q.value);
    if key == 0 then Some([]) else
    var e := EndOfRecord(d, key, data, q.value, limit);
    if e.None? then None else
    var rest := Tags(d, data, e.value, limit);
    if rest.None? then None else Some([key / 8] + rest.value)
  }

  /** Every required field that the decoder keeps track of, which it does for the first 64, has a record. */
  ghost predicate RequiredPresent(d: Descriptor, data: Bytes, p: nat, limit: nat)
    requires p <= limit <= |data|
  {
    Tags(d, data, p, limit).Some? &&
    forall i :: 0 <= i < |d.fields| && d.fields[i].htype.Required? && RequiredBefore(d.fields, i) < MAX_REQUIRED ==>
      d.fields[i].tag in Tags(d, data, p, limit).value
  }

  /** So it is in this message, and in each message inside it. */
  ghost predicate Complete(d: Descriptor, data: Bytes, p: nat, limit: nat)
    requires p <= limit <= |data|
    decreases d, limit - p, 2
  {
    RequiredPresent(d, data, p, limit) && InnerComplete(d, data, p, limit)
  }

  /** The same, looked into only where Looking is mentioned. */
  ghost function Completeness(d: Descriptor, data: Bytes, p: nat, limit: nat): Verdict
    decreases d, limit - p, 3
  {
    if forall k {:trigger Looking(k)} :: Looking(k) ==> p <= limit <= |data| && Complete(d, data, p, limit) then Holds else Fails
  }

  lemma CompletenessMeans(d: Descriptor, data: Bytes, p: nat, limit: nat)
    requires p <= limit <= |data|
    ensures Completeness(d, data, p, limit) == Holds <==> Complete(d, data, p, limit)
  {
    assert Looking(0);
  }

  ghost predicate InnerComplete(d: Descriptor, data: Bytes, p: nat, limit: nat)
    requires p <= limit <= |data|
    decreases d, limit - p, 1
  {
    p == limit ||
    var q := VarintEnd(data, p, limit);
    q.None? ||
    var key := Low32(data, p, q.value);
    key == 0 ||
    var i, e := FieldWith(d.fields, key / 8), EndOfRecord(d, key, data, q.value, limit);
    e.None? ||
    ((i.Some? ==> ValueComplete(d.fields[i.value], data, q.value, limit) == Holds) && InnerComplete(d, data, e.value, limit))
  }

  /** A value that is a message is complete. */
  ghost function ValueComplete(f: Field, data: Bytes, p: nat, limit: nat): Verdict
    requires p <= limit <= |data|
    decreases f, limit - p, 0
  {
    if f.ltype.Message? && PrefixedEnd(data, p, limit).Some?
    then Completeness(f.ltype.descriptor, data, VarintEnd(data, p, limit).value, PrefixedEnd(data, p, limit).value)
    else Holds
  }

  lemma MessageValue(f: Field, data: Bytes, p: nat, limit: nat, q: nat, e: nat)
    requires f.ltype.Message? && p <= limit <= |data| && VarintEnd(data, p, limit) == Some(q) && PrefixedEnd(data, p, limit) == Some(e)
    requires Completeness(f.ltype.descriptor, data, q, e) == Holds
    ensures ValueComplete(f, data, p, limit) == Holds
  {}

  // ----- Cutting record by record -----

  /** A record from p to e. */
  ghost predicate IsRecord(d: Descriptor, data: Bytes, p: nat, limit: nat, e: nat, tag: nat)
    requires p <= limit <= |data|
  {
    var q := VarintEnd(data, p, limit);
    && p < limit && q.Some? && Low32(data, p, q.value) != 0 && tag == Low32(data, p, q.value) / 8
    && EndOfRecord(d, Low32(data, p, q.value), data, q.value, limit) == Some(e)
    && var i := FieldWith(d.fields, tag); i.Some? ==> ValueComplete(d.fields[i.value], data, q.value, limit) == Holds
  }

  /** The same, looked into only by the lemmas below. */
  ghost function RecordAt(d: Descriptor, data: Bytes, p: nat, limit: nat, e: nat, tag: nat): Verdict {
    if forall k {:trigger Looking(k)} :: Looking(k) ==> p <= limit <= |data| && IsRecord(d, data, p, limit, e, tag)
    then Holds else Fails
  }

  /** What follows a key, from p to e. */
  ghost function ValueAt(d: Descriptor, data: Bytes, p: nat, limit: nat, e: nat, wire: nat, tag: nat): Verdict {
    if forall k {:trigger Looking(k)} :: Looking(k) ==>
      && p <= limit <= |data| && EndOfRecord(d, 8 * tag + wire, data, p, limit) == Some(e)
      && (FieldWith(d.fields, tag).Some? ==> ValueComplete(d.fields[FieldWith(d.fields, tag).value], data, p, limit) == Holds)
    then Holds else Fails
  }

  /** A key, from p to q. */
  ghost function KeyAt(data: Bytes, p: nat, limit: nat, q: nat, wire: nat, tag: nat): Verdict {
    if forall k {:trigger Looking(k)} :: Looking(k) ==>
      p < limit <= |data| && VarintEnd(data, p, limit) == Some(q) && Low32(data, p, q) == 8 * tag + wire > 0 && wire < 8
    then Holds else Fails
  }

  lemma KeyThenValue(d: Descriptor, data: Bytes, p: nat, q: nat, limit: nat, e: nat, wire: nat, tag: nat)
    requires KeyAt(data, p, limit, q, wire, tag) == Holds && ValueAt(d, data, q, limit, e, wire, tag) == Holds
    ensures RecordAt(d, data, p, limit, e, tag) == Holds
  {
    assert Looking(0);
    assert (8 * tag + wire) / 8 == tag;
  }

  lemma KnownValue(d: Descriptor, k: nat, data: Bytes, p: nat, limit: nat, e: nat, wire: nat)
    requires ValidDescriptor(d) && k < |d.fields| && p <= limit <= |data| && wire < 8
    requires FieldEnd(d.fields[k], wire, data, p, limit) == Some(e) && ValueComplete(d.fields[k], data, p, limit) == Holds
    ensures ValueAt(d, data, p, limit, e, wire, d.fields[k].tag) == Holds
  {
    FoundByTag(d, k);
    var tag := d.fields[k].tag;
    assert (8 * tag + wire) / 8 == tag && (8 * tag + wire) % 8 == wire;
  }

  /** A field that is not known, or the terminator of a message without fields. */
  lemma OtherValue(d: Descriptor, data: Bytes, p: nat, limit: nat, e: nat, wire: nat, tag: nat)
    requires p <= limit <= |data| && wire < 8 && forall i :: 0 <= i < |d.fields| ==> d.fields[i].tag != tag
    requires (if |d.fields| == 0 && tag == 0 then VarintEnd(data, p, limit) else WireEnd(wire, data, p, limit)) == Some(e)
    ensures ValueAt(d, data, p, limit, e, wire, tag) == Holds
  {
    assert (8 * tag + wire) / 8 == tag && (8 * tag + wire) % 8 == wire;
  }

  /** No more records: the limit, or a zero key. */
  ghost function AtEnd(data: Bytes, p: nat, limit: nat): Verdict {
    if forall k {:trigger Looking(k)} :: Looking(k) ==>
      p <= limit <= |data|
      && (p == limit || (VarintEnd(data, p, limit).Some? && Low32(data, p, VarintEnd(data, p, limit).value) == 0))
    then Holds else Fails
  }

  /** From start to p there are records with these tags, complete inside. */
  ghost predicate CutTo(d: Descriptor, data: Bytes, start: nat, p: nat, limit: nat, ts: seq<nat>) {
    && start <= p <= limit <= |data|
    && (Tags(d, data, p, limit).Some? ==> Tags(d, data, start, limit) == Some(ts + Tags(d, data, p, limit).value))
    && (InnerComplete(d, data, p, limit) ==> InnerComplete(d, data, start, limit))
  }

  /** So far cut, with the required fields seen. */
  ghost function SeenCut(d: Descriptor, data: Bytes, start: nat, p: nat, limit: nat, ts: seq<nat>, seen: set<nat>): Verdict {
    if
    p <= limit <= |data| &&
    forall k {:trigger Looking(k)} :: Looking(k) ==> CutTo(d, data, start, p, limit, ts) && SeenIn(d, seen, ts)
    then Holds else Fails
  }

  lemma CutNone(d: Descriptor, data: Bytes, start: nat, limit: nat)
    requires start <= limit <= |data|
    ensures SeenCut(d, data, start, start, limit, [], {}) == Holds
  {
    var rest := Tags(d, data, start, limit);
    assert rest.Some? ==> [] + rest.value == rest.value;
  }

  lemma CutStep(d: Descriptor, data: Bytes, start: nat, p: nat, limit: nat, ts: seq<nat>, e: nat, tag: nat, seen: set<nat>, seen': set<nat>)
    requires SeenCut(d, data, start, p, limit, ts, seen) == Holds
    requires RecordAt(d, data, p, limit, e, tag) == Holds && Marks(d, seen, seen', tag) == Holds
    ensures SeenCut(d, data, start, e, limit, ts + [tag], seen') == Holds
  {
    assert Looking(0);
    var rest := Tags(d, data, e, limit);
    if rest.Some? {
      assert Tags(d, data, p, limit) == Some([tag] + rest.value);
      assert ts + ([tag] + rest.value) == ts + [tag] + rest.value;
    }
  }

  lemma CutDone(d: Descriptor, data: Bytes, start: nat, p: nat, limit: nat, ts: seq<nat>, seen: set<nat>)
    requires SeenCut(d, data, start, p, limit, ts, seen) == Holds && AtEnd(data, p, limit) == Holds
    ensures CutWhole(d, data, start, limit, seen) == Holds
  {
    assert Looking(0);
    assert ts + [] == ts;
  }

  /** Every required field marked as seen has a record. */
  ghost predicate SeenIn(d: Descriptor, seen: set<nat>, ts: seq<nat>) {
    forall i :: 0 <= i < |d.fields| && d.fields[i].htype.Required? && RequiredBefore(d.fields, i) in seen ==> d.fields[i].tag in ts
  }

  /** The required field with the tag is marked if it is tracked, and no other one. */
  ghost predicate MarksTag(d: Descriptor, seen: set<nat>, seen': set<nat>, tag: nat) {
    && seen <= seen'
    && forall i :: 0 <= i < |d.fields| && d.fields[i].htype.Required? ==>
         && (RequiredBefore(d.fields, i) in seen' ==> RequiredBefore(d.fields, i) in seen || d.fields[i].tag == tag)
         && (d.fields[i].tag == tag && RequiredBefore(d.fields, i) < MAX_REQUIRED ==> RequiredBefore(d.fields, i) in seen')
  }

  /** The same, looked into only where Looking is mentioned. */
  ghost function Marks(d: Descriptor, seen: set<nat>, seen': set<nat>, tag: nat): Verdict {
    if forall k {:trigger Looking(k)} :: Looking(k) ==> MarksTag(d, seen, seen', tag) then Holds else Fails
  }

  lemma MarkUnknown(d: Descriptor, seen: set<nat>, seen': set<nat>, tag: nat)
    requires forall i :: 0 <= i < |d.fields| ==> d.fields[i].tag != tag
    requires seen' == seen || (|d.fields| == 0 && seen <= seen')
    ensures Marks(d, seen, seen', tag) == Holds
  {}

  lemma MarkUntracked(d: Descriptor, seen: set<nat>, k: nat)
    requires ValidDescriptor(d) && k < |d.fields| && !(d.fields[k].htype.Required? && RequiredBefore(d.fields, k) < MAX_REQUIRED)
    ensures Marks(d, seen, seen, d.fields[k].tag) == Holds
  {
    assert forall i :: 0 <= i < |d.fields| && i != k ==> d.fields[i].tag != d.fields[k].tag;
  }

  lemma MarkField(d: Descriptor, seen: set<nat>, k: nat)
    requires ValidDescriptor(d) && k < |d.fields| && d.fields[k].htype.Required?
    ensures Marks(d, seen, seen + {RequiredBefore(d.fields, k)}, d.fields[k].tag) == Holds
  {
    assert forall i :: 0 <= i < |d.fields| && i != k ==> d.fields[i].tag != d.fields[k].tag;
    forall i | 0 <= i < |d.fields| && d.fields[i].htype.Required? && RequiredBefore(d.fields, i) == RequiredBefore(d.fields, k)
      ensures i == k
    {
      if i < k {
        RequiredGrows(d.fields, i, k);
      } else if k < i {
        RequiredGrows(d.fields, k, i);
      }
    }
  }

  /** What one turn of the decoder's loop found: a record, and what it marked, or the end. */
  datatype Turn = Turn(start: nat, limit: nat, end: nat, tag: nat, before: set<nat>, after: set<nat>)

  ghost function Found(d: Descriptor, data: Bytes, t: Turn): Verdict {
    if forall k {:trigger Looking(k)} :: Looking(k) ==>
      RecordAt(d, data, t.start, t.limit, t.end, t.tag) == Holds && Marks(d, t.before, t.after, t.tag) == Holds
    then Holds else Fails
  }

  lemma FoundRecord(d: Descriptor, data: Bytes, t: Turn)
    requires RecordAt(d, data, t.start, t.limit, t.end, t.tag) == Holds && Marks(d, t.before, t.after, t.tag) == Holds
    ensures Found(d, data, t) == Holds
  {}

  lemma TakeTurn(d: Descriptor, data: Bytes, start: nat, ts: seq<nat>, t: Turn)
    requires SeenCut(d, data, start, t.start, t.limit, ts, t.before) == Holds && Found(d, data, t) == Holds
    ensures SeenCut(d, data, start, t.end, t.limit, ts + [t.tag], t.after) == Holds
  {
    assert Looking(0);
    CutStep(d, data, start, t.start, t.limit, ts, t.end, t.tag, t.before, t.after);
  }

  /** The records are cut off to the end, and each required field marked has one. */
  ghost function CutWhole(d: Descriptor, data: Bytes, p: nat, limit: nat, seen: set<nat>): Verdict {
    if forall k {:trigger Looking(k)} :: Looking(k) ==>
      && p <= limit <= |data| && InnerComplete(d, data, p, limit)
      && Tags(d, data, p, limit).Some? && SeenIn(d, seen, Tags(d, data, p, limit).value)
    then Holds else Fails
  }

  /** With every tracked required field seen, the message is complete. */
  lemma AllSeen(d: Descriptor, data: Bytes, p: nat, limit: nat, seen: set<nat>)
    requires CutWhole(d, data, p, limit, seen) == Holds
    requires forall b :: 0 <= b < RequiredBefore(d.fields, |d.fields|) && b < MAX_REQUIRED ==> b in seen
    ensures Completeness(d, data, p, limit) == Holds
  {
    assert Looking(0);
    forall i | 0 <= i < |d.fields| && d.fields[i].htype.Required? && RequiredBefore(d.fields, i) < MAX_REQUIRED
      ensures RequiredBefore(d.fields, i) in seen
    {
      RequiredGrows(d.fields, i, |d.fields|);
    }
  }

  lemma FoundByTag(d: Descriptor, k: nat)
    requires ValidDescriptor(d) && k < |d.fields|
    ensures FieldWith(d.fields, d.fields[k].tag) == Some(k)
  {
    assert forall i :: 0 <= i < |d.fields| && i != k ==> d.fields[i].tag != d.fields[k].tag;
  }

  // ----- Records of unknown fields between those of a message -----

  datatype Extra = Extra(tag: nat, wire: WireType, payload: Bytes)

  predicate NoField(d: Descriptor, tag: nat) {
    forall i :: 0 <= i < |d.fields| ==> d.fields[i].tag != tag
  }

  /** A value as its wire type has it. */
  ghost predicate PayloadFor(wire: nat, payload: Bytes) {
    if wire == 0 then exists v: nat :: payload == Varint(v)
    else if wire == 1 then |payload| == 8
    else if wire == 2 then exists b: Bytes :: |b| < 0x1_0000_0000 && payload == Prefixed(b)
    else wire == 5 && |payload| == 4
  }

  ghost predicate GoodExtra(d: Descriptor, e: Extra) {
    1 <= e.tag < 0x2000_0000 && NoField(d, e.tag) && PayloadFor(WireNumber(e.wire), e.payload)
  }

  function ExtraRecord(e: Extra): (r: Bytes)
    ensures |r| >= 1
  {
    Key(e.tag, e.wire) + e.payload
  }

  function ExtraRecords(es: seq<Extra>): Bytes {
    if es == [] then [] else ExtraRecord(es[0]) + ExtraRecords(es[1..])
  }

  ghost predicate GoodGaps(d: Descriptor, gaps: seq<seq<Extra>>) {
    forall n, i :: 0 <= n < |gaps| && 0 <= i < |gaps[n]| ==> GoodExtra(d, gaps[n][i])
  }

  /** The place behind record j of field k. */
  ghost function NextPlace(d: Descriptor, m: seq<Slot>, k: nat, j: nat): (r: (nat, nat))
    requires MessageHasType(d, m) && k < |m| && j < Records(d.fields[k], m[k])
    ensures r.0 <= |m| && (r.0 < |m| ==> r.1 < Records(d.fields[r.0], m[r.0]))
  {
    if j + 1 < Records(d.fields[k], m[k]) then (k, j + 1)
    else
      NextHasRecord(d, m, k + 1);
      (NextField(d, m, k + 1), 0)
  }

  lemma {:induction false} NextHasRecord(d: Descriptor, m: seq<Slot>, k: nat)
    requires MessageHasType(d, m) && k <= |m|
    ensures NextField(d, m, k) < |m| ==> Records(d.fields[NextField(d, m, k)], m[NextField(d, m, k)]) > 0
    decreases |m| - k
  {
    if k < |m| && Records(d.fields[k], m[k]) == 0 {
      NextHasRecord(d, m, k + 1);
    }
  }

  /** What is left of the message from record j of field k on, with the first gap before that record and so on. */
  ghost function Spaced(d: Descriptor, m: seq<Slot>, k: nat, j: nat, gaps: seq<seq<Extra>>): Bytes
    requires MessageHasType(d, m) && k <= |m| && (k < |m| ==> j < Records(d.fields[k], m[k]))
    decreases |gaps|
  {
    if gaps == [] then Remaining(d, m, k, j)
    else if k == |m| then ExtraRecords(gaps[0]) + []
    else
      var next := NextPlace(d, m, k, j);
      ExtraRecords(gaps[0]) + (EncodedRecord(d.fields[k], m[k], j) + Spaced(d, m, next.0, next.1, gaps[1..]))
  }

  /** The encoding of a message with records of unknown fields in its gaps. */
  ghost function Spread(d: Descriptor, m: seq<Slot>, gaps: seq<seq<Extra>>): Bytes
    requires MessageHasType(d, m)
  {
    NextHasRecord(d, m, 0);
    Spaced(d, m, NextField(d, m, 0), 0, gaps)
  }

  lemma {:induction false} NoGaps(d: Descriptor, m: seq<Slot>)
    requires ValidDescriptor(d) && MessageHasType(d, m)
    ensures Spread(d, m, []) == EncodedMessage(d, m)
  {
    SkipAbsent(d, m, 0, Defaults(d));
  }

  lemma {:induction false} VarintEnds(data: Bytes, p: nat, limit: nat, v: nat)
    requires p <= limit <= |data| && Varint(v) <= data[p..limit]
    ensures VarintEnd(data, p, limit) == Some(p + |Varint(v)|)
    decreases v
  {
    VarintFront(data, p, limit, v);
    if v >= 128 {
      VarintEnds(data, p + 1, limit, v / 128);
    }
  }

  /** The record of an unknown field is at the front. */
  ghost function AtExtra(d: Descriptor, e: Extra, rest: Bytes): Verdict {
    if forall k {:trigger Looking(k)} :: Looking(k) ==> GoodExtra(d, e) && ExtraRecord(e) <= rest then Holds else Fails
  }

  ghost function PastExtraKey(d: Descriptor, e: Extra, wire: nat, tag: nat, rest: Bytes): Verdict {
    if forall k {:trigger Looking(k)} :: Looking(k) ==>
      GoodExtra(d, e) && tag == e.tag && wire == WireNumber(e.wire) && e.payload <= rest
    then Holds else Fails
  }

  lemma ExtraKey(d: Descriptor, e: Extra, rest: Bytes)
    requires AtExtra(d, e, rest) == Holds
    ensures 1 <= e.tag < 0x2000_0000 && Key(e.tag, e.wire) <= rest
    ensures PastExtraKey(d, e, WireNumber(e.wire), e.tag, rest[|Key(e.tag, e.wire)|..]) == Holds
  {
    assert Looking(0);
    var key := Key(e.tag, e.wire);
    assert rest[..|key| + |e.payload|] == key + e.payload;
    assert rest[|key|..][..|e.payload|] == e.payload;
  }

  lemma ExtraIsUnknown(d: Descriptor, e: Extra, wire: nat, tag: nat, rest: Bytes)
    requires PastExtraKey(d, e, wire, tag, rest) == Holds
    ensures NoField(d, tag) && tag >= 1 && PayloadFor(wire, e.payload) && e.payload <= rest
  {
    assert Looking(0);
  }

  // ----- Reading a varint byte by byte -----

  lemma {:induction false} HighGroups(x: nat, k: nat)
    requires k >= 5
    ensures Shl7(x, k) % 0x1_0000_0000 == 0
    decreases k
  {
    if k == 5 {
      assert Shl7(x, 5) == 0x1_0000_0000 * (8 * x);
    } else {
      HighGroups(128 * x, k - 1);
    }
  }

  /** The lower 32 bits after one more byte. */
  lemma Low32Snoc(data: Bytes, p: nat, q: nat)
    requires p <= q < |data| && (q - p < 5 ==> Low32(data, p, q) < Shl7(1, q - p))
    ensures q - p < 5 ==>
      && Low32(data, p, q + 1) == Low32(data, p, q) + Shifted(data[q] % 128, q - p, 0x1_0000_0000)
      && (q - p < 4 ==> Low32(data, p, q + 1) < Shl7(1, q + 1 - p))
    ensures q - p >= 5 ==> Low32(data, p, q + 1) == Low32(data, p, q)
  {
    var x, k := data[q] % 128, q - p;
    GroupsSnoc(data, p, q);
    if k < 5 {
      SumFits(Low32(data, p, q), k, data[q], 0x1_0000_0000, 5);
    } else {
      HighGroups(x, k);
    }
    AddMod(Groups(data, p, q), Shl7(x, k), 0x1_0000_0000);
  }
}
