/** The decoder of the protocol buffer runtime (nanopb/pb_decode.c, nanopb/pb_common.c). */
module NanoDecoding {
  import opened Verdicts
  import opened Keys
  import opened LogFormat
  import opened Varints
  import opened NanoMessages
  import opened NanoFields
  import opened NanoWire

  /** One more byte of pb_decode_varint32: None where it reports an overflow. Bytes past the fifth may
      only repeat the sign of a negative number. */
  function TakeByte32(value: nat, byte: Byte, i: nat): Option<nat> {
    var signExtension := if 7 * i < 63 then 0xFF else 0x01;
    if 7 * i >= 32 then
      if byte % 128 != 0 && (value < 0x8000_0000 || byte != signExtension) then None else Some(value)
    else Some(value + Shifted(byte % 128, i, 0x1_0000_0000))
  }

  /** The last byte of five has room for four bits only. */
  predicate Overflows(byte: Byte, i: nat) {
    7 * i == 35 && byte % 128 >= 16
  }

  /** pb_decode_varint32 is inside the encoding of v. */
  ghost predicate InVarint32(data: Bytes, p: nat, limit: nat, v: nat, i: nat, value: nat) {
    if v < 0x1_0000_0000 then InVarint(data, p, limit, v, i, value) && i < 5
    else v < 0x8000_0000_0000_0000 && i < 9 && exists exact: nat :: InVarint(data, p, limit, v, i, exact)
  }

  /** i bytes are taken in, the last of which may end the varint. */
  ghost predicate Taken32(data: Bytes, start: nat, limit: nat, i: nat, more: bool, value: nat) {
    && start + i <= limit <= |data| && value == Low32(data, start, start + i) && (i < 5 ==> value < Shl7(1, i))
    && VarintEnd(data, start, limit) == if more then VarintEnd(data, start + i, limit) else Some(start + i)
  }

  lemma TookByte32(data: Bytes, start: nat, limit: nat, i: nat, value: nat)
    requires Taken32(data, start, limit, i, true, value) && start + i < limit
    ensures var byte := data[start + i]; var next := TakeByte32(value, byte, i);
            next.Some? ==> Taken32(data, start, limit, i + 1, byte >= 128, next.value)
  {
    Low32Snoc(data, start, start + i);
  }

  lemma ShortByte(data: Bytes, p: nat, limit: nat, v: nat, i: nat, value: nat)
    requires InVarint32(data, p, limit, v, i, value) && v < 0x1_0000_0000
    ensures p + i < limit <= |data|
    ensures var byte := data[p + i]; var next := TakeByte32(value, byte, i);
            if byte < 128 then next == Some(v) && !Overflows(byte, i + 1) && |Varint(v)| == i + 1
            else next.Some? && InVarint32(data, p, limit, v, i + 1, next.value)
  {
    MostBytes();
    Varints.ReadByte(data, p, limit, v, i, value, 0x1_0000_0000, 5);
    if data[p + i] < 128 {
      assert data[p + i] % 128 == data[p + i];
      assert i == 4 ==> data[p + i] < 16;
    }
  }

  lemma LongByte(data: Bytes, p: nat, limit: nat, v: nat, i: nat, value: nat)
    requires InVarint32(data, p, limit, v, i, value) && v >= 0x1_0000_0000
    ensures p + i < limit <= |data|
    ensures var byte := data[p + i]; var next := TakeByte32(value, byte, i);
            if byte < 128 then next.None? || Overflows(byte, i + 1)
            else next.None? || InVarint32(data, p, limit, v, i + 1, next.value)
  {
    MostBytes();
    var exact: nat :| InVarint(data, p, limit, v, i, exact);
    Varints.ReadByte(data, p, limit, v, i, exact, 0x8000_0000_0000_0000, 9);
    var byte := data[p + i];
    if byte < 128 {
      TooLongEnds(v, i, byte);
    }
  }

  /** Lengths that fit no 32 bits end in a byte the decoder refuses. */
  lemma TooLongEnds(v: nat, i: nat, byte: Byte)
    requires 0x1_0000_0000 <= v < Shl7(byte + 1, i) && byte < 128
    ensures i >= 4 && (i == 4 ==> byte >= 16)
  {
    Shl7Add(byte + 1, 127 - byte, i);
    if i < 4 {
      Shl7Grows(128, i, 3);
    }
  }

  /** One more byte of pb_decode_varint. */
  function TakeByte64(value: nat, byte: Byte, i: nat): nat {
    value + Shifted(byte % 128, i, 0x1_0000_0000_0000_0000)
  }

  lemma Byte64(data: Bytes, p: nat, limit: nat, v: nat, i: nat, value: nat)
    requires v < 0x1_0000_0000_0000_0000 && InVarint(data, p, limit, v, i, value)
    ensures p + i < limit <= |data|
    ensures data[p + i] < 128 ==> TakeByte64(value, data[p + i], i) == v && |Varint(v)| == i + 1
    ensures data[p + i] >= 128 ==> InVarint(data, p, limit, v, i + 1, TakeByte64(value, data[p + i], i)) && i + 1 < 10
  {
    Byte64Read(data, p, limit, v, i, value, 0x1_0000_0000_0000_0000);
  }

  lemma Byte64Read(data: Bytes, p: nat, limit: nat, v: nat, i: nat, value: nat, values: nat)
    requires values == 0x1_0000_0000_0000_0000 && v < values && InVarint(data, p, limit, v, i, value)
    ensures p + i < limit <= |data|
    ensures data[p + i] < 128 ==> value + Shifted(data[p + i] % 128, i, values) == v && |Varint(v)| == i + 1
    ensures data[p + i] >= 128 ==> InVarint(data, p, limit, v, i + 1, value + Shifted(data[p + i] % 128, i, values)) && i + 1 < 10
  {
    MostBytes();
    Varints.ReadByte(data, p, limit, v, i, value, values, 10);
  }

  /** A number cast to a signed type of the width. */
  function Cast(n: int, w: Width): (r: int)
    ensures -(Modulus(w) / 2) <= r < Modulus(w) / 2
    ensures -(Modulus(w) / 2) <= n < Modulus(w) / 2 ==> r == n
  {
    var low := n % Modulus(w);
    if low < Modulus(w) / 2 then low else low - Modulus(w)
  }

  /** Undoing zigzag: `value & 1` picks the complement. */
  function Unzigzagged(value: nat): (n: int)
    ensures value < 0x1_0000_0000_0000_0000 ==> -0x8000_0000_0000_0000 <= n < 0x8000_0000_0000_0000
    ensures Zigzagged(n) == value
  {
    if value % 2 == 1 then -(value / 2) - 1 else value / 2
  }

  lemma ZigzagInverse(n: int)
    ensures Unzigzagged(Zigzagged(n)) == n
  {}

  predicate Integer(lt: LType) {
    lt.Signed? || lt.Unsigned? || lt.ZigZag?
  }

  /** The varint written for a number. */
  function VarintOf(lt: LType, n: int): (r: nat)
    requires Integer(lt) && HasType(lt, Number(n))
    ensures r < 0x1_0000_0000_0000_0000 && EncodedValue(lt, Number(n)) == Varint(r)
  {
    match lt
    case Signed(_) => Pattern(n)
    case Unsigned(_) => n
    case ZigZag(_) => Zigzagged(n)
  }

  /** The casts of the integer decoders; one that changes the number is an error. */
  function Narrowed(lt: LType, value: nat): (r: Option<int>)
    requires Integer(lt) && value < 0x1_0000_0000_0000_0000
    ensures r.Some? ==> HasType(lt, Number(r.value))
  {
    match lt
    case Signed(w) => SameAfterCast(if w == W64 then Cast(value, W64) else Cast(value, W32), w)
    case Unsigned(w) => if value % Modulus(w) == value then Some(value) else None
    case ZigZag(w) => SameAfterCast(Unzigzagged(value), w)
  }

  function SameAfterCast(n: int, w: Width): (r: Option<int>)
    ensures r == if -(Modulus(w) / 2) <= n < Modulus(w) / 2 then Some(n) else None
  {
    if Cast(n, w) == n then Some(n) else None
  }

  /** Every number of the field's type survives the casts, negative ones of every width included. */
  lemma CastBack(lt: LType, n: int)
    requires Integer(lt) && HasType(lt, Number(n))
    ensures Narrowed(lt, VarintOf(lt, n)) == Some(n)
  {
    match lt
    case Signed(w) =>
      PatternBack(n, w);
      assert Narrowed(lt, VarintOf(lt, n)) == SameAfterCast(n, w);
    case Unsigned(w) =>
      Small(n, Modulus(w));
    case ZigZag(w) =>
      ZigzagInverse(n);
      assert Narrowed(lt, VarintOf(lt, n)) == SameAfterCast(n, w);
  }

  lemma PatternBack(n: int, w: Width)
    requires -(Modulus(w) / 2) <= n < Modulus(w) / 2
    ensures Cast(Pattern(n), if w == W64 then W64 else W32) == n
  {
    var p := Pattern(n);
    assert p == if n < 0 then n + 0x1_0000_0000_0000_0000 else n;
    if w != W64 {
      assert p % 0x1_0000_0000 == if n < 0 then n + 0x1_0000_0000 else n;
    }
  }

  /** What a C string in the bytes is. */
  function UpToZero(b: Bytes): (r: Bytes)
    ensures r <= b && 0 !in r
    ensures 0 !in b ==> r == b
  {
    if b == [] || b[0] == 0 then [] else [b[0]] + UpToZero(b[1..])
  }

  lemma PrefixedFront(rest: Bytes, b: Bytes)
    requires Prefixed(b) <= rest
    ensures Varint(|b|) <= rest && |Prefixed(b)| == |Varint(|b|)| + |b|
    ensures b <= rest[|Varint(|b|)|..] && rest[|Varint(|b|)|..][..|b|] == b
  {
    var n := |Varint(|b|)|;
    assert rest[..n] == Prefixed(b)[..n] == Varint(|b|);
    assert rest[n..][..|b|] == rest[..|Prefixed(b)|][n..] == b;
  }

  predicate Stringy(lt: LType) {
    lt.Blob? || lt.Text? || lt.FixedBlob?
  }

  /** The sizes a byte field takes: no more than its capacity, with room for a terminator, or just the fixed size
      or none. */
  predicate SizeFits(lt: LType, size: nat)
    requires Stringy(lt)
  {
    match lt
    case Blob(capacity) => size <= capacity
    case Text(dataSize) => size < dataSize
    case FixedBlob(dataSize) => size == 0 || size == dataSize
  }

  /** What a reader then sees. */
  function Stored(lt: LType, b: Bytes): Value
    requires Stringy(lt)
  {
    match lt
    case Blob(_) => Data(b)
    case Text(_) => Data(UpToZero(b))
    case FixedBlob(dataSize) => Data(if b == [] then Zeros(dataSize) else b)
  }

  datatype Status = More | Done | Failed

  /** A required field whose presence the bitmap records. */
  predicate Tracked(d: Descriptor, k: nat)
    requires k < |d.fields|
  {
    d.fields[k].htype.Required? && RequiredBefore(d.fields, k) < MAX_REQUIRED
  }

  ghost predicate Trackable(d: Descriptor, seen: set<nat>) {
    forall b :: b in seen && RequiredBefore(d.fields, |d.fields|) > 0 ==>
      b < RequiredBefore(d.fields, |d.fields|) && b < MAX_REQUIRED
  }

  /** All before the j-th record of field k was restored and its required fields seen. */
  ghost predicate Progress(d: Descriptor, m: seq<Slot>, k: nat, j: nat, seen: set<nat>)
    requires MessageHasType(d, m) && k <= |m|
  {
    (forall i, x :: 0 <= i < |m| && 0 <= x < Records(d.fields[i], m[i]) && (i < k || (i == k && x < j)) ==>
      RecordRestorable(d.fields[i], m[i], x))
    && forall i :: 0 <= i < k && Tracked(d, i) ==> RequiredBefore(d.fields, i) in seen
  }

  lemma ProgressMade(d: Descriptor, m: seq<Slot>, k: nat, j: nat, seen: set<nat>, k': nat, j': nat, seen': set<nat>)
    requires MessageHasType(d, m) && k < |m| && j < Records(d.fields[k], m[k]) && Progress(d, m, k, j, seen)
    requires RecordRestorable(d.fields[k], m[k], j) && seen <= seen'
    requires Tracked(d, k) ==> RequiredBefore(d.fields, k) in seen'
    requires if j + 1 < Records(d.fields[k], m[k]) then k' == k && j' == j + 1
             else k < k' <= |m| && j' == 0 && forall i :: k < i < k' ==> Records(d.fields[i], m[i]) == 0
    ensures Progress(d, m, k', j', seen')
  {}

  /** The j-th record of field k is at the front of `rest`. */
  ghost predicate AtThisRecord(d: Descriptor, m: seq<Slot>, k: nat, j: nat, dest: seq<Slot>, rest: Bytes) {
    MessageHasType(d, m) && k < |m| == |dest| && SlotEncodable(d.fields[k], m[k]) && j < Records(d.fields[k], m[k])
    && dest[k] == Partial(d.fields[k], m[k], j) && EncodedRecord(d.fields[k], m[k], j) <= rest
  }

  /** The same, looked into only where Looking is mentioned, as is what follows. */
  ghost function AtRecord(d: Descriptor, m: seq<Slot>, k: nat, j: nat, dest: seq<Slot>, rest: Bytes): Verdict {
    if forall x {:trigger Looking(x)} :: Looking(x) ==> AtThisRecord(d, m, k, j, dest, rest) then Holds else Fails
  }

  /** What follows its key is at the front of `rest`. */
  ghost predicate AtPayload(d: Descriptor, m: seq<Slot>, k: nat, j: nat, dest: seq<Slot>, wire: nat, tag: nat, rest: Bytes) {
    MessageHasType(d, m) && k < |m| == |dest| && SlotEncodable(d.fields[k], m[k]) && j < Records(d.fields[k], m[k])
    && tag == d.fields[k].tag && wire == WireNumber(RecordWire(d.fields[k]))
    && dest[k] == Partial(d.fields[k], m[k], j) && Payload(d.fields[k], m[k], j) <= rest
  }

  ghost function PastKey(d: Descriptor, m: seq<Slot>, k: nat, j: nat, dest: seq<Slot>, wire: nat, tag: nat, rest: Bytes): Verdict {
    if forall x {:trigger Looking(x)} :: Looking(x) ==> AtPayload(d, m, k, j, dest, wire, tag, rest) then Holds else Fails
  }

  /** The record is restored into r from n bytes, if it can be. */
  ghost predicate Restores(d: Descriptor, m: seq<Slot>, k: nat, j: nat, dest: seq<Slot>, ok: bool, r: seq<Slot>) {
    MessageHasType(d, m) && k < |m| == |dest| && j < Records(d.fields[k], m[k]) && ok == RecordRestorable(d.fields[k], m[k], j)
    && (ok ==> r == dest[k := Partial(d.fields[k], m[k], j + 1)])
  }

  ghost function TookPayload(d: Descriptor, m: seq<Slot>, k: nat, j: nat, dest: seq<Slot>, ok: bool, r: seq<Slot>, n: int): Verdict {
    if forall x {:trigger Looking(x)} :: Looking(x) ==>
      Restores(d, m, k, j, dest, ok, r) && (ok ==> n == |Payload(d.fields[k], m[k], j)|)
    then Holds else Fails
  }

  ghost function TookRecord(d: Descriptor, m: seq<Slot>, k: nat, j: nat, dest: seq<Slot>, ok: bool, r: seq<Slot>, n: int): Verdict {
    if forall x {:trigger Looking(x)} :: Looking(x) ==>
      Restores(d, m, k, j, dest, ok, r) && (ok ==> n == |EncodedRecord(d.fields[k], m[k], j)|)
    then Holds else Fails
  }

  lemma TakeKey(d: Descriptor, m: seq<Slot>, k: nat, j: nat, dest: seq<Slot>, rest: Bytes) returns (tag: nat, w: WireType)
    requires ValidDescriptor(d) && AtRecord(d, m, k, j, dest, rest) == Holds
    ensures 1 <= tag < 0x2000_0000 && Key(tag, w) <= rest
    ensures PastKey(d, m, k, j, dest, WireNumber(w), tag, rest[|Key(tag, w)|..]) == Holds
  {
    assert Looking(0);
    tag, w := d.fields[k].tag, RecordWire(d.fields[k]);
    var key, payload := Key(tag, w), Payload(d.fields[k], m[k], j);
    assert rest[..|key| + |payload|] == key + payload;
    assert rest[|key|..][..|payload|] == payload;
  }

  lemma KeyTag(d: Descriptor, m: seq<Slot>, k: nat, j: nat, dest: seq<Slot>, wire: nat, tag: nat, rest: Bytes)
    requires PastKey(d, m, k, j, dest, wire, tag, rest) == Holds
    ensures k < |d.fields| && d.fields[k].tag == tag && TagIs(d, k, tag) == Holds
  {
    assert Looking(0);
  }

  lemma NotOffered(d: Descriptor, m: seq<Slot>, k: nat, j: nat, dest: seq<Slot>, wire: nat, tag: nat, rest: Bytes)
    requires NoField(d, tag)
    ensures PastKey(d, m, k, j, dest, wire, tag, rest) == Fails
  {
    if PastKey(d, m, k, j, dest, wire, tag, rest) == Holds {
      KeyTag(d, m, k, j, dest, wire, tag, rest);
    }
  }

  lemma SameField(d: Descriptor, i: nat, k: nat)
    requires ValidDescriptor(d) && i < |d.fields| && k < |d.fields| && d.fields[i].tag == d.fields[k].tag
    ensures i == k
  {
    FoundByTag(d, i);
    FoundByTag(d, k);
  }

  lemma KeyAndPayload(d: Descriptor, m: seq<Slot>, k: nat, j: nat, dest: seq<Slot>, tag: nat, w: WireType, rest: Bytes,
                      ok: bool, r: seq<Slot>, n: int)
    requires 1 <= tag < 0x2000_0000 && PastKey(d, m, k, j, dest, WireNumber(w), tag, rest) == Holds
    requires TookPayload(d, m, k, j, dest, ok, r, n) == Holds
    ensures TookRecord(d, m, k, j, dest, ok, r, |Key(tag, w)| + n) == Holds
  {
    assert Looking(0);
    assert w == RecordWire(d.fields[k]);
  }

  /** Where the decoder is in the encoding of a message: at record j of field k, with these gaps to come. */
  datatype Course = Course(k: nat, j: nat, gaps: seq<seq<Extra>>)

  ghost predicate Underway(d: Descriptor, m: seq<Slot>, c: Course, dest: seq<Slot>, rest: Bytes, seen: set<nat>) {
    MessageHasType(d, m) && MessageEncodable(d, m) && c.k <= |m| && (c.k < |m| ==> c.j < Records(d.fields[c.k], m[c.k]))
    && Reached(d, m, c.k, c.j, dest, Remaining(d, m, c.k, c.j)) && Progress(d, m, c.k, c.j, seen)
    && GoodGaps(d, c.gaps) && rest == Spaced(d, m, c.k, c.j, c.gaps)
  }

  /** The same, looked into only where Looking is mentioned. */
  ghost function Midway(d: Descriptor, m: seq<Slot>, c: Course, dest: seq<Slot>, rest: Bytes, seen: set<nat>): Verdict {
    if forall x {:trigger Looking(x)} :: Looking(x) ==> Underway(d, m, c, dest, rest, seen) then Holds else Fails
  }

  function NextExtra(c: Course): Option<Extra> {
    if c.gaps != [] && c.gaps[0] != [] then Some(c.gaps[0][0]) else None
  }

  /** What is next: a record of the message or of an unknown field, or the end. */
  lemma MidwayFront(d: Descriptor, m: seq<Slot>, c: Course, dest: seq<Slot>, rest: Bytes, seen: set<nat>)
    requires ValidDescriptor(d) && Midway(d, m, c, dest, rest, seen) == Holds
    ensures rest == [] ==> c.k == |m|
    ensures rest != [] && NextExtra(c).None? ==> AtRecord(d, m, c.k, c.j, dest, rest) == Holds
    ensures NextExtra(c).Some? ==> AtExtra(d, NextExtra(c).value, rest) == Holds
  {
    assert Looking(0);
    if NextExtra(c).Some? {
      assert GoodExtra(d, c.gaps[0][0]);
      Front(d, m, c);
    } else if c.k < |m| {
      var _, _ := TakeRecord(d, m, c.k, c.j, dest, Remaining(d, m, c.k, c.j));
    }
  }

  /** The front of what is left, and what is left behind it. */
  lemma Front(d: Descriptor, m: seq<Slot>, c: Course)
    requires MessageHasType(d, m) && c.k <= |m| && (c.k < |m| ==> c.j < Records(d.fields[c.k], m[c.k])) && NextExtra(c).Some?
    ensures var rest, e := Spaced(d, m, c.k, c.j, c.gaps), ExtraRecord(c.gaps[0][0]);
            e <= rest && rest[|e|..] == Spaced(d, m, c.k, c.j, c.gaps[0 := c.gaps[0][1..]])
  {
    var gap, after := c.gaps[0], c.gaps[0 := c.gaps[0][1..]];
    var tail := if c.k == |m| then [] else
      EncodedRecord(d.fields[c.k], m[c.k], c.j) + Spaced(d, m, NextPlace(d, m, c.k, c.j).0, NextPlace(d, m, c.k, c.j).1, c.gaps[1..]);
    assert after[1..] == c.gaps[1..];
    Assoc(ExtraRecord(gap[0]), ExtraRecords(gap[1..]), tail);
    Behind(ExtraRecord(gap[0]), ExtraRecords(gap[1..]) + tail);
  }

  lemma Behind(a: Bytes, b: Bytes)
    ensures a <= a + b && (a + b)[|a|..] == b
  {}

  lemma OnwardExtra(d: Descriptor, m: seq<Slot>, c: Course, dest: seq<Slot>, rest: Bytes, seen: set<nat>, n: nat) returns (c': Course)
    requires Midway(d, m, c, dest, rest, seen) == Holds && NextExtra(c).Some?
    requires n == |ExtraRecord(NextExtra(c).value)| <= |rest|
    ensures Midway(d, m, c', dest, rest[n..], seen) == Holds
  {
    assert Looking(0);
    Front(d, m, c);
    c' := c.(gaps := c.gaps[0 := c.gaps[0][1..]]);
    FewerExtras(d, c.gaps);
  }

  lemma FewerExtras(d: Descriptor, gaps: seq<seq<Extra>>)
    requires GoodGaps(d, gaps) && gaps != []
    ensures GoodGaps(d, gaps[1..]) && (gaps[0] != [] ==> GoodGaps(d, gaps[0 := gaps[0][1..]]))
  {}

  lemma Onward(d: Descriptor, m: seq<Slot>, c: Course, dest: seq<Slot>, rest: Bytes, seen: set<nat>, ok: bool, r: seq<Slot>, n: nat,
               tag: nat, seen': set<nat>)
    returns (c': Course)
    requires ValidDescriptor(d) && Midway(d, m, c, dest, rest, seen) == Holds && NextExtra(c).None?
    requires AtRecord(d, m, c.k, c.j, dest, rest) == Holds
    requires TookRecord(d, m, c.k, c.j, dest, ok, r, n) == Holds && n <= |rest|
    requires ok ==> Marks(d, seen, seen', tag) == Holds && TagIs(d, c.k, tag) == Holds
    ensures ok ==> Midway(d, m, c', r, rest[n..], seen') == Holds
    ensures !ok ==> CanRestore(d, m) == Fails
  {
    c' := c;
    if ok {
      c' := OnwardRestored(d, m, c, dest, rest, seen, r, n, tag, seen');
    } else {
      assert Looking(0);
      NotRestorable(d, m, c.k, c.j);
    }
  }

  lemma OnwardRestored(d: Descriptor, m: seq<Slot>, c: Course, dest: seq<Slot>, rest: Bytes, seen: set<nat>, r: seq<Slot>, n: nat,
                       tag: nat, seen': set<nat>)
    returns (c': Course)
    requires ValidDescriptor(d) && Midway(d, m, c, dest, rest, seen) == Holds && NextExtra(c).None?
    requires TookRecord(d, m, c.k, c.j, dest, true, r, n) == Holds && n <= |rest|
    requires Marks(d, seen, seen', tag) == Holds && TagIs(d, c.k, tag) == Holds
    ensures Midway(d, m, c', r, rest[n..], seen') == Holds
  {
    assert Looking(0);
    c' := PastRecord(d, m, c, dest, rest);
    MarkedProgress(d, m, c, seen, c', tag, seen');
  }

  lemma MarkedProgress(d: Descriptor, m: seq<Slot>, c: Course, seen: set<nat>, c': Course, tag: nat, seen': set<nat>)
    requires MessageHasType(d, m) && c.k < |m| && c.j < Records(d.fields[c.k], m[c.k]) && Progress(d, m, c.k, c.j, seen)
    requires RecordRestorable(d.fields[c.k], m[c.k], c.j) && Marks(d, seen, seen', tag) == Holds && d.fields[c.k].tag == tag
    requires if c.j + 1 < Records(d.fields[c.k], m[c.k]) then c'.k == c.k && c'.j == c.j + 1
             else c.k < c'.k <= |m| && c'.j == 0 && forall i :: c.k < i < c'.k ==> Records(d.fields[i], m[i]) == 0
    ensures Progress(d, m, c'.k, c'.j, seen')
  {
    assert Looking(0);
    ProgressMade(d, m, c.k, c.j, seen, c'.k, c'.j, seen');
  }

  /** One turn further, past either kind of record. */
  lemma Advance(d: Descriptor, m: seq<Slot>, c: Course, dest: seq<Slot>, rest: Bytes, seen: set<nat>, ok: bool, r: seq<Slot>, n: nat,
                tag: nat, seen': set<nat>)
    returns (c': Course)
    requires ValidDescriptor(d) && Midway(d, m, c, dest, rest, seen) == Holds && n <= |rest|
    requires var e := NextExtra(c); e.Some? ==> ok && r == dest && seen' == seen && n == |ExtraRecord(e.value)|
    requires NextExtra(c).None? ==> AtRecord(d, m, c.k, c.j, dest, rest) == Holds && TookRecord(d, m, c.k, c.j, dest, ok, r, n) == Holds
    requires NextExtra(c).None? && ok ==> Marks(d, seen, seen', tag) == Holds && TagIs(d, c.k, tag) == Holds
    ensures ok ==> Midway(d, m, c', r, rest[n..], seen') == Holds
    ensures !ok ==> CanRestore(d, m) == Fails
  {
    if NextExtra(c).Some? {
      c' := OnwardExtra(d, m, c, dest, rest, seen, n);
    } else {
      c' := Onward(d, m, c, dest, rest, seen, ok, r, n, tag, seen');
    }
  }

  lemma PastRecord(d: Descriptor, m: seq<Slot>, c: Course, dest: seq<Slot>, rest: Bytes) returns (c': Course)
    requires ValidDescriptor(d) && MessageHasType(d, m) && c.k < |m| && c.j < Records(d.fields[c.k], m[c.k]) && NextExtra(c).None?
    requires Reached(d, m, c.k, c.j, dest, Remaining(d, m, c.k, c.j)) && GoodGaps(d, c.gaps) && rest == Spaced(d, m, c.k, c.j, c.gaps)
    ensures var record := EncodedRecord(d.fields[c.k], m[c.k], c.j); var r := dest[c.k := Partial(d.fields[c.k], m[c.k], c.j + 1)];
            && c'.k <= |m| && (c'.k < |m| ==> c'.j < Records(d.fields[c'.k], m[c'.k]))
            && record <= rest && rest[|record|..] == Spaced(d, m, c'.k, c'.j, c'.gaps) && GoodGaps(d, c'.gaps)
            && Reached(d, m, c'.k, c'.j, r, Remaining(d, m, c'.k, c'.j))
            && (if c.j + 1 < Records(d.fields[c.k], m[c.k]) then c'.k == c.k && c'.j == c.j + 1
                else c'.k > c.k && c'.j == 0 && forall i :: c.k < i < c'.k ==> Records(d.fields[i], m[i]) == 0)
  {
    var k', j' := TakeRecord(d, m, c.k, c.j, dest, Remaining(d, m, c.k, c.j));
    c' := Course(k', j', if c.gaps == [] then [] else c.gaps[1..]);
    if c.gaps != [] {
      FewerExtras(d, c.gaps);
      var record := EncodedRecord(d.fields[c.k], m[c.k], c.j);
      var tail := Spaced(d, m, k', j', c.gaps[1..]);
      assert rest == [] + (record + tail);
      Behind(record, tail);
    }
  }

  ghost function CanRestore(d: Descriptor, m: seq<Slot>): Verdict {
    if MessageHasType(d, m) && MessageRestorable(d, m) then Holds else Fails
  }

  ghost function TagIs(d: Descriptor, k: nat, tag: nat): Verdict {
    if k < |d.fields| && d.fields[k].tag == tag then Holds else Fails
  }

  ghost predicate AllTracked(d: Descriptor, seen: set<nat>) {
    forall b :: 0 <= b < RequiredBefore(d.fields, |d.fields|) && b < MAX_REQUIRED ==> b in seen
  }

  lemma Begun(d: Descriptor, m: seq<Slot>, gaps: seq<seq<Extra>>) returns (c: Course)
    requires ValidDescriptor(d) && MessageHasType(d, m) && MessageEncodable(d, m) && GoodGaps(d, gaps)
    ensures Midway(d, m, c, Defaults(d), Spread(d, m, gaps), {}) == Holds
  {
    assert Looking(0);
    SkipAbsent(d, m, 0, Defaults(d));
    NextHasRecord(d, m, 0);
    c := Course(NextField(d, m, 0), 0, gaps);
    assert forall i :: 0 <= i < c.k ==> !d.fields[i].htype.Required?;
  }

  /** The end of the encoding is the end of the message, with nothing required missing. */
  lemma Finished(d: Descriptor, m: seq<Slot>, c: Course, dest: seq<Slot>, seen: set<nat>)
    requires ValidDescriptor(d) && Midway(d, m, c, dest, [], seen) == Holds
    ensures c.k == |m| && dest == m && CanRestore(d, m) == Holds && AllTracked(d, seen)
  {
    assert Looking(0);
    MidwayFront(d, m, c, dest, [], seen);
    assert MessageRestorable(d, m);
    forall b | 0 <= b < RequiredBefore(d.fields, |d.fields|) && b < MAX_REQUIRED ensures b in seen {
      var i := RequiredAt(d.fields, b, |d.fields|);
      assert Tracked(d, i);
    }
  }

  lemma NotRestorable(d: Descriptor, m: seq<Slot>, k: nat, j: nat)
    requires MessageHasType(d, m) && k < |m| && j < Records(d.fields[k], m[k])
    requires !RecordRestorable(d.fields[k], m[k], j)
    ensures !MessageRestorable(d, m)
  {}

  datatype Place = Place(start: nat, limit: nat, rest: Bytes)

  /** pb_istream_t over a buffer: `pos` is the state pointer. */
  class InStream {
    const data: Bytes
    var pos: nat
    var left: nat

    ghost predicate Valid()
      reads this
    {
      pos + left <= |data| < 0x8000_0000_0000_0000
    }

    ghost function Rest(): Bytes
      requires Valid()
      reads this
    {
      data[pos..pos + left]
    }

    /** Where the stream stands. */
    ghost predicate At(here: Place)
      requires Valid()
      reads this
    {
      pos == here.start && pos + left == here.limit && Rest() == here.rest
    }

    twostate predicate Took(n: nat)
      reads this
    {
      pos == old(pos) + n && left + n == old(left)
    }

    constructor FromBuffer(buf: Bytes)
      requires |buf| < 0x8000_0000_0000_0000
      ensures Valid() && data == buf && Rest() == buf && pos == 0
    {
      data, pos, left := buf, 0, |buf|;
    }

    constructor Substream(parent: InStream, size: nat)
      requires parent.Valid() && size <= parent.left
      ensures Valid() && data == parent.data && pos == parent.pos && left == size
    {
      data, pos, left := parent.data, parent.pos, size;
    }

    /** pb_readbyte. */
    method ReadByte() returns (ok: bool, byte: Byte)
      requires Valid()
      modifies this`pos, this`left
      ensures Valid() && ok == (old(left) > 0)
      ensures if ok then Took(1) && byte == data[old(pos)] else Took(0)
    {
      if left == 0 {
        return false, 0;
      }
      byte := data[pos];
      pos, left := pos + 1, left - 1;
      return true, byte;
    }

    /** pb_read. */
    method Read(count: nat) returns (ok: bool, b: Bytes)
      requires Valid()
      modifies this`pos, this`left
      ensures Valid() && ok == (count <= old(left))
      ensures if ok then Took(count) && b == old(Rest())[..count] else Took(0)
    {
      if count == 0 {
        return true, [];
      }
      if left < count {
        return false, [];
      }
      b := data[pos..pos + count];
      pos, left := pos + count, left - count;
      return true, b;
    }

    /** pb_decode_varint32_eof: reads back every 32-bit number and refuses every larger one that the
        encoder could have written as a length. */
    method DecodeVarint32(ghost v: nat) returns (ok: bool, value: nat, eof: bool)
      requires Valid()
      modifies this`pos, this`left
      ensures Valid() && pos + left == old(pos + left) && (ok ==> left < old(left))
      ensures left <= old(left) && eof == (old(left) == 0) && (eof ==> !ok)
      ensures v < 0x8000_0000_0000_0000 && Varint(v) <= old(Rest()) ==> ok == (v < 0x1_0000_0000)
      ensures v < 0x1_0000_0000 && Varint(v) <= old(Rest()) ==> value == v && Took(|Varint(v)|)
      ensures ok ==> VarintEnd(data, old(pos), old(pos + left)) == Some(pos) && value == Low32(data, old(pos), pos)
    {
      ghost var start, limit := pos, pos + left;
      ghost var written := v < 0x8000_0000_0000_0000 && Varint(v) <= Rest();
      ghost var short := v < 0x1_0000_0000;
      var i, more := 0, true;
      value := 0;
      if written {
        StartVarint(data, start, limit, v);
      }
      while more
        invariant Valid() && pos == start + i && pos + left == limit && left <= old(left) && (i == 0 <==> left == old(left))
        invariant i == 0 ==> more && value == 0
        invariant Taken32(data, start, limit, i, more, value)
        invariant written && more ==> InVarint32(data, start, limit, v, i, value)
        invariant written && !more ==> short && value == v && i == |Varint(v)|
        decreases left
      {
        if written {
          if short {
            ShortByte(data, start, limit, v, i, value);
          } else {
            LongByte(data, start, limit, v, i, value);
          }
        }
        var byte;
        ok, byte := ReadByte();
        if !ok {
          return false, 0, i == 0;
        }
        var next := TakeByte32(value, byte, i);
        TookByte32(data, start, limit, i, value);
        if next.None? {
          return false, 0, false;
        }
        value := next.value;
        i := i + 1;
        more := byte >= 128;
        if !more && Overflows(byte, i) {
          return false, 0, false;
        }
      }
      return true, value, false;
    }

    /** pb_decode_varint. */
    method DecodeVarint(ghost v: nat) returns (ok: bool, value: nat)
      requires Valid()
      modifies this`pos, this`left
      ensures Valid() && pos + left == old(pos + left)
      ensures ok ==> left < old(left) && value < 0x1_0000_0000_0000_0000
      ensures v < 0x1_0000_0000_0000_0000 && Varint(v) <= old(Rest()) ==> ok && value == v && Took(|Varint(v)|)
      ensures ok ==> VarintEnd(data, old(pos), old(pos + left)) == Some(pos)
    {
      ghost var start, limit := pos, pos + left;
      ghost var written := v < 0x1_0000_0000_0000_0000 && Varint(v) <= Rest();
      var i, more := 0, true;
      value := 0;
      if written {
        StartVarint(data, start, limit, v);
      }
      while more
        invariant Valid() && pos == start + i && pos + left == limit && Accumulated(value, i, 0x1_0000_0000_0000_0000, 10)
        invariant more || i > 0
        invariant VarintEnd(data, start, limit) == if more then VarintEnd(data, start + i, limit) else Some(start + i)
        invariant written && more ==> InVarint(data, start, limit, v, i, value) && i < 10
        invariant written && !more ==> value == v && i == |Varint(v)|
        decreases left
      {
        if 7 * i >= 64 {
          return false, 0;
        }
        if written {
          Byte64(data, start, limit, v, i, value);
        }
        var byte;
        ok, byte := ReadByte();
        if !ok {
          return false, 0;
        }
        SumFits(value, i, byte, 0x1_0000_0000_0000_0000, 10);
        value := TakeByte64(value, byte, i);
        i := i + 1;
        more := byte >= 128;
      }
      return true, value;
    }

    /** pb_decode_fixed32. */
    method DecodeFixed32(ghost v: nat) returns (ok: bool, value: nat)
      requires Valid()
      modifies this`pos, this`left
      ensures Valid() && pos + left == old(pos + left) && (ok ==> left < old(left) && value < 0x1_0000_0000)
      ensures v < 0x1_0000_0000 && LogFormat.Fixed32(v) <= old(Rest()) ==> ok && value == v && Took(4)
      ensures ok ==> FixedEnd(4, old(pos), old(pos + left)) == Some(pos)
    {
      if v < 0x1_0000_0000 && LogFormat.Fixed32(v) <= Rest() {
        assert Rest()[..4] == LogFormat.Fixed32(v);
        Fixed32RoundTrip(v);
      }
      var b;
      ok, b := Read(4);
      value := 0;
      if ok {
        value := LogFormat.DecodeFixed32(b);
      }
    }

    /** pb_decode_fixed64. */
    method DecodeFixed64(ghost v: nat) returns (ok: bool, value: nat)
      requires Valid()
      modifies this`pos, this`left
      ensures Valid() && pos + left == old(pos + left) && (ok ==> left < old(left) && value < 0x1_0000_0000_0000_0000)
      ensures v < 0x1_0000_0000_0000_0000 && Fixed64Bytes(v) <= old(Rest()) ==> ok && value == v && Took(8)
      ensures ok ==> FixedEnd(8, old(pos), old(pos + left)) == Some(pos)
    {
      if v < 0x1_0000_0000_0000_0000 && Fixed64Bytes(v) <= Rest() {
        assert Rest()[..8] == Fixed64Bytes(v);
        assert Fixed64Bytes(v)[..4] == LogFormat.Fixed32(v % 0x1_0000_0000);
        assert Fixed64Bytes(v)[4..] == LogFormat.Fixed32(v / 0x1_0000_0000);
        Fixed32RoundTrip(v % 0x1_0000_0000);
        Fixed32RoundTrip(v / 0x1_0000_0000);
      }
      var b;
      ok, b := Read(8);
      value := 0;
      if ok {
        value := LogFormat.DecodeFixed32(b[..4]) + 0x1_0000_0000 * LogFormat.DecodeFixed32(b[4..]);
      }
    }

    /** pb_dec_varint, pb_dec_uvarint and pb_dec_svarint. */
    method DecodeNumber(lt: LType, ghost v: int) returns (ok: bool, n: int)
      requires Valid() && Integer(lt)
      modifies this`pos, this`left
      ensures Valid() && pos + left == old(pos + left)
      ensures ok ==> left < old(left) && HasType(lt, Number(n))
      ensures HasType(lt, Number(v)) && EncodedValue(lt, Number(v)) <= old(Rest()) ==>
                ok && n == v && Took(|EncodedValue(lt, Number(v))|)
      ensures ok ==> VarintEnd(data, old(pos), old(pos + left)) == Some(pos)
    {
      ghost var pattern: nat := 0;
      if HasType(lt, Number(v)) {
        pattern := VarintOf(lt, v);
        CastBack(lt, v);
      }
      var value;
      ok, value := DecodeVarint(pattern);
      if !ok {
        return false, 0;
      }
      var number := Narrowed(lt, value);
      return number.Some?, if number.Some? then number.value else 0;
    }

    lemma RestAfter(before: Bytes, n: nat, p: nat)
      requires Valid() && p + n <= pos + left && pos == p + n && before == data[p..pos + left]
      ensures Rest() == before[n..]
    {}

    /** A length and that many bytes. */
    method DecodeLength(ghost b: Bytes) returns (ok: bool, size: nat)
      requires Valid()
      modifies this`pos, this`left
      ensures Valid() && pos + left == old(pos + left) && (ok ==> left < old(left))
      ensures Prefixed(b) <= old(Rest()) ==> ok == (|b| < 0x1_0000_0000)
      ensures Prefixed(b) <= old(Rest()) && ok ==>
                size == |b| && Took(|Varint(|b|)|) && size <= left && b <= Rest() && Rest()[..size] == b
      ensures ok ==> VarintEnd(data, old(pos), old(pos + left)) == Some(pos) && size == Low32(data, old(pos), pos)
    {
      ghost var before, p := Rest(), pos;
      if Prefixed(b) <= before {
        PrefixedFront(before, b);
        assert |b| <= |before|;
      }
      var eof;
      ok, size, eof := DecodeVarint32(|b|);
      if ok && Prefixed(b) <= before {
        RestAfter(before, |Varint(|b|)|, p);
      }
    }

    /** pb_dec_bytes, pb_dec_string and pb_dec_fixed_length_bytes. */
    method DecodeBytes(lt: LType, ghost v: Value) returns (ok: bool, r: Value)
      requires Valid() && Stringy(lt)
      modifies this`pos, this`left
      ensures Valid() && pos + left == old(pos + left)
      ensures ok ==> left < old(left) && InBounds(lt, r)
      ensures HasType(lt, v) && Encodable(lt, v) && |v.bytes| < 0x1_0000_0000 && EncodedValue(lt, v) <= old(Rest()) ==>
                ok == Restorable(lt, v) && (ok ==> r == v && Took(|EncodedValue(lt, v)|))
      ensures ok ==> PrefixedEnd(data, old(pos), old(pos + left)) == Some(pos)
    {
      ghost var b, start, limit := if v.Data? then v.bytes else [], pos, pos + left;
      var size;
      ok, size := DecodeLength(b);
      if !ok {
        return false, Data([]);
      }
      ghost var q := pos;
      assert pos + left == limit && PrefixedEnd(data, start, limit) == FixedEnd(size, q, limit);
      ok, r := TakeBytes(lt, size);
    }

    /** The check of the size against the field, and the bytes. */
    method TakeBytes(lt: LType, size: nat) returns (ok: bool, r: Value)
      requires Valid() && Stringy(lt)
      modifies this`pos, this`left
      ensures Valid() && pos + left == old(pos + left)
      ensures ok == (SizeFits(lt, size) && size <= old(left))
      ensures ok ==> Took(size) && r == Stored(lt, old(Rest())[..size])
    {
      var bytes;
      match lt
      case Blob(capacity) =>
        if size > capacity {
          return false, Data([]);
        }
        ok, bytes := Read(size);
        r := Data(bytes);
      case Text(dataSize) =>
        if size + 1 > dataSize {
          return false, Data([]);
        }
        ok, bytes := Read(size);
        r := Data(UpToZero(bytes));
      case FixedBlob(dataSize) =>
        if size == 0 {
          return true, Data(Zeros(dataSize));
        }
        if size != dataSize {
          return false, Data([]);
        }
        ok, bytes := Read(size);
        r := Data(bytes);
    }

    /** pb_make_string_substream. */
    method MakeSubstream(ghost body: Bytes) returns (ok: bool, substream: InStream)
      requires Valid()
      modifies this`pos, this`left
      ensures Valid() && fresh(substream) && substream.Valid() && substream.data == data
      ensures pos + left <= old(pos + left)
      ensures ok ==> substream.pos == pos && pos + substream.left + left == old(pos + left) && pos > old(pos)
      ensures Prefixed(body) <= old(Rest()) ==> ok == (|body| < 0x1_0000_0000)
      ensures Prefixed(body) <= old(Rest()) && ok ==>
                substream.Rest() == body && pos == old(pos) + |Varint(|body|)| && left + |Prefixed(body)| == old(left)
      ensures ok ==> VarintEnd(data, old(pos), old(pos + left)) == Some(substream.pos)
      ensures ok ==> PrefixedEnd(data, old(pos), old(pos + left)) == Some(substream.pos + substream.left)
    {
      var size;
      ok, size := DecodeLength(body);
      if !ok || left < size {
        substream := new InStream.Substream(this, 0);
        return false, substream;
      }
      substream := new InStream.Substream(this, size);
      assert Prefixed(body) <= old(Rest()) ==> substream.Rest() == Rest()[..size];
      left := left - size;
    }

    /** pb_close_string_substream: whatever the substream still holds is skipped. */
    method CloseSubstream(substream: InStream)
      requires Valid() && substream.Valid() && substream != this && substream.data == data
      requires substream.pos + substream.left + left <= |data|
      modifies this`pos, substream
      ensures Valid() && pos == old(substream.pos + substream.left)
    {
      if substream.left > 0 {
        var _, _ := substream.Read(substream.left);
      }
      pos := substream.pos;
    }

    /** pb_decode_tag. */
    method DecodeTag(ghost key: nat, ghost w: WireType) returns (ok: bool, wire: nat, tag: nat, eof: bool)
      requires Valid()
      modifies this`pos, this`left
      ensures Valid() && pos + left == old(pos + left) && left <= old(left) && (ok ==> left < old(left))
      ensures 1 <= key < 0x2000_0000 && Key(key, w) <= old(Rest()) ==>
                ok && tag == key && wire == WireNumber(w) && Took(|Key(key, w)|)
      ensures ok ==> KeyAt(data, old(pos), old(pos + left), pos, wire, tag) == Holds && wire < 8
      ensures !ok && eof ==> AtEnd(data, old(pos), old(pos + left)) == Holds
    {
      var temp;
      ok, temp, eof := DecodeVarint32(8 * key + WireNumber(w));
      if !ok {
        return false, 0, 0, eof;
      }
      if temp == 0 {
        return false, 0, 0, true;
      }
      return true, temp % 8, temp / 8, false;
    }

    /** pb_skip_field: just the value, if there is a whole one. */
    method SkipField(wire: nat, ghost payload: Bytes) returns (ok: bool)
      requires Valid()
      modifies this`pos, this`left
      ensures Valid() && pos + left == old(pos + left) && left <= old(left)
      ensures ok ==> WireEnd(wire, data, old(pos), old(pos + left)) == Some(pos)
      ensures wire != 2 ==> ok == WireEnd(wire, data, old(pos), old(pos + left)).Some?
      ensures PayloadFor(wire, payload) && payload <= old(Rest()) ==> ok && Took(|payload|)
    {
      var b: Bytes;
      if wire == WireNumber(VarintWire) {
        if PayloadFor(0, payload) && payload <= Rest() {
          var v: nat :| payload == Varint(v);
          VarintEnds(data, pos, pos + left, v);
        }
        ok := SkipVarint();
      } else if wire == WireNumber(Bits64) {
        ok, b := Read(8);
      } else if wire == WireNumber(StringWire) {
        ok := SkipString(payload);
      } else if wire == WireNumber(Bits32) {
        ok, b := Read(4);
      } else {
        ok := false;
      }
    }

    /** pb_skip_string. */
    method SkipString(ghost payload: Bytes) returns (ok: bool)
      requires Valid()
      modifies this`pos, this`left
      ensures Valid() && pos + left == old(pos + left) && left <= old(left)
      ensures ok ==> PrefixedEnd(data, old(pos), old(pos + left)) == Some(pos)
      ensures PayloadFor(2, payload) && payload <= old(Rest()) ==> ok && Took(|payload|)
    {
      ghost var b: Bytes := [];
      if PayloadFor(2, payload) && payload <= Rest() {
        b :| |b| < 0x1_0000_0000 && payload == Prefixed(b);
        PrefixedFront(Rest(), b);
      }
      var size, eof;
      ok, size, eof := DecodeVarint32(|b|);
      if ok {
        var bytes;
        ok, bytes := Read(size);
      }
    }

    /** pb_skip_varint. */
    method SkipVarint() returns (ok: bool)
      requires Valid()
      modifies this`pos, this`left
      ensures Valid() && pos + left == old(pos + left) && left <= old(left)
      ensures VarintEnd(data, old(pos), old(pos + left)) == if ok then Some(pos) else None
    {
      ghost var start, limit := pos, pos + left;
      var b: Bytes;
      ok, b := Read(1);
      while ok && b[0] >= 128
        invariant Valid() && pos + left == limit && start <= pos && (ok ==> |b| == 1 && pos > start && b[0] == data[pos - 1])
        invariant VarintEnd(data, start, limit) ==
          if !ok then None else if b[0] < 128 then Some(pos) else VarintEnd(data, pos, limit)
        decreases left, ok
      {
        ok, b := Read(1);
      }
    }

    // ---- one field

    /** What a value has to look like on the stream for decoding to have to restore it. */
    ghost predicate Offers(f: Field, v: Value, cur: Value)
      requires Valid()
      reads this
    {
      HasType(f.ltype, v) && Encodable(f.ltype, v) && EncodedValue(f.ltype, v) <= Rest()
      && (f.ltype.Message? && !f.htype.Repeated? ==> cur == Struct(Defaults(f.ltype.descriptor)))
    }

    /** One item through PB_DECODERS. */
    method DecodeItem(f: Field, cur: Value, ghost v: Value) returns (ok: bool, r: Value)
      requires Valid() && ValidField(f) && InBounds(f.ltype, cur)
      modifies this
      decreases f, 2, 0
      ensures Valid() && pos + left <= old(pos + left)
      ensures ok ==> pos + left == old(pos + left) && left < old(left) && InBounds(f.ltype, r)
      ensures old(Offers(f, v, cur)) ==> ok == Restorable(f.ltype, v)
      ensures old(Offers(f, v, cur)) && ok ==> r == v && Took(|EncodedValue(f.ltype, v)|)
      ensures ok ==> ValueEnd(f.ltype, data, old(pos), old(pos + left)) == Some(pos) && ValueComplete(f, data, old(pos), old(pos + left)) == Holds
    {
      if f.ltype.Message? {
        ok, r := DecodeSubmessage(f, cur, v);
      } else if Stringy(f.ltype) {
        ok, r := DecodeBytes(f.ltype, v);
      } else {
        ok, r := DecodeScalar(f.ltype, v);
      }
    }

    /** The decoders of packable types. */
    method DecodeScalar(lt: LType, ghost v: Value) returns (ok: bool, r: Value)
      requires Valid() && Packable(lt)
      modifies this`pos, this`left
      ensures Valid() && pos + left == old(pos + left)
      ensures ok ==> left < old(left) && HasType(lt, r)
      ensures HasType(lt, v) && EncodedValue(lt, v) <= old(Rest()) ==> ok && r == v && Took(|EncodedValue(lt, v)|)
      ensures ok ==> ValueEnd(lt, data, old(pos), old(pos + left)) == Some(pos)
    {
      ghost var n := if v.Number? then v.n else 0;
      var number;
      if lt.Bool? {
        var eof;
        ok, number, eof := DecodeVarint32(if v == Flag(true) then 1 else 0);
        return ok, Flag(number != 0);
      } else if lt.Fixed32? {
        ok, number := DecodeFixed32(if n < 0 then 0 else n);
      } else if lt.Fixed64? {
        ok, number := DecodeFixed64(if n < 0 then 0 else n);
      } else {
        ok, number := DecodeNumber(lt, n);
      }
      r := Number(number);
    }

    /** pb_dec_submessage: array entries start from the defaults, other messages from what is there. */
    method DecodeSubmessage(f: Field, cur: Value, ghost v: Value) returns (ok: bool, r: Value)
      requires Valid() && ValidField(f) && f.ltype.Message? && InBounds(f.ltype, cur)
      modifies this
      decreases f, 1
      ensures Valid() && pos + left <= old(pos + left)
      ensures ok ==> pos + left == old(pos + left) && left < old(left) && InBounds(f.ltype, r)
      ensures old(Offers(f, v, cur)) ==> ok == Restorable(f.ltype, v)
      ensures old(Offers(f, v, cur)) && ok ==> r == v && Took(|EncodedValue(f.ltype, v)|)
      ensures ok ==> PrefixedEnd(data, old(pos), old(pos + left)) == Some(pos) && ValueComplete(f, data, old(pos), old(pos + left)) == Holds
    {
      var d := f.ltype.descriptor;
      ghost var offered, start, limit := Offers(f, v, cur), pos, pos + left;
      ghost var m := if offered then v.slots else [];
      ghost var body := if offered then EncodedMessage(d, m) else [];
      var substream, slots;
      ok, substream := MakeSubstream(body);
      if !ok {
        return false, cur;
      }
      ghost var q, e := substream.pos, substream.pos + substream.left;
      ok, slots := substream.DecodeBody(f, cur, m);
      CloseSubstream(substream);
      if ok {
        MessageValue(f, data, start, limit, q, e);
      }
      r := if ok then Struct(slots) else cur;
    }

    /** What the substream holds. */
    method DecodeBody(f: Field, cur: Value, ghost m: seq<Slot>) returns (ok: bool, slots: seq<Slot>)
      requires Valid() && ValidField(f) && f.ltype.Message? && InBounds(f.ltype, cur)
      modifies this
      decreases f, 0
      ensures Valid() && pos + left <= old(pos + left)
      ensures ok ==> pos + left == old(pos + left) && left <= old(left) && MessageInBounds(f.ltype.descriptor, slots)
      ensures var d := f.ltype.descriptor;
              MessageHasType(d, m) && MessageEncodable(d, m) && old(Rest()) == EncodedMessage(d, m)
              && (f.htype.Repeated? || cur == Struct(Defaults(d))) ==>
                ok == MessageRestorable(d, m) && (ok ==> slots == m && left == 0)
      ensures ok ==> Completeness(f.ltype.descriptor, data, old(pos), old(pos + left)) == Holds
    {
      if MessageHasType(f.ltype.descriptor, m) {
        NoGaps(f.ltype.descriptor, m);
      }
      if f.htype.Repeated? {
        ok, slots := Decode(f.ltype.descriptor, m, []);
      } else {
        ok, slots := DecodeNoInit(f.ltype.descriptor, cur.slots, m, []);
      }
    }

    method Decode(d: Descriptor, ghost m: seq<Slot>, ghost gaps: seq<seq<Extra>>) returns (ok: bool, r: seq<Slot>)
      requires Valid() && ValidDescriptor(d)
      modifies this
      decreases d, 7
      ensures Valid() && pos + left <= old(pos + left)
      ensures ok ==> pos + left == old(pos + left) && left <= old(left) && MessageInBounds(d, r)
      ensures MessageHasType(d, m) && MessageEncodable(d, m) && GoodGaps(d, gaps) && old(Rest()) == Spread(d, m, gaps) ==>
                ok == MessageRestorable(d, m) && (ok ==> r == m && left == 0)
      ensures ok ==> Completeness(d, data, old(pos), old(pos + left)) == Holds
    {
      DefaultsInBounds(d);
      ok, r := DecodeNoInit(d, Defaults(d), m, gaps);
    }

    /** The next record of s is at the front of the stream, past its key. */
    ghost predicate OffersRecord(f: Field, wire: nat, slot: Slot, s: Slot, j: nat)
      requires Valid()
      reads this
    {
      SlotHasType(f, s) && SlotEncodable(f, s) && j < Records(f, s) && wire == WireNumber(RecordWire(f))
      && Payload(f, s, j) <= Rest() && slot == Partial(f, s, j)
    }

    /** decode_static_field. */
    method DecodeField(f: Field, wire: nat, slot: Slot, ghost s: Slot, ghost j: nat) returns (ok: bool, r: Slot)
      requires Valid() && ValidField(f) && SlotInBounds(f, slot)
      modifies this
      decreases f, 5
      ensures Valid() && pos + left <= old(pos + left)
      ensures ok ==> pos + left == old(pos + left) && left <= old(left) && SlotInBounds(f, r)
      ensures old(OffersRecord(f, wire, slot, s, j)) ==> ok == RecordRestorable(f, s, j)
      ensures old(OffersRecord(f, wire, slot, s, j)) && ok ==> r == Partial(f, s, j + 1) && Took(|Payload(f, s, j)|)
      ensures ok ==> FieldEnd(f, wire, data, old(pos), old(pos + left)) == Some(pos) && ValueComplete(f, data, old(pos), old(pos + left)) == Holds
    {
      if f.htype.Repeated? && wire == WireNumber(StringWire) && Packable(f.ltype) {
        ok, r := DecodePacked(f, slot, s);
        return;
      }
      if f.htype.Repeated? {
        ok, r := DecodeElement(f, slot, s, j);
      } else {
        ok, r := DecodeSingle(f, slot, s);
      }
    }

    /** Its branch for required and optional fields. */
    method DecodeSingle(f: Field, slot: Slot, ghost s: Slot) returns (ok: bool, r: Slot)
      requires Valid() && ValidField(f) && SlotInBounds(f, slot) && !f.htype.Repeated?
      modifies this
      decreases f, 3
      ensures Valid() && pos + left <= old(pos + left)
      ensures ok ==> pos + left == old(pos + left) && left <= old(left) && SlotInBounds(f, r)
      ensures old(OffersRecord(f, WireNumber(RecordWire(f)), slot, s, 0)) ==> ok == RecordRestorable(f, s, 0)
      ensures old(OffersRecord(f, WireNumber(RecordWire(f)), slot, s, 0)) && ok ==> r == s && Took(|Payload(f, s, 0)|)
      ensures ok ==> ValueEnd(f.ltype, data, old(pos), old(pos + left)) == Some(pos) && ValueComplete(f, data, old(pos), old(pos + left)) == Holds
    {
      ghost var offered := OffersRecord(f, WireNumber(RecordWire(f)), slot, s, 0);
      DefaultValueInBounds(f);
      ghost var v := if offered then s.items[0] else DefaultValue(f);
      var cur := if |slot.items| > 0 then slot.items[0] else DefaultValue(f);
      assert |slot.items| > 0 ==> slot.items[0] in slot.items;
      assert offered ==> v in s.items && s.items == [v];
      var value;
      ok, value := DecodeItem(f, cur, v);
      r := Slot([value]);
    }

    /** Its branch for arrays that are not packed. */
    method DecodeElement(f: Field, slot: Slot, ghost s: Slot, ghost j: nat) returns (ok: bool, r: Slot)
      requires Valid() && ValidField(f) && SlotInBounds(f, slot) && f.htype.Repeated?
      modifies this
      decreases f, 3
      ensures Valid() && pos + left <= old(pos + left)
      ensures ok ==> pos + left == old(pos + left) && left <= old(left) && SlotInBounds(f, r)
      ensures old(OffersRecord(f, WireNumber(RecordWire(f)), slot, s, j)) && !Packed(f) ==> ok == RecordRestorable(f, s, j)
      ensures old(OffersRecord(f, WireNumber(RecordWire(f)), slot, s, j)) && !Packed(f) && ok ==>
                r == Partial(f, s, j + 1) && Took(|Payload(f, s, j)|)
      ensures ok ==> ValueEnd(f.ltype, data, old(pos), old(pos + left)) == Some(pos) && ValueComplete(f, data, old(pos), old(pos + left)) == Holds
    {
      ghost var offered := OffersRecord(f, WireNumber(RecordWire(f)), slot, s, j) && !Packed(f);
      DefaultValueInBounds(f);
      ghost var v := if offered then s.items[j] else DefaultValue(f);
      assert offered ==> v in s.items && slot.items == s.items[..j];
      if |slot.items| >= f.htype.arraySize {
        return false, slot;
      }
      var value;
      ok, value := DecodeItem(f, DefaultValue(f), v);
      r := Slot(slot.items + [value]);
      assert offered ==> s.items[..j + 1] == s.items[..j] + [v];
    }

    /** The packed branch of decode_static_field. */
    method DecodePacked(f: Field, slot: Slot, ghost s: Slot) returns (ok: bool, r: Slot)
      requires Valid() && ValidField(f) && SlotInBounds(f, slot) && f.htype.Repeated? && Packable(f.ltype)
      modifies this
      decreases f, 4
      ensures Valid() && pos + left <= old(pos + left)
      ensures ok ==> pos + left == old(pos + left) && left <= old(left) && SlotInBounds(f, r)
      ensures old(OffersRecord(f, WireNumber(StringWire), slot, s, 0)) && Packed(f) ==> ok == RecordRestorable(f, s, 0)
      ensures old(OffersRecord(f, WireNumber(StringWire), slot, s, 0)) && Packed(f) && ok ==>
                r == s && Took(|Payload(f, s, 0)|)
      ensures ok ==> PrefixedEnd(data, old(pos), old(pos + left)) == Some(pos)
    {
      ghost var offered := OffersRecord(f, WireNumber(StringWire), slot, s, 0) && Packed(f);
      ghost var body := if offered then EncodedItems(f.ltype, s.items, 0) else [];
      var substream;
      ok, substream := MakeSubstream(body);
      if !ok {
        return false, slot;
      }
      ok, r := substream.DecodeItems(f, slot, if offered then s.items else []);
      if substream.left != 0 {
        return false, r;
      }
      CloseSubstream(substream);
    }

    /** Its loop over the substream, which ends early when the array is full. */
    method DecodeItems(f: Field, slot: Slot, ghost items: seq<Value>) returns (ok: bool, r: Slot)
      requires Valid() && ValidField(f) && SlotInBounds(f, slot) && f.htype.Repeated? && Packable(f.ltype)
      requires |items| <= f.htype.arraySize && forall v :: v in items ==> HasType(f.ltype, v)
      modifies this
      decreases f, 3
      ensures Valid() && pos + left <= old(pos + left)
      ensures ok ==> pos + left == old(pos + left) && SlotInBounds(f, r)
      ensures slot.items == [] && old(Rest()) == EncodedItems(f.ltype, items, 0) ==> ok && left == 0 && r == Slot(items)
    {
      ghost var offered := slot.items == [] && Rest() == EncodedItems(f.ltype, items, 0);
      DefaultValueInBounds(f);
      r, ok := slot, true;
      while left > 0 && |r.items| < f.htype.arraySize && ok
        invariant Valid() && pos + left <= old(pos + left) && SlotInBounds(f, r)
        invariant ok ==> pos + left == old(pos + left)
        invariant offered ==> ok && r.items <= items && Rest() == EncodedItems(f.ltype, items, |r.items|)
        decreases ok, left
      {
        ok, r := DecodeNextItem(f, r, items);
      }
      assert offered ==> r.items == items;
    }

    method DecodeNextItem(f: Field, slot: Slot, ghost items: seq<Value>) returns (ok: bool, r: Slot)
      requires Valid() && ValidField(f) && SlotInBounds(f, slot) && f.htype.Repeated? && Packable(f.ltype)
      requires left > 0 && |slot.items| < f.htype.arraySize && forall v :: v in items ==> HasType(f.ltype, v)
      modifies this
      decreases f, 2, 1
      ensures Valid() && pos + left <= old(pos + left) && SlotInBounds(f, r)
      ensures ok ==> pos + left == old(pos + left) && left < old(left)
      ensures slot.items <= items && old(Rest()) == EncodedItems(f.ltype, items, |slot.items|) ==>
                ok && r.items <= items && Rest() == EncodedItems(f.ltype, items, |r.items|)
    {
      ghost var i, before, p := |slot.items|, Rest(), pos;
      ghost var offered := slot.items <= items && before == EncodedItems(f.ltype, items, i);
      ghost var v := DefaultValue(f);
      DefaultValueInBounds(f);
      if offered {
        assert i < |items| && items[i] in items;
        v := items[i];
      }
      var value;
      ok, value := DecodeItem(f, DefaultValue(f), v);
      r := slot;
      if ok {
        if offered {
          RestAfter(before, |EncodedValue(f.ltype, v)|, p);
        }
        r := Slot(slot.items + [value]);
      }
    }

    /** One turn of the loop of pb_decode_noinit. A zero key ends the message; unknown fields are skipped. */
    method DecodeRecord(d: Descriptor, iter: FieldIter, dest: seq<Slot>, seen: set<nat>,
                        ghost m: seq<Slot>, ghost k: nat, ghost j: nat, ghost here: Place, ghost extra: Option<Extra>)
      returns (status: Status, r: seq<Slot>, seen': set<nat>, ghost turn: Turn)
      requires Valid() && At(here) && left > 0 && ValidDescriptor(d) && MessageInBounds(d, dest)
      requires iter.Valid() && iter.fields == d.fields && Trackable(d, seen)
      modifies this, iter
      decreases d, 4, 0
      ensures Valid() && iter.Valid() && pos + left <= old(pos + left) && Trackable(d, seen')
      ensures status == Done ==> pos + left == old(pos + left) && left <= old(left) && r == dest
      ensures status == More ==> pos + left == old(pos + left) && left < old(left) && MessageInBounds(d, r)
      ensures extra.Some? && AtExtra(d, extra.value, here.rest) == Holds ==>
                status == More && r == dest && seen' == seen && old(left) - left == |ExtraRecord(extra.value)|
      ensures extra.None? && AtRecord(d, m, k, j, dest, here.rest) == Holds ==>
                status != Done && TookRecord(d, m, k, j, dest, status == More, r, old(left) - left) == Holds
                && (status == More ==> TagIs(d, k, turn.tag) == Holds)
      ensures turn == Turn(here.start, here.limit, pos, turn.tag, seen, seen')
      ensures status == More ==> Found(d, data, turn) == Holds && Marks(d, seen, seen', turn.tag) == Holds
      ensures status == Done ==> AtEnd(data, turn.start, turn.limit) == Holds && seen' == seen
    {
      ghost var at := extra.None? && AtRecord(d, m, k, j, dest, here.rest) == Holds;
      r, seen' := dest, seen;
      var ok, wire, tag, eof;
      ghost var w;
      ok, wire, tag, eof, w := DecodeKey(d, dest, m, k, j, here, extra);
      turn := Turn(here.start, here.limit, pos, tag, seen, seen);
      if !ok {
        return if eof then Done else Failed, dest, seen, turn;
      }
      ghost var next, half := Place(pos, here.limit, Rest()), left;
      ok, r, seen' := DecodeTagged(d, iter, wire, tag, dest, seen, m, k, j, next, extra);
      turn := Turn(here.start, here.limit, pos, tag, seen, seen');
      if ok {
        KeyThenValue(d, data, here.start, next.start, here.limit, pos, wire, tag);
        FoundRecord(d, data, turn);
      }
      if at {
        KeyAndPayload(d, m, k, j, dest, tag, w, next.rest, ok, r, half - left);
        KeyTag(d, m, k, j, dest, wire, tag, next.rest);
      }
      status := if ok then More else Failed;
    }

    method DecodeKey(d: Descriptor, ghost dest: seq<Slot>, ghost m: seq<Slot>, ghost k: nat, ghost j: nat, ghost here: Place,
                     ghost extra: Option<Extra>)
      returns (ok: bool, wire: nat, tag: nat, eof: bool, ghost w: WireType)
      requires Valid() && At(here) && ValidDescriptor(d)
      modifies this`pos, this`left
      ensures Valid() && pos + left == here.limit && left <= old(left) && (ok ==> left < old(left) && wire < 8)
      ensures extra.Some? && AtExtra(d, extra.value, here.rest) == Holds ==>
                ok && tag == extra.value.tag && old(left) - left == |Key(tag, extra.value.wire)|
                && PastExtraKey(d, extra.value, wire, tag, Rest()) == Holds
      ensures extra.None? && AtRecord(d, m, k, j, dest, here.rest) == Holds ==>
                ok && 1 <= tag < 0x2000_0000 && wire == WireNumber(w) && old(left) - left == |Key(tag, w)|
                && PastKey(d, m, k, j, dest, wire, tag, Rest()) == Holds
      ensures ok ==> KeyAt(data, here.start, here.limit, pos, wire, tag) == Holds
      ensures !ok && eof ==> AtEnd(data, here.start, here.limit) == Holds
    {
      ghost var at, key := extra.None? && AtRecord(d, m, k, j, dest, here.rest) == Holds, 0;
      w := VarintWire;
      if at {
        key, w := TakeKey(d, m, k, j, dest, here.rest);
      }
      if extra.Some? && AtExtra(d, extra.value, here.rest) == Holds {
        ExtraKey(d, extra.value, here.rest);
        at, key, w := true, extra.value.tag, extra.value.wire;
      }
      ok, wire, tag, eof := DecodeTag(key, w);
      if at {
        RestAfter(here.rest, |Key(key, w)|, here.start);
      }
    }

    /** What follows a key. */
    method DecodeTagged(d: Descriptor, iter: FieldIter, wire: nat, tag: nat, dest: seq<Slot>, seen: set<nat>,
                        ghost m: seq<Slot>, ghost k: nat, ghost j: nat, ghost here: Place, ghost extra: Option<Extra>)
      returns (ok: bool, r: seq<Slot>, seen': set<nat>)
      requires Valid() && At(here) && ValidDescriptor(d) && MessageInBounds(d, dest)
      requires iter.Valid() && iter.fields == d.fields && Trackable(d, seen) && wire < 8
      modifies this, iter
      decreases d, 3
      ensures Valid() && iter.Valid() && pos + left <= old(pos + left) && Trackable(d, seen')
      ensures ok ==> pos + left == old(pos + left) && left <= old(left) && MessageInBounds(d, r)
      ensures PastKey(d, m, k, j, dest, wire, tag, here.rest) == Holds ==>
                TookPayload(d, m, k, j, dest, ok, r, old(left) - left) == Holds
      ensures ok ==> ValueAt(d, data, here.start, here.limit, pos, wire, tag) == Holds
      ensures ok ==> Marks(d, seen, seen', tag) == Holds
      ensures extra.Some? && PastExtraKey(d, extra.value, wire, tag, here.rest) == Holds ==>
                ok && r == dest && seen' == seen && old(left) - left == |extra.value.payload|
    {
      if extra.Some? && PastExtraKey(d, extra.value, wire, tag, here.rest) == Holds {
        ExtraIsUnknown(d, extra.value, wire, tag, here.rest);
      }
      var found := iter.Find(tag);
      assert At(here);
      if !found || |d.fields| == 0 {
        NotOffered(d, m, k, j, dest, wire, tag, here.rest);
        r := dest;
        ok, seen' := SkipTagged(d, found, wire, tag, seen, here, extra);
      } else {
        ok, r, seen' := DecodeFound(d, iter, wire, tag, dest, seen, m, k, j, here);
      }
    }

    /** A key that finds no field, or the terminator of a message without fields, which reads a varint. */
    method SkipTagged(d: Descriptor, found: bool, wire: nat, tag: nat, seen: set<nat>, ghost here: Place, ghost extra: Option<Extra>)
      returns (ok: bool, seen': set<nat>)
      requires Valid() && At(here) && wire < 8 && Trackable(d, seen)
      requires if found then |d.fields| == 0 == tag else NoField(d, tag) && (|d.fields| == 0 ==> tag != 0)
      modifies this`pos, this`left
      ensures Valid() && pos + left == old(pos + left) && left <= old(left) && Trackable(d, seen')
      ensures ok ==> ValueAt(d, data, here.start, here.limit, pos, wire, tag) == Holds
      ensures Marks(d, seen, seen', tag) == Holds
      ensures extra.Some? && PastExtraKey(d, extra.value, wire, tag, here.rest) == Holds ==>
                ok && seen' == seen && old(left) - left == |extra.value.payload|
    {
      if extra.Some? && PastExtraKey(d, extra.value, wire, tag, here.rest) == Holds {
        ExtraIsUnknown(d, extra.value, wire, tag, here.rest);
      }
      seen' := seen;
      if found {
        var value, eof;
        ok, value, eof := DecodeVarint32(0);
        seen' := seen + {0};
      } else {
        ok := SkipField(wire, if extra.Some? then extra.value.payload else []);
      }
      MarkUnknown(d, seen, seen', tag);
      if ok {
        OtherValue(d, data, here.start, here.limit, pos, wire, tag);
      }
    }

    method DecodeFound(d: Descriptor, iter: FieldIter, wire: nat, tag: nat, dest: seq<Slot>, seen: set<nat>,
                       ghost m: seq<Slot>, ghost k: nat, ghost j: nat, ghost here: Place)
      returns (ok: bool, r: seq<Slot>, seen': set<nat>)
      requires Valid() && At(here) && ValidDescriptor(d) && MessageInBounds(d, dest)
      requires iter.Valid() && iter.fields == d.fields && Trackable(d, seen) && wire < 8 && |d.fields| > 0 && d.fields[iter.pos].tag == tag
      modifies this
      decreases d, 2, 1
      ensures Valid() && iter.Valid() && pos + left <= old(pos + left) && Trackable(d, seen')
      ensures ok ==> pos + left == old(pos + left) && left <= old(left) && MessageInBounds(d, r)
      ensures PastKey(d, m, k, j, dest, wire, tag, here.rest) == Holds ==>
                TookPayload(d, m, k, j, dest, ok, r, old(left) - left) == Holds
      ensures ok ==> ValueAt(d, data, here.start, here.limit, pos, wire, tag) == Holds
      ensures ok ==> Marks(d, seen, seen', tag) == Holds
    {
      seen' := MarkSeen(d, iter, seen);
      if PastKey(d, m, k, j, dest, wire, tag, here.rest) == Holds {
        KeyTag(d, m, k, j, dest, wire, tag, here.rest);
        SameField(d, iter.pos, k);
      }
      ok, r := DecodeAt(d, iter.pos, wire, dest, m, j, here);
    }

    /** Where fields_seen is updated. */
    method MarkSeen(d: Descriptor, iter: FieldIter, seen: set<nat>) returns (seen': set<nat>)
      requires ValidDescriptor(d) && iter.Valid() && iter.fields == d.fields && |d.fields| > 0 && Trackable(d, seen)
      ensures Trackable(d, seen') && Marks(d, seen, seen', d.fields[iter.pos].tag) == Holds
    {
      seen' := seen;
      if d.fields[iter.pos].htype.Required? && iter.requiredIndex < MAX_REQUIRED {
        seen' := seen + {iter.requiredIndex};
        RequiredGrows(d.fields, iter.pos, |d.fields|);
        MarkField(d, seen, iter.pos);
      } else {
        MarkUntracked(d, seen, iter.pos);
      }
    }

    method DecodeAt(d: Descriptor, i: nat, wire: nat, dest: seq<Slot>, ghost m: seq<Slot>, ghost j: nat, ghost here: Place)
      returns (ok: bool, r: seq<Slot>)
      requires Valid() && At(here) && ValidDescriptor(d) && MessageInBounds(d, dest) && i < |d.fields| && wire < 8
      modifies this
      decreases d, 2, 0
      ensures Valid() && pos + left <= old(pos + left)
      ensures ok ==> pos + left == old(pos + left) && left <= old(left) && MessageInBounds(d, r)
      ensures PastKey(d, m, i, j, dest, wire, d.fields[i].tag, here.rest) == Holds ==>
                TookPayload(d, m, i, j, dest, ok, r, old(left) - left) == Holds
      ensures ok ==> ValueAt(d, data, here.start, here.limit, pos, wire, d.fields[i].tag) == Holds
    {
      var slot;
      assert Looking(0);
      ok, slot := DecodeField(d.fields[i], wire, dest[i], if |m| == |dest| then m[i] else dest[i], j);
      if ok {
        KnownValue(d, i, data, here.start, here.limit, pos, wire);
      }
      r := dest[i := slot];
    }

    /** One turn of the loop where the encoding of m has been followed to record j of field k. */
    method DecodeTurn(d: Descriptor, iter: FieldIter, dest: seq<Slot>, seen: set<nat>,
                      ghost m: seq<Slot>, ghost c: Course, ghost here: Place)
      returns (status: Status, r: seq<Slot>, seen': set<nat>, ghost c': Course, ghost turn: Turn)
      requires Valid() && At(here) && left > 0 && ValidDescriptor(d) && MessageInBounds(d, dest)
      requires iter.Valid() && iter.fields == d.fields && Trackable(d, seen)
      modifies this, iter
      decreases d, 4, 1
      ensures Valid() && iter.Valid() && pos + left <= old(pos + left) && Trackable(d, seen')
      ensures status != Failed ==> pos + left == old(pos + left) && left <= old(left) && MessageInBounds(d, r)
      ensures status == More ==> left < old(left)
      ensures Midway(d, m, c, dest, here.rest, seen) == Holds ==>
                match status
                case More => Midway(d, m, c', r, Rest(), seen') == Holds
                case Done => false
                case Failed => CanRestore(d, m) == Fails
      ensures turn == Turn(here.start, here.limit, pos, turn.tag, seen, seen')
      ensures status == More ==> Found(d, data, turn) == Holds
      ensures status == Done ==> AtEnd(data, turn.start, turn.limit) == Holds && seen' == seen
    {
      ghost var written, was := Midway(d, m, c, dest, here.rest, seen) == Holds, left;
      if written {
        MidwayFront(d, m, c, dest, here.rest, seen);
      }
      c' := c;
      status, r, seen', turn := DecodeRecord(d, iter, dest, seen, m, c.k, c.j, here, NextExtra(c));
      if written {
        if status == More {
          RestAfter(here.rest, was - left, here.start);
        }
        c' := Advance(d, m, c, dest, here.rest, seen, status == More, r, if status == More then was - left else 0, turn.tag, seen');
      }
    }

    /** The loop of pb_decode_noinit. */
    method DecodeRecords(d: Descriptor, iter: FieldIter, dest: seq<Slot>, ghost m: seq<Slot>, ghost c: Course, ghost here: Place)
      returns (status: Status, r: seq<Slot>, seen: set<nat>)
      requires Valid() && At(here) && ValidDescriptor(d) && MessageInBounds(d, dest)
      requires iter.Valid() && iter.fields == d.fields
      modifies this, iter
      decreases d, 5
      ensures Valid() && iter.Valid() && pos + left <= old(pos + left) && Trackable(d, seen)
      ensures status != Failed ==> pos + left == old(pos + left) && left <= old(left) && MessageInBounds(d, r)
      ensures Midway(d, m, c, dest, here.rest, {}) == Holds ==>
                if status == Failed then CanRestore(d, m) == Fails
                else left == 0 && r == m && CanRestore(d, m) == Holds && AllTracked(d, seen)
      ensures status != Failed ==> CutWhole(d, data, here.start, here.limit, seen) == Holds
    {
      ghost var written, c' := Midway(d, m, c, dest, here.rest, {}) == Holds, c;
      ghost var start, limit, at, ts := here.start, here.limit, here.start, [];
      CutNone(d, data, start, limit);
      r, seen, status := dest, {}, More;
      while left > 0 && status == More
        invariant Valid() && iter.Valid() && Trackable(d, seen)
        invariant status != Failed && pos + left == limit && left <= old(left) && MessageInBounds(d, r)
        invariant written ==> status == More && Midway(d, m, c', r, Rest(), seen) == Holds
        invariant SeenCut(d, data, start, at, limit, ts, seen) == Holds
        invariant if status == More then at == pos else AtEnd(data, at, limit) == Holds
        decreases status == More, left
      {
        ghost var turn, before := Turn(at, limit, at, 0, seen, seen), seen;
        status, r, seen, c', turn := DecodeTurn(d, iter, r, seen, m, c', Place(at, limit, Rest()));
        if status == Failed {
          return;
        }
        assert turn == Turn(at, limit, pos, turn.tag, before, seen);
        if status == More {
          TakeTurn(d, data, start, ts, turn);
          at, ts := pos, ts + [turn.tag];
        }
      }
      CutDone(d, data, start, at, limit, ts, seen);
      if written {
        Finished(d, m, c', r, seen);
      }
    }

    /** pb_decode_noinit. */
    method DecodeNoInit(d: Descriptor, dest: seq<Slot>, ghost m: seq<Slot>, ghost gaps: seq<seq<Extra>>) returns (ok: bool, r: seq<Slot>)
      requires Valid() && ValidDescriptor(d) && MessageInBounds(d, dest)
      modifies this
      decreases d, 6
      ensures Valid() && pos + left <= old(pos + left)
      ensures ok ==> pos + left == old(pos + left) && left <= old(left) && MessageInBounds(d, r)
      ensures MessageHasType(d, m) && MessageEncodable(d, m) && GoodGaps(d, gaps)
              && old(Rest()) == Spread(d, m, gaps) && dest == Defaults(d) ==>
                ok == MessageRestorable(d, m) && (ok ==> r == m && left == 0)
      ensures ok ==> Completeness(d, data, old(pos), old(pos + left)) == Holds
    {
      ghost var c, here := Course(0, 0, []), Place(pos, pos + left, Rest());
      if MessageHasType(d, m) && MessageEncodable(d, m) && GoodGaps(d, gaps) && Rest() == Spread(d, m, gaps) && dest == Defaults(d) {
        c := Begun(d, m, gaps);
      }
      var iter := new FieldIter.Begin(d.fields);
      var status, seen;
      assert At(here);
      status, r, seen := DecodeRecords(d, iter, dest, m, c, here);
      if status == Failed {
        return false, r;
      }
      ok := CheckRequired(d, iter, seen, data, here.start, here.limit);
    }

    /** The end of pb_decode_noinit. */
    method CheckRequired(d: Descriptor, iter: FieldIter, seen: set<nat>, ghost bytes: Bytes, ghost start: nat, ghost limit: nat)
      returns (ok: bool)
      requires iter.Valid() && iter.fields == d.fields && Trackable(d, seen) && CutWhole(d, bytes, start, limit, seen) == Holds
      modifies iter
      ensures ok <==> AllTracked(d, seen)
      ensures ok ==> Completeness(d, bytes, start, limit) == Holds
    {
      var required := iter.CountRequired();
      ok := AllRequiredSeen(seen, required);
      if ok {
        AllSeen(d, bytes, start, limit, seen);
      }
    }
  }
}
