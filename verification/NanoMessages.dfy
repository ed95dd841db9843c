/** Messages of the protocol buffer runtime and their encoding (nanopb/pb.h, pb_encode.c, pb_common.c).

    A message is held as what its reader sees: the values present in each field. The storage
    behind an absent optional field or past an array's count has no counterpart. */
module NanoMessages {
  import opened Keys
  import opened LogFormat
  import opened Varints

  datatype Width = W8 | W16 | W32 | W64

  /** PB_LTYPE: what one item of a field is. A capacity or size is the field's data_size, less the
      count in front of the bytes where there is one. */
  datatype LType =
    | Bool
    | Signed(width: Width)
    | Unsigned(width: Width)
    | ZigZag(width: Width)
    | Fixed32
    | Fixed64
    | Blob(capacity: nat)
    | Text(size: nat)
    | Message(descriptor: Descriptor)
    | FixedBlob(size: nat)

  /** PB_HTYPE: optional fields may or may not have a flag of their own; `packed` is false everywhere
      in a build with PB_ENCODE_ARRAYS_UNPACKED. */
  datatype HType = Required | Optional(hasFlag: bool) | Repeated(arraySize: nat, packed: bool)

  datatype Field = Field(tag: nat, ltype: LType, htype: HType, init: Option<Value>)

  datatype Descriptor = Descriptor(fields: seq<Field>)

  datatype Value = Flag(b: bool) | Number(n: int) | Data(bytes: Bytes) | Struct(slots: seq<Slot>)

  /** The values present in one field, in order. */
  datatype Slot = Slot(items: seq<Value>)

  function Modulus(w: Width): (r: nat)
    ensures 0 < r <= 0x1_0000_0000_0000_0000 && r % 2 == 0
  {
    match w
    case W8 => 0x100
    case W16 => 0x1_0000
    case W32 => 0x1_0000_0000
    case W64 => 0x1_0000_0000_0000_0000
  }

  predicate Packable(lt: LType) {
    lt.Bool? || lt.Signed? || lt.Unsigned? || lt.ZigZag? || lt.Fixed32? || lt.Fixed64?
  }

  predicate Packed(f: Field) {
    f.htype.Repeated? && f.htype.packed && Packable(f.ltype)
  }

  /** Fields that always hold exactly one value. */
  predicate Singular(f: Field) {
    f.htype.Required? || f.htype == Optional(false)
  }

  /** What storage of a field's type can hold at all: an array's count, a byte array's length and an
      unterminated string may still be more than the field allows. */
  ghost predicate HasType(lt: LType, v: Value)
    decreases lt
  {
    match lt
    case Bool => v.Flag?
    case Signed(w) => v.Number? && -(Modulus(w) / 2) <= v.n < Modulus(w) / 2
    case Unsigned(w) => v.Number? && 0 <= v.n < Modulus(w)
    case ZigZag(w) => v.Number? && -(Modulus(w) / 2) <= v.n < Modulus(w) / 2
    case Fixed32 => v.Number? && 0 <= v.n < 0x1_0000_0000
    case Fixed64 => v.Number? && 0 <= v.n < 0x1_0000_0000_0000_0000
    case Blob(_) => v.Data?
    case Text(size) => v.Data? && |v.bytes| <= size && 0 !in v.bytes
    case Message(d) => v.Struct? && MessageHasType(d, v.slots)
    case FixedBlob(size) => v.Data? && |v.bytes| == size
  }

  ghost predicate SlotHasType(f: Field, s: Slot)
    decreases f
  {
    (Singular(f) ==> |s.items| == 1) && (f.htype.Optional? ==> |s.items| <= 1)
    && forall v :: v in s.items ==> HasType(f.ltype, v)
  }

  ghost predicate MessageHasType(d: Descriptor, m: seq<Slot>)
    decreases d
  {
    |m| == |d.fields| && forall i :: 0 <= i < |m| ==> SlotHasType(d.fields[i], m[i])
  }

  /** pb_message_set_to_defaults. */
  function Defaults(d: Descriptor): (m: seq<Slot>)
    decreases d
    ensures |m| == |d.fields|
    ensures forall i :: 0 <= i < |m| ==> m[i] == DefaultSlot(d.fields[i])
  {
    seq(|d.fields|, i requires 0 <= i < |d.fields| => DefaultSlot(d.fields[i]))
  }

  /** pb_field_set_to_default: flags and counts go to zero, single values to the default or to zero. */
  function DefaultSlot(f: Field): Slot
    decreases f, 1
  {
    if Singular(f) then Slot([DefaultValue(f)]) else Slot([])
  }

  function DefaultValue(f: Field): Value
    decreases f, 0
  {
    if f.ltype.Message? then Struct(Defaults(f.ltype.descriptor))
    else if f.init.Some? then f.init.value
    else if f.ltype.Bool? then Flag(false)
    else if f.ltype.FixedBlob? then Data(Zeros(f.ltype.size))
    else if Packable(f.ltype) then Number(0)
    else Data([])
  }

  /** The descriptors the generator writes: distinct tags that fit a key, sizes that fit pb_size_t,
      defaults of the field's type, and none on fields without a flag. */
  ghost predicate ValidField(f: Field)
    decreases f
  {
    1 <= f.tag < 0x2000_0000
    && (f.ltype.Blob? ==> f.ltype.capacity < 0x1_0000_0000)
    && (f.ltype.Text? ==> f.ltype.size > 0)
    && ((f.ltype.Text? || f.ltype.FixedBlob?) ==> f.ltype.size < 0x1_0000_0000)
    && (f.ltype.Message? ==> ValidDescriptor(f.ltype.descriptor))
    && (f.init.Some? ==> f.htype != Optional(false) && InBounds(f.ltype, f.init.value))
  }

  ghost predicate ValidDescriptor(d: Descriptor)
    decreases d
  {
    (forall i :: 0 <= i < |d.fields| ==> ValidField(d.fields[i]))
    && forall i, j :: 0 <= i < j < |d.fields| ==> d.fields[i].tag != d.fields[j].tag
  }

  /** pb_check_proto3_default_value. */
  predicate IsDefault(f: Field, s: Slot)
    requires SlotHasType(f, s)
    decreases f
  {
    if f.htype.Required? then false
    else if f.htype != Optional(false) then |s.items| == 0
    else
      var v := s.items[0];
      assert v in s.items && HasType(f.ltype, v);
      match f.ltype
      case Bool => !v.b
      case Blob(_) => |v.bytes| == 0
      case Text(_) => |v.bytes| == 0
      case FixedBlob(size) => size == 0
      case Message(d) => AllDefault(d, v.slots)
      case _ => v.n == 0
  }

  predicate AllDefault(d: Descriptor, m: seq<Slot>)
    requires MessageHasType(d, m)
    decreases d
  {
    forall i :: 0 <= i < |m| ==> IsDefault(d.fields[i], m[i])
  }

  /** A value the field has room for: what decoding leaves behind. */
  ghost predicate InBounds(lt: LType, v: Value)
    decreases lt
  {
    HasType(lt, v)
    && match lt
       case Blob(capacity) => |v.bytes| <= capacity
       case Text(size) => |v.bytes| < size
       case Message(d) => MessageInBounds(d, v.slots)
       case _ => true
  }

  ghost predicate SlotInBounds(f: Field, s: Slot)
    decreases f
  {
    SlotHasType(f, s) && (f.htype.Repeated? ==> |s.items| <= f.htype.arraySize)
    && forall v :: v in s.items ==> InBounds(f.ltype, v)
  }

  ghost predicate MessageInBounds(d: Descriptor, m: seq<Slot>)
    decreases d
  {
    |m| == |d.fields| && forall i :: 0 <= i < |m| ==> SlotInBounds(d.fields[i], m[i])
  }

  // ---- the encoding

  datatype WireType = VarintWire | Bits64 | StringWire | Bits32

  function WireNumber(w: WireType): (r: nat)
    ensures r < 8
  {
    match w
    case VarintWire => 0
    case Bits64 => 1
    case StringWire => 2
    case Bits32 => 5
  }

  /** pb_encode_tag_for_field. */
  function WireTypeOf(lt: LType): WireType {
    match lt
    case Fixed32 => Bits32
    case Fixed64 => Bits64
    case Blob(_) => StringWire
    case Text(_) => StringWire
    case Message(_) => StringWire
    case FixedBlob(_) => StringWire
    case _ => VarintWire
  }

  function Key(tag: nat, w: WireType): (r: Bytes)
    ensures |r| >= 1
  {
    Varint(8 * tag + WireNumber(w))
  }

  /** A signed number as the 64-bit pattern of its two's complement. */
  function Pattern(n: int): (r: nat)
    requires -0x8000_0000_0000_0000 <= n < 0x1_0000_0000_0000_0000
    ensures r < 0x1_0000_0000_0000_0000
  {
    n % 0x1_0000_0000_0000_0000
  }

  /** Zigzag numbers: 0, -1, 1, -2, 2, ... */
  function Zigzagged(n: int): (r: nat)
    ensures -0x8000_0000_0000_0000 <= n < 0x8000_0000_0000_0000 ==> r < 0x1_0000_0000_0000_0000
  {
    if n < 0 then -2 * n - 1 else 2 * n
  }

  /** Well-known encodings: two small fields of the format's documentation, and the corners of zigzag. */
  lemma KnownEncodings()
    ensures Key(1, VarintWire) + Varint(150) == [0x08, 0x96, 0x01]
    ensures Key(2, StringWire) + Prefixed([0x74, 0x65]) == [0x12, 0x02, 0x74, 0x65]
  {
    assert Varint(150) == [150 % 128 + 128] + Varint(1);
    assert Key(1, VarintWire) == [0x08];
    assert Key(2, StringWire) == [0x12];
  }

  lemma KnownZigzag()
    ensures Zigzagged(0) == 0 && Zigzagged(-1) == 1 && Zigzagged(1) == 2 && Zigzagged(-2) == 3
    ensures Zigzagged(0x7fff_ffff) == 0xffff_fffe && Zigzagged(-0x8000_0000) == 0xffff_ffff
  {}

  function Fixed64Bytes(n: nat): (r: Bytes)
    requires n < 0x1_0000_0000_0000_0000
    ensures |r| == 8
  {
    LogFormat.Fixed32(n % 0x1_0000_0000) + LogFormat.Fixed32(n / 0x1_0000_0000)
  }

  function Prefixed(b: Bytes): (r: Bytes)
    ensures |r| > |b|
  {
    Varint(|b|) + b
  }

  function EncodedValue(lt: LType, v: Value): (r: Bytes)
    requires HasType(lt, v)
    decreases lt, 0
    ensures |r| >= 1
  {
    match lt
    case Bool => Varint(if v.b then 1 else 0)
    case Signed(_) => Varint(Pattern(v.n))
    case Unsigned(_) => Varint(v.n)
    case ZigZag(_) => Varint(Zigzagged(v.n))
    case Fixed32 => LogFormat.Fixed32(v.n)
    case Fixed64 => Fixed64Bytes(v.n)
    case Blob(_) => Prefixed(v.bytes)
    case Text(_) => Prefixed(v.bytes)
    case Message(d) => Prefixed(EncodedMessage(d, v.slots))
    case FixedBlob(_) => Prefixed(v.bytes)
  }

  /** The items of an array from the i-th on, without keys. */
  function EncodedItems(lt: LType, items: seq<Value>, i: nat): Bytes
    requires i <= |items| && forall v :: v in items ==> HasType(lt, v)
    decreases lt, 1 + |items| - i
  {
    if i == |items| then [] else EncodedValue(lt, items[i]) + EncodedItems(lt, items, i + 1)
  }

  /** How many keys a field's values take on the wire. */
  function Records(f: Field, s: Slot): nat
    requires SlotHasType(f, s)
  {
    if f.htype.Required? then 1
    else if IsDefault(f, s) then 0
    else if f.htype.Repeated? && !Packed(f) then |s.items|
    else 1
  }

  function RecordWire(f: Field): WireType {
    if Packed(f) then StringWire else WireTypeOf(f.ltype)
  }

  /** What follows the key in the j-th record of a field: a packed array, otherwise one value. */
  function Payload(f: Field, s: Slot, j: nat): (r: Bytes)
    requires SlotHasType(f, s) && j < Records(f, s)
    decreases f, 0
    ensures |r| >= 1
  {
    if Packed(f) then Prefixed(EncodedItems(f.ltype, s.items, 0))
    else
      assert s.items[j] in s.items;
      EncodedValue(f.ltype, s.items[j])
  }

  function EncodedRecord(f: Field, s: Slot, j: nat): (r: Bytes)
    requires SlotHasType(f, s) && j < Records(f, s)
    decreases f, 1
    ensures |r| >= 2
  {
    Key(f.tag, RecordWire(f)) + Payload(f, s, j)
  }

  function EncodedSlot(f: Field, s: Slot, j: nat): Bytes
    requires SlotHasType(f, s) && j <= Records(f, s)
    decreases f, 2 + Records(f, s) - j
  {
    if j == Records(f, s) then [] else EncodedRecord(f, s, j) + EncodedSlot(f, s, j + 1)
  }

  function EncodedFields(d: Descriptor, m: seq<Slot>, k: nat): Bytes
    requires MessageHasType(d, m) && k <= |m|
    decreases d, |m| - k
  {
    if k == |m| then [] else EncodedSlot(d.fields[k], m[k], 0) + EncodedFields(d, m, k + 1)
  }

  function EncodedMessage(d: Descriptor, m: seq<Slot>): Bytes
    requires MessageHasType(d, m)
    decreases d, |m| + 1
  {
    EncodedFields(d, m, 0)
  }

  // ---- what encodes and what comes back

  /** pb_encode accepts a value: no count is over its array or byte array. */
  ghost predicate Encodable(lt: LType, v: Value)
    requires HasType(lt, v)
    decreases lt
  {
    match lt
    case Blob(capacity) => |v.bytes| <= capacity
    case Message(d) => MessageEncodable(d, v.slots)
    case _ => true
  }

  ghost predicate SlotEncodable(f: Field, s: Slot)
    requires SlotHasType(f, s)
    decreases f
  {
    Records(f, s) > 0 ==>
      (f.htype.Repeated? ==> |s.items| <= f.htype.arraySize)
      && forall v :: v in s.items ==> Encodable(f.ltype, v)
  }

  ghost predicate MessageEncodable(d: Descriptor, m: seq<Slot>)
    requires MessageHasType(d, m)
    decreases d
  {
    forall i :: 0 <= i < |m| ==> SlotEncodable(d.fields[i], m[i])
  }

  /** Strings have their terminator and lengths fit the 32 bits the decoder reads. */
  ghost predicate Restorable(lt: LType, v: Value)
    requires HasType(lt, v)
    decreases lt
  {
    match lt
    case Text(size) => |v.bytes| < size
    case Message(d) => MessageRestorable(d, v.slots) && |EncodedMessage(d, v.slots)| < 0x1_0000_0000
    case _ => true
  }

  ghost predicate RecordRestorable(f: Field, s: Slot, j: nat)
    requires SlotHasType(f, s) && j < Records(f, s)
    decreases f, 0
  {
    if Packed(f) then |EncodedItems(f.ltype, s.items, 0)| < 0x1_0000_0000
    else
      assert s.items[j] in s.items;
      Restorable(f.ltype, s.items[j])
  }

  ghost predicate MessageRestorable(d: Descriptor, m: seq<Slot>)
    requires MessageHasType(d, m)
    decreases d
  {
    forall i, j :: 0 <= i < |m| && 0 <= j < Records(d.fields[i], m[i]) ==> RecordRestorable(d.fields[i], m[i], j)
  }

  // ---- defaults

  /** A field left out of the encoding because it is all zero is what decoding starts from. */
  lemma {:induction false} DefaultIsRestored(f: Field, s: Slot)
    requires ValidField(f) && SlotHasType(f, s) && IsDefault(f, s)
    decreases f
    ensures s == DefaultSlot(f)
  {
    if f.htype == Optional(false) {
      var v := s.items[0];
      assert v in s.items && HasType(f.ltype, v);
      assert s.items == [v];
      if f.ltype.Message? {
        AllDefaultIsRestored(f.ltype.descriptor, v.slots);
      }
    }
  }

  lemma {:induction false} AllDefaultIsRestored(d: Descriptor, m: seq<Slot>)
    requires ValidDescriptor(d) && MessageHasType(d, m) && AllDefault(d, m)
    decreases d
    ensures m == Defaults(d)
  {
    forall i | 0 <= i < |m| ensures m[i] == Defaults(d)[i] {
      DefaultIsRestored(d.fields[i], m[i]);
    }
  }

  lemma {:induction false} DefaultsInBounds(d: Descriptor)
    requires ValidDescriptor(d)
    decreases d
    ensures MessageInBounds(d, Defaults(d))
  {
    forall i | 0 <= i < |d.fields| ensures SlotInBounds(d.fields[i], Defaults(d)[i]) {
      DefaultValueInBounds(d.fields[i]);
    }
  }

  lemma {:induction false} DefaultValueInBounds(f: Field)
    requires ValidField(f)
    decreases f
    ensures InBounds(f.ltype, DefaultValue(f))
  {
    if f.ltype.Message? {
      DefaultsInBounds(f.ltype.descriptor);
      MessageInBoundsHasType(f.ltype.descriptor, Defaults(f.ltype.descriptor));
    }
  }

  /** What fits its fields has its type and encodes. */
  lemma {:induction false} InBoundsEncodes(lt: LType, v: Value)
    requires InBounds(lt, v)
    decreases lt
    ensures Encodable(lt, v)
  {
    if lt.Message? {
      MessageInBoundsEncodes(lt.descriptor, v.slots);
    }
  }

  lemma MessageInBoundsHasType(d: Descriptor, m: seq<Slot>)
    requires MessageInBounds(d, m)
    ensures MessageHasType(d, m)
  {}

  lemma {:induction false} MessageInBoundsEncodes(d: Descriptor, m: seq<Slot>)
    requires MessageInBounds(d, m)
    decreases d
    ensures MessageHasType(d, m) && MessageEncodable(d, m)
  {
    forall i | 0 <= i < |m| ensures SlotEncodable(d.fields[i], m[i]) {
      assert SlotInBounds(d.fields[i], m[i]);
      forall v | v in m[i].items ensures Encodable(d.fields[i].ltype, v) {
        InBoundsEncodes(d.fields[i].ltype, v);
      }
    }
  }

  // ---- a message part of the way through decoding

  /** A field after j of its records. */
  function Partial(f: Field, s: Slot, j: nat): Slot
    requires SlotHasType(f, s) && j <= Records(f, s)
  {
    if j == 0 then DefaultSlot(f)
    else if f.htype.Repeated? && !Packed(f) then Slot(s.items[..j])
    else s
  }

  /** Nothing is lost between the records of a field and the field. */
  lemma AllRecords(f: Field, s: Slot)
    requires ValidField(f) && SlotHasType(f, s)
    ensures Partial(f, s, Records(f, s)) == s
  {
    if Records(f, s) == 0 {
      DefaultIsRestored(f, s);
    } else if f.htype.Repeated? {
      assert s.items[..|s.items|] == s.items;
    }
  }

  function Remaining(d: Descriptor, m: seq<Slot>, k: nat, j: nat): Bytes
    requires MessageHasType(d, m) && k <= |m| && (k < |m| ==> j <= Records(d.fields[k], m[k]))
  {
    if k == |m| then [] else EncodedSlot(d.fields[k], m[k], j) + EncodedFields(d, m, k + 1)
  }

  /** Decoding has done the fields before the k-th and j records of that one, which has more. */
  ghost predicate Reached(d: Descriptor, m: seq<Slot>, k: nat, j: nat, dest: seq<Slot>, rest: Bytes)
    requires MessageHasType(d, m)
  {
    |dest| == |m| && k <= |m|
    && (k < |m| ==> j < Records(d.fields[k], m[k]) && dest[k] == Partial(d.fields[k], m[k], j))
    && rest == Remaining(d, m, k, j)
    && (forall i :: 0 <= i < k ==> dest[i] == m[i])
    && forall i :: k < i < |m| ==> dest[i] == DefaultSlot(d.fields[i])
  }

  /** The next field with a record. */
  ghost function NextField(d: Descriptor, m: seq<Slot>, k: nat): (r: nat)
    requires MessageHasType(d, m) && k <= |m|
    decreases |m| - k
    ensures k <= r <= |m|
  {
    if k == |m| || Records(d.fields[k], m[k]) > 0 then k else NextField(d, m, k + 1)
  }

  /** Fields without records are what decoding starts from. */
  lemma {:induction false} SkipAbsent(d: Descriptor, m: seq<Slot>, k: nat, dest: seq<Slot>)
    requires ValidDescriptor(d) && MessageHasType(d, m) && |dest| == |m| && k <= |m|
    requires forall i :: 0 <= i < k ==> dest[i] == m[i]
    requires forall i :: k <= i < |m| ==> dest[i] == DefaultSlot(d.fields[i])
    decreases |m| - k
    ensures Reached(d, m, NextField(d, m, k), 0, dest, EncodedFields(d, m, k))
    ensures forall i :: k <= i < NextField(d, m, k) ==> Records(d.fields[i], m[i]) == 0
  {
    if k < |m| && Records(d.fields[k], m[k]) == 0 {
      AllRecords(d.fields[k], m[k]);
      SkipAbsent(d, m, k + 1, dest);
      assert EncodedFields(d, m, k) == [] + EncodedFields(d, m, k + 1);
    }
  }

  /** One record further. */
  lemma TakeRecord(d: Descriptor, m: seq<Slot>, k: nat, j: nat, dest: seq<Slot>, rest: Bytes)
    returns (k': nat, j': nat)
    requires ValidDescriptor(d) && MessageHasType(d, m) && Reached(d, m, k, j, dest, rest) && k < |m|
    ensures EncodedRecord(d.fields[k], m[k], j) <= rest
    ensures Reached(d, m, k', j', dest[k := Partial(d.fields[k], m[k], j + 1)], rest[|EncodedRecord(d.fields[k], m[k], j)|..])
    ensures if j + 1 < Records(d.fields[k], m[k]) then k' == k && j' == j + 1
            else k' == NextField(d, m, k + 1) && j' == 0 && forall i :: k < i < k' ==> Records(d.fields[i], m[i]) == 0
  {
    var f, record := d.fields[k], EncodedRecord(d.fields[k], m[k], j);
    var next := dest[k := Partial(f, m[k], j + 1)];
    var tail := EncodedSlot(f, m[k], j + 1) + EncodedFields(d, m, k + 1);
    assert rest == record + tail;
    assert rest[|record|..] == tail;
    if j + 1 < Records(f, m[k]) {
      return k, j + 1;
    } else {
      AllRecords(f, m[k]);
      assert tail == EncodedFields(d, m, k + 1);
      SkipAbsent(d, m, k + 1, next);
      return NextField(d, m, k + 1), 0;
    }
  }
}
