/** Encoding into a buffer and decoding from it (nanopb/pb_encode.c with nanopb/pb_decode.c). */
module NanoRoundTrip {
  import opened Keys
  import opened NanoMessages
  import opened NanoEncoding
  import opened NanoDecoding
  import opened NanoWire

  /** pb_encode and then pb_decode of what it wrote. A typed message encodes exactly when its counts are
      within its arrays and the buffer is large enough; what was encoded decodes exactly when strings are
      terminated and lengths fit 32 bits, and then to the same message with no input left. */
  method RoundTrip(d: Descriptor, m: seq<Slot>, bufsize: nat) returns (encoded: bool, decoded: bool, r: seq<Slot>, left: nat)
    requires ValidDescriptor(d) && MessageHasType(d, m) && bufsize < 0x8000_0000_0000_0000
    ensures encoded <==> MessageEncodable(d, m) && |EncodedMessage(d, m)| <= bufsize
    ensures encoded ==> (decoded <==> MessageRestorable(d, m))
    ensures encoded && decoded ==> r == m && left == 0
  {
    var bytes;
    decoded, r, left := false, [], 0;
    encoded, bytes := EncodeToBuffer(d, m, bufsize);
    if encoded {
      var stream := new InStream.FromBuffer(bytes);
      NoGaps(d, m);
      decoded, r := stream.Decode(d, m, []);
      left := stream.left;
    }
  }

  /** Whatever bytes decode, valid encodings or not, the result encodes again and comes back. */
  method Normalise(d: Descriptor, bytes: Bytes) returns (decoded: bool, r: seq<Slot>, again: bool, r': seq<Slot>)
    requires ValidDescriptor(d) && |bytes| < 0x8000_0000_0000_0000
    ensures decoded ==> MessageInBounds(d, r) && MessageHasType(d, r) && MessageEncodable(d, r)
    ensures decoded && |EncodedMessage(d, r)| < 0x1_0000_0000 ==> again && r' == r
  {
    var stream := new InStream.FromBuffer(bytes);
    decoded, r := stream.Decode(d, Defaults(d), []);
    again, r' := false, [];
    if decoded {
      MessageInBoundsEncodes(d, r);
      var ok, size := EncodedSize(d, r);
      if size < 0x1_0000_0000 {
        InBoundsRestores(d, r);
        var encoded, left;
        encoded, again, r', left := RoundTrip(d, r, size);
      }
    }
  }

  /** Fields the receiver does not know change nothing: with any records of unknown fields before, between and
      after those of a message, it decodes exactly as without them, and to the same message. */
  method IgnoresUnknown(d: Descriptor, bytes: Bytes, ghost m: seq<Slot>, ghost gaps: seq<seq<Extra>>)
    returns (decoded: bool, r: seq<Slot>, left: nat)
    requires ValidDescriptor(d) && MessageHasType(d, m) && MessageEncodable(d, m) && GoodGaps(d, gaps)
    requires bytes == Spread(d, m, gaps) && |bytes| < 0x8000_0000_0000_0000
    ensures decoded <==> MessageRestorable(d, m)
    ensures decoded ==> r == m && left == 0
  {
    var stream := new InStream.FromBuffer(bytes);
    decoded, r := stream.Decode(d, m, gaps);
    left := stream.left;
  }

  predicate Missing(d: Descriptor, bytes: Bytes, tag: nat) {
    Tags(d, bytes, 0, |bytes|).Some? && tag !in Tags(d, bytes, 0, |bytes|).value
  }

  /** Whatever the bytes, a message is accepted only if they can be cut into records among which every tracked
      required field has one, in each message inside it as well; where one is missing, it is refused. */
  method RefusesIncomplete(d: Descriptor, bytes: Bytes) returns (decoded: bool, r: seq<Slot>)
    requires ValidDescriptor(d) && |bytes| < 0x8000_0000_0000_0000
    ensures decoded ==> Complete(d, bytes, 0, |bytes|)
    ensures Tags(d, bytes, 0, |bytes|).None? ==> !decoded
    ensures forall i :: 0 <= i < |d.fields| && Tracked(d, i) && Missing(d, bytes, d.fields[i].tag) ==> !decoded
  {
    var stream := new InStream.FromBuffer(bytes);
    decoded, r := stream.Decode(d, Defaults(d), []);
    CompletenessMeans(d, bytes, 0, |bytes|);
  }

  /** A message within its bounds and shorter than 2^32 bytes is restorable at every depth: each nested
      length is less than the whole. */
  lemma {:induction false} InBoundsRestores(d: Descriptor, m: seq<Slot>)
    requires MessageInBounds(d, m) && MessageHasType(d, m) && |EncodedMessage(d, m)| < 0x1_0000_0000
    decreases d
    ensures MessageRestorable(d, m)
  {
    forall i, j | 0 <= i < |m| && 0 <= j < Records(d.fields[i], m[i])
      ensures RecordRestorable(d.fields[i], m[i], j)
    {
      var f, s := d.fields[i], m[i];
      FieldWithin(d, m, 0, i);
      RecordWithin(f, s, 0, j);
      if !Packed(f) {
        assert SlotInBounds(f, s) && s.items[j] in s.items;
        if f.ltype.Message? {
          assert |EncodedValue(f.ltype, s.items[j])| == |Prefixed(EncodedMessage(f.ltype.descriptor, s.items[j].slots))|;
          InBoundsRestores(f.ltype.descriptor, s.items[j].slots);
        }
      }
    }
  }

  lemma {:induction false} RecordWithin(f: Field, s: Slot, from: nat, j: nat)
    requires SlotHasType(f, s) && from <= j < Records(f, s)
    decreases j - from
    ensures |EncodedRecord(f, s, j)| <= |EncodedSlot(f, s, from)|
  {
    if from < j {
      RecordWithin(f, s, from + 1, j);
    }
  }

  lemma {:induction false} FieldWithin(d: Descriptor, m: seq<Slot>, from: nat, i: nat)
    requires MessageHasType(d, m) && from <= i < |m|
    decreases i - from
    ensures |EncodedSlot(d.fields[i], m[i], 0)| <= |EncodedFields(d, m, from)|
  {
    if from < i {
      FieldWithin(d, m, from + 1, i);
    }
  }
}
