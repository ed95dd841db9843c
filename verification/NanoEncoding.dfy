/** The encoder of the protocol buffer runtime (nanopb/pb_encode.c): one pass over the message when the
    stream only counts, and a counting pass before every writing pass of a nested message. */
module NanoEncoding {
  import opened Keys
  import opened LogFormat
  import opened Varints
  import opened NanoMessages

  lemma VarintStep(buffer: Bytes, rest: nat)
    ensures rest < 128 ==> Varint(rest) == [rest]
    ensures rest >= 128 ==> buffer + Varint(rest) == buffer + [rest % 128 + 128] + Varint(rest / 128)
  {}

  /** One value and its key, then the rest of the field. */
  lemma SlotUnfolds(f: Field, s: Slot, j: nat)
    requires SlotHasType(f, s) && j < Records(f, s) && !Packed(f)
    ensures j < |s.items| && s.items[j] in s.items && HasType(f.ltype, s.items[j])
    ensures EncodedSlot(f, s, j) == EncodedRecord(f, s, j) + EncodedSlot(f, s, j + 1)
    ensures EncodedRecord(f, s, j) == Key(f.tag, WireTypeOf(f.ltype)) + EncodedValue(f.ltype, s.items[j])
    ensures !f.htype.Repeated? ==> EncodedSlot(f, s, j) == EncodedRecord(f, s, j) && s.items == [s.items[j]]
  {}

  /** pb_ostream_t. Without a callback it counts; otherwise `state` is what the buffer received. */
  class OutStream {
    var writes: bool
    var state: Bytes
    var maxSize: nat
    var written: nat

    ghost predicate Valid()
      reads this
    {
      writes ==> written <= maxSize
    }

    ghost predicate Fits(n: nat)
      reads this
    {
      writes ==> written + n <= maxSize
    }

    /** What a call that succeeds does to the stream. */
    twostate predicate Emitted(b: Bytes)
      reads this
    {
      written == old(written) + |b| && state == (if writes then old(state) + b else old(state))
    }

    /** PB_OSTREAM_SIZING. */
    constructor Sizing()
      ensures Valid() && !writes && written == 0
    {
      writes, state, maxSize, written := false, [], 0, 0;
    }

    /** pb_ostream_from_buffer. */
    constructor FromBuffer(size: nat)
      ensures Valid() && writes && state == [] && maxSize == size && written == 0
    {
      writes, state, maxSize, written := true, [], size, 0;
    }

    /** pb_write; only a counting stream is given a count without the bytes. */
    method Write(buf: Bytes, count: nat) returns (ok: bool)
      requires Valid() && (writes ==> |buf| == count)
      modifies this`state, this`written
      ensures Valid() && ok == old(Fits(count))
      ensures ok ==> written == old(written) + count && state == (if writes then old(state) + buf else old(state))
    {
      if count > 0 && writes {
        if written + count > maxSize {
          return false;
        }
        state := state + buf;
      } else {
        assert writes ==> old(state) + buf == old(state);
      }
      written := written + count;
      return true;
    }

    /** pb_encode_varint. */
    method EncodeVarint(value: nat) returns (ok: bool)
      requires Valid()
      modifies this`state, this`written
      ensures Valid() && ok == old(Fits(|Varint(value)|)) && (ok ==> Emitted(Varint(value)))
    {
      if value <= 0x7F {
        ok := Write([value], 1);
        return;
      }
      var buffer: Bytes, rest: nat := [], value;
      ghost var init: Bytes := [];
      while rest > 0
        modifies {}
        invariant rest > 0 ==> Varint(value) == buffer + Varint(rest)
        invariant rest == 0 ==> exists b: Byte :: 128 <= b && buffer == init + [b] && Varint(value) == init + [b - 128]
      {
        init := buffer;
        var b: Byte := rest % 128 + 128;
        VarintStep(buffer, rest);
        buffer := buffer + [b];
        rest := rest / 128;
      }
      assert buffer[..|buffer| - 1] == init;
      buffer := buffer[|buffer| - 1 := buffer[|buffer| - 1] - 128];
      assert buffer == Varint(value);
      ok := Write(buffer, |buffer|);
    }

    /** pb_encode_svarint. */
    method EncodeSvarint(value: int) returns (ok: bool)
      requires Valid() && -0x8000_0000_0000_0000 <= value < 0x8000_0000_0000_0000
      modifies this`state, this`written
      ensures Valid() && ok == old(Fits(|Varint(Zigzagged(value))|)) && (ok ==> Emitted(Varint(Zigzagged(value))))
    {
      var shifted := Pattern(value) * 2 % 0x1_0000_0000_0000_0000;
      var zigzagged: nat := if value < 0 then 0xFFFF_FFFF_FFFF_FFFF - shifted else shifted;
      assert zigzagged == Zigzagged(value);
      ok := EncodeVarint(zigzagged);
    }

    /** pb_encode_fixed32 and pb_encode_fixed64. */
    method EncodeFixed(b: Bytes) returns (ok: bool)
      requires Valid()
      modifies this`state, this`written
      ensures Valid() && ok == old(Fits(|b|)) && (ok ==> Emitted(b))
    {
      ok := Write(b, |b|);
    }

    /** pb_encode_string. */
    method EncodeString(b: Bytes) returns (ok: bool)
      requires Valid()
      modifies this`state, this`written
      ensures Valid() && ok == old(Fits(|Prefixed(b)|)) && (ok ==> Emitted(Prefixed(b)))
    {
      ok := EncodeVarint(|b|);
      if ok {
        assert writes ==> state + b == old(state) + Prefixed(b);
        ok := Write(b, |b|);
      }
    }

    /** One item through PB_ENCODERS. */
    method EncodeValue(lt: LType, v: Value) returns (ok: bool)
      requires Valid() && HasType(lt, v)
      modifies this
      decreases lt, 0
      ensures Valid() && writes == old(writes) && maxSize == old(maxSize)
      ensures ok <==> Encodable(lt, v) && old(Fits(|EncodedValue(lt, v)|))
      ensures ok ==> Emitted(EncodedValue(lt, v))
    {
      match lt
      case Bool => ok := EncodeVarint(if v.b then 1 else 0);
      case Signed(_) => ok := EncodeVarint(Pattern(v.n));
      case Unsigned(_) => ok := EncodeVarint(v.n);
      case ZigZag(_) => ok := EncodeSvarint(v.n);
      case Fixed32 => ok := EncodeFixed(LogFormat.Fixed32(v.n));
      case Fixed64 => ok := EncodeFixed(Fixed64Bytes(v.n));
      case Blob(capacity) =>
        if |v.bytes| > capacity {
          return false;
        }
        ok := EncodeString(v.bytes);
      case Text(_) => ok := EncodeString(v.bytes);
      case Message(d) => ok := EncodeSubmessage(d, v.slots);
      case FixedBlob(_) => ok := EncodeString(v.bytes);
    }

    /** pb_encode_submessage: count, write the length, then write through a stream of just that length.
        The second pass always takes what the first one counted. */
    method EncodeSubmessage(d: Descriptor, m: seq<Slot>) returns (ok: bool)
      requires Valid() && MessageHasType(d, m)
      modifies this
      decreases d, 3
      ensures Valid() && writes == old(writes) && maxSize == old(maxSize)
      ensures ok <==> MessageEncodable(d, m) && old(Fits(|Prefixed(EncodedMessage(d, m))|))
      ensures ok ==> Emitted(Prefixed(EncodedMessage(d, m)))
    {
      ghost var body := EncodedMessage(d, m);
      var substream := new OutStream.Sizing();
      ok := substream.EncodeMessage(d, m);
      if !ok {
        return;
      }
      var size := substream.written;
      assert size == |body|;
      ok := EncodeVarint(size);
      if !ok {
        return;
      }
      if !writes {
        ok := Write([], size);
        return;
      }
      if written + size > maxSize {
        return false;
      }
      ghost var before := state;
      substream.writes, substream.state, substream.maxSize, substream.written := true, state, size, 0;
      var status := substream.EncodeMessage(d, m);
      written := written + substream.written;
      state := substream.state;
      assert status && substream.written == size;
      assert state == old(state) + Prefixed(body);
      if substream.written != size {
        return false;
      }
      return status;
    }

    /** Part of `total` is out and `rest` is still to come. */
    twostate predicate Ahead(total: Bytes, rest: Bytes)
      reads this
    {
      writes == old(writes) && maxSize == old(maxSize) && |rest| <= |total|
      && written + |rest| == old(written) + |total|
      && (if writes then state + rest == old(state) + total else state == old(state))
    }

    /** The loops of encode_array over bare items. */
    method EncodeItems(lt: LType, items: seq<Value>) returns (ok: bool)
      requires Valid() && forall v :: v in items ==> HasType(lt, v)
      modifies this
      decreases lt, 1
      ensures Valid() && writes == old(writes) && maxSize == old(maxSize)
      ensures ok <==> (forall v :: v in items ==> Encodable(lt, v)) && old(Fits(|EncodedItems(lt, items, 0)|))
      ensures ok ==> Emitted(EncodedItems(lt, items, 0))
    {
      var i := 0;
      while i < |items|
        invariant i <= |items| && Valid()
        invariant forall v :: v in items[..i] ==> Encodable(lt, v)
        invariant Ahead(EncodedItems(lt, items, 0), EncodedItems(lt, items, i))
      {
        assert items[i] in items;
        Assoc(state, EncodedValue(lt, items[i]), EncodedItems(lt, items, i + 1));
        ok := EncodeValue(lt, items[i]);
        if !ok {
          return;
        }
        assert items[..i + 1] == items[..i] + [items[i]];
        i := i + 1;
      }
      assert items[..i] == items;
      return true;
    }

    /** pb_encode_tag_for_field and the item. */
    method EncodeKeyed(f: Field, v: Value) returns (ok: bool)
      requires Valid() && HasType(f.ltype, v)
      modifies this
      decreases f, 0
      ensures Valid() && writes == old(writes) && maxSize == old(maxSize)
      ensures ok <==> Encodable(f.ltype, v) && old(Fits(|Key(f.tag, WireTypeOf(f.ltype)) + EncodedValue(f.ltype, v)|))
      ensures ok ==> Emitted(Key(f.tag, WireTypeOf(f.ltype)) + EncodedValue(f.ltype, v))
    {
      ok := EncodeVarint(8 * f.tag + WireNumber(WireTypeOf(f.ltype)));
      if ok {
        ok := EncodeValue(f.ltype, v);
      }
    }

    /** encode_array. */
    method EncodeArray(f: Field, s: Slot) returns (ok: bool)
      requires Valid() && SlotHasType(f, s) && f.htype.Repeated?
      modifies this
      decreases f, 1
      ensures Valid() && writes == old(writes) && maxSize == old(maxSize)
      ensures ok <==> SlotEncodable(f, s) && old(Fits(|EncodedSlot(f, s, 0)|))
      ensures ok ==> Emitted(EncodedSlot(f, s, 0))
    {
      var count := |s.items|;
      if count == 0 {
        return true;
      }
      assert Records(f, s) > 0;
      if count > f.htype.arraySize {
        return false;
      }
      if Packed(f) {
        assert EncodedSlot(f, s, 0) == EncodedRecord(f, s, 0);
        ok := EncodePacked(f, s);
      } else {
        var i := 0;
        while i < count
          invariant i <= count && Valid()
          invariant forall v :: v in s.items[..i] ==> Encodable(f.ltype, v)
          invariant Ahead(EncodedSlot(f, s, 0), EncodedSlot(f, s, i))
        {
          SlotUnfolds(f, s, i);
          Assoc(state, EncodedRecord(f, s, i), EncodedSlot(f, s, i + 1));
          ok := EncodeKeyed(f, s.items[i]);
          if !ok {
            return;
          }
          assert s.items[..i + 1] == s.items[..i] + [s.items[i]];
          i := i + 1;
        }
        assert s.items[..i] == s.items;
        return true;
      }
    }

    /** The packed form: the size is computed for fixed-width items and counted for the others. */
    method EncodePacked(f: Field, s: Slot) returns (ok: bool)
      requires Valid() && SlotHasType(f, s) && Packed(f) && |s.items| > 0
      modifies this
      decreases f, 0
      ensures Valid() && writes == old(writes) && maxSize == old(maxSize)
      ensures ok <==> old(Fits(|EncodedRecord(f, s, 0)|))
      ensures ok ==> Emitted(EncodedRecord(f, s, 0))
    {
      ghost var body := EncodedItems(f.ltype, s.items, 0);
      ok := EncodeVarint(8 * f.tag + WireNumber(StringWire));
      if !ok {
        return;
      }
      var size: nat;
      if f.ltype.Fixed32? || f.ltype.Fixed64? {
        size := (if f.ltype.Fixed32? then 4 else 8) * |s.items|;
        FixedItemsSize(f.ltype, s.items, 0);
      } else {
        var sizestream := new OutStream.Sizing();
        ok := sizestream.EncodeItems(f.ltype, s.items);
        if !ok {
          return;
        }
        size := sizestream.written;
      }
      assert size == |body|;
      ok := EncodeVarint(size);
      if !ok {
        return;
      }
      if !writes {
        ok := Write([], size);
        return;
      }
      Assoc(old(state) + Key(f.tag, StringWire), Varint(size), body);
      Assoc(old(state), Key(f.tag, StringWire), Prefixed(body));
      ok := EncodeItems(f.ltype, s.items);
    }

    /** encode_basic_field. */
    method EncodeField(f: Field, s: Slot) returns (ok: bool)
      requires Valid() && SlotHasType(f, s)
      modifies this
      decreases f, 2
      ensures Valid() && writes == old(writes) && maxSize == old(maxSize)
      ensures ok <==> SlotEncodable(f, s) && old(Fits(|EncodedSlot(f, s, 0)|))
      ensures ok ==> Emitted(EncodedSlot(f, s, 0))
    {
      match f.htype
      case Required =>
        SlotUnfolds(f, s, 0);
        ok := EncodeKeyed(f, s.items[0]);
      case Optional(hasFlag) =>
        var has := if hasFlag then |s.items| > 0 else !IsDefault(f, s);
        if has {
          SlotUnfolds(f, s, 0);
          ok := EncodeKeyed(f, s.items[0]);
        } else {
          assert Records(f, s) == 0;
          ok := true;
        }
      case Repeated(_, _) =>
        ok := EncodeArray(f, s);
    }

    /** pb_encode. */
    method EncodeMessage(d: Descriptor, m: seq<Slot>) returns (ok: bool)
      requires Valid() && MessageHasType(d, m)
      modifies this
      decreases d, 2
      ensures Valid() && writes == old(writes) && maxSize == old(maxSize)
      ensures ok <==> MessageEncodable(d, m) && old(Fits(|EncodedMessage(d, m)|))
      ensures ok ==> Emitted(EncodedMessage(d, m))
    {
      var k := 0;
      while k < |d.fields|
        invariant k <= |m| && Valid()
        invariant forall i :: 0 <= i < k ==> SlotEncodable(d.fields[i], m[i])
        invariant Ahead(EncodedMessage(d, m), EncodedFields(d, m, k))
      {
        Assoc(state, EncodedSlot(d.fields[k], m[k], 0), EncodedFields(d, m, k + 1));
        ok := EncodeField(d.fields[k], m[k]);
        if !ok {
          return;
        }
        k := k + 1;
      }
      return true;
    }
  }

  lemma {:induction false} FixedItemsSize(lt: LType, items: seq<Value>, i: nat)
    requires (lt.Fixed32? || lt.Fixed64?) && i <= |items| && forall v :: v in items ==> HasType(lt, v)
    decreases |items| - i
    ensures |EncodedItems(lt, items, i)| == (if lt.Fixed32? then 4 else 8) * (|items| - i)
  {
    if i < |items| {
      FixedItemsSize(lt, items, i + 1);
    }
  }

  /** pb_get_encoded_size counts what pb_encode writes into any buffer large enough, and no smaller
      buffer takes the message. */
  method EncodedSize(d: Descriptor, m: seq<Slot>) returns (ok: bool, size: nat)
    requires MessageHasType(d, m)
    ensures ok <==> MessageEncodable(d, m)
    ensures ok ==> size == |EncodedMessage(d, m)|
  {
    var stream := new OutStream.Sizing();
    ok := stream.EncodeMessage(d, m);
    size := stream.written;
  }

  method EncodeToBuffer(d: Descriptor, m: seq<Slot>, bufsize: nat) returns (ok: bool, bytes: Bytes)
    requires MessageHasType(d, m)
    ensures ok <==> MessageEncodable(d, m) && |EncodedMessage(d, m)| <= bufsize
    ensures ok ==> bytes == EncodedMessage(d, m)
  {
    var stream := new OutStream.FromBuffer(bufsize);
    ok := stream.EncodeMessage(d, m);
    bytes := stream.state;
  }
}
