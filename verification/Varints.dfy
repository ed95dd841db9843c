/** Variable-length 32-bit and 64-bit numbers (util/coding.cc). */
module Varints {
  import opened Keys
  import opened LogFormat

  /** Seven bits a byte, lowest first, the top bit set on all but the last. */
  function Varint(v: nat): (r: Bytes)
    ensures |r| >= 1
  {
    if v < 128 then [v] else [v % 128 + 128] + Varint(v / 128)
  }

  /** EncodeVarint32's five cases are the recursion. */
  method PutVarint32(dst: Bytes, v: Word) returns (r: Bytes)
    ensures r == dst + Varint(v)
  {
    var a, b, c, d := v / 0x80, v / 0x4000, v / 0x20_0000, v / 0x1000_0000;
    assert a / 128 == b && b / 128 == c && c / 128 == d;
    if v < 0x80 {
      r := dst + [v];
    } else if v < 0x4000 {
      r := dst + [v % 128 + 128, a];
      assert Varint(a) == [a];
    } else if v < 0x20_0000 {
      r := dst + [v % 128 + 128, a % 128 + 128, b];
      assert Varint(a) == [a % 128 + 128] + Varint(b) && Varint(b) == [b];
    } else if v < 0x1000_0000 {
      r := dst + [v % 128 + 128, a % 128 + 128, b % 128 + 128, c];
      assert Varint(a) == [a % 128 + 128] + Varint(b) && Varint(b) == [b % 128 + 128] + Varint(c) && Varint(c) == [c];
    } else {
      r := dst + [v % 128 + 128, a % 128 + 128, b % 128 + 128, c % 128 + 128, d];
      assert Varint(a) == [a % 128 + 128] + Varint(b) && Varint(b) == [b % 128 + 128] + Varint(c);
      assert Varint(c) == [c % 128 + 128] + Varint(d) && Varint(d) == [d];
    }
  }

  /** Seven bits a byte, least significant first. */
  lemma KnownVarints()
    ensures Varint(127) == [0x7f] && Varint(300) == [0xac, 0x02] && Varint(0x4000) == [0x80, 0x80, 0x01]
  {
    assert Varint(2) == [2] && Varint(1) == [1];
    assert Varint(0x80) == [0x80] + Varint(1);
  }

  /** x << 7 * k. */
  function Shl7(x: nat, k: nat): nat
    decreases k
  {
    if k == 0 then x else Shl7(128 * x, k - 1)
  }

  lemma {:induction false} Shl7Add(x: nat, y: nat, k: nat)
    decreases k
    ensures Shl7(x + y, k) == Shl7(x, k) + Shl7(y, k)
  {
    if k > 0 {
      assert 128 * (x + y) == 128 * x + 128 * y;
      Shl7Add(128 * x, 128 * y, k - 1);
    }
  }

  lemma {:induction false} Shl7Grows(x: nat, m: nat, n: nat)
    requires m <= n
    decreases m
    ensures Shl7(x, m) <= Shl7(x, n)
  {
    if m == 0 {
      AtLeast(x, n);
    } else {
      Shl7Grows(128 * x, m - 1, n - 1);
    }
  }

  lemma {:induction false} AtLeast(x: nat, k: nat)
    decreases k
    ensures x <= Shl7(x, k)
  {
    if k > 0 {
      AtLeast(128 * x, k - 1);
    }
  }

  /** v was read up to its k-th byte: `rest` is still to come. */
  ghost predicate ReadSoFar(v: nat, k: nat, rest: nat, result: nat) {
    v == Shl7(rest, k) + result && result < Shl7(1, k)
  }

  /** x << 7 * k in an unsigned number with `values` values. */
  function Shifted(x: nat, k: nat, values: nat): nat
    requires values > 0
  {
    Shl7(x, k) % values
  }

  /** One turn of a reading loop whose number fits its type: shifting loses nothing. */
  lemma ReadDigit(v: nat, k: nat, rest: nat, result: nat, values: nat, bytes: nat)
    requires ReadSoFar(v, k, rest, result) && v < values <= Shl7(1, bytes)
    ensures rest < 128 ==> result + Shifted(rest, k, values) == v
    ensures ReadSoFar(v, k + 1, rest / 128, result + Shifted(rest % 128, k, values))
    ensures rest >= 128 ==> k + 1 < bytes
  {
    var q, r := rest / 128, rest % 128;
    Shl7Add(128 * q, r, k);
    Shl7Add(r, 127 - r, k);
    Shl7Add(127, 1, k);
    Small(Shl7(r, k), values);
    if q > 0 {
      Shl7Add(q - 1, 1, k + 1);
      if bytes <= k + 1 {
        Shl7Grows(1, bytes, k + 1);
      }
    }
  }

  /** The most bytes a 32-bit and a 64-bit number take. */
  lemma MostBytes()
    ensures 0x1_0000_0000 <= Shl7(1, 5) && 0x1_0000_0000_0000_0000 <= Shl7(1, 10)
  {}

  lemma Small(x: nat, m: nat)
    requires x < m
    ensures x % m == x
  {}

  /** A reading loop's sum after i bytes of at most `bytes`. */
  ghost predicate Accumulated(value: nat, i: nat, values: nat, bytes: nat) {
    i <= bytes && value < values && (i < bytes ==> value < Shl7(1, i))
  }

  /** Bytes past the end of the type are cut off, so the sum always fits it. */
  lemma SumFits(value: nat, i: nat, byte: Byte, values: nat, bytes: nat)
    requires (values == 0x1_0000_0000 && bytes == 5) || (values == 0x1_0000_0000_0000_0000 && bytes == 10)
    requires Accumulated(value, i, values, bytes) && i < bytes
    ensures Accumulated(value + Shifted(byte % 128, i, values), i + 1, values, bytes)
  {
    if i + 1 < bytes {
      Below(value, i, byte % 128, bytes - 1);
      if bytes == 5 {
        assert Shl7(1, 4) < values;
      } else {
        assert Shl7(1, 9) < values;
      }
      Small(Shl7(byte % 128, i), values);
    } else if bytes == 5 {
      FifthByte(byte % 128);
    } else {
      TenthByte(byte % 128);
    }
  }

  lemma Below(value: nat, i: nat, b: nat, n: nat)
    requires value < Shl7(1, i) && b < 128 && i < n
    ensures value + Shl7(b, i) < Shl7(1, i + 1) <= Shl7(1, n)
  {
    Shl7Add(b, 127 - b, i);
    Shl7Add(127, 1, i);
    Shl7Grows(1, i + 1, n);
  }

  lemma FifthByte(b: nat)
    ensures Shifted(b, 4, 0x1_0000_0000) <= 0xF000_0000
  {
    assert Shl7(b, 4) == b * 0x1000_0000;
    assert b == 16 * (b / 16) + b % 16;
  }

  lemma TenthByte(b: nat)
    ensures Shifted(b, 9, 0x1_0000_0000_0000_0000) <= 0x8000_0000_0000_0000
  {
    assert Shl7(b, 9) == b * 0x8000_0000_0000_0000;
    assert b == 2 * (b / 2) + b % 2;
  }

  /** Take the front of a varint that the data goes on with. */
  lemma VarintFront(data: Bytes, p: nat, limit: nat, rest: nat)
    requires p <= limit <= |data| && Varint(rest) <= data[p..limit]
    ensures p < limit && (data[p] < 128 <==> rest < 128) && data[p] % 128 == rest % 128
    ensures rest >= 128 ==> Varint(rest / 128) <= data[p + 1..limit] && |Varint(rest)| == 1 + |Varint(rest / 128)|
    ensures rest < 128 ==> |Varint(rest)| == 1
  {
    assert data[p..limit][0] == data[p] == Varint(rest)[0];
    assert data[p..limit][1..] == data[p + 1..limit];
    assert rest >= 128 ==> Varint(rest)[1..] == Varint(rest / 128);
  }

  /** The varint of v starts at p and i of its bytes are read. */
  ghost predicate Reading(data: Bytes, p: nat, limit: nat, v: nat, i: nat, rest: nat, result: nat) {
    p + i <= limit <= |data| && ReadSoFar(v, i, rest, result) && (i > 0 ==> rest > 0)
    && Varint(rest) <= data[p + i..limit] && |Varint(v)| == i + |Varint(rest)|
  }

  /** Some of v is still to come. */
  ghost predicate InVarint(data: Bytes, p: nat, limit: nat, v: nat, i: nat, result: nat) {
    p + i < limit <= |data| && exists rest: nat :: Reading(data, p, limit, v, i, rest, result)
  }

  lemma StartVarint(data: Bytes, p: nat, limit: nat, v: nat)
    requires p <= limit <= |data| && Varint(v) <= data[p..limit]
    ensures InVarint(data, p, limit, v, 0, 0)
  {
    assert Reading(data, p, limit, v, 0, v, 0);
  }

  lemma ReadByte(data: Bytes, p: nat, limit: nat, v: nat, i: nat, result: nat, values: nat, bytes: nat)
    requires InVarint(data, p, limit, v, i, result) && v < values <= Shl7(1, bytes)
    ensures p + i < limit <= |data|
    ensures data[p + i] < 128 ==> result + Shifted(data[p + i] % 128, i, values) == v && |Varint(v)| == i + 1
    ensures data[p + i] < 128 ==> Shl7(data[p + i], i) <= v < Shl7(data[p + i] + 1, i) && (i > 0 ==> data[p + i] > 0)
    ensures data[p + i] >= 128 ==>
              InVarint(data, p, limit, v, i + 1, result + Shifted(data[p + i] % 128, i, values)) && i + 1 < bytes
  {
    var rest: nat :| Reading(data, p, limit, v, i, rest, result);
    VarintFront(data, p + i, limit, rest);
    if rest < 128 {
      assert data[p + i] == rest;
      ReadDigit(v, i, rest, result, values, bytes);
      Shl7Add(rest, 1, i);
    } else {
      ReadDigit(v, i, rest, result, values, bytes);
      GoOn(data, p, limit, v, i, rest, result, result + Shifted(rest % 128, i, values));
    }
  }

  lemma GoOn(data: Bytes, p: nat, limit: nat, v: nat, i: nat, rest: nat, result: nat, more: nat)
    requires Reading(data, p, limit, v, i, rest, result) && rest >= 128 && ReadSoFar(v, i + 1, rest / 128, more)
    ensures InVarint(data, p, limit, v, i + 1, more)
  {
    VarintFront(data, p + i, limit, rest);
    assert Reading(data, p, limit, v, i + 1, rest / 128, more);
  }

  // ----- What any bytes say -----

  /** Where a number ends: behind the first byte without the top bit, which is to be among the first `most`. */
  function NumberEnd(data: Bytes, p: nat, limit: nat, most: nat): (r: Option<nat>)
    requires p <= limit <= |data|
    ensures r.Some? ==> p < r.value <= limit
    decreases most
  {
    if p == limit || most == 0 then None
    else if data[p] < 128 then Some(p + 1)
    else NumberEnd(data, p + 1, limit, most - 1)
  }

  /** The groups of seven bits, lowest first. */
  function Groups(data: Bytes, p: nat, q: nat): nat
    requires p <= q <= |data|
    decreases q - p
  {
    if p == q then 0 else data[p] % 128 + 128 * Groups(data, p + 1, q)
  }

  lemma {:induction false} Shl7Scale(x: nat, k: nat)
    ensures 128 * Shl7(x, k) == Shl7(128 * x, k)
    decreases k
  {
    if k > 0 {
      Shl7Scale(128 * x, k - 1);
    }
  }

  lemma {:induction false} GroupsSnoc(data: Bytes, p: nat, q: nat)
    requires p <= q < |data|
    ensures Groups(data, p, q + 1) == Groups(data, p, q) + Shl7(data[q] % 128, q - p)
    decreases q - p
  {
    if p < q {
      GroupsSnoc(data, p + 1, q);
      Shl7Scale(data[q] % 128, q - p - 1);
    }
  }

  lemma AddMod(a: nat, b: nat, m: nat)
    requires (m == 0x1_0000_0000 || m == 0x1_0000_0000_0000_0000) && a % m + b % m < m
    ensures (a + b) % m == a % m + b % m
  {}

  /** One more byte of a number of 32 or 64 bits. */
  lemma OneMoreGroup(data: Bytes, p: nat, i: nat, value: nat, values: nat, bytes: nat)
    requires (values == 0x1_0000_0000 && bytes == 5) || (values == 0x1_0000_0000_0000_0000 && bytes == 10)
    requires p + i < |data| && i < bytes && Accumulated(value, i, values, bytes) && value == Groups(data, p, p + i) % values
    ensures Accumulated(value + Shifted(data[p + i] % 128, i, values), i + 1, values, bytes)
    ensures value + Shifted(data[p + i] % 128, i, values) == Groups(data, p, p + i + 1) % values
  {
    GroupsSnoc(data, p, p + i);
    SumFits(value, i, data[p + i], values, bytes);
    AddMod(Groups(data, p, p + i), Shl7(data[p + i] % 128, i), values);
  }

  /** A number that was written is read back. */
  lemma {:induction false} VarintIsRead(data: Bytes, p: nat, limit: nat, v: nat, most: nat)
    requires p <= limit <= |data| && Varint(v) <= data[p..limit] && v < Shl7(1, most) && most > 0
    ensures NumberEnd(data, p, limit, most) == Some(p + |Varint(v)|) && Groups(data, p, p + |Varint(v)|) == v
    decreases most
  {
    VarintFront(data, p, limit, v);
    Shl7Scale(1, most - 1);
    assert Shl7(1, most) == Shl7(128, most - 1) == 128 * Shl7(1, most - 1);
    if v >= 128 {
      assert most > 1;
      VarintIsRead(data, p + 1, limit, v / 128, most - 1);
    } else {
      assert Groups(data, p, p + 1) == data[p] % 128;
    }
  }

  /** GetVarint32Ptr. */
  method GetVarint32(data: Bytes, p: nat, limit: nat) returns (next: Option<nat>, value: nat)
    requires p <= limit <= |data|
    ensures next == NumberEnd(data, p, limit, 5)
    ensures next.Some? ==> value == Groups(data, p, next.value) % 0x1_0000_0000
  {
    var i := 0;
    value := 0;
    while i <= 4 && p + i < limit
      invariant p + i <= limit && Accumulated(value, i, 0x1_0000_0000, 5)
      invariant NumberEnd(data, p, limit, 5) == NumberEnd(data, p + i, limit, 5 - i)
      invariant value == Groups(data, p, p + i) % 0x1_0000_0000
    {
      var byte: nat := data[p + i];
      OneMoreGroup(data, p, i, value, 0x1_0000_0000, 5);
      value := value + Shifted(byte % 128, i, 0x1_0000_0000);
      if byte < 128 {
        return Some(p + i + 1), value;
      }
      i := i + 1;
    }
    return None, 0;
  }

  /** EncodeVarint64. */
  method PutVarint64(dst: Bytes, value: nat) returns (r: Bytes)
    ensures r == dst + Varint(value)
  {
    var v: nat := value;
    r := dst;
    while v >= 128
      invariant r + Varint(v) == dst + Varint(value)
    {
      r := r + [v % 128 + 128];
      v := v / 128;
    }
    r := r + [v];
  }

  /** GetVarint64Ptr. */
  method GetVarint64(data: Bytes, p: nat, limit: nat) returns (next: Option<nat>, value: nat)
    requires p <= limit <= |data|
    ensures next == NumberEnd(data, p, limit, 10)
    ensures next.Some? ==> value == Groups(data, p, next.value) % 0x1_0000_0000_0000_0000
  {
    var i := 0;
    value := 0;
    while i <= 9 && p + i < limit
      invariant p + i <= limit && Accumulated(value, i, 0x1_0000_0000_0000_0000, 10)
      invariant NumberEnd(data, p, limit, 10) == NumberEnd(data, p + i, limit, 10 - i)
      invariant value == Groups(data, p, p + i) % 0x1_0000_0000_0000_0000
    {
      var byte: nat := data[p + i];
      OneMoreGroup(data, p, i, value, 0x1_0000_0000_0000_0000, 10);
      value := value + Shifted(byte % 128, i, 0x1_0000_0000_0000_0000);
      if byte < 128 {
        return Some(p + i + 1), value;
      }
      i := i + 1;
    }
    return None, 0;
  }
}
