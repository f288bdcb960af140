/** Fixed-width integers in little-endian bytes, and variable-length ones. */
module Coding {
  import opened Keys

  type Word = n: nat | n < 0x1_0000_0000

  function EncodeFixed32(w: Word): (bytes: seq<Byte>)
    ensures |bytes| == 4
  {
    [w % 0x100, w / 0x100 % 0x100, w / 0x1_0000 % 0x100, w / 0x100_0000]
  }

  function DecodeFixed32(bytes: seq<Byte>): Word
    requires |bytes| >= 4
  {
    bytes[0] + bytes[1] as int * 0x100 + bytes[2] as int * 0x1_0000 + bytes[3] as int * 0x100_0000
  }

  lemma Fixed32RoundTrip(w: Word, rest: seq<Byte>)
    ensures DecodeFixed32(EncodeFixed32(w) + rest) == w
  {
    var bytes := EncodeFixed32(w);
    assert (bytes + rest)[..4] == bytes;
    assert w == w % 0x100 + w / 0x100 * 0x100;
    assert w / 0x100 == w / 0x100 % 0x100 + w / 0x1_0000 * 0x100;
    assert w / 0x1_0000 == w / 0x1_0000 % 0x100 + w / 0x100_0000 * 0x100;
  }

  function EncodeFixed64(n: nat): (bytes: seq<Byte>)
    ensures |bytes| == 8
  {
    EncodeFixed32(n % 0x1_0000_0000) + EncodeFixed32(n / 0x1_0000_0000 % 0x1_0000_0000)
  }

  function DecodeFixed64(bytes: seq<Byte>): (n: nat)
    requires |bytes| >= 8
    ensures n < 0x1_0000_0000_0000_0000
  {
    DecodeFixed32(bytes) + 0x1_0000_0000 * DecodeFixed32(bytes[4..])
  }

  lemma Fixed64RoundTrip(n: nat, rest: seq<Byte>)
    requires n < 0x1_0000_0000_0000_0000
    ensures DecodeFixed64(EncodeFixed64(n) + rest) == n
  {
    hide EncodeFixed32, DecodeFixed32;
    var low, high := n % 0x1_0000_0000, n / 0x1_0000_0000 % 0x1_0000_0000;
    var b := EncodeFixed64(n) + rest;
    assert b == EncodeFixed32(low) + (EncodeFixed32(high) + rest);
    Fixed32RoundTrip(low, EncodeFixed32(high) + rest);
    assert b[4..] == EncodeFixed32(high) + rest;
    Fixed32RoundTrip(high, rest);
  }

  lemma Fixed32Determines(a: Bytes, b: Bytes)
    requires |a| >= 4 && |b| >= 4 && DecodeFixed32(a) == DecodeFixed32(b)
    ensures a[..4] == b[..4]
  {
    var x, y := DecodeFixed32(a), DecodeFixed32(b);
    assert x == a[0] as int + 0x100 * (a[1] as int + 0x100 * (a[2] as int + 0x100 * a[3] as int));
    assert y == b[0] as int + 0x100 * (b[1] as int + 0x100 * (b[2] as int + 0x100 * b[3] as int));
  }

  lemma Fixed64Determines(a: Bytes, b: Bytes)
    requires |a| == 8 == |b| && DecodeFixed64(a) == DecodeFixed64(b)
    ensures a == b
  {
    hide DecodeFixed32;
    Fixed32Determines(a, b);
    Fixed32Determines(a[4..], b[4..]);
    assert a == a[..4] + a[4..][..4] && b == b[..4] + b[4..][..4];
  }

  /** The smallest digit first. */
  lemma Fixed32IsLittleEndian(w: Word)
    ensures
      var b := EncodeFixed32(w);
      |b| == 4 && w == b[0] as int + 0x100 * b[1] as int + 0x1_0000 * b[2] as int + 0x100_0000 * b[3] as int
  {
    assert w == w % 0x100 + w / 0x100 * 0x100;
    assert w / 0x100 == w / 0x100 % 0x100 + w / 0x1_0000 * 0x100;
    assert w / 0x1_0000 == w / 0x1_0000 % 0x100 + w / 0x100_0000 * 0x100;
  }

  lemma Fixed64IsLittleEndian(n: nat)
    requires n < 0x1_0000_0000_0000_0000
    ensures
      var b := EncodeFixed64(n);
      && |b| == 8
      && n == b[0] as int + 0x100 * b[1] as int + 0x1_0000 * b[2] as int + 0x100_0000 * b[3] as int
              + 0x1_0000_0000 * (b[4] as int + 0x100 * b[5] as int + 0x1_0000 * b[6] as int + 0x100_0000 * b[7] as int)
  {
    hide EncodeFixed32;
    Fixed32IsLittleEndian(n % 0x1_0000_0000);
    Fixed32IsLittleEndian(n / 0x1_0000_0000 % 0x1_0000_0000);
  }

  // ---- varints ----

  /** Seven bits a byte, the smallest first, with the high bit on all bytes but the last. */
  function Varint(v: nat): (bytes: seq<Byte>)
    ensures 0 < |bytes|
  {
    if v < 128 then [v] else [v % 128 + 128] + Varint(v / 128)
  }

  /** What groups of seven bits are worth, the smallest first. */
  function Groups(bytes: seq<Byte>): nat {
    if bytes == [] then 0 else bytes[0] % 128 + 128 * Groups(bytes[1..])
  }

  /** The high bit says that more follows, and no byte is wasted. */
  lemma {:induction false} VarintSays(v: nat)
    ensures
      var b := Varint(v);
      && b != [] && Groups(b) == v
      && b[|b| - 1] < 128 && (forall i :: 0 <= i < |b| - 1 ==> b[i] >= 128)
      && (|b| > 1 ==> b[|b| - 1] != 0)
  {
    if v >= 128 {
      VarintSays(v / 128);
      assert Varint(v)[1..] == Varint(v / 128);
    } else {
      assert Varint(v)[1..] == [];
    }
  }

  datatype Decoded = Decoded(value: nat, length: nat)

  /** Reads a varint of at most `limit` bytes. */
  function GetVarint(p: seq<Byte>, limit: nat): (r: Option<Decoded>)
    ensures r.Some? ==> 0 < r.value.length <= |p|
    decreases limit
  {
    if limit == 0 || p == [] then None
    else if p[0] < 128 then Some(Decoded(p[0], 1))
    else
      match GetVarint(p[1..], limit - 1)
      case None => None
      case Some(d) => Some(Decoded(p[0] - 128 + 128 * d.value, d.length + 1))
  }

  /** EncodeVarint32, case by case. */
  method EncodeVarint32(v: Word) returns (bytes: seq<Byte>)
    ensures bytes == Varint(v) && |bytes| <= 5
  {
    hide Varint;
    if v < 0x80 {
      bytes := [v];
      OneByte(v);
    } else if v < 0x4000 {
      TwoBytes(v);
      bytes := [v % 0x80 + 0x80, v / 0x80];
    } else if v < 0x20_0000 {
      ThreeBytes(v);
      bytes := [v % 0x80 + 0x80, v / 0x80 % 0x80 + 0x80, v / 0x4000];
    } else if v < 0x1000_0000 {
      FourBytes(v);
      bytes := [v % 0x80 + 0x80, v / 0x80 % 0x80 + 0x80, v / 0x4000 % 0x80 + 0x80, v / 0x20_0000];
    } else {
      FiveBytes(v);
      bytes := [v % 0x80 + 0x80, v / 0x80 % 0x80 + 0x80, v / 0x4000 % 0x80 + 0x80, v / 0x20_0000 % 0x80 + 0x80, v / 0x1000_0000];
    }
  }

  lemma OneByte(v: nat)
    requires v < 0x80
    ensures Varint(v) == [v]
  {
  }

  lemma TwoBytes(v: nat)
    requires 0x80 <= v < 0x4000
    ensures Varint(v) == [v % 0x80 + 0x80, v / 0x80]
  {
  }

  lemma ThreeBytes(v: nat)
    requires 0x4000 <= v < 0x20_0000
    ensures Varint(v) == [v % 0x80 + 0x80, v / 0x80 % 0x80 + 0x80, v / 0x4000]
  {
    hide Varint;
    VarintStep(v);
    TwoBytes(v / 0x80);
    assert v / 0x80 / 0x80 == v / 0x4000;
  }

  lemma FourBytes(v: nat)
    requires 0x20_0000 <= v < 0x1000_0000
    ensures Varint(v) == [v % 0x80 + 0x80, v / 0x80 % 0x80 + 0x80, v / 0x4000 % 0x80 + 0x80, v / 0x20_0000]
  {
    hide Varint;
    VarintStep(v);
    ThreeBytes(v / 0x80);
    assert v / 0x80 / 0x80 == v / 0x4000;
    assert v / 0x80 / 0x4000 == v / 0x20_0000;
  }

  lemma FiveBytes(v: Word)
    requires 0x1000_0000 <= v
    ensures Varint(v) == [v % 0x80 + 0x80, v / 0x80 % 0x80 + 0x80, v / 0x4000 % 0x80 + 0x80, v / 0x20_0000 % 0x80 + 0x80, v / 0x1000_0000]
  {
    hide Varint;
    VarintStep(v);
    FourBytes(v / 0x80);
    assert v / 0x80 / 0x80 == v / 0x4000;
    assert v / 0x80 / 0x4000 == v / 0x20_0000;
    assert v / 0x80 / 0x20_0000 == v / 0x1000_0000;
  }

  lemma VarintStep(v: nat)
    requires v >= 0x80
    ensures Varint(v) == [v % 0x80 + 0x80] + Varint(v / 0x80)
  {
  }

  function Power128(n: nat): (r: nat)
    ensures r > 0
  {
    if n == 0 then 1 else 128 * Power128(n - 1)
  }

  lemma {:induction false} VarintRoundTrip(v: nat, limit: nat, rest: seq<Byte>)
    requires 0 < limit && v < Power128(limit)
    ensures GetVarint(Varint(v) + rest, limit) == Some(Decoded(v, |Varint(v)|))
    ensures |Varint(v)| <= limit
    decreases limit
  {
    if v >= 128 {
      assert limit > 1 by {
        assert Power128(1) == 128;
      }
      VarintRoundTrip(v / 128, limit - 1, rest);
      assert (Varint(v) + rest)[1..] == Varint(v / 128) + rest;
    }
  }

  lemma Varint32RoundTrip(v: Word, rest: seq<Byte>)
    ensures GetVarint(Varint(v) + rest, 5) == Some(Decoded(v, |Varint(v)|))
  {
    assert Power128(5) > 0x1_0000_0000 by {
      assert Power128(2) == 0x4000;
    }
    VarintRoundTrip(v, 5, rest);
  }

  /** After `i` bytes with the high bit, `result` collects them and `weight` is what the next counts. */
  ghost predicate Decoding(p: seq<Byte>, limit: nat, i: nat, result: nat, weight: nat) {
    && i <= limit && i <= |p|
    && GetVarint(p, limit) ==
         match GetVarint(p[i..], limit - i)
         case None => None
         case Some(d) => Some(Decoded(result + weight * d.value, i + d.length))
  }

  lemma DecodeMore(p: seq<Byte>, limit: nat, i: nat, result: nat, weight: nat)
    requires Decoding(p, limit, i, result, weight) && i < limit && i < |p| && p[i] >= 128
    ensures Decoding(p, limit, i + 1, result + weight * (p[i] - 128), 128 * weight)
  {
    assert p[i..][1..] == p[i + 1..];
    match GetVarint(p[i + 1..], limit - i - 1)
    case None =>
    case Some(d) => WeightedStep(result, weight, p[i] - 128, d.value);
  }

  lemma DecodeLast(p: seq<Byte>, limit: nat, i: nat, result: nat, weight: nat)
    requires Decoding(p, limit, i, result, weight) && i < limit && i < |p| && p[i] < 128
    ensures GetVarint(p, limit) == Some(Decoded(result + weight * p[i], i + 1))
  {
    hide GetVarint;
    LastByte(p[i..], limit - i);
  }

  lemma LastByte(p: seq<Byte>, limit: nat)
    requires 0 < limit && p != [] && p[0] < 128
    ensures GetVarint(p, limit) == Some(Decoded(p[0], 1))
  {
  }

  lemma WeightedStep(result: nat, weight: nat, low: nat, high: nat)
    ensures result + weight * (low + 128 * high) == (result + weight * low) + (128 * weight) * high
  {
  }

  lemma DecodeStart(p: seq<Byte>, limit: nat)
    ensures Decoding(p, limit, 0, 0, 1)
  {
    assert p[0..] == p;
  }

  lemma DecodeEnd(p: seq<Byte>, limit: nat, i: nat, result: nat, weight: nat)
    requires Decoding(p, limit, i, result, weight) && (i == limit || i == |p|)
    ensures GetVarint(p, limit) == None
  {
  }

  /** The loop over at most `limit` bytes that all varint readers have. */
  method ReadVarint(p: seq<Byte>, limit: nat) returns (r: Option<Decoded>)
    ensures r == GetVarint(p, limit)
  {
    hide Decoding, GetVarint;
    var result: nat, i: nat, weight: nat := 0, 0, 1;
    DecodeStart(p, limit);
    while i < limit && i < |p|
      invariant i <= limit && i <= |p| && Decoding(p, limit, i, result, weight)
    {
      var b := p[i];
      if b >= 128 {
        DecodeMore(p, limit, i, result, weight);
        result := result + weight * (b - 128);
      } else {
        DecodeLast(p, limit, i, result, weight);
        return Some(Decoded(result + weight * b, i + 1));
      }
      i, weight := i + 1, 128 * weight;
    }
    DecodeEnd(p, limit, i, result, weight);
    return None;
  }

  // ---- what the parsers of records use ----

  /** GetVarint32: up to five bytes, put together in 32 bits. */
  function Varint32Of(p: seq<Byte>): (r: Option<Decoded>)
    ensures r.Some? ==> 0 < r.value.length <= |p|
  {
    match GetVarint(p, 5)
    case None => None
    case Some(d) => Some(d.(value := d.value % 0x1_0000_0000))
  }

  /** GetVarint64: up to ten bytes, put together in 64 bits. */
  function Varint64Of(p: seq<Byte>): (r: Option<Decoded>)
    ensures r.Some? ==> 0 < r.value.length <= |p|
  {
    match GetVarint(p, 10)
    case None => None
    case Some(d) => Some(d.(value := d.value % 0x1_0000_0000_0000_0000))
  }

  /** PutLengthPrefixedSlice: the length goes through 32 bits. */
  function SliceBytes(data: seq<Byte>): seq<Byte> {
    Varint(|data| % 0x1_0000_0000) + data
  }

  datatype Sliced = Sliced(data: seq<Byte>, rest: seq<Byte>)

  /** GetLengthPrefixedSlice */
  function SliceOf(p: seq<Byte>): (r: Option<Sliced>)
    ensures r.Some? ==> |r.value.rest| < |p|
  {
    match Varint32Of(p)
    case None => None
    case Some(d) =>
      var left := p[d.length..];
      if d.value <= |left| then Some(Sliced(left[..d.value], left[d.value..])) else None
  }

  lemma Varint32Back(v: Word, rest: seq<Byte>)
    ensures Varint32Of(Varint(v) + rest) == Some(Decoded(v, |Varint(v)|))
    ensures (Varint(v) + rest)[|Varint(v)|..] == rest
  {
    Varint32RoundTrip(v, rest);
  }

  lemma Varint64Back(v: nat, rest: seq<Byte>)
    requires v < 0x1_0000_0000_0000_0000
    ensures Varint64Of(Varint(v) + rest) == Some(Decoded(v, |Varint(v)|))
    ensures (Varint(v) + rest)[|Varint(v)|..] == rest
  {
    assert Power128(10) > 0x1_0000_0000_0000_0000 by {
      assert Power128(4) == 0x1000_0000;
      assert Power128(7) == 0x2_0000_0000_0000;
    }
    VarintRoundTrip(v, 10, rest);
  }

  lemma Varint64Fits(v: nat)
    requires v < 0x1_0000_0000_0000_0000
    ensures |Varint(v)| <= 10
  {
    assert Power128(10) > 0x1_0000_0000_0000_0000 by {
      assert Power128(4) == 0x1000_0000;
      assert Power128(7) == 0x2_0000_0000_0000;
    }
    VarintRoundTrip(v, 10, []);
  }

  lemma SliceBack(data: seq<Byte>, rest: seq<Byte>)
    requires |data| < 0x1_0000_0000
    ensures SliceOf(SliceBytes(data) + rest) == Some(Sliced(data, rest))
  {
    hide Varint, GetVarint;
    Varint32Back(|data|, data + rest);
    assert SliceBytes(data) + rest == Varint(|data|) + (data + rest);
    assert (data + rest)[..|data|] == data && (data + rest)[|data|..] == rest;
  }

  method GetVarint32(p: seq<Byte>) returns (r: Option<Decoded>)
    ensures r == Varint32Of(p)
  {
    var d := ReadVarint(p, 5);
    r := if d.None? then None else Some(Decoded(d.value.value % 0x1_0000_0000, d.value.length));
  }

  method GetVarint64(p: seq<Byte>) returns (r: Option<Decoded>)
    ensures r == Varint64Of(p)
  {
    var d := ReadVarint(p, 10);
    r := if d.None? then None else Some(Decoded(d.value.value % 0x1_0000_0000_0000_0000, d.value.length));
  }

  method GetLengthPrefixedSlice(p: seq<Byte>) returns (r: Option<Sliced>)
    ensures r == SliceOf(p)
  {
    var d := GetVarint32(p);
    if d.None? || |p| - d.value.length < d.value.value {
      return None;
    }
    var left := p[d.value.length..];
    r := Some(Sliced(left[..d.value.value], left[d.value.value..]));
  }

  /** EncodeVarint64 */
  method EncodeVarint64(value: nat) returns (bytes: seq<Byte>)
    ensures bytes == Varint(value)
  {
    hide Varint;
    bytes := [];
    var v := value;
    while v >= 128
      invariant bytes + Varint(v) == Varint(value)
    {
      VarintStep(v);
      bytes := bytes + [v % 128 + 128];
      v := v / 128;
    }
    OneByte(v);
    bytes := bytes + [v];
  }

  method PutLengthPrefixedSlice(dst: seq<Byte>, data: seq<Byte>) returns (r: seq<Byte>)
    ensures r == dst + SliceBytes(data)
  {
    var length := EncodeVarint32(|data| % 0x1_0000_0000);
    r := dst + length + data;
  }
}
