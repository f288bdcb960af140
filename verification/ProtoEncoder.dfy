/** pb_encode.c: the encoder, which runs twice over a submessage, first to size it. */
module ProtoEncoder {
  import opened Keys
  import opened Coding
  import opened ProtoMessages

  /** A stream without a callback only counts. */
  datatype OStream = OStream(sizing: bool, data: Bytes, maxSize: nat, written: nat)

  const SIZING := OStream(true, [], 0, 0)

  /** What writing `bytes` does: it is counted, and stored if there is room. */
  predicate Wrote(s: OStream, ok: bool, s': OStream, bytes: Bytes) {
    if s.sizing then ok && s' == s.(written := s.written + |bytes|)
    else if s.written + |bytes| <= s.maxSize then ok && s' == s.(data := s.data + bytes, written := s.written + |bytes|)
    else !ok
  }

  predicate StreamOk(s: OStream) {
    s.sizing || s.written <= s.maxSize
  }

  lemma WroteNothing(s: OStream)
    requires StreamOk(s)
    ensures Wrote(s, true, s, [])
  {
    assert s.data + [] == s.data;
  }

  lemma WroteBoth(s: OStream, s1: OStream, a: Bytes, ok: bool, s2: OStream, b: Bytes)
    requires Wrote(s, true, s1, a) && Wrote(s1, ok, s2, b)
    ensures Wrote(s, ok, s2, a + b) && (ok ==> StreamOk(s2))
  {
    assert s.data + a + b == s.data + (a + b);
  }

  lemma WroteTooMuch(s: OStream, s1: OStream, a: Bytes, b: Bytes)
    requires Wrote(s, false, s1, a) && a <= b
    ensures Wrote(s, false, s1, b)
  {
  }

  method PbWrite(s: OStream, buffer: Bytes) returns (ok: bool, r: OStream)
    ensures Wrote(s, ok, r, buffer)
  {
    r := s;
    if !s.sizing {
      if s.written + |buffer| > s.maxSize {
        return false, r;
      }
      r := r.(data := r.data + buffer);
    }
    r := r.(written := r.written + |buffer|);
    ok := true;
  }

  /** pb_write with a null buffer, on a sizing stream. */
  method PbCount(s: OStream, size: nat, ghost bytes: Bytes) returns (ok: bool, r: OStream)
    requires s.sizing && size == |bytes|
    ensures Wrote(s, ok, r, bytes)
  {
    ok, r := true, s.(written := s.written + size);
  }

  method EncodeVarint(s: OStream, value: nat) returns (ok: bool, r: OStream)
    requires value < TWO64
    ensures Wrote(s, ok, r, Varint(value))
  {
    hide Varint;
    if value <= 0x7f {
      OneByte(value);
      ok, r := PbWrite(s, [value]);
      return;
    }
    var buffer: Bytes := [];
    var v: nat := value;
    while v > 0
      invariant v > 0 ==> Varint(value) == buffer + Varint(v)
      invariant v == 0 ==> buffer != [] && buffer[|buffer| - 1] >= 0x80 && Varint(value) == buffer[..|buffer| - 1] + [buffer[|buffer| - 1] - 0x80]
    {
      if v >= 0x80 {
        VarintStep(v);
      } else {
        OneByte(v);
      }
      buffer := buffer + [v % 0x80 + 0x80];
      v := v / 0x80;
    }
    buffer := buffer[..|buffer| - 1] + [buffer[|buffer| - 1] - 0x80];
    ok, r := PbWrite(s, buffer);
  }

  method EncodeTag(s: OStream, wireType: nat, tag: nat) returns (ok: bool, r: OStream)
    requires tag < MAX_TAG && wireType < 8
    ensures Wrote(s, ok, r, TagBytes(tag, wireType))
  {
    ok, r := EncodeVarint(s, tag * 8 + wireType);
  }

  method EncodeString(s: OStream, bytes: Bytes) returns (ok: bool, r: OStream)
    requires |bytes| < TWO64
    ensures Wrote(s, ok, r, Varint(|bytes|) + bytes)
  {
    var s1;
    ok, s1 := EncodeVarint(s, |bytes|);
    if !ok {
      WroteTooMuch(s, s1, Varint(|bytes|), Varint(|bytes|) + bytes);
      return ok, s1;
    }
    ok, r := PbWrite(s1, bytes);
    WroteBoth(s, s1, Varint(|bytes|), ok, r, bytes);
  }

  /** PB_ENCODERS for values that hold no message. */
  method EncodeScalar(s: OStream, t: FieldType, v: Datum) returns (ok: bool, r: OStream)
    requires TypeOk(t) && ValueOk(t, v) && !t.Submessage?
    ensures Wrote(s, ok, r, EncValue(t, v))
  {
    match t {
      case Int(_) => ok, r := EncodeVarint(s, v.n % TWO64);
      case UInt(_) => ok, r := EncodeVarint(s, v.n);
      case SInt(_) => ok, r := EncodeVarint(s, if v.n < 0 then -2 * v.n - 1 else 2 * v.n);
      case Fixed32 => ok, r := PbWrite(s, EncodeFixed32(v.n));
      case Fixed64 => ok, r := PbWrite(s, EncodeFixed64(v.n));
      case BytesOf(_) | Text(_) | FixedBytes(_) => ok, r := EncodeString(s, v.bytes);
    }
  }

  /** pb_encode_submessage: a sizing pass, the size, and a pass into a substream that holds just
      that much.  Both passes agree, so the error "submsg size changed" does not come up. */
  method EncodeSubmessage(s: OStream, schema: Schema, m: seq<seq<Datum>>) returns (ok: bool, r: OStream)
    requires StreamOk(s)
    requires SchemaOk(schema) && MessageOk(schema, m) && |EncMessage(schema, m)| < TWO64
    ensures var e := EncMessage(schema, m); Wrote(s, ok, r, Varint(|e|) + e)
    decreases schema, |m| + 2
  {
    ghost var e := EncMessage(schema, m);
    var sized, sizing := Encode(SIZING, schema, m);
    var size := sizing.written;
    var s1;
    ok, s1 := EncodeVarint(s, size);
    if !ok {
      WroteTooMuch(s, s1, Varint(|e|), Varint(|e|) + e);
      return ok, s1;
    }
    if s1.sizing {
      ok, r := PbCount(s1, size, e);
      WroteBoth(s, s1, Varint(|e|), ok, r, e);
      return;
    }
    if s1.written + size > s1.maxSize {
      return false, s1;
    }
    var substream := OStream(false, s1.data, size, 0);
    ok, substream := Encode(substream, schema, m);
    r := s1.(data := substream.data, written := s1.written + substream.written);
    // Not so much as a byte more or less than in the first pass.
    assert substream.written == size;
    WroteBoth(s, s1, Varint(|e|), ok, r, e);
  }

  method EncodeValue(s: OStream, t: FieldType, v: Datum) returns (ok: bool, r: OStream)
    requires StreamOk(s)
    requires TypeOk(t) && ValueOk(t, v) && |EncValue(t, v)| < TWO64
    ensures Wrote(s, ok, r, EncValue(t, v))
    decreases t, 0
  {
    if t.Submessage? {
      ok, r := EncodeSubmessage(s, t.schema, v.fields);
    } else {
      ok, r := EncodeScalar(s, t, v);
    }
  }

  /** The loop over the elements, without tags. */
  method EncodeElements(s: OStream, t: FieldType, vs: seq<Datum>) returns (ok: bool, r: OStream)
    requires StreamOk(s)
    requires TypeOk(t) && Packable(t) && forall k :: 0 <= k < |vs| ==> ValueOk(t, vs[k])
    ensures Wrote(s, ok, r, EncValues(t, vs))
  {
    hide Wrote, EncValue, StreamOk;
    ok, r := true, s;
    ghost var done: Bytes := [];
    WroteNothing(s);
    for i := 0 to |vs|
      invariant Wrote(s, true, r, done) && StreamOk(r) && ok && done + EncValues(t, vs[i..]) == EncValues(t, vs)
    {
      ghost var s1 := r;
      ok, r := EncodeScalar(r, t, vs[i]);
      WroteBoth(s, s1, done, ok, r, EncValue(t, vs[i]));
      assert vs[i..][0] == vs[i] && vs[i..][1..] == vs[i + 1..];
      assert done + EncValue(t, vs[i]) + EncValues(t, vs[i + 1..]) == EncValues(t, vs);
      done := done + EncValue(t, vs[i]);
      if !ok {
        WroteTooMuch(s, r, done, EncValues(t, vs));
        return;
      }
    }
    assert done == EncValues(t, vs);
  }

  /** encode_array where arrays are packed. */
  method EncodePacked(s: OStream, f: Field, vs: seq<Datum>) returns (ok: bool, r: OStream)
    requires StreamOk(s)
    requires TypeOk(f.ltype) && f.tag < MAX_TAG && Packable(f.ltype) && forall k :: 0 <= k < |vs| ==> ValueOk(f.ltype, vs[k])
    requires f.rule.Repeated? && vs != [] && |EncValues(f.ltype, vs)| < TWO64
    ensures Wrote(s, ok, r, EncField(f, vs))
  {
    ghost var payload := EncValues(f.ltype, vs);
    ghost var a, b := TagBytes(f.tag, WT_STRING), Varint(|payload|);
    var s1;
    ok, s1 := EncodeTag(s, WT_STRING, f.tag);
    if !ok {
      WroteTooMuch(s, s1, a, a + b + payload);
      return ok, s1;
    }
    var size;
    if f.ltype.Fixed32? {
      size := 4 * |vs|;
      FixedSizes(f.ltype, vs, 4);
    } else if f.ltype.Fixed64? {
      size := 8 * |vs|;
      FixedSizes(f.ltype, vs, 8);
    } else {
      var sized, sizing := EncodeElements(SIZING, f.ltype, vs);
      size := sizing.written;
    }
    var s2;
    ok, s2 := EncodeVarint(s1, size);
    WroteBoth(s, s1, a, ok, s2, b);
    if !ok {
      WroteTooMuch(s, s2, a + b, a + b + payload);
      return ok, s2;
    }
    if s2.sizing {
      ok, r := PbCount(s2, size, payload);
    } else {
      ok, r := EncodeElements(s2, f.ltype, vs);
    }
    WroteBoth(s, s2, a + b, ok, r, payload);
  }

  lemma {:induction false} FixedSizes(t: FieldType, vs: seq<Datum>, n: nat)
    requires forall k :: 0 <= k < |vs| ==> ValueOk(t, vs[k])
    requires (t.Fixed32? && n == 4) || (t.Fixed64? && n == 8)
    ensures |EncValues(t, vs)| == n * |vs|
    decreases |vs|
  {
    if vs != [] {
      FixedSizes(t, vs[1..], n);
    }
  }

  lemma ItemsFrom(f: Field, vs: seq<Datum>, i: nat, done: Bytes)
    requires forall k :: 0 <= k < |vs| ==> ValueOk(f.ltype, vs[k])
    requires i < |vs| && done + EncItems(f, vs[i..]) == EncItems(f, vs)
    ensures var a, b := TagBytes(f.tag, WireType(f.ltype)), EncValue(f.ltype, vs[i]);
            EncItems(f, vs) == done + a + b + EncItems(f, vs[i + 1..])
  {
    hide ValueOk, EncValue, TagBytes, WireType;
    assert vs[i..][0] == vs[i] && vs[i..][1..] == vs[i + 1..];
  }

  /** A tag before each element. */
  method EncodeItems(s: OStream, f: Field, vs: seq<Datum>) returns (ok: bool, r: OStream)
    requires StreamOk(s)
    requires TypeOk(f.ltype) && f.tag < MAX_TAG && forall k :: 0 <= k < |vs| ==> ValueOk(f.ltype, vs[k])
    requires |EncItems(f, vs)| < TWO64
    ensures Wrote(s, ok, r, EncItems(f, vs))
    decreases f, |vs|
  {
    assert vs[|vs|..] == [] && EncItems(f, []) == [];
    hide Wrote, StreamOk, ValueOk, TypeOk, EncValue, EncItems, TagBytes, WireType;
    ok, r := true, s;
    ghost var done: Bytes := [];
    WroteNothing(s);
    assert vs[0..] == vs;
    for i := 0 to |vs|
      invariant Wrote(s, true, r, done) && StreamOk(r) && ok && done + EncItems(f, vs[i..]) == EncItems(f, vs)
    {
      ghost var a, b, rest := TagBytes(f.tag, WireType(f.ltype)), EncValue(f.ltype, vs[i]), EncItems(f, vs[i + 1..]);
      ItemsFrom(f, vs, i, done);
      ghost var s0 := r;
      ok, r := EncodeTag(r, WireType(f.ltype), f.tag);
      WroteBoth(s, s0, done, ok, r, a);
      if !ok {
        WroteTooMuch(s, r, done + a, EncItems(f, vs));
        return;
      }
      ghost var s1 := r;
      ok, r := EncodeValue(r, f.ltype, vs[i]);
      WroteBoth(s, s1, done + a, ok, r, b);
      done := done + a + b;
      if !ok {
        WroteTooMuch(s, r, done, EncItems(f, vs));
        return;
      }
    }
    assert done == EncItems(f, vs);
  }

  /** encode_basic_field: a required or present value, an array, or the active field of a oneof. */
  method EncodeField(s: OStream, f: Field, vs: seq<Datum>) returns (ok: bool, r: OStream)
    requires StreamOk(s)
    requires TypeOk(f.ltype) && f.tag < MAX_TAG && forall k :: 0 <= k < |vs| ==> ValueOk(f.ltype, vs[k])
    requires |EncField(f, vs)| < TWO64
    ensures Wrote(s, ok, r, EncField(f, vs))
    decreases f, |vs| + 1
  {
    if f.rule.Repeated? && Packable(f.ltype) && vs != [] {
      ok, r := EncodePacked(s, f, vs);
    } else {
      ok, r := EncodeItems(s, f, vs);
    }
  }

  lemma FieldsOk(schema: Schema, m: seq<seq<Datum>>)
    requires SchemaOk(schema) && MessageOk(schema, m)
    ensures |m| == |schema.fields|
    ensures forall i :: 0 <= i < |m| ==> TypeOk(schema.fields[i].ltype) && schema.fields[i].tag < MAX_TAG
    ensures forall i, k :: 0 <= i < |m| && 0 <= k < |m[i]| ==> ValueOk(schema.fields[i].ltype, m[i][k])
  {
  }

  /** pb_encode: succeeds exactly when there is room, and then writes the message's encoding. */
  method Encode(s: OStream, schema: Schema, m: seq<seq<Datum>>) returns (ok: bool, r: OStream)
    requires StreamOk(s)
    requires SchemaOk(schema) && MessageOk(schema, m) && |EncMessage(schema, m)| < TWO64
    ensures Wrote(s, ok, r, EncMessage(schema, m))
    decreases schema, |m| + 1
  {
    assert |m| == |schema.fields| && EncFrom(schema, m, |m|) == [];
    FieldsOk(schema, m);
    hide Wrote, StreamOk, MessageOk, SchemaOk, TypeOk, ValueOk, EncField;
    ok, r := true, s;
    ghost var done: Bytes := [];
    WroteNothing(s);
    for i := 0 to |schema.fields|
      invariant Wrote(s, true, r, done) && StreamOk(r) && ok && done + EncFrom(schema, m, i) == EncMessage(schema, m)
    {
      ghost var e := EncField(schema.fields[i], m[i]);
      assert done + e + EncFrom(schema, m, i + 1) == EncMessage(schema, m);
      ghost var s1 := r;
      ok, r := EncodeField(r, schema.fields[i], m[i]);
      WroteBoth(s, s1, done, ok, r, e);
      done := done + e;
      if !ok {
        WroteTooMuch(s, r, done, EncMessage(schema, m));
        return;
      }
    }
    assert done == EncMessage(schema, m);
  }

  /** pb_get_encoded_size */
  method EncodedSize(schema: Schema, m: seq<seq<Datum>>) returns (size: nat)
    requires SchemaOk(schema) && MessageOk(schema, m) && |EncMessage(schema, m)| < TWO64
    ensures size == |EncMessage(schema, m)|
  {
    var ok, s := Encode(SIZING, schema, m);
    size := s.written;
  }
}
