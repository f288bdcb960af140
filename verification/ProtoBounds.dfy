/** Whatever bytes arrive, what the decoder delivers fits its schema: no array or string exceeds its
    capacity, numbers are in range, a oneof holds one field at most, and nothing required is missing. */
module ProtoBounds {
  import opened Keys
  import opened Coding
  import opened ProtoMessages
  import opened ProtoDecoding
  import ProtoRoundTrip

  /** As ValueOk, but text may hold zero bytes, which the decoder lets through. */
  predicate ValueFits(t: FieldType, v: Datum)
    decreases t, 1
  {
    match t
    case Int(bits) => v.Number? && InRange(v.n, bits)
    case UInt(bits) => v.Number? && 0 <= v.n < 2 * Half(bits)
    case SInt(bits) => v.Number? && InRange(v.n, bits)
    case Fixed32 => v.Number? && 0 <= v.n < TWO32
    case Fixed64 => v.Number? && 0 <= v.n < TWO64
    case BytesOf(max) => v.Blob? && |v.bytes| <= max
    case Text(max) => v.Blob? && |v.bytes| <= max
    case FixedBytes(length) => v.Blob? && |v.bytes| == length
    case Submessage(schema) => v.Message? && MessageFits(schema, v.fields)
  }

  predicate MessageFits(s: Schema, m: seq<seq<Datum>>)
    decreases s, 1
  {
    PartFits(s, m) && forall i :: 0 <= i < |m| && s.fields[i].rule.Required? ==> m[i] != []
  }

  predicate FieldFits(f: Field, vs: seq<Datum>)
    decreases f, 0
  {
    (forall k :: 0 <= k < |vs| ==> ValueFits(f.ltype, vs[k])) && |vs| <= if f.rule.Repeated? then f.rule.max else 1
  }

  /** A message in which required fields may still be missing. */
  predicate PartFits(s: Schema, m: seq<seq<Datum>>)
    decreases s, 0
  {
    && |m| == |s.fields|
    && (forall i :: 0 <= i < |m| ==> FieldFits(s.fields[i], m[i]))
    && forall i, j :: 0 <= i < j < |m| && SameOneof(s.fields[i], s.fields[j]) ==> m[i] == [] || m[j] == []
  }

  /** A flag is set only for a field that is there. */
  ghost predicate SeenIsThere(s: Schema, m: seq<seq<Datum>>, seen: set<nat>)
    requires |m| == |s.fields|
  {
    forall j :: 0 <= j < |m| && s.fields[j].rule.Required? && RequiredCount(s, j) in seen ==> m[j] != []
  }

  lemma ScalarFits(t: FieldType, b: Bytes)
    requires !t.Submessage?
    ensures DecScalar(t, b).Done? ==> ValueFits(t, DecScalar(t, b).value)
  {
    hide DecVarint, DecVarint32, DecodeFixed32, DecodeFixed64, Signed, UnZigZag;
    if t.Fixed32? && |b| >= 4 {
      FixedFits(b);
    } else if t.Fixed64? && |b| >= 8 {
      var n := DecodeFixed64(b);
    }
  }

  lemma FixedFits(b: Bytes)
    requires |b| >= 4
    ensures DecodeFixed32(b) < TWO32
  {
  }

  lemma {:induction false} PackedFits(f: Field, vs: seq<Datum>, b: Bytes)
    requires Packable(f.ltype) && f.rule.Repeated? && FieldFits(f, vs)
    ensures
      var r := DecPacked(f.ltype, f.rule.max, vs, b);
      r.Done? ==> FieldFits(f, r.value)
    decreases |b|
  {
    hide DecScalar, ValueFits;
    if b != [] && |vs| < f.rule.max {
      ScalarFits(f.ltype, b);
      var d := DecScalar(f.ltype, b);
      if d.Done? {
        PackedFits(f, vs + [d.value], d.rest);
      }
    }
  }

  lemma EmptyFits(s: Schema)
    ensures PartFits(s, Default(s)) && SeenIsThere(s, Default(s), {})
  {
  }

  /** A submessage goes on from what fits. */
  lemma StartFits(f: Field, vs: seq<Datum>)
    requires FieldFits(f, vs) && f.ltype.Submessage?
    ensures PartFits(f.ltype.schema, StartOf(f, vs))
  {
    EmptyFits(f.ltype.schema);
    if vs != [] {
      assert ValueFits(f.ltype, vs[0]);
      assert MessageFits(f.ltype.schema, vs[0].fields);
    }
  }

  lemma {:induction false} DecodedValueFits(t: FieldType, start: seq<seq<Datum>>, b: Bytes)
    requires t.Submessage? ==> PartFits(t.schema, start) && |start| == |t.schema.fields|
    ensures DecValue(t, start, b).Done? ==> ValueFits(t, DecValue(t, start, b).value)
    decreases t, 0
  {
    if t.Submessage? {
      hide DecLoop, PartFits, MessageFits;
      var d := DecVarint32(b);
      if d.Done? && d.value <= |d.rest| {
        LoopFits(t.schema, start, d.rest[..d.value], {});
      }
    } else {
      hide DecScalar, ValueFits;
      ScalarFits(t, b);
    }
  }

  lemma {:induction false} DecodedFieldFits(f: Field, vs: seq<Datum>, wireType: nat, b: Bytes)
    requires FieldFits(f, vs)
    ensures
      var r := DecField(f, vs, wireType, b);
      r.Done? ==> FieldFits(f, r.value) && (!f.rule.Repeated? ==> r.value != [])
    decreases f, 0
  {
    hide DecValue, DecPacked, ValueFits, DecVarint32, StartOf, PartFits;
    if f.rule.Repeated? && wireType == WT_STRING && Packable(f.ltype) {
      var d := DecVarint32(b);
      if d.Done? && d.value <= |d.rest| {
        PackedFits(f, vs, d.rest[..d.value]);
      }
    } else {
      if f.ltype.Submessage? {
        StartFits(f, vs);
      }
      DecodedValueFits(f.ltype, StartOf(f, vs), b);
    }
  }

  /** Storing a field keeps what fits; the others of its oneof go. */
  lemma StoreFits(s: Schema, m: seq<seq<Datum>>, i: nat, vs: seq<Datum>, seen: set<nat>)
    requires PartFits(s, m) && SeenIsThere(s, m, seen) && i < |m| && FieldFits(s.fields[i], vs)
    requires !s.fields[i].rule.Repeated? ==> vs != []
    ensures PartFits(s, Store(s, m, i, vs)) && SeenIsThere(s, Store(s, m, i, vs), Mark(s, i, seen))
  {
    hide FieldFits;
    var r := Store(s, m, i, vs);
    forall j | 0 <= j < |r| ensures FieldFits(s.fields[j], r[j]) {
      NoValuesFit(s.fields[j]);
    }
    forall j | 0 <= j < |r| && s.fields[j].rule.Required? && RequiredCount(s, j) in Mark(s, i, seen) ensures r[j] != [] {
      if j < i {
        ProtoRoundTrip.RequiredGrows(s, j, i);
      } else if i < j {
        ProtoRoundTrip.RequiredGrows(s, i, j);
      }
    }
  }

  lemma NoValuesFit(f: Field)
    ensures FieldFits(f, [])
  {
  }

  lemma CompleteMeansAll(n: nat, seen: set<nat>)
    requires CheckRequired(n, seen) == Complete
    ensures forall k: nat :: k < n ==> k in seen
  {
    forall k: nat | k < n ensures k in seen {
      assert n >= 32 && k < 32 ==> WholeWord(seen, 0);
    }
  }

  lemma FinishFits(s: Schema, m: seq<seq<Datum>>, seen: set<nat>)
    requires PartFits(s, m) && SeenIsThere(s, m, seen)
    ensures Finish(s, m, seen).Done? ==> MessageFits(s, m) && Finish(s, m, seen).value == m
  {
    assert |m| == |s.fields|;
    hide PartFits, CheckRequired;
    if Finish(s, m, seen).Done? {
      CompleteMeansAll(RequiredCount(s, |s.fields|), seen);
      forall i | 0 <= i < |m| && s.fields[i].rule.Required? ensures m[i] != [] {
        ProtoRoundTrip.RequiredGrows(s, i, |s.fields|);
      }
    }
  }

  lemma {:induction false} LoopFits(s: Schema, m: seq<seq<Datum>>, b: Bytes, seen: set<nat>)
    requires PartFits(s, m) && |m| == |s.fields| && SeenIsThere(s, m, seen)
    ensures DecLoop(s, m, b, seen).Done? ==> MessageFits(s, DecLoop(s, m, b, seen).value)
    decreases s, |b|
  {
    hide PartFits, MessageFits, SeenIsThere, Finish, DecField, Store, Mark, Skip, DecTag;
    FinishFits(s, m, seen);
    if b != [] && DecTag(b).Tag? {
      var tag := DecTag(b);
      var i := FindField(s, tag.tag, 0);
      if i == |s.fields| {
        if !(s.fields == [] && tag.tag == 0) && Skip(tag.wireType, tag.rest).Some? {
          LoopFits(s, m, Skip(tag.wireType, tag.rest).value, seen);
        }
      } else {
        PartField(s, m, i);
        DecodedFieldFits(s.fields[i], m[i], tag.wireType, tag.rest);
        var d := DecField(s.fields[i], m[i], tag.wireType, tag.rest);
        if d.Done? {
          StoreFits(s, m, i, d.value, seen);
          LoopFits(s, Store(s, m, i, d.value), d.rest, Mark(s, i, seen));
        }
      }
    }
  }

  lemma PartField(s: Schema, m: seq<seq<Datum>>, i: nat)
    requires PartFits(s, m) && i < |m|
    ensures |m| == |s.fields| && FieldFits(s.fields[i], m[i])
  {
  }

  /** For any bytes and any schema. */
  lemma DecodedMessageFits(s: Schema, b: Bytes)
    ensures DecMessage(s, b).Done? ==> MessageFits(s, DecMessage(s, b).value)
  {
    hide DecLoop, PartFits, MessageFits, SeenIsThere;
    EmptyFits(s);
    LoopFits(s, Default(s), b, {});
  }
}
