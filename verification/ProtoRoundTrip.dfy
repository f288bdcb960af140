/** Decoding what was encoded gives the message back, exactly when the check of required fields is
    defined for every message in it; and between two versions of a schema, what they have in common. */
module ProtoRoundTrip {
  import opened Keys
  import opened Coding
  import opened ProtoMessages
  import opened ProtoDecoding

  // ---- numbers ----

  lemma DecodesVarint(v: nat, rest: Bytes)
    requires v < TWO64
    ensures DecVarint(Varint(v) + rest) == Done(v, rest)
  {
    hide Varint, GetVarint;
    Varint64Back(v, rest);
  }

  lemma DecodesVarint32(v: nat, rest: Bytes)
    requires v < TWO32
    ensures DecVarint32(Varint(v) + rest) == Done(v, rest)
  {
    hide Varint, GetVarint;
    Varint32Back(v, rest);
  }

  lemma DecodesTag(tag: nat, wireType: nat, rest: Bytes)
    requires 1 <= tag < MAX_TAG && wireType < 8
    ensures DecTag(TagBytes(tag, wireType) + rest) == Tag(tag, wireType, rest)
  {
    DecodesVarint32(tag * 8 + wireType, rest);
  }

  lemma LowBits(n: int)
    requires InRange(n, 32)
    ensures n % TWO64 % TWO32 == n % TWO32 == if n < 0 then n + TWO32 else n
  {
    if n < 0 {
      assert n % TWO64 == n + TWO64 == (n + TWO32) + TWO32 * 0xffff_ffff;
    }
  }

  lemma DecodesInt(bits: nat, n: int)
    requires (bits == 8 || bits == 16 || bits == 32 || bits == 64) && InRange(n, bits)
    ensures DecInt(bits, n % TWO64) == Some(n)
  {
    if bits < 64 {
      LowBits(n);
    }
  }

  lemma DecodesBytes(bytes: Bytes, rest: Bytes)
    requires |bytes| < TWO32
    ensures DecVarint32(Varint(|bytes|) + bytes + rest) == Done(|bytes|, bytes + rest)
    ensures DecBlob(|bytes|, bytes + rest) == Done(Blob(bytes), rest)
  {
    hide Varint, DecVarint32, DecBlob;
    var length := Varint(|bytes|);
    assert length + bytes + rest == length + (bytes + rest);
    DecodesVarint32(|bytes|, bytes + rest);
    TakesBlob(bytes, rest);
  }

  lemma TakesBlob(bytes: Bytes, rest: Bytes)
    ensures DecBlob(|bytes|, bytes + rest) == Done(Blob(bytes), rest)
  {
    assert (bytes + rest)[..|bytes|] == bytes && (bytes + rest)[|bytes|..] == rest;
  }

  lemma DecodesScalar(t: FieldType, v: Datum, rest: Bytes)
    requires TypeOk(t) && ValueOk(t, v) && !t.Submessage?
    ensures DecScalar(t, EncValue(t, v) + rest) == Done(v, rest)
  {
    hide Varint, DecVarint, DecVarint32, DecodeFixed32, EncodeFixed32, EncodeFixed64, DecodeFixed64;
    match t {
      case Int(bits) =>
        DecodesVarint(v.n % TWO64, rest);
        DecodesInt(bits, v.n);
      case UInt(_) => DecodesVarint(v.n, rest);
      case SInt(_) => DecodesVarint(ZigZag(v.n), rest);
      case Fixed32 => Fixed32RoundTrip(v.n, rest);
      case Fixed64 =>
        Fixed64RoundTrip(v.n, rest);
        assert (EncodeFixed64(v.n) + rest)[8..] == rest;
      case BytesOf(_) | Text(_) | FixedBytes(_) => DecodesBytes(v.bytes, rest);
    }
  }

  lemma {:induction false} DecodesPacked(t: FieldType, max: nat, before: seq<Datum>, vs: seq<Datum>)
    requires TypeOk(t) && Packable(t) && (forall k :: 0 <= k < |vs| ==> ValueOk(t, vs[k])) && |before| + |vs| <= max
    ensures DecPacked(t, max, before, EncValues(t, vs)) == Done(before + vs, [])
    decreases |vs|
  {
    hide EncValue, DecScalar;
    if vs == [] {
      assert before + vs == before;
    } else {
      var rest := EncValues(t, vs[1..]);
      DecodesScalar(t, vs[0], rest);
      PackedIsLonger(t, vs[0], rest);
      DecodesPacked(t, max, before + [vs[0]], vs[1..]);
      assert before + [vs[0]] + vs[1..] == before + vs;
    }
  }

  lemma PackedIsLonger(t: FieldType, v: Datum, rest: Bytes)
    requires Packable(t) && ValueOk(t, v)
    ensures EncValue(t, v) + rest != []
  {
  }

  // ---- values of unknown fields ----

  /** One value of a wire type: a varint, eight bytes, a length with as many bytes, four bytes. */
  ghost predicate IsWireValue(wireType: nat, value: Bytes) {
    || (wireType == 0 && value != [] && value[|value| - 1] < 128 && forall i :: 0 <= i < |value| - 1 ==> value[i] >= 128)
    || (wireType == 1 && |value| == 8)
    || (wireType == 2 && exists payload: Bytes :: |payload| < TWO32 && value == Varint(|payload|) + payload)
    || (wireType == 5 && |value| == 4)
  }

  lemma {:induction false} SkipsVarint(value: Bytes, rest: Bytes)
    requires value != [] && value[|value| - 1] < 128 && forall i :: 0 <= i < |value| - 1 ==> value[i] >= 128
    ensures SkipVarint(value + rest) == Some(rest)
  {
    if |value| == 1 {
      assert (value + rest)[1..] == rest;
    } else {
      SkipsVarint(value[1..], rest);
      assert (value + rest)[1..] == value[1..] + rest;
    }
  }

  lemma SkipsValue(wireType: nat, value: Bytes, rest: Bytes)
    requires IsWireValue(wireType, value)
    ensures Skip(wireType, value + rest) == Some(rest)
  {
    hide SkipVarint, DecVarint32, Varint;
    if wireType == 0 {
      SkipsVarint(value, rest);
    } else if wireType == 2 {
      var payload: Bytes :| |payload| < TWO32 && value == Varint(|payload|) + payload;
      DecodesVarint32(|payload|, payload + rest);
      assert value + rest == Varint(|payload|) + (payload + rest);
      assert (payload + rest)[|payload|..] == rest;
    } else {
      assert (value + rest)[|value|..] == rest;
    }
  }

  lemma {:induction false} VarintIsWireValue(v: nat)
    ensures IsWireValue(0, Varint(v))
  {
    if v >= 128 {
      VarintIsWireValue(v / 128);
    }
  }

  /** What the encoder writes for a value is a value of its wire type. */
  lemma EncodedIsWireValue(t: FieldType, v: Datum)
    requires ValueOk(t, v) && |EncValue(t, v)| < TWO32
    ensures IsWireValue(WireType(t), EncValue(t, v))
  {
    hide Varint, EncMessage, MessageOk, EncodeFixed32;
    match t {
      case Int(_) => VarintIsWireValue(v.n % TWO64);
      case UInt(_) => VarintIsWireValue(v.n);
      case SInt(_) => VarintIsWireValue(ZigZag(v.n));
      case _ =>
    }
  }

  /** A field the schema does not know is skipped, whatever value it has. */
  lemma SkipsUnknown(t: Schema, m: seq<seq<Datum>>, tag: nat, wireType: nat, value: Bytes, rest: Bytes, seen: set<nat>)
    requires |m| == |t.fields| && 1 <= tag < MAX_TAG && forall j :: 0 <= j < |t.fields| ==> t.fields[j].tag != tag
    requires IsWireValue(wireType, value)
    ensures DecLoop(t, m, TagBytes(tag, wireType) + value + rest, seen) == DecLoop(t, m, rest, seen)
  {
    hide TagBytes, DecTag, Skip, IsWireValue, Finish, DecField, Store, Mark;
    var b := TagBytes(tag, wireType) + value + rest;
    assert b == TagBytes(tag, wireType) + (value + rest);
    assert wireType < 8 by {
      WireTypeIsSmall(wireType, value);
    }
    DecodesTag(tag, wireType, value + rest);
    NotEmpty(tag, wireType);
    SkipsValue(wireType, value, rest);
    assert FindField(t, tag, 0) == |t.fields|;
  }

  lemma WireTypeIsSmall(wireType: nat, value: Bytes)
    requires IsWireValue(wireType, value)
    ensures wireType < 8
  {
  }

  // ---- where the check of required fields is defined ----

  predicate CountDefined(n: nat) {
    n == 0 || (n < 64 && n % 32 != 0)
  }

  /** In this message and in every submessage it holds, the number of required fields is one the
      check is defined for. */
  predicate ChecksDefined(s: Schema, m: seq<seq<Datum>>)
    requires MessageOk(s, m)
    decreases s, 1
  {
    && CountDefined(RequiredCount(s, |s.fields|))
    && forall i, j :: 0 <= i < |m| && 0 <= j < |m[i]| ==> ValueChecksDefined(s.fields[i].ltype, m[i][j])
  }

  predicate ValueChecksDefined(t: FieldType, v: Datum)
    requires ValueOk(t, v)
    decreases t, 0
  {
    t.Submessage? ==> ChecksDefined(t.schema, v.fields)
  }

  /** The flags of the first `c` required fields, as far as there are flags. */
  function SeenUpTo(c: nat): (r: set<nat>)
    ensures forall k: nat :: k in r <==> k < c && k < MAX_REQUIRED
  {
    if c == 0 then {} else SeenUpTo(c - 1) + if c - 1 < MAX_REQUIRED then {c - 1} else {}
  }

  /** With every required field seen, the check passes where it is defined. */
  lemma CheckComplete(c: nat)
    ensures CheckRequired(c, SeenUpTo(c)) == if CountDefined(c) then Complete else NotDefined
  {
  }

  // ---- two versions of a schema ----

  /** What a message written by schema `b` is to a reader with schema `a`: fields the two have in common
      agree; either may have others, but the reader requires none that the writer does not have. */
  predicate CompatibleTypes(a: FieldType, b: FieldType)
    decreases a
  {
    if a.Submessage? && b.Submessage? then Compatible(a.schema, b.schema) else a == b
  }

  predicate Compatible(t: Schema, s: Schema)
    decreases t
  {
    forall j :: 0 <= j < |t.fields| ==>
      var i := FindField(s, t.fields[j].tag, 0);
      if i < |s.fields| then t.fields[j].rule == s.fields[i].rule && CompatibleTypes(t.fields[j].ltype, s.fields[i].ltype)
      else !t.fields[j].rule.Required?
  }

  /** The fields of `t` in a message of `s`, at any depth. */
  function View(t: Schema, s: Schema, m: seq<seq<Datum>>): (r: seq<seq<Datum>>)
    requires |m| == |s.fields|
    ensures |r| == |t.fields|
    decreases t
  {
    seq(|t.fields|, j requires 0 <= j < |t.fields| =>
      var i := FindField(s, t.fields[j].tag, 0);
      if i < |s.fields| then ViewValues(t.fields[j].ltype, s.fields[i].ltype, m[i]) else [])
  }

  function ViewValues(a: FieldType, b: FieldType, vs: seq<Datum>): (r: seq<Datum>)
    ensures |r| == |vs|
    decreases a, 1
  {
    seq(|vs|, k requires 0 <= k < |vs| => ViewValue(a, b, vs[k]))
  }

  function ViewValue(a: FieldType, b: FieldType, v: Datum): Datum
    decreases a, 0
  {
    if a.Submessage? && b.Submessage? && v.Message? && |v.fields| == |b.schema.fields| then Message(View(a.schema, b.schema, v.fields)) else v
  }

  /** The check is defined wherever the reader makes it. */
  predicate ValueDefined(a: FieldType, b: FieldType, v: Datum)
    requires ValueOk(b, v)
    decreases a, 0
  {
    a.Submessage? && b.Submessage? ==> Defined(a.schema, b.schema, v.fields)
  }

  predicate Defined(t: Schema, s: Schema, m: seq<seq<Datum>>)
    requires MessageOk(s, m)
    decreases t, 2
  {
    CountDefined(RequiredCount(t, |t.fields|)) && DefinedFrom(t, s, m, 0, 0)
  }

  /** For the values from place `k` of field `n` on. */
  predicate DefinedFrom(t: Schema, s: Schema, m: seq<seq<Datum>>, n: nat, k: nat)
    requires MessageOk(s, m)
    decreases t, 1
  {
    forall i, j :: n <= i < |m| && (if i == n then k else 0) <= j < |m[i]| ==> DefinedAt(t, s, m, i, j)
  }

  predicate DefinedAt(t: Schema, s: Schema, m: seq<seq<Datum>>, i: nat, j: nat)
    requires MessageOk(s, m) && i < |m| && j < |m[i]|
    decreases t, 0
  {
    var p := FindField(t, s.fields[i].tag, 0);
    p < |t.fields| ==> ValueDefined(t.fields[p].ltype, s.fields[i].ltype, m[i][j])
  }

  // ---- the loop ----

  /** The message when the fields before `n` and the first `k` values of field `n` have been read. */
  function Partial(m: seq<seq<Datum>>, n: nat, k: nat): (r: seq<seq<Datum>>)
    requires n < |m| ==> k <= |m[n]|
    ensures |r| == |m|
  {
    seq(|m|, i requires 0 <= i < |m| => if i < n then m[i] else if i == n then m[n][..k] else [])
  }

  predicate Arrived(s: Schema, tag: nat, n: nat, k: nat) {
    var i := FindField(s, tag, 0);
    i < n || (i == n && k > 0)
  }

  /** The flags that are set then. */
  ghost function SeenAt(t: Schema, s: Schema, n: nat, k: nat): set<nat> {
    set j | 0 <= j < |t.fields| && t.fields[j].rule.Required? && RequiredCount(t, j) < MAX_REQUIRED && Arrived(s, t.fields[j].tag, n, k)
      :: RequiredCount(t, j)
  }

  function Expected(t: Schema, s: Schema, m: seq<seq<Datum>>, n: nat, k: nat): Result<seq<seq<Datum>>>
    requires MessageOk(s, m)
  {
    if CountDefined(RequiredCount(t, |t.fields|)) && DefinedFrom(t, s, m, n, k) then Done(View(t, s, m), []) else Undefined
  }

  lemma FindsField(s: Schema, n: nat)
    requires SchemaOk(s) && n < |s.fields|
    ensures FindField(s, s.fields[n].tag, 0) == n
  {
  }

  /** Field `n` of the writer and field `p` of the reader are the same. */
  lemma FindsBack(t: Schema, s: Schema, n: nat, p: nat)
    requires SchemaOk(t) && SchemaOk(s) && Compatible(t, s) && n < |s.fields| && p == FindField(t, s.fields[n].tag, 0) < |t.fields|
    ensures FindField(s, t.fields[p].tag, 0) == n
    ensures forall j :: 0 <= j < |t.fields| && FindField(s, t.fields[j].tag, 0) == n ==> j == p
    ensures t.fields[p].rule == s.fields[n].rule && CompatibleTypes(t.fields[p].ltype, s.fields[n].ltype)
  {
    FindsField(s, n);
    forall j | 0 <= j < |t.fields| && FindField(s, t.fields[j].tag, 0) == n ensures j == p {
      assert t.fields[j].tag == s.fields[n].tag == t.fields[p].tag;
    }
  }

  /** Nothing of the reader comes from a field that it does not know. */
  lemma NeverFound(t: Schema, s: Schema, n: nat)
    requires n < |s.fields| && FindField(t, s.fields[n].tag, 0) == |t.fields|
    ensures forall j :: 0 <= j < |t.fields| ==> FindField(s, t.fields[j].tag, 0) != n && t.fields[j].tag != s.fields[n].tag
  {
  }

  lemma SameShape(a: FieldType, b: FieldType)
    requires CompatibleTypes(a, b)
    ensures WireType(a) == WireType(b) && Packable(a) == Packable(b) && a.Submessage? == b.Submessage?
    ensures !a.Submessage? ==> a == b
  {
  }

  lemma ViewsNext(a: FieldType, b: FieldType, vs: seq<Datum>, k: nat)
    requires k < |vs|
    ensures ViewValues(a, b, vs[..k]) + [ViewValue(a, b, vs[k])] == ViewValues(a, b, vs[..k + 1])
  {
  }

  lemma StoresNext(t: Schema, s: Schema, m: seq<seq<Datum>>, n: nat, k: nat, p: nat)
    requires SchemaOk(t) && SchemaOk(s) && MessageOk(s, m) && Compatible(t, s) && n < |m| && k < |m[n]|
    requires p == FindField(t, s.fields[n].tag, 0) < |t.fields|
    ensures Store(t, View(t, s, Partial(m, n, k)), p, ViewValues(t.fields[p].ltype, s.fields[n].ltype, m[n][..k + 1])) == View(t, s, Partial(m, n, k + 1))
  {
    hide ViewValues, SchemaOk;
    FindsBack(t, s, n, p);
    var before, after := View(t, s, Partial(m, n, k)), View(t, s, Partial(m, n, k + 1));
    var stored := Store(t, before, p, ViewValues(t.fields[p].ltype, s.fields[n].ltype, m[n][..k + 1]));
    forall j | 0 <= j < |t.fields| ensures stored[j] == after[j] {
      var i := FindField(s, t.fields[j].tag, 0);
      if j != p && i < |s.fields| && SameOneof(t.fields[p], t.fields[j]) {
        assert SameOneof(s.fields[n], s.fields[i]);
        OthersAreEmpty(s, m, n, i);
        NoValues(t.fields[j].ltype, s.fields[i].ltype);
      }
    }
  }

  lemma OthersAreEmpty(s: Schema, m: seq<seq<Datum>>, n: nat, i: nat)
    requires MessageOk(s, m) && n < |m| && i < |m| && i != n && m[n] != [] && SameOneof(s.fields[n], s.fields[i])
    ensures m[i] == []
  {
    assert SameOneof(s.fields[i], s.fields[n]);
  }

  lemma NoValues(a: FieldType, b: FieldType)
    ensures ViewValues(a, b, []) == []
  {
  }

  lemma MarksNext(t: Schema, s: Schema, n: nat, k: nat, p: nat)
    requires SchemaOk(t) && SchemaOk(s) && Compatible(t, s) && n < |s.fields| && p == FindField(t, s.fields[n].tag, 0) < |t.fields|
    ensures Mark(t, p, SeenAt(t, s, n, k)) == SeenAt(t, s, n, k + 1)
  {
    hide SchemaOk, Compatible, RequiredCount;
    FindsBack(t, s, n, p);
  }

  /** A field the reader does not know changes nothing. */
  lemma UnknownNext(t: Schema, s: Schema, m: seq<seq<Datum>>, n: nat, k: nat, k': nat)
    requires MessageOk(s, m) && n < |m| && k <= k' <= |m[n]| && FindField(t, s.fields[n].tag, 0) == |t.fields|
    ensures View(t, s, Partial(m, n, k)) == View(t, s, Partial(m, n, k'))
    ensures SeenAt(t, s, n, k) == SeenAt(t, s, n, k')
    ensures Expected(t, s, m, n, k) == Expected(t, s, m, n, k')
  {
    NeverFound(t, s, n);
    UnknownDefined(t, s, m, n, k, k');
    hide RequiredCount, ViewValues, MessageOk, DefinedFrom;
    assert View(t, s, Partial(m, n, k)) == View(t, s, Partial(m, n, k'));
  }

  lemma UnknownDefined(t: Schema, s: Schema, m: seq<seq<Datum>>, n: nat, k: nat, k': nat)
    requires MessageOk(s, m) && n < |m| && k <= k' <= |m[n]| && FindField(t, s.fields[n].tag, 0) == |t.fields|
    ensures DefinedFrom(t, s, m, n, k) <==> DefinedFrom(t, s, m, n, k')
  {
    hide MessageOk;
    if DefinedFrom(t, s, m, n, k') {
      forall i, j | n <= i < |m| && (if i == n then k else 0) <= j < |m[i]| ensures DefinedAt(t, s, m, i, j) {
        assert i != n ==> (if i == n then k' else 0) <= j;
      }
    }
  }

  /** The end of a field is the beginning of the next. */
  lemma NextField(t: Schema, s: Schema, m: seq<seq<Datum>>, n: nat)
    requires SchemaOk(t) && SchemaOk(s) && MessageOk(s, m) && Compatible(t, s) && n < |m|
    ensures View(t, s, Partial(m, n, |m[n]|)) == View(t, s, Partial(m, n + 1, 0))
    ensures SeenAt(t, s, n, |m[n]|) == SeenAt(t, s, n + 1, 0)
    ensures Expected(t, s, m, n, |m[n]|) == Expected(t, s, m, n + 1, 0)
  {
    DefinedEnds(t, s, m, n);
    SeenEnds(t, s, m, n);
    hide DefinedFrom, RequiredCount, MessageOk, SeenAt, SchemaOk, Compatible, View;
    PartialNext(m, n);
  }

  lemma DefinedEnds(t: Schema, s: Schema, m: seq<seq<Datum>>, n: nat)
    requires MessageOk(s, m) && n < |m|
    ensures DefinedFrom(t, s, m, n, |m[n]|) <==> DefinedFrom(t, s, m, n + 1, 0)
  {
    hide MessageOk, DefinedAt;
    if DefinedFrom(t, s, m, n + 1, 0) {
      forall i, j | n <= i < |m| && (if i == n then |m[n]| else 0) <= j < |m[i]| ensures DefinedAt(t, s, m, i, j) {
        assert i >= n + 1;
      }
    }
  }

  lemma PartialNext(m: seq<seq<Datum>>, n: nat)
    requires n < |m|
    ensures Partial(m, n, |m[n]|) == Partial(m, n + 1, 0)
  {
    var a, b := Partial(m, n, |m[n]|), Partial(m, n + 1, 0);
    forall i | 0 <= i < |m| ensures a[i] == b[i] {
      if i == n {
        assert m[n][..|m[n]|] == m[n];
      }
    }
  }

  lemma SeenEnds(t: Schema, s: Schema, m: seq<seq<Datum>>, n: nat)
    requires MessageOk(s, m) && Compatible(t, s) && n < |m|
    ensures SeenAt(t, s, n, |m[n]|) == SeenAt(t, s, n + 1, 0)
  {
    assert CountOk(s.fields[n].rule, |m[n]|);
    hide RequiredCount, MessageOk, CompatibleTypes;
  }

  lemma ExpectedNext(t: Schema, s: Schema, m: seq<seq<Datum>>, n: nat, k: nat, p: nat)
    requires MessageOk(s, m) && n < |m| && k < |m[n]| && p == FindField(t, s.fields[n].tag, 0) < |t.fields|
    ensures Expected(t, s, m, n, k) ==
      if ValueDefined(t.fields[p].ltype, s.fields[n].ltype, m[n][k]) then Expected(t, s, m, n, k + 1) else Undefined
  {
    hide View, RequiredCount;
    if DefinedAt(t, s, m, n, k) && DefinedFrom(t, s, m, n, k + 1) {
      forall i, j | n <= i < |m| && (if i == n then k else 0) <= j < |m[i]| ensures DefinedAt(t, s, m, i, j) {
        assert i != n || j == k || k + 1 <= j;
      }
    }
  }

  /** A value decodes to what the reader knows of it, unless it is a message the check is not defined
      for. */
  lemma {:induction false} DecodesValue(a: FieldType, b: FieldType, v: Datum, rest: Bytes)
    requires TypeOk(a) && TypeOk(b) && CompatibleTypes(a, b) && ValueOk(b, v) && |EncValue(b, v)| < TWO32
    ensures DecValue(a, if a.Submessage? then Default(a.schema) else [], EncValue(b, v) + rest) ==
      if ValueDefined(a, b, v) then Done(ViewValue(a, b, v), rest) else Undefined
    decreases a, 0
  {
    if a.Submessage? {
      hide DecLoop, EncMessage, EncValue, DecValue, ValueDefined, Varint, DecVarint32, Default, TypeOk, SchemaOk, ValueOk, MessageOk, Defined, View;
      SubmessageFacts(a, b, v);
      var e := EncMessage(b.schema, v.fields);
      DecodesAcross(a.schema, b.schema, v.fields);
      UnpacksSubmessage(a, Default(a.schema), e, rest);
    } else {
      hide EncValue, DecScalar;
      DecodesScalar(a, v, rest);
    }
  }

  lemma SubmessageFacts(a: FieldType, b: FieldType, v: Datum)
    requires a.Submessage? && TypeOk(a) && TypeOk(b) && CompatibleTypes(a, b) && ValueOk(b, v)
    ensures b.Submessage? && SchemaOk(a.schema) && SchemaOk(b.schema) && Compatible(a.schema, b.schema)
    ensures v.Message? && MessageOk(b.schema, v.fields) && |v.fields| == |b.schema.fields|
    ensures var e := EncMessage(b.schema, v.fields); EncValue(b, v) == Varint(|e|) + e
    ensures ValueDefined(a, b, v) == Defined(a.schema, b.schema, v.fields)
  {
    hide SchemaOk, EncMessage, Defined, Varint;
  }

  lemma UnpacksSubmessage(t: FieldType, start: seq<seq<Datum>>, e: Bytes, rest: Bytes)
    requires t.Submessage? && |start| == |t.schema.fields| && |e| < TWO32
    ensures
      var d := DecLoop(t.schema, start, e, {});
      DecValue(t, start, Varint(|e|) + e + rest) == if d.Done? then Done(Message(d.value), rest) else if d.Failed? then Failed else Undefined
  {
    hide DecLoop, Varint, DecVarint32;
    DecodesVarint32(|e|, e + rest);
    assert Varint(|e|) + e + rest == Varint(|e|) + (e + rest);
    assert (e + rest)[..|e|] == e && (e + rest)[|e|..] == rest;
  }

  /** What one tag and its value do to the loop of a reader that knows the field. */
  lemma StepsOverItem(t: Schema, s: Schema, m: seq<seq<Datum>>, n: nat, k: nat, p: nat, rest: Bytes, seen: set<nat>)
    requires SchemaOk(t) && SchemaOk(s) && MessageOk(s, m) && Compatible(t, s) && n < |m| && k < |m[n]|
    requires p == FindField(t, s.fields[n].tag, 0) < |t.fields|
    requires s.fields[n].rule.Repeated? ==> !Packable(s.fields[n].ltype)
    requires
      var a, b, v := t.fields[p].ltype, s.fields[n].ltype, m[n][k];
      DecValue(a, if a.Submessage? then Default(a.schema) else [], EncValue(b, v) + rest) ==
        if ValueDefined(a, b, v) then Done(ViewValue(a, b, v), rest) else Undefined
    ensures
      var f := s.fields[n];
      var bytes := TagBytes(f.tag, WireType(f.ltype)) + EncValue(f.ltype, m[n][k]) + rest;
      DecLoop(t, View(t, s, Partial(m, n, k)), bytes, seen) ==
        if ValueDefined(t.fields[p].ltype, f.ltype, m[n][k]) then DecLoop(t, View(t, s, Partial(m, n, k + 1)), rest, Mark(t, p, seen)) else Undefined
  {
    hide EncValue, DecValue, DecVarint32, TagBytes, DecTag, Mark, ValueDefined, Store, SchemaOk, MessageOk, Finish, Skip, Compatible, CompatibleTypes,
      View, ViewValues, ViewValue, DecField, WireType, DecLoop, FindField, Partial, Default;
    ItemFacts(s, m, n, k);
    var f, g := s.fields[n], t.fields[p];
    var before := View(t, s, Partial(m, n, k));
    var tail := EncValue(f.ltype, m[n][k]) + rest;
    var bytes := TagBytes(f.tag, WireType(f.ltype)) + EncValue(f.ltype, m[n][k]) + rest;
    assert bytes == TagBytes(f.tag, WireType(f.ltype)) + tail;
    TagsInRange(s, n);
    DecodesTag(f.tag, WireType(f.ltype), tail);
    NotEmpty(f.tag, WireType(f.ltype));
    FindsBack(t, s, n, p);
    ViewHolds(t, s, m, n, k, p);
    FieldTakes(g, f, m[n], k, tail, rest);
    StoresNext(t, s, m, n, k, p);
    LoopKnows(t, before, bytes, seen, f.tag, WireType(f.ltype), tail, p);
  }

  lemma ViewHolds(t: Schema, s: Schema, m: seq<seq<Datum>>, n: nat, k: nat, p: nat)
    requires MessageOk(s, m) && n < |m| && k < |m[n]| && p < |t.fields| && FindField(s, t.fields[p].tag, 0) == n
    ensures View(t, s, Partial(m, n, k))[p] == ViewValues(t.fields[p].ltype, s.fields[n].ltype, m[n][..k])
    ensures CountOk(s.fields[n].rule, |m[n]|)
  {
    hide ViewValues;
  }

  /** The loop after a tag it knows. */
  lemma LoopKnows(t: Schema, m: seq<seq<Datum>>, b: Bytes, seen: set<nat>, tag: nat, wireType: nat, rest: Bytes, p: nat)
    requires |m| == |t.fields| && b != [] && DecTag(b) == Tag(tag, wireType, rest) && p == FindField(t, tag, 0) < |t.fields|
    ensures
      var d := DecField(t.fields[p], m[p], wireType, rest);
      DecLoop(t, m, b, seen) ==
        if d.Done? then DecLoop(t, Store(t, m, p, d.value), d.rest, Mark(t, p, seen)) else if d.Failed? then Failed else Undefined
  {
    hide DecTag, DecField, Finish, Skip, Store, Mark;
  }

  /** One element is put behind those before it. */
  lemma FieldTakes(g: Field, f: Field, vs: seq<Datum>, k: nat, b: Bytes, rest: Bytes)
    requires g.rule == f.rule && CompatibleTypes(g.ltype, f.ltype) && CountOk(f.rule, |vs|) && k < |vs| && ValueOk(f.ltype, vs[k])
    requires f.rule.Repeated? ==> !Packable(f.ltype)
    requires DecValue(g.ltype, if g.ltype.Submessage? then Default(g.ltype.schema) else [], b) ==
      if ValueDefined(g.ltype, f.ltype, vs[k]) then Done(ViewValue(g.ltype, f.ltype, vs[k]), rest) else Undefined
    ensures DecField(g, ViewValues(g.ltype, f.ltype, vs[..k]), WireType(f.ltype), b) ==
      if ValueDefined(g.ltype, f.ltype, vs[k]) then Done(ViewValues(g.ltype, f.ltype, vs[..k + 1]), rest) else Undefined
  {
    hide DecValue, ViewValue, ViewValues, ValueDefined, CompatibleTypes, ValueOk, DecVarint32, DecPacked;
    SameShape(g.ltype, f.ltype);
    ViewsNext(g.ltype, f.ltype, vs, k);
    if !f.rule.Repeated? {
      assert k == 0 && vs[..0] == [];
      NoValues(g.ltype, f.ltype);
      assert [] + [ViewValue(g.ltype, f.ltype, vs[0])] == [ViewValue(g.ltype, f.ltype, vs[0])];
    }
  }

  lemma TagsInRange(s: Schema, n: nat)
    requires SchemaOk(s) && n < |s.fields|
    ensures 1 <= s.fields[n].tag < MAX_TAG && TypeOk(s.fields[n].ltype)
  {
  }

  lemma NotEmpty(tag: nat, wireType: nat)
    ensures TagBytes(tag, wireType) != []
  {
  }

  lemma {:induction false} DecodesItems(t: Schema, s: Schema, m: seq<seq<Datum>>, n: nat, k: nat)
    requires SchemaOk(t) && SchemaOk(s) && MessageOk(s, m) && Compatible(t, s) && n < |m| && k <= |m[n]|
    requires s.fields[n].rule.Repeated? ==> !Packable(s.fields[n].ltype)
    requires |EncItems(s.fields[n], m[n][k..]) + EncFrom(s, m, n + 1)| < TWO32
    ensures DecLoop(t, View(t, s, Partial(m, n, k)), EncItems(s.fields[n], m[n][k..]) + EncFrom(s, m, n + 1), SeenAt(t, s, n, k)) ==
      Expected(t, s, m, n, k)
    decreases t, |m| - n, 0, |m[n]| - k
  {
    hide DecLoop, MessageOk, SchemaOk, Compatible, CompatibleTypes, EncValue, EncItems, EncFrom, DecValue, ValueDefined, Expected, Mark, SeenAt, Partial,
      Default, TypeOk, ValueOk, TagBytes, WireType, Packable, View, ViewValue, FindField;
    ValuesFit(s, m, n);
    var f := s.fields[n];
    if k == |m[n]| {
      ItemsEnd(s, m, n);
      NextField(t, s, m, n);
      DecodesFrom(t, s, m, n + 1);
    } else {
      var rest := EncItems(f, m[n][k + 1..]) + EncFrom(s, m, n + 1);
      var p := FindField(t, f.tag, 0);
      ItemsUnfold(s, m, n, k);
      ItemFacts(s, m, n, k);
      DecodesItems(t, s, m, n, k + 1);
      if p < |t.fields| {
        FindsBack(t, s, n, p);
        TagsInRange(t, p);
        DecodesValue(t.fields[p].ltype, f.ltype, m[n][k], rest);
        KnownItem(t, s, m, n, k, p, rest);
      } else {
        UnknownItem(t, s, m, n, k, rest);
      }
    }
  }

  lemma KnownItem(t: Schema, s: Schema, m: seq<seq<Datum>>, n: nat, k: nat, p: nat, rest: Bytes)
    requires SchemaOk(t) && SchemaOk(s) && MessageOk(s, m) && Compatible(t, s) && n < |m| && k < |m[n]|
    requires p == FindField(t, s.fields[n].tag, 0) < |t.fields|
    requires s.fields[n].rule.Repeated? ==> !Packable(s.fields[n].ltype)
    requires
      var a, b, v := t.fields[p].ltype, s.fields[n].ltype, m[n][k];
      DecValue(a, if a.Submessage? then Default(a.schema) else [], EncValue(b, v) + rest) ==
        if ValueDefined(a, b, v) then Done(ViewValue(a, b, v), rest) else Undefined
    requires DecLoop(t, View(t, s, Partial(m, n, k + 1)), rest, SeenAt(t, s, n, k + 1)) == Expected(t, s, m, n, k + 1)
    ensures
      var f := s.fields[n];
      DecLoop(t, View(t, s, Partial(m, n, k)), TagBytes(f.tag, WireType(f.ltype)) + EncValue(f.ltype, m[n][k]) + rest, SeenAt(t, s, n, k)) ==
        Expected(t, s, m, n, k)
  {
    hide DecLoop, MessageOk, SchemaOk, Compatible, CompatibleTypes, EncValue, DecValue, ValueDefined, Expected, Mark, SeenAt, Partial,
      Default, TypeOk, ValueOk, TagBytes, WireType, Packable, View, ViewValue, FindField;
    ItemFacts(s, m, n, k);
    StepsOverItem(t, s, m, n, k, p, rest, SeenAt(t, s, n, k));
    MarksNext(t, s, n, k, p);
    ExpectedNext(t, s, m, n, k, p);
  }

  lemma UnknownItem(t: Schema, s: Schema, m: seq<seq<Datum>>, n: nat, k: nat, rest: Bytes)
    requires SchemaOk(t) && SchemaOk(s) && MessageOk(s, m) && Compatible(t, s) && n < |m| && k < |m[n]|
    requires FindField(t, s.fields[n].tag, 0) == |t.fields| && |EncValue(s.fields[n].ltype, m[n][k])| < TWO32
    requires DecLoop(t, View(t, s, Partial(m, n, k + 1)), rest, SeenAt(t, s, n, k + 1)) == Expected(t, s, m, n, k + 1)
    ensures
      var f := s.fields[n];
      DecLoop(t, View(t, s, Partial(m, n, k)), TagBytes(f.tag, WireType(f.ltype)) + EncValue(f.ltype, m[n][k]) + rest, SeenAt(t, s, n, k)) ==
        Expected(t, s, m, n, k)
  {
    hide DecLoop, MessageOk, SchemaOk, Compatible, CompatibleTypes, EncValue, Expected, SeenAt, Partial, ValueOk, TypeOk, TagBytes, WireType, View, FindField;
    ItemFacts(s, m, n, k);
    NeverFound(t, s, n);
    EncodedIsWireValue(s.fields[n].ltype, m[n][k]);
    TagsInRange(s, n);
    SkipsUnknown(t, View(t, s, Partial(m, n, k)), s.fields[n].tag, WireType(s.fields[n].ltype), EncValue(s.fields[n].ltype, m[n][k]), rest, SeenAt(t, s, n, k));
    UnknownNext(t, s, m, n, k, k + 1);
  }

  lemma SameLength(s: Schema, m: seq<seq<Datum>>)
    requires MessageOk(s, m)
    ensures |m| == |s.fields|
  {
  }

  lemma ValuesFit(s: Schema, m: seq<seq<Datum>>, n: nat)
    requires MessageOk(s, m) && n < |m|
    ensures |m| == |s.fields| && forall j :: 0 <= j < |m[n]| ==> ValueOk(s.fields[n].ltype, m[n][j])
  {
  }

  lemma ItemsEnd(s: Schema, m: seq<seq<Datum>>, n: nat)
    requires MessageOk(s, m) && n < |m|
    ensures EncItems(s.fields[n], m[n][|m[n]|..]) + EncFrom(s, m, n + 1) == EncFrom(s, m, n + 1)
  {
    hide EncFrom;
    assert m[n][|m[n]|..] == [];
    assert EncItems(s.fields[n], []) == [];
  }

  lemma ItemsUnfold(s: Schema, m: seq<seq<Datum>>, n: nat, k: nat)
    requires MessageOk(s, m) && n < |m| && k < |m[n]|
    ensures
      var f := s.fields[n];
      var rest := EncItems(f, m[n][k + 1..]) + EncFrom(s, m, n + 1);
      var all := EncItems(f, m[n][k..]) + EncFrom(s, m, n + 1);
      && all == TagBytes(f.tag, WireType(f.ltype)) + EncValue(f.ltype, m[n][k]) + rest
      && |rest| <= |all| && |EncValue(f.ltype, m[n][k])| <= |all|
  {
    hide EncValue, TagBytes, EncFrom;
    assert m[n][k..][0] == m[n][k] && m[n][k..][1..] == m[n][k + 1..];
  }

  lemma ItemFacts(s: Schema, m: seq<seq<Datum>>, n: nat, k: nat)
    requires SchemaOk(s) && MessageOk(s, m) && n < |m| && k < |m[n]|
    ensures |m| == |s.fields| && TypeOk(s.fields[n].ltype) && ValueOk(s.fields[n].ltype, m[n][k])
  {
  }

  /** What a packed array does to the loop of a reader that knows the field. */
  lemma StepsOverPacked(t: Schema, s: Schema, m: seq<seq<Datum>>, n: nat, p: nat, rest: Bytes, seen: set<nat>)
    requires SchemaOk(t) && SchemaOk(s) && MessageOk(s, m) && Compatible(t, s) && n < |m| && m[n] != []
    requires p == FindField(t, s.fields[n].tag, 0) < |t.fields|
    requires s.fields[n].rule.Repeated? && Packable(s.fields[n].ltype) && |EncField(s.fields[n], m[n])| < TWO32
    ensures DecLoop(t, View(t, s, Partial(m, n, 0)), EncField(s.fields[n], m[n]) + rest, seen) == DecLoop(t, View(t, s, Partial(m, n, |m[n]|)), rest, seen)
  {
    var f, g := s.fields[n], t.fields[p];
    assert CountOk(f.rule, |m[n]|) && forall k :: 0 <= k < |m[n]| ==> ValueOk(f.ltype, m[n][k]);
    hide EncValue, EncValues, DecPacked, DecScalar, DecVarint32, TagBytes, DecTag, Store, SchemaOk, MessageOk, Compatible, Varint, Finish, Skip,
      View, ViewValues, DecField, Mark, ValueOk, TypeOk, Partial;
    var payload := EncValues(f.ltype, m[n]);
    var tail := Varint(|payload|) + (payload + rest);
    var before := View(t, s, Partial(m, n, 0));
    var bytes := EncField(f, m[n]) + rest;
    assert bytes == TagBytes(f.tag, WT_STRING) + tail;
    TagsInRange(s, n);
    DecodesTag(f.tag, WT_STRING, tail);
    NotEmpty(f.tag, WT_STRING);
    FindsBack(t, s, n, p);
    SameShape(g.ltype, f.ltype);
    ViewHolds(t, s, m, n, 0, p);
    PackedTaken(g, m[n], tail, rest);
    assert m[n][..0] == [];
    NoValues(g.ltype, f.ltype);
    LoopKnows(t, before, bytes, seen, f.tag, WT_STRING, tail, p);
    StoresLast(t, s, m, n, p);
    assert Mark(t, p, seen) == seen by {
      OnlyRequiredMarks(t, p, seen);
    }
  }

  lemma OnlyRequiredMarks(t: Schema, p: nat, seen: set<nat>)
    requires p < |t.fields| && t.fields[p].rule.Repeated?
    ensures Mark(t, p, seen) == seen
  {
  }

  lemma PackedTaken(g: Field, vs: seq<Datum>, b: Bytes, rest: Bytes)
    requires g.rule.Repeated? && Packable(g.ltype) && TypeOk(g.ltype) && |vs| <= g.rule.max
    requires (forall k :: 0 <= k < |vs| ==> ValueOk(g.ltype, vs[k])) && |EncValues(g.ltype, vs)| < TWO32
    requires b == Varint(|EncValues(g.ltype, vs)|) + (EncValues(g.ltype, vs) + rest)
    ensures DecField(g, [], WT_STRING, b) == Done(vs, rest)
  {
    hide EncValues, DecPacked, DecVarint32, Varint, ValueOk;
    var payload := EncValues(g.ltype, vs);
    DecodesVarint32(|payload|, payload + rest);
    assert (payload + rest)[..|payload|] == payload && (payload + rest)[|payload|..] == rest;
    DecodesPacked(g.ltype, g.rule.max, [], vs);
    assert [] + vs == vs;
  }

  lemma StoresLast(t: Schema, s: Schema, m: seq<seq<Datum>>, n: nat, p: nat)
    requires SchemaOk(t) && SchemaOk(s) && MessageOk(s, m) && Compatible(t, s) && n < |m| && s.fields[n].rule.Repeated? && Packable(s.fields[n].ltype)
    requires p == FindField(t, s.fields[n].tag, 0) < |t.fields|
    ensures Store(t, View(t, s, Partial(m, n, 0)), p, m[n]) == View(t, s, Partial(m, n, |m[n]|))
  {
    assert |m| == |s.fields|;
    hide SchemaOk, MessageOk;
    FindsBack(t, s, n, p);
    assert m[n][..|m[n]|] == m[n];
    SameShape(t.fields[p].ltype, s.fields[n].ltype);
    ViewsNumbers(t.fields[p].ltype, m[n]);
  }

  lemma ViewsNumbers(a: FieldType, vs: seq<Datum>)
    requires !a.Submessage?
    ensures ViewValues(a, a, vs) == vs
  {
  }

  lemma {:induction false} DecodesFrom(t: Schema, s: Schema, m: seq<seq<Datum>>, n: nat)
    requires SchemaOk(t) && SchemaOk(s) && MessageOk(s, m) && Compatible(t, s) && n <= |m| && |EncFrom(s, m, n)| < TWO32
    ensures DecLoop(t, View(t, s, Partial(m, n, 0)), EncFrom(s, m, n), SeenAt(t, s, n, 0)) == Expected(t, s, m, n, 0)
    decreases t, |m| - n, 1
  {
    hide DecLoop, MessageOk, SchemaOk, Compatible, EncValue, EncValues, EncItems, ValueDefined, DefinedFrom, SeenAt, Partial, View, Expected, Default;
    SameLength(s, m);
    if n == |m| {
      DecodesEnd(t, s, m);
    } else {
      var f := s.fields[n];
      if f.rule.Repeated? && Packable(f.ltype) {
        DecodesFrom(t, s, m, n + 1);
        PackedStep(t, s, m, n);
      } else {
        assert m[n][0..] == m[n];
        DecodesItems(t, s, m, n, 0);
      }
    }
  }

  lemma PackedStep(t: Schema, s: Schema, m: seq<seq<Datum>>, n: nat)
    requires SchemaOk(t) && SchemaOk(s) && MessageOk(s, m) && Compatible(t, s) && n < |m| && |EncFrom(s, m, n)| < TWO32
    requires s.fields[n].rule.Repeated? && Packable(s.fields[n].ltype)
    ensures |EncFrom(s, m, n + 1)| < TWO32
    ensures DecLoop(t, View(t, s, Partial(m, n, 0)), EncFrom(s, m, n), SeenAt(t, s, n, 0)) ==
      DecLoop(t, View(t, s, Partial(m, n + 1, 0)), EncFrom(s, m, n + 1), SeenAt(t, s, n + 1, 0))
    ensures Expected(t, s, m, n, 0) == Expected(t, s, m, n + 1, 0)
  {
    hide DecLoop, MessageOk, SchemaOk, Compatible, EncValues, EncItems, SeenAt, Partial, View, Expected, ValueOk, TagBytes, Varint;
    ValuesFit(s, m, n);
    var f, rest, p := s.fields[n], EncFrom(s, m, n + 1), FindField(t, s.fields[n].tag, 0);
    NextField(t, s, m, n);
    RepeatedSeen(t, s, n, |m[n]|);
    PackedDefined(t, s, m, n);
    if m[n] == [] {
      EmptyArray(s, m, n);
    } else if p < |t.fields| {
      StepsOverPacked(t, s, m, n, p, rest, SeenAt(t, s, n, 0));
    } else {
      TagsInRange(s, n);
      NeverFound(t, s, n);
      PackedBytes(f, m[n]);
      var payload := EncValues(f.ltype, m[n]);
      assert EncFrom(s, m, n) == TagBytes(f.tag, WT_STRING) + (Varint(|payload|) + payload) + rest;
      SkipsUnknown(t, View(t, s, Partial(m, n, 0)), f.tag, WT_STRING, Varint(|payload|) + payload, rest, SeenAt(t, s, n, 0));
      UnknownNext(t, s, m, n, 0, |m[n]|);
    }
  }

  lemma PackedBytes(f: Field, vs: seq<Datum>)
    requires (forall k :: 0 <= k < |vs| ==> ValueOk(f.ltype, vs[k])) && f.rule.Repeated? && Packable(f.ltype) && vs != []
    ensures
      var payload := EncValues(f.ltype, vs);
      && EncField(f, vs) == TagBytes(f.tag, WT_STRING) + (Varint(|payload|) + payload)
      && (|payload| < TWO32 ==> IsWireValue(WT_STRING, Varint(|payload|) + payload))
  {
    hide EncValues, TagBytes, Varint, ValueOk;
  }

  lemma RepeatedSeen(t: Schema, s: Schema, n: nat, k: nat)
    requires Compatible(t, s) && n < |s.fields| && s.fields[n].rule.Repeated?
    ensures SeenAt(t, s, n, 0) == SeenAt(t, s, n, k)
  {
    hide RequiredCount, CompatibleTypes;
  }

  lemma EmptyArray(s: Schema, m: seq<seq<Datum>>, n: nat)
    requires MessageOk(s, m) && n < |m| && m[n] == []
    ensures EncFrom(s, m, n) == EncFrom(s, m, n + 1)
  {
    assert EncField(s.fields[n], m[n]) == [];
  }

  /** Packed values hold no messages. */
  lemma PackedDefined(t: Schema, s: Schema, m: seq<seq<Datum>>, n: nat)
    requires MessageOk(s, m) && n < |m| && Packable(s.fields[n].ltype)
    ensures Expected(t, s, m, n, 0) == Expected(t, s, m, n, |m[n]|)
  {
    hide View, RequiredCount, MessageOk, DefinedFrom;
    NumbersDefined(t, s, m, n);
  }

  lemma NumbersDefined(t: Schema, s: Schema, m: seq<seq<Datum>>, n: nat)
    requires MessageOk(s, m) && n < |m| && Packable(s.fields[n].ltype)
    ensures DefinedFrom(t, s, m, n, 0) <==> DefinedFrom(t, s, m, n, |m[n]|)
  {
    if DefinedFrom(t, s, m, n, |m[n]|) {
      forall i, j | n <= i < |m| && (if i == n then 0 else 0) <= j < |m[i]| ensures DefinedAt(t, s, m, i, j) {
        var from := if i == n then |m[n]| else 0;
        assert i == n || from <= j;
      }
    }
  }

  // ---- the end of the message ----

  lemma {:induction false} RequiredGrows(t: Schema, i: nat, j: nat)
    requires i <= j <= |t.fields|
    ensures RequiredCount(t, i) <= RequiredCount(t, j)
    ensures i < j && t.fields[i].rule.Required? ==> RequiredCount(t, i) < RequiredCount(t, j)
    decreases j
  {
    if i < j {
      RequiredGrows(t, i, j - 1);
    }
  }

  lemma {:induction false} NthRequired(t: Schema, c: nat, n: nat) returns (j: nat)
    requires n <= |t.fields| && c < RequiredCount(t, n)
    ensures j < n && t.fields[j].rule.Required? && RequiredCount(t, j) == c
    decreases n
  {
    if c < RequiredCount(t, n - 1) {
      j := NthRequired(t, c, n - 1);
    } else {
      j := n - 1;
    }
  }

  /** In the end every required field has been seen. */
  lemma SeenAll(t: Schema, s: Schema)
    requires Compatible(t, s)
    ensures SeenAt(t, s, |s.fields|, 0) == SeenUpTo(RequiredCount(t, |t.fields|))
  {
    hide RequiredCount, CompatibleTypes;
    var all := RequiredCount(t, |t.fields|);
    forall c | c in SeenAt(t, s, |s.fields|, 0) ensures c in SeenUpTo(all) {
      var j :| 0 <= j < |t.fields| && t.fields[j].rule.Required? && RequiredCount(t, j) < MAX_REQUIRED && c == RequiredCount(t, j);
      RequiredGrows(t, j, |t.fields|);
    }
    forall c | c in SeenUpTo(all) ensures c in SeenAt(t, s, |s.fields|, 0) {
      var j := NthRequired(t, c, |t.fields|);
      assert Arrived(s, t.fields[j].tag, |s.fields|, 0);
    }
  }

  lemma DecodesEnd(t: Schema, s: Schema, m: seq<seq<Datum>>)
    requires MessageOk(s, m) && Compatible(t, s)
    ensures DecLoop(t, View(t, s, Partial(m, |m|, 0)), EncFrom(s, m, |m|), SeenAt(t, s, |m|, 0)) == Expected(t, s, m, |m|, 0)
  {
    hide View, SeenAt, RequiredCount, CheckRequired, SeenUpTo;
    SeenAll(t, s);
    CheckComplete(RequiredCount(t, |t.fields|));
    assert Partial(m, |m|, 0) == m;
  }

  // ---- the results ----

  /** Between two versions of a schema: the reader gets exactly what it knows of the message, at any
      depth of nesting, fields it does not know are skipped and fields the writer did not know are
      empty; if and only if the check of required fields is defined wherever the reader makes it. */
  lemma {:induction false} DecodesAcross(t: Schema, s: Schema, m: seq<seq<Datum>>)
    requires SchemaOk(t) && SchemaOk(s) && MessageOk(s, m) && Compatible(t, s) && |EncMessage(s, m)| < TWO32
    ensures DecMessage(t, EncMessage(s, m)) == if Defined(t, s, m) then Done(View(t, s, m), []) else Undefined
    decreases t, |m| + 1
  {
    hide DecLoop, MessageOk, SchemaOk, Compatible, EncFrom, DefinedFrom, View, SeenAt, RequiredCount;
    SameLength(s, m);
    DecodesFrom(t, s, m, 0);
    StartsEmpty(t, s, m);
  }

  lemma StartsEmpty(t: Schema, s: Schema, m: seq<seq<Datum>>)
    requires |m| == |s.fields|
    ensures View(t, s, Partial(m, 0, 0)) == Default(t) && SeenAt(t, s, 0, 0) == {}
  {
    forall i | 0 <= i < |m| ensures Partial(m, 0, 0)[i] == [] {
      assert i == 0 ==> m[0][..0] == [];
    }
    assert View(t, s, Partial(m, 0, 0)) == Default(t);
  }

  lemma {:induction false} SameSchema(s: Schema, m: seq<seq<Datum>>)
    requires SchemaOk(s) && MessageOk(s, m)
    ensures View(s, s, m) == m && (Defined(s, s, m) <==> ChecksDefined(s, m))
    decreases s
  {
    hide SchemaOk, ValueOk, View, ValueViewed, ChecksDefined, Defined;
    forall i, j | 0 <= i < |m| && 0 <= j < |m[i]| ensures ValueViewed(s, m, i, j) {
      if s.fields[i].ltype.Submessage? {
        SameSubmessage(s, m, i, j);
        SameSchema(s.fields[i].ltype.schema, m[i][j].fields);
      }
      SameValue(s, m, i, j);
    }
    ViewsItself(s, m);
    DefinedItself(s, m);
  }

  ghost predicate ValueViewed(s: Schema, m: seq<seq<Datum>>, i: nat, j: nat)
    requires MessageOk(s, m) && i < |m| && j < |m[i]|
  {
    var t := s.fields[i].ltype;
    ViewValue(t, t, m[i][j]) == m[i][j] && (DefinedAt(s, s, m, i, j) <==> ValueChecksDefined(t, m[i][j]))
  }

  lemma SameValue(s: Schema, m: seq<seq<Datum>>, i: nat, j: nat)
    requires SchemaOk(s) && MessageOk(s, m) && i < |m| && j < |m[i]|
    requires
      var t := s.fields[i].ltype;
      t.Submessage? ==>
        && m[i][j].Message? && MessageOk(t.schema, m[i][j].fields)
        && View(t.schema, t.schema, m[i][j].fields) == m[i][j].fields
        && (Defined(t.schema, t.schema, m[i][j].fields) <==> ChecksDefined(t.schema, m[i][j].fields))
    ensures ValueViewed(s, m, i, j)
  {
    var t, v := s.fields[i].ltype, m[i][j];
    assert ValueOk(t, v);
    hide SchemaOk, Defined, ChecksDefined, View;
    FindsField(s, i);
    if t.Submessage? {
      assert |v.fields| == |t.schema.fields|;
    }
    assert ViewValue(t, t, v) == v;
    assert DefinedAt(s, s, m, i, j) <==> ValueDefined(t, t, v);
  }

  lemma ViewsItself(s: Schema, m: seq<seq<Datum>>)
    requires SchemaOk(s) && MessageOk(s, m) && forall i, j :: 0 <= i < |m| && 0 <= j < |m[i]| ==> ValueViewed(s, m, i, j)
    ensures View(s, s, m) == m
  {
    hide SchemaOk, DefinedAt, ValueChecksDefined, ViewValue, ValueOk;
    forall i | 0 <= i < |m| ensures View(s, s, m)[i] == m[i] {
      FindsField(s, i);
      var t := s.fields[i].ltype;
      forall j | 0 <= j < |m[i]| ensures ViewValues(t, t, m[i])[j] == m[i][j] {
        assert ValueViewed(s, m, i, j);
      }
    }
  }

  lemma DefinedItself(s: Schema, m: seq<seq<Datum>>)
    requires MessageOk(s, m) && forall i, j :: 0 <= i < |m| && 0 <= j < |m[i]| ==> ValueViewed(s, m, i, j)
    ensures Defined(s, s, m) <==> ChecksDefined(s, m)
  {
    hide SchemaOk, DefinedAt, ValueChecksDefined, ViewValue, RequiredCount, ValueOk;
    if DefinedFrom(s, s, m, 0, 0) {
      forall i, j | 0 <= i < |m| && 0 <= j < |m[i]| ensures ValueChecksDefined(s.fields[i].ltype, m[i][j]) {
        assert (if i == 0 then 0 else 0) <= j && ValueViewed(s, m, i, j);
        assert DefinedAt(s, s, m, i, j);
      }
    }
    if ChecksDefined(s, m) {
      forall i, j | 0 <= i < |m| && (if i == 0 then 0 else 0) <= j < |m[i]| ensures DefinedAt(s, s, m, i, j) {
        assert ValueViewed(s, m, i, j) && ValueChecksDefined(s.fields[i].ltype, m[i][j]);
      }
      assert DefinedFrom(s, s, m, 0, 0);
    }
  }

  lemma SameSubmessage(s: Schema, m: seq<seq<Datum>>, i: nat, j: nat)
    requires SchemaOk(s) && MessageOk(s, m) && i < |m| && j < |m[i]| && s.fields[i].ltype.Submessage?
    ensures
      var schema := s.fields[i].ltype.schema;
      SchemaOk(schema) && m[i][j].Message? && MessageOk(schema, m[i][j].fields) && |m[i][j].fields| == |schema.fields|
  {
    assert TypeOk(s.fields[i].ltype) && ValueOk(s.fields[i].ltype, m[i][j]);
  }

  lemma {:induction false} CompatibleWithItself(s: Schema)
    requires SchemaOk(s)
    ensures Compatible(s, s)
    decreases s
  {
    forall i | 0 <= i < |s.fields| ensures FindField(s, s.fields[i].tag, 0) == i && CompatibleTypes(s.fields[i].ltype, s.fields[i].ltype) {
      FindsField(s, i);
      if s.fields[i].ltype.Submessage? {
        assert TypeOk(s.fields[i].ltype);
        CompatibleWithItself(s.fields[i].ltype.schema);
      }
    }
  }

  /** Round trip: decoding the bytes of a message gives the message, at any depth of nesting, if and
      only if the check of required fields is defined for all the messages in it. */
  lemma DecodesMessage(s: Schema, m: seq<seq<Datum>>)
    requires SchemaOk(s) && MessageOk(s, m) && |EncMessage(s, m)| < TWO32
    ensures DecMessage(s, EncMessage(s, m)) == if ChecksDefined(s, m) then Done(m, []) else Undefined
  {
    hide DecMessage, EncMessage, MessageOk, SchemaOk, Compatible, View, Defined, ChecksDefined;
    CompatibleWithItself(s);
    SameSchema(s, m);
    DecodesAcross(s, s, m);
  }

  /** So a message with 32 or 64 required fields, all of them present, does not decode. */
  lemma MultipleOf32Fails(s: Schema, m: seq<seq<Datum>>)
    requires SchemaOk(s) && MessageOk(s, m) && |EncMessage(s, m)| < TWO32
    requires 0 < RequiredCount(s, |s.fields|) && RequiredCount(s, |s.fields|) % 32 == 0
    ensures DecMessage(s, EncMessage(s, m)) == Undefined
  {
    hide MessageOk, SchemaOk, EncMessage, DecMessage;
    DecodesMessage(s, m);
  }
}
