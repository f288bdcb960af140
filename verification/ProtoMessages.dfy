/** Messages of the nanopb library: schemas, the values their fields hold, and the bytes that the
    Protocol Buffers encoding gives them.  Fields are statically allocated and known by their
    place; a field that is absent holds no value. */
module ProtoMessages {
  import opened Keys
  import opened Coding

  const TWO32: nat := 0x1_0000_0000
  const TWO64: nat := 0x1_0000_0000_0000_0000

  datatype Rule = Required | Optional | Repeated(max: nat) | Oneof(group: nat)

  datatype FieldType =
    | Int(bits: nat)       // PB_LTYPE_VARINT
    | UInt(bits: nat)
    | SInt(bits: nat)
    | Fixed32
    | Fixed64
    | BytesOf(max: nat)
    | Text(max: nat)       // without the terminator
    | FixedBytes(length: nat)
    | Submessage(schema: Schema)

  datatype Field = Field(tag: nat, rule: Rule, ltype: FieldType)

  datatype Schema = Schema(fields: seq<Field>)

  datatype Datum = Number(n: int) | Blob(bytes: Bytes) | Message(fields: seq<seq<Datum>>)

  // ---- well-formed schemas and messages ----

  const MAX_TAG: nat := 0x2000_0000

  predicate TypeOk(t: FieldType)
    decreases t
  {
    match t
    case Int(bits) => bits == 8 || bits == 16 || bits == 32 || bits == 64
    case UInt(bits) => bits == 8 || bits == 16 || bits == 32 || bits == 64
    case SInt(bits) => bits == 8 || bits == 16 || bits == 32 || bits == 64
    case BytesOf(max) => max < 0x1_0000
    case Text(max) => max < TWO32
    case FixedBytes(length) => length < 0x1_0000
    case Submessage(schema) => SchemaOk(schema)
    case _ => true
  }

  predicate SchemaOk(s: Schema)
    decreases s
  {
    && (forall i :: 0 <= i < |s.fields| ==> 1 <= s.fields[i].tag < MAX_TAG)
    && (forall i, j :: 0 <= i < j < |s.fields| ==> s.fields[i].tag != s.fields[j].tag)
    && forall i :: 0 <= i < |s.fields| ==> TypeOk(s.fields[i].ltype)
  }

  function Half(bits: nat): nat {
    if bits == 8 then 0x80 else if bits == 16 then 0x8000 else if bits == 32 then 0x8000_0000 else 0x8000_0000_0000_0000
  }

  /** A signed number of this many bits. */
  predicate InRange(n: int, bits: nat) {
    -(Half(bits) as int) <= n < Half(bits)
  }

  predicate ValueOk(t: FieldType, v: Datum)
    decreases t
  {
    match t
    case Int(bits) => v.Number? && InRange(v.n, bits)
    case UInt(bits) => v.Number? && 0 <= v.n < 2 * Half(bits)
    case SInt(bits) => v.Number? && InRange(v.n, bits)
    case Fixed32 => v.Number? && 0 <= v.n < TWO32
    case Fixed64 => v.Number? && 0 <= v.n < TWO64
    case BytesOf(max) => v.Blob? && |v.bytes| <= max
    case Text(max) => v.Blob? && |v.bytes| <= max && 0 !in v.bytes
    case FixedBytes(length) => v.Blob? && |v.bytes| == length
    case Submessage(schema) => v.Message? && MessageOk(schema, v.fields)
  }

  predicate CountOk(rule: Rule, n: nat) {
    match rule
    case Required => n == 1
    case Optional => n <= 1
    case Oneof(_) => n <= 1
    case Repeated(max) => n <= max
  }

  /** Required fields are there, nothing exceeds its capacity, a oneof holds one field at most. */
  predicate MessageOk(s: Schema, m: seq<seq<Datum>>)
    decreases s
  {
    && |m| == |s.fields|
    && (forall i :: 0 <= i < |m| ==> CountOk(s.fields[i].rule, |m[i]|))
    && (forall i, k :: 0 <= i < |m| && 0 <= k < |m[i]| ==> ValueOk(s.fields[i].ltype, m[i][k]))
    && forall i, j :: 0 <= i < j < |m| && SameOneof(s.fields[i], s.fields[j]) ==> m[i] == [] || m[j] == []
  }

  predicate SameOneof(f: Field, g: Field) {
    f.rule.Oneof? && f.rule == g.rule
  }

  // ---- the encoding ----

  const WT_VARINT: nat := 0
  const WT_64BIT: nat := 1
  const WT_STRING: nat := 2
  const WT_32BIT: nat := 5

  function WireType(t: FieldType): (w: nat)
    ensures w < 8
  {
    match t
    case Int(_) => WT_VARINT
    case UInt(_) => WT_VARINT
    case SInt(_) => WT_VARINT
    case Fixed32 => WT_32BIT
    case Fixed64 => WT_64BIT
    case _ => WT_STRING
  }

  predicate Packable(t: FieldType) {
    t.Int? || t.UInt? || t.SInt? || t.Fixed32? || t.Fixed64?
  }

  function TagBytes(tag: nat, wireType: nat): Bytes {
    Varint(tag * 8 + wireType)
  }

  function ZigZag(n: int): nat {
    if n < 0 then -2 * n - 1 else 2 * n
  }

  function EncValue(t: FieldType, v: Datum): Bytes
    requires ValueOk(t, v)
    decreases t, 0
  {
    match t
    case Int(_) => Varint(v.n % TWO64)
    case UInt(_) => Varint(v.n)
    case SInt(_) => Varint(ZigZag(v.n))
    case Fixed32 => EncodeFixed32(v.n)
    case Fixed64 => EncodeFixed64(v.n)
    case Submessage(schema) =>
      var e := EncMessage(schema, v.fields);
      Varint(|e|) + e
    case _ => Varint(|v.bytes|) + v.bytes
  }

  /** The payload of a packed array. */
  function EncValues(t: FieldType, vs: seq<Datum>): Bytes
    requires forall k :: 0 <= k < |vs| ==> ValueOk(t, vs[k])
    decreases t, |vs| + 1
  {
    if vs == [] then [] else EncValue(t, vs[0]) + EncValues(t, vs[1..])
  }

  /** One tag for each value. */
  function EncItems(f: Field, vs: seq<Datum>): Bytes
    requires forall k :: 0 <= k < |vs| ==> ValueOk(f.ltype, vs[k])
    decreases f, |vs|
  {
    if vs == [] then []
    else TagBytes(f.tag, WireType(f.ltype)) + EncValue(f.ltype, vs[0]) + EncItems(f, vs[1..])
  }

  function EncField(f: Field, vs: seq<Datum>): Bytes
    requires forall k :: 0 <= k < |vs| ==> ValueOk(f.ltype, vs[k])
    decreases f, |vs| + 1
  {
    if f.rule.Repeated? && Packable(f.ltype) && vs != [] then
      var payload := EncValues(f.ltype, vs);
      TagBytes(f.tag, WT_STRING) + Varint(|payload|) + payload
    else EncItems(f, vs)
  }

  function EncFrom(s: Schema, m: seq<seq<Datum>>, n: nat): Bytes
    requires MessageOk(s, m) && n <= |m|
    decreases s, |m| - n
  {
    if n == |m| then [] else EncField(s.fields[n], m[n]) + EncFrom(s, m, n + 1)
  }

  function EncMessage(s: Schema, m: seq<seq<Datum>>): Bytes
    requires MessageOk(s, m)
    decreases s, |m| + 1
  {
    EncFrom(s, m, 0)
  }
}
