/** What pb_decode.c makes of a stream of bytes, as functions: for any bytes, well-formed or not.
    `Undefined` stands for the reads and shifts that C does not define, which the check of
    required fields runs into for some numbers of them. */
module ProtoDecoding {
  import opened Keys
  import opened Coding
  import opened ProtoMessages

  datatype Result<T> = Done(value: T, rest: Bytes) | Failed | Undefined

  // ---- numbers, lengths and tags ----

  /** pb_decode_varint: at most ten bytes, in 64 bits. */
  function DecVarint(b: Bytes): (r: Result<nat>)
    ensures r.Done? ==> |r.rest| < |b| && r.value < TWO64
    ensures !r.Undefined?
  {
    match GetVarint(b, 10)
    case None => Failed
    case Some(d) => Done(d.value % TWO64, b[d.length..])
  }

  /** pb_decode_varint32: at most five bytes, in 32 bits. */
  function DecVarint32(b: Bytes): (r: Result<nat>)
    ensures r.Done? ==> |r.rest| < |b| && r.value < TWO32
    ensures !r.Undefined?
  {
    match GetVarint(b, 5)
    case None => Failed
    case Some(d) => Done(d.value % TWO32, b[d.length..])
  }

  datatype TagResult = Tag(tag: nat, wireType: nat, rest: Bytes) | EndTag | BadTag

  /** pb_decode_tag.  Zero ends a message, and so does a tag cut off by the end of the stream. */
  function DecTag(b: Bytes): (r: TagResult)
    ensures r.Tag? ==> |r.rest| < |b| && r.wireType < 8
  {
    match DecVarint32(b)
    case Done(t, rest) => if t == 0 then EndTag else Tag(t / 8, t % 8, rest)
    case _ => if |b| <= 5 then EndTag else BadTag
  }

  /** pb_skip_varint */
  function SkipVarint(b: Bytes): (r: Option<Bytes>)
    ensures r.Some? ==> |r.value| <= |b|
  {
    if b == [] then None else if b[0] < 128 then Some(b[1..]) else SkipVarint(b[1..])
  }

  function Drop(b: Bytes, n: nat): (r: Option<Bytes>)
    ensures r.Some? ==> |r.value| <= |b|
  {
    if n <= |b| then Some(b[n..]) else None
  }

  /** pb_skip_field */
  function Skip(wireType: nat, b: Bytes): (r: Option<Bytes>)
    ensures r.Some? ==> |r.value| <= |b|
  {
    if wireType == WT_VARINT then SkipVarint(b)
    else if wireType == WT_64BIT then Drop(b, 8)
    else if wireType == WT_32BIT then Drop(b, 4)
    else if wireType == WT_STRING then
      match DecVarint32(b)
      case Done(n, rest) => Drop(rest, n)
      case _ => None
    else None
  }

  // ---- values ----

  function Signed(u: nat, bits: nat): int {
    if u < Half(bits) then u else u - 2 * Half(bits)
  }

  function UnZigZag(u: nat): int {
    if u % 2 == 1 then -(u as int / 2) - 1 else u / 2
  }

  /** pb_dec_varint: fields of up to 32 bits look at the low 32 bits, then must fit. */
  function DecInt(bits: nat, u: nat): Option<int> {
    var s := if bits == 64 then Signed(u, 64) else Signed(u % TWO32, 32);
    if InRange(s, bits) then Some(s) else None
  }

  function DecBlob(n: nat, b: Bytes): Result<Datum> {
    if n <= |b| then Done(Blob(b[..n]), b[n..]) else Failed
  }

  function Zeros(n: nat): Bytes {
    seq(n, _ => 0)
  }

  /** PB_DECODERS for values that hold no message. */
  function DecScalar(t: FieldType, b: Bytes): (r: Result<Datum>)
    requires !t.Submessage?
    ensures r.Done? ==> |r.rest| <= |b| && (Packable(t) ==> |r.rest| < |b|)
    ensures !r.Undefined?
  {
    match t
    case Int(bits) =>
      (match DecVarint(b)
       case Done(u, rest) => (match DecInt(bits, u) case Some(s) => Done(Number(s), rest) case None => Failed)
       case _ => Failed)
    case UInt(bits) =>
      (match DecVarint(b)
       case Done(u, rest) => if u < 2 * Half(bits) then Done(Number(u), rest) else Failed
       case _ => Failed)
    case SInt(bits) =>
      (match DecVarint(b)
       case Done(u, rest) => if InRange(UnZigZag(u), bits) then Done(Number(UnZigZag(u)), rest) else Failed
       case _ => Failed)
    case Fixed32 => if |b| >= 4 then Done(Number(DecodeFixed32(b)), b[4..]) else Failed
    case Fixed64 => if |b| >= 8 then Done(Number(DecodeFixed64(b)), b[8..]) else Failed
    case FixedBytes(length) =>
      (match DecVarint32(b)
       case Done(n, rest) =>
         if n >= 0x1_0000 then Failed
         else if n == 0 then Done(Blob(Zeros(length)), rest)
         else if n == length then DecBlob(n, rest)
         else Failed
       case _ => Failed)
    case BytesOf(max) =>
      (match DecVarint32(b)
       case Done(n, rest) => if n <= max && n < 0x1_0000 then DecBlob(n, rest) else Failed
       case _ => Failed)
    case Text(max) =>
      match DecVarint32(b)
      case Done(n, rest) => if n <= max then DecBlob(n, rest) else Failed
      case _ => Failed
  }

  // ---- required fields ----

  const MAX_REQUIRED: nat := 64

  /** How many of the first `n` fields are required. */
  function RequiredCount(s: Schema, n: nat): (r: nat)
    requires n <= |s.fields|
    ensures r <= n
  {
    if n == 0 then 0 else RequiredCount(s, n - 1) + if s.fields[n - 1].rule.Required? then 1 else 0
  }

  predicate WholeWord(seen: set<nat>, w: nat) {
    forall k :: 32 * w <= k < 32 * w + 32 ==> k in seen
  }

  datatype Verdict = Complete | Missing | NotDefined

  /** The check at the end of pb_decode_noinit, over two words of flags: whole words first, then
      the remaining bits against all ones shifted by 32 minus their number. */
  function CheckRequired(n: nat, seen: set<nat>): Verdict {
    if n == 0 then Complete
    else if n >= 32 && !WholeWord(seen, 0) then Missing
    else if n >= 64 && !WholeWord(seen, 1) then Missing
    else if n % 32 == 0 || n > MAX_REQUIRED then NotDefined
    else if forall k :: n / 32 * 32 <= k < n / 32 * 32 + 32 ==> (k in seen <==> k < n) then Complete
    else Missing
  }

  // ---- messages ----

  function Default(s: Schema): (m: seq<seq<Datum>>)
    ensures |m| == |s.fields|
  {
    seq(|s.fields|, _ => [])
  }

  /** The place of the field with this tag; the number of fields when there is none. */
  function FindField(s: Schema, tag: nat, n: nat): (i: nat)
    requires n <= |s.fields|
    ensures n <= i <= |s.fields| && (i < |s.fields| ==> s.fields[i].tag == tag)
    ensures forall j :: n <= j < i ==> s.fields[j].tag != tag
    decreases |s.fields| - n
  {
    if n == |s.fields| || s.fields[n].tag == tag then n else FindField(s, tag, n + 1)
  }

  /** Storing into one field of a oneof takes the place of the others. */
  function Store(s: Schema, m: seq<seq<Datum>>, i: nat, vs: seq<Datum>): (r: seq<seq<Datum>>)
    requires |m| == |s.fields| && i < |m|
    ensures |r| == |m|
  {
    seq(|m|, j requires 0 <= j < |m| =>
      if j == i then vs else if SameOneof(s.fields[i], s.fields[j]) then [] else m[j])
  }

  /** A packed array, appended to what is there. */
  function DecPacked(t: FieldType, max: nat, vs: seq<Datum>, b: Bytes): (r: Result<seq<Datum>>)
    requires Packable(t)
    ensures !r.Undefined?
    decreases |b|
  {
    if b == [] then Done(vs, [])
    else if |vs| >= max then Failed
    else
      match DecScalar(t, b)
      case Done(v, rest) => DecPacked(t, max, vs + [v], rest)
      case _ => Failed
  }

  /** A value; a submessage goes on from `start`. */
  function DecValue(t: FieldType, start: seq<seq<Datum>>, b: Bytes): (r: Result<Datum>)
    requires t.Submessage? ==> |start| == |t.schema.fields|
    ensures r.Done? ==> |r.rest| <= |b|
    decreases t, 0
  {
    if t.Submessage? then
      match DecVarint32(b)
      case Done(n, rest) =>
        if n > |rest| then Failed
        else
          (match DecLoop(t.schema, start, rest[..n], {})
           case Done(m, _) => Done(Message(m), rest[n..])
           case Failed => Failed
           case Undefined => Undefined)
      case _ => Failed
    else DecScalar(t, b)
  }

  /** What a submessage starts from: what the field holds already, or the defaults. */
  function StartOf(f: Field, vs: seq<Datum>): (m: seq<seq<Datum>>)
    ensures f.ltype.Submessage? ==> |m| == |f.ltype.schema.fields|
  {
    if !f.ltype.Submessage? then []
    else if (f.rule.Required? || f.rule.Optional?) && vs != [] && vs[0].Message? && |vs[0].fields| == |f.ltype.schema.fields| then vs[0].fields
    else Default(f.ltype.schema)
  }

  /** decode_static_field */
  function DecField(f: Field, vs: seq<Datum>, wireType: nat, b: Bytes): (r: Result<seq<Datum>>)
    ensures r.Done? ==> |r.rest| <= |b|
    decreases f, 0
  {
    if f.rule.Repeated? && wireType == WT_STRING && Packable(f.ltype) then
      match DecVarint32(b)
      case Done(n, rest) =>
        if n > |rest| then Failed
        else
          (match DecPacked(f.ltype, f.rule.max, vs, rest[..n])
           case Done(all, _) => Done(all, rest[n..])
           case _ => Failed)
      case _ => Failed
    else if f.rule.Repeated? && |vs| >= f.rule.max then Failed
    else
      match DecValue(f.ltype, StartOf(f, vs), b)
      case Done(v, rest) => Done(if f.rule.Repeated? then vs + [v] else [v], rest)
      case Failed => Failed
      case Undefined => Undefined
  }

  function Finish(s: Schema, m: seq<seq<Datum>>, seen: set<nat>): Result<seq<seq<Datum>>> {
    match CheckRequired(RequiredCount(s, |s.fields|), seen)
    case Complete => Done(m, [])
    case Missing => Failed
    case NotDefined => Undefined
  }

  /** pb_decode_noinit: one field after the other, unknown ones skipped. */
  function DecLoop(s: Schema, m: seq<seq<Datum>>, b: Bytes, seen: set<nat>): (r: Result<seq<seq<Datum>>>)
    requires |m| == |s.fields|
    decreases s, |b|
  {
    if b == [] then Finish(s, m, seen)
    else
      match DecTag(b)
      case EndTag => Finish(s, m, seen)
      case BadTag => Failed
      case Tag(tag, wireType, rest) =>
        var i := FindField(s, tag, 0);
        if i == |s.fields| then
          // The terminator of an empty message passes for a required field with tag 0.
          if s.fields == [] && tag == 0 then Failed
          else
            (match Skip(wireType, rest)
             case None => Failed
             case Some(rest') => DecLoop(s, m, rest', seen))
        else
          var seen' := Mark(s, i, seen);
          (match DecField(s.fields[i], m[i], wireType, rest)
           case Done(vs, rest') => DecLoop(s, Store(s, m, i, vs), rest', seen')
           case Failed => Failed
           case Undefined => Undefined)
  }

  function Mark(s: Schema, i: nat, seen: set<nat>): set<nat>
    requires i < |s.fields|
  {
    var k := RequiredCount(s, i);
    if s.fields[i].rule.Required? && k < MAX_REQUIRED then seen + {k} else seen
  }

  /** pb_decode */
  function DecMessage(s: Schema, b: Bytes): Result<seq<seq<Datum>>> {
    DecLoop(s, Default(s), b, {})
  }
}
