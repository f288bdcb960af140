/** pb_common.c's field iterator and pb_decode.c's decoder, against what ProtoDecoding says. */
module ProtoDecoder {
  import opened Keys
  import opened Bits
  import opened Coding
  import opened ProtoMessages
  import opened ProtoDecoding

  // ---- pb_field_iter_t ----

  class FieldIterator {
    const schema: Schema
    var pos: nat
    var requiredFieldIndex: nat

    predicate Ok()
      reads this
    {
      && pos <= |schema.fields| && (pos == |schema.fields| ==> schema.fields == [])
      && requiredFieldIndex == RequiredCount(schema, pos)
    }

    constructor (schema: Schema)
      ensures Ok() && this.schema == schema && pos == 0
    {
      this.schema, pos, requiredFieldIndex := schema, 0, 0;
    }

    /** Goes on to the next field, or from the last one back to the first. */
    method Next() returns (more: bool)
      requires Ok()
      modifies this
      ensures Ok() && more == (old(pos) + 1 < |schema.fields|)
      ensures pos == if more then old(pos) + 1 else 0
    {
      if schema.fields == [] {
        return false;
      }
      var wasRequired := schema.fields[pos].rule.Required?;
      pos := pos + 1;
      if pos == |schema.fields| {
        pos, requiredFieldIndex := 0, 0;
        return false;
      }
      if wasRequired {
        requiredFieldIndex := requiredFieldIndex + 1;
      }
      return true;
    }

    /** Goes round once from where it stands.  The terminator of an empty message has tag 0. */
    method Find(tag: nat) returns (found: bool)
      requires Ok()
      modifies this
      ensures Ok()
      ensures schema.fields == [] ==> (found <==> tag == 0)
      ensures schema.fields != [] ==>
        && (found ==> pos < |schema.fields| && schema.fields[pos].tag == tag)
        && (!found ==> forall i :: 0 <= i < |schema.fields| ==> schema.fields[i].tag != tag)
    {
      if schema.fields == [] {
        return tag == 0;
      }
      var start := pos;
      var wrapped := false;
      while true
        invariant Ok() && pos < |schema.fields| && (wrapped ==> pos < start) && (!wrapped ==> start <= pos)
        invariant forall i :: start <= i < |schema.fields| && (wrapped || i < pos) ==> schema.fields[i].tag != tag
        invariant forall i :: wrapped && 0 <= i < pos ==> schema.fields[i].tag != tag
        decreases if wrapped then start - pos else |schema.fields| - pos + start
      {
        if schema.fields[pos].tag == tag {
          return true;
        }
        var more := Next();
        if !more {
          wrapped := true;
        }
        if pos == start {
          return false;
        }
      }
    }
  }

  // ---- numbers, tags and unknown fields ----

  method ReadVarint64(b: Bytes) returns (r: Result<nat>)
    ensures r == DecVarint(b)
  {
    var d := ReadVarint(b, 10);
    r := if d.None? then Failed else Done(d.value.value % TWO64, b[d.value.length..]);
  }

  method ReadVarint32(b: Bytes) returns (r: Result<nat>)
    ensures r == DecVarint32(b)
  {
    var d := ReadVarint(b, 5);
    r := if d.None? then Failed else Done(d.value.value % TWO32, b[d.value.length..]);
  }

  method ReadTag(b: Bytes) returns (r: TagResult)
    ensures r == DecTag(b)
  {
    var t := ReadVarint32(b);
    if !t.Done? {
      r := if |b| <= 5 then EndTag else BadTag;
    } else if t.value == 0 {
      r := EndTag;
    } else {
      r := Tag(t.value / 8, t.value % 8, t.rest);
    }
  }

  method SkipField(wireType: nat, b: Bytes) returns (r: Option<Bytes>)
    ensures r == Skip(wireType, b)
  {
    if wireType == WT_VARINT {
      var left := b;
      while left != [] && left[0] >= 128
        invariant SkipVarint(left) == SkipVarint(b)
      {
        left := left[1..];
      }
      r := if left == [] then None else Some(left[1..]);
    } else if wireType == WT_64BIT {
      r := Drop(b, 8);
    } else if wireType == WT_32BIT {
      r := Drop(b, 4);
    } else if wireType == WT_STRING {
      var n := ReadVarint32(b);
      r := if n.Done? then Drop(n.rest, n.value) else None;
    } else {
      r := None;
    }
  }

  method DecodeScalar(t: FieldType, b: Bytes) returns (r: Result<Datum>)
    requires !t.Submessage?
    ensures r == DecScalar(t, b)
  {
    hide DecVarint, DecVarint32;
    match t {
      case Fixed32 =>
        r := if |b| >= 4 then Done(Number(DecodeFixed32(b)), b[4..]) else Failed;
      case Fixed64 =>
        r := if |b| >= 8 then Done(Number(DecodeFixed64(b)), b[8..]) else Failed;
      case Int(bits) =>
        var u := ReadVarint64(b);
        r := Failed;
        if u.Done? && DecInt(bits, u.value).Some? {
          r := Done(Number(DecInt(bits, u.value).value), u.rest);
        }
      case UInt(bits) =>
        var u := ReadVarint64(b);
        r := if u.Done? && u.value < 2 * Half(bits) then Done(Number(u.value), u.rest) else Failed;
      case SInt(bits) =>
        var u := ReadVarint64(b);
        r := if u.Done? && InRange(UnZigZag(u.value), bits) then Done(Number(UnZigZag(u.value)), u.rest) else Failed;
      case FixedBytes(length) =>
        var n := ReadVarint32(b);
        if !n.Done? || n.value >= 0x1_0000 {
          r := Failed;
        } else if n.value == 0 {
          r := Done(Blob(Zeros(length)), n.rest);
        } else {
          r := if n.value == length then DecBlob(n.value, n.rest) else Failed;
        }
      case BytesOf(max) =>
        var n := ReadVarint32(b);
        r := if n.Done? && n.value <= max && n.value < 0x1_0000 then DecBlob(n.value, n.rest) else Failed;
      case Text(max) =>
        var n := ReadVarint32(b);
        r := if n.Done? && n.value <= max then DecBlob(n.value, n.rest) else Failed;
    }
  }

  /** The loop over a packed array, into the room that is left. */
  method DecodePacked(t: FieldType, max: nat, vs: seq<Datum>, b: Bytes) returns (r: Result<seq<Datum>>)
    requires Packable(t)
    ensures r == DecPacked(t, max, vs, b)
  {
    hide DecScalar;
    var all, left := vs, b;
    while left != [] && |all| < max
      invariant DecPacked(t, max, all, left) == DecPacked(t, max, vs, b)
      decreases |left|
    {
      var v := DecodeScalar(t, left);
      if !v.Done? {
        return Failed;
      }
      all, left := all + [v.value], v.rest;
    }
    r := if left != [] then Failed else Done(all, []);
  }

  // ---- fields_seen ----

  const ALL_BITS: nat := 0xffff_ffff

  /** The flags are the bits of two words. */
  ghost predicate IsSeen(words: seq<nat>, seen: set<nat>) {
    && |words| == 2 && words[0] < TWO32 && words[1] < TWO32
    && forall k: nat :: k < MAX_REQUIRED ==> (k in seen <==> TestBit(words[k / 32], k % 32))
  }

  lemma PowerIs32()
    ensures PowerOfTwo(32) == TWO32
  {
    assert PowerOfTwo(8) == 256 by {
      assert PowerOfTwo(4) == 16;
    }
    assert PowerOfTwo(16) == 0x1_0000 by {
      assert PowerOfTwo(12) == 4096;
    }
    assert PowerOfTwo(24) == 0x100_0000 by {
      assert PowerOfTwo(20) == 0x10_0000;
    }
    assert PowerOfTwo(28) == 0x1000_0000;
  }

  /** fields_seen[k >> 5] |= 1 << (k & 31) */
  method MarkSeen(words: seq<nat>, k: nat, ghost seen: set<nat>) returns (r: seq<nat>)
    requires IsSeen(words, seen) && k < MAX_REQUIRED
    ensures IsSeen(r, seen + {k})
  {
    PowerIs32();
    SetBitFits(words[k / 32], k % 32, 32);
    r := words[k / 32 := SetBit(words[k / 32], k % 32)];
    forall j: nat | j < MAX_REQUIRED ensures j in seen + {k} <==> TestBit(r[j / 32], j % 32) {
      SetBitSets(words[k / 32], k % 32, j % 32);
    }
  }

  /** A word compared with all ones shifted right by 32 - n. */
  lemma WordCompares(words: seq<nat>, seen: set<nat>, w: nat, n: nat)
    requires IsSeen(words, seen) && w < 2 && n <= 32
    ensures words[w] == PowerOfTwo(n) - 1 <==> forall k :: 32 * w <= k < 32 * w + 32 ==> (k in seen <==> k < 32 * w + n)
  {
    PowerIs32();
    LowBits(words[w], n, 32);
    if JustLow(words[w], n, 32) {
      forall k | 32 * w <= k < 32 * w + 32 ensures k in seen <==> k < 32 * w + n {
        assert TestBit(words[w], k - 32 * w) <==> k - 32 * w < n;
      }
    }
    if forall k :: 32 * w <= k < 32 * w + 32 ==> (k in seen <==> k < 32 * w + n) {
      forall i: nat | i < 32 ensures TestBit(words[w], i) <==> i < n {
        assert 32 * w + i in seen <==> 32 * w + i < 32 * w + n;
      }
    }
  }

  /** The check behind the loop. */
  method Check(n: nat, words: seq<nat>, ghost seen: set<nat>) returns (v: Verdict)
    requires IsSeen(words, seen)
    ensures v == CheckRequired(n, seen)
  {
    hide IsSeen;
    if n == 0 {
      return Complete;
    }
    WordIsWhole(words, seen, 0);
    WordIsWhole(words, seen, 1);
    var i := 0;
    while i < n / 32 && i < 2
      invariant i <= 2 && (i > 0 ==> n >= 32 && WholeWord(seen, 0)) && (i > 1 ==> n >= 64 && WholeWord(seen, 1))
    {
      if words[i] != ALL_BITS {
        return Missing;
      }
      i := i + 1;
    }
    if n / 32 >= 2 || n % 32 == 0 {
      return NotDefined;
    }
    WordCompares(words, seen, n / 32, n % 32);
    v := if words[n / 32] != PowerOfTwo(n % 32) - 1 then Missing else Complete;
  }

  lemma WordIsWhole(words: seq<nat>, seen: set<nat>, w: nat)
    requires IsSeen(words, seen) && w < 2
    ensures |words| == 2 && (words[w] == ALL_BITS <==> WholeWord(seen, w))
  {
    PowerIs32();
    WordCompares(words, seen, w, 32);
  }

  // ---- fields and messages ----

  /** A value, where a submessage gets a substream of its own length. */
  method DecodeValue(t: FieldType, start: seq<seq<Datum>>, b: Bytes) returns (r: Result<Datum>)
    requires TypeOk(t) && (t.Submessage? ==> |start| == |t.schema.fields|)
    ensures r == DecValue(t, start, b)
    decreases t, 0
  {
    hide DecLoop, DecScalar, DecVarint32;
    if !t.Submessage? {
      r := DecodeScalar(t, b);
      return;
    }
    var n := ReadVarint32(b);
    if !n.Done? || n.value > |n.rest| {
      return Failed;
    }
    var m := DecodeNoinit(t.schema, start, n.rest[..n.value]);
    match m {
      case Done(fields, _) => r := Done(Message(fields), n.rest[n.value..]);
      case Failed => r := Failed;
      case Undefined => r := Undefined;
    }
  }

  /** decode_static_field */
  method DecodeField(f: Field, vs: seq<Datum>, wireType: nat, b: Bytes) returns (r: Result<seq<Datum>>)
    requires TypeOk(f.ltype)
    ensures r == DecField(f, vs, wireType, b)
    decreases f, 0
  {
    hide DecValue, DecPacked, DecVarint32;
    if f.rule.Repeated? && wireType == WT_STRING && Packable(f.ltype) {
      var n := ReadVarint32(b);
      if !n.Done? || n.value > |n.rest| {
        return Failed;
      }
      var all := DecodePacked(f.ltype, f.rule.max, vs, n.rest[..n.value]);
      r := if all.Done? then Done(all.value, n.rest[n.value..]) else Failed;
    } else if f.rule.Repeated? && |vs| >= f.rule.max {
      r := Failed;
    } else {
      var v := DecodeValue(f.ltype, StartOf(f, vs), b);
      match v {
        case Done(d, rest) => r := Done(if f.rule.Repeated? then vs + [d] else [d], rest);
        case Failed => r := Failed;
        case Undefined => r := Undefined;
      }
    }
  }

  /** The distinct tags leave FindField no choice. */
  lemma FoundField(s: Schema, tag: nat, i: nat)
    requires SchemaOk(s) && i < |s.fields| && s.fields[i].tag == tag
    ensures FindField(s, tag, 0) == i && TypeOk(s.fields[i].ltype)
  {
  }

  lemma NoField(s: Schema, tag: nat)
    requires forall i :: 0 <= i < |s.fields| ==> s.fields[i].tag != tag
    ensures FindField(s, tag, 0) == |s.fields|
  {
  }

  /** The number of required fields, by going on to the end of the field array. */
  method CountRequired(iter: FieldIterator) returns (n: nat)
    requires iter.Ok()
    modifies iter
    ensures n == RequiredCount(iter.schema, |iter.schema.fields|)
  {
    if iter.schema.fields == [] {
      return 0;
    }
    n := iter.requiredFieldIndex;
    var last := iter.schema.fields[iter.pos];
    var more := iter.Next();
    while more
      invariant iter.Ok() && (more ==> 0 < iter.pos < |iter.schema.fields|)
      invariant var p := if more then iter.pos - 1 else |iter.schema.fields| - 1;
        n == RequiredCount(iter.schema, p) && last == iter.schema.fields[p]
      decreases more, |iter.schema.fields| - iter.pos
    {
      n := iter.requiredFieldIndex;
      last := iter.schema.fields[iter.pos];
      more := iter.Next();
    }
    if last.rule.Required? {
      n := n + 1;
    }
  }

  method DecodeNoinit(schema: Schema, start: seq<seq<Datum>>, b: Bytes) returns (r: Result<seq<seq<Datum>>>)
    requires SchemaOk(schema) && |start| == |schema.fields|
    ensures r == DecLoop(schema, start, b, {})
    decreases schema, 1
  {
    hide DecField, DecTag, Skip, FindField, SchemaOk, RequiredCount, Store, Finish;
    var iter := new FieldIterator(schema);
    var m, left, words := start, b, [0, 0];
    ghost var seen: set<nat> := {};
    assert IsSeen(words, seen) by {
      NothingSeen();
    }
    while left != []
      invariant iter.Ok() && iter.schema == schema && |m| == |schema.fields| && IsSeen(words, seen)
      invariant DecLoop(schema, m, left, seen) == DecLoop(schema, start, b, {})
      decreases |left|
    {
      hide IsSeen;
      var t := ReadTag(left);
      if t.EndTag? {
        break;
      }
      if t.BadTag? {
        return Failed;
      }
      var found := iter.Find(t.tag);
      if found && schema.fields == [] {
        return Failed;
      }
      if !found {
        NoField(schema, t.tag);
        var rest := SkipField(t.wireType, t.rest);
        if rest.None? {
          return Failed;
        }
        left := rest.value;
        continue;
      }
      var i := iter.pos;
      FoundField(schema, t.tag, i);
      ghost var seen' := Mark(schema, i, seen);
      if schema.fields[i].rule.Required? && iter.requiredFieldIndex < MAX_REQUIRED {
        words := MarkSeen(words, iter.requiredFieldIndex, seen);
      }
      var vs := DecodeField(schema.fields[i], m[i], t.wireType, t.rest);
      if !vs.Done? {
        return if vs.Failed? then Failed else Undefined;
      }
      m, left, seen := Store(schema, m, i, vs.value), vs.rest, seen';
    }
    var n := CountRequired(iter);
    var v := Check(n, words, seen);
    r := match v case Complete => Done(m, []) case Missing => Failed case NotDefined => Undefined;
    assert r == Finish(schema, m, seen) by {
      FinishIs(schema, m, seen, v);
    }
  }

  lemma NothingSeen()
    ensures IsSeen([0, 0], {})
  {
    forall k: nat | k < MAX_REQUIRED ensures !TestBit([0, 0][k / 32], k % 32) {
      NoBitsInZero(k % 32);
    }
  }

  lemma FinishIs(s: Schema, m: seq<seq<Datum>>, seen: set<nat>, v: Verdict)
    requires |m| == |s.fields| && v == CheckRequired(RequiredCount(s, |s.fields|), seen)
    ensures Finish(s, m, seen) == match v case Complete => Done(m, []) case Missing => Failed case NotDefined => Undefined
  {
  }

  /** pb_decode */
  method Decode(schema: Schema, b: Bytes) returns (r: Result<seq<seq<Datum>>>)
    requires SchemaOk(schema)
    ensures r == DecMessage(schema, b)
  {
    r := DecodeNoinit(schema, Default(schema), b);
  }
}
