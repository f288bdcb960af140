/** The bytes of the wire format, said without the functions that write and read them: every other
    implementation of Protocol Buffers has to agree with these. */
module ProtoWire {
  import opened Bits
  import opened Coding
  import opened ProtoMessages

  // ---- numbers ----

  /** A signed field is the varint of (n << 1) ^ (n >> 63), bit by bit, so that small magnitudes take
      few bytes: the numbers from -k up to k are exactly those below 2k. */
  lemma SignedNumbers(bits: nat, n: int) returns (u: nat)
    requires InRange(n, bits)
    ensures u < TWO64 && EncValue(SInt(bits), Number(n)) == Varint(u)
    ensures TestBit(u, 0) <==> n < 0
    ensures forall i: nat :: i < 63 ==> (TestBit(u, i + 1) <==> (TestBit(n % TWO64, i) != (n < 0)))
    ensures forall k: nat :: u < 2 * k <==> 0 <= n + k && n < k
  {
    hide Varint;
    u := if n < 0 then -2 * n - 1 else 2 * n;
    PowersUpTo64();
    forall i: nat | i < 63 ensures TestBit(u, i + 1) <==> (TestBit(n % TWO64, i) != (n < 0)) {
      assert TestBit(u, i + 1) == TestBit(u / 2, i);
      if n < 0 {
        ComplementBits(-n - 1, 64, i);
        assert n % TWO64 == TWO64 - 1 - (-n - 1);
        assert u / 2 == -n - 1;
      } else {
        assert u / 2 == n % TWO64;
      }
    }
  }

  /** A plain signed field is sign-extended to 64 bits: negative numbers take ten bytes. */
  lemma PlainNumbers(bits: nat, n: int) returns (u: nat)
    requires InRange(n, bits)
    ensures EncValue(Int(bits), Number(n)) == Varint(u) && u == if n < 0 then TWO64 + n else n
    ensures n < 0 ==> |EncValue(Int(bits), Number(n))| == 10
  {
    u := if n < 0 then TWO64 + n else n;
    assert n % TWO64 == u;
    if n < 0 {
      LongVarint(u);
    }
  }

  lemma LongVarint(u: nat)
    requires 0x8000_0000_0000_0000 <= u < TWO64
    ensures |Varint(u)| == 10
  {
    VarintLength(u, 10);
  }

  lemma {:induction false} VarintLength(u: nat, k: nat)
    requires k > 0 && u < Power128(k) && (k > 1 ==> Power128(k - 1) <= u)
    ensures |Varint(u)| == k
    decreases k
  {
    if k > 1 {
      VarintLength(u / 128, k - 1);
    }
  }

  lemma UnsignedNumbers(bits: nat, n: nat)
    requires n < 2 * Half(bits)
    ensures EncValue(UInt(bits), Number(n)) == Varint(n)
  {
  }

  lemma FixedNumbers(n: nat)
    ensures n < TWO32 ==>
      var b := EncValue(Fixed32, Number(n));
      |b| == 4 && n == b[0] as int + 0x100 * b[1] as int + 0x1_0000 * b[2] as int + 0x100_0000 * b[3] as int
    ensures n < TWO64 ==>
      var b := EncValue(Fixed64, Number(n));
      && |b| == 8
      && n == b[0] as int + 0x100 * b[1] as int + 0x1_0000 * b[2] as int + 0x100_0000 * b[3] as int
              + 0x1_0000_0000 * (b[4] as int + 0x100 * b[5] as int + 0x1_0000 * b[6] as int + 0x100_0000 * b[7] as int)
  {
    hide EncodeFixed32, EncodeFixed64;
    if n < TWO32 {
      Fixed32IsLittleEndian(n);
    }
    if n < TWO64 {
      Fixed64IsLittleEndian(n);
    }
  }

  // ---- fields ----

  /** One element behind its tag: eight times the field number and 0 for varints, 1 for eight bytes, 2
      for a length and as many bytes, 5 for four bytes. */
  lemma ElementsOnTheWire(f: Field, v: Datum)
    requires ValueOk(f.ltype, v)
    ensures
      var wire := EncItems(f, [v]);
      match f.ltype
      case Int(_) => wire == Varint(8 * f.tag) + EncValue(f.ltype, v)
      case UInt(_) => wire == Varint(8 * f.tag) + EncValue(f.ltype, v)
      case SInt(_) => wire == Varint(8 * f.tag) + EncValue(f.ltype, v)
      case Fixed64 => wire == Varint(8 * f.tag + 1) + EncValue(f.ltype, v)
      case Fixed32 => wire == Varint(8 * f.tag + 5) + EncValue(f.ltype, v)
      case Submessage(schema) =>
        var e := EncMessage(schema, v.fields);
        wire == Varint(8 * f.tag + 2) + (Varint(|e|) + e)
      case _ => wire == Varint(8 * f.tag + 2) + (Varint(|v.bytes|) + v.bytes)
  {
    hide Varint, EncMessage, MessageOk, EncodeFixed32, EncodeFixed64;
    assert [v][1..] == [];
    assert EncItems(f, [v]) == TagBytes(f.tag, WireType(f.ltype)) + EncValue(f.ltype, v) + [];
  }

  /** An array of numbers is one field of wire type 2. */
  lemma NumbersOnTheWire(f: Field, vs: seq<Datum>)
    requires vs != [] && (forall k :: 0 <= k < |vs| ==> ValueOk(f.ltype, vs[k])) && f.rule.Repeated?
    requires f.ltype.Int? || f.ltype.UInt? || f.ltype.SInt? || f.ltype.Fixed32? || f.ltype.Fixed64?
    ensures
      var payload := EncValues(f.ltype, vs);
      && EncField(f, vs) == Varint(8 * f.tag + 2) + Varint(|payload|) + payload
      && payload == EncValue(f.ltype, vs[0]) + EncValues(f.ltype, vs[1..])
  {
    hide Varint, EncValue, ValueOk;
  }

  /** Any other array, and a field that is not one, has a tag for each element. */
  lemma OthersOnTheWire(f: Field, vs: seq<Datum>)
    requires vs != [] && (forall k :: 0 <= k < |vs| ==> ValueOk(f.ltype, vs[k]))
    requires f.rule.Repeated? ==> !Packable(f.ltype)
    ensures EncField(f, vs) == EncItems(f, vs) == EncItems(f, [vs[0]]) + EncItems(f, vs[1..])
  {
    hide EncValue, ValueOk, TagBytes, WireType;
    assert [vs[0]][1..] == [];
    var first := TagBytes(f.tag, WireType(f.ltype)) + EncValue(f.ltype, vs[0]);
    assert EncItems(f, [vs[0]]) == first + [] == first;
    assert EncItems(f, vs) == first + EncItems(f, vs[1..]);
  }
}
