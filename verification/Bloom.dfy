/** The built-in filter policy: a Bloom filter with double hashing in 32-bit arithmetic. */
module Bloom {
  import opened Keys
  import opened Bits
  import opened Coding

  // ---- bits of a byte ----

  function SetBitOfByte(b: Byte, i: nat): (r: Byte)
    requires i < 8
    ensures forall j :: 0 <= j ==> (TestBit(r, j) <==> i == j || TestBit(b, j))
  {
    SetBitFits(b, i, 8);
    assert PowerOfTwo(8) == 256 by {
      assert PowerOfTwo(4) == 16;
    }
    var r: Byte := SetBit(b, i);
    assert forall j :: 0 <= j ==> (TestBit(r, j) <==> i == j || TestBit(b, j)) by {
      forall j | 0 <= j ensures TestBit(r, j) <==> i == j || TestBit(b, j) {
        SetBitSets(b, i, j);
      }
    }
    r
  }

  /** Bit `p` of an array of bytes. */
  predicate BitOf(bitmap: Bytes, p: nat) {
    p / 8 < |bitmap| && TestBit(bitmap[p / 8], p % 8)
  }

  function WithBit(bitmap: Bytes, p: nat): (r: Bytes)
    requires p / 8 < |bitmap|
    ensures |r| == |bitmap| && forall q: nat :: BitOf(r, q) <==> p == q || BitOf(bitmap, q)
  {
    bitmap[p / 8 := SetBitOfByte(bitmap[p / 8], p % 8)]
  }

  // ---- the policy ----

  /** Rotate right by 17 bits. */
  function Delta(h: Word): Word {
    h / 0x2_0000 + h % 0x2_0000 * 0x8000
  }

  /** The hash after `j` additions of delta, with wrap-around. */
  function ProbeHash(h: Word, j: nat): Word {
    if j == 0 then h else (ProbeHash(h, j - 1) + Delta(h)) % 0x1_0000_0000
  }

  function Probe(h: Word, j: nat, bits: nat): nat
    requires bits > 0
  {
    ProbeHash(h, j) % bits
  }

  const MAX_PROBES: nat := 30

  /** Bytes of the bit array for `n` keys. */
  function ArraySize(n: nat, bitsPerKey: nat): (r: nat)
    ensures r >= 8
  {
    var bits := n * bitsPerKey;
    ((if bits < 64 then 64 else bits) + 7) / 8
  }

  /** One of the first `n` probes of a hash is at `p`. */
  ghost predicate ProbedBy(h: Word, n: nat, bits: nat, p: nat)
    requires bits > 0
  {
    exists j: nat :: j < n && Probe(h, j, bits) == p
  }

  /** Some key among the first `n` has a probe at `p`. */
  ghost predicate Probed(hash: Bytes -> Word, keys: seq<Bytes>, n: nat, probes: nat, bits: nat, p: nat)
    requires n <= |keys| && bits > 0
  {
    exists i :: 0 <= i < n && ProbedBy(hash(keys[i]), probes, bits, p)
  }

  /** The bits that are set are exactly the probes of the keys. */
  ghost predicate IsFilterFor(hash: Bytes -> Word, keys: seq<Bytes>, probes: nat, filter: Bytes) {
    && |filter| >= 2 && filter[|filter| - 1] == probes <= MAX_PROBES
    && var bitmap := filter[..|filter| - 1];
       forall p: nat :: BitOf(bitmap, p) <==> Probed(hash, keys, |keys|, probes, |bitmap| * 8, p)
  }

  class BloomFilterPolicy {
    const hash: Bytes -> Word
    const bitsPerKey: nat
    const probes: nat

    /** `probes` is bits_per_key times 0.69 rounded down, made to lie between 1 and 30. */
    constructor (hash: Bytes -> Word, bitsPerKey: nat, probes: nat)
      requires 1 <= probes <= MAX_PROBES
      ensures this.hash == hash && this.bitsPerKey == bitsPerKey && this.probes == probes
    {
      this.hash, this.bitsPerKey, this.probes := hash, bitsPerKey, probes;
    }

    method CreateFilter(keys: seq<Bytes>, dst: Bytes) returns (r: Bytes)
      requires probes <= MAX_PROBES
      ensures dst <= r && |r| == |dst| + ArraySize(|keys|, bitsPerKey) + 1
      ensures IsFilterFor(hash, keys, probes, r[|dst|..])
    {
      var bytes := ArraySize(|keys|, bitsPerKey);
      var bits := bytes * 8;
      var bitmap: Bytes := seq(bytes, _ => 0);
      NoBits(bitmap);
      for i := 0 to |keys|
        invariant |bitmap| == bytes
        invariant forall p: nat :: BitOf(bitmap, p) <==> Probed(hash, keys, i, probes, bits, p)
      {
        ghost var before := bitmap;
        bitmap := AddKey(bitmap, hash(keys[i]));
        forall p: nat ensures BitOf(bitmap, p) <==> Probed(hash, keys, i + 1, probes, bits, p) {
          assert BitOf(bitmap, p) <==> BitOf(before, p) || ProbedBy(hash(keys[i]), probes, bits, p);
          OneMoreKey(hash, keys, i, probes, bits, p);
        }
      }
      r := dst + bitmap + [probes];
      assert r[|dst|..] == bitmap + [probes];
    }

    /** The inner loop of CreateFilter. */
    method AddKey(bitmap0: Bytes, hash0: Word) returns (bitmap: Bytes)
      requires |bitmap0| > 0
      ensures |bitmap| == |bitmap0|
      ensures forall p: nat :: BitOf(bitmap, p) <==> BitOf(bitmap0, p) || ProbedBy(hash0, probes, |bitmap| * 8, p)
    {
      hide BitOf, Delta;
      bitmap := bitmap0;
      var bits := |bitmap0| * 8;
      var h := hash0;
      var delta := Delta(h);
      for j := 0 to probes
        invariant |bitmap| == |bitmap0| && h == ProbeHash(hash0, j)
        invariant forall p: nat :: BitOf(bitmap, p) <==> BitOf(bitmap0, p) || ProbedBy(hash0, j, bits, p)
      {
        var bitpos := h % bits;
        ghost var before := bitmap;
        bitmap := WithBit(bitmap, bitpos);
        forall p: nat ensures BitOf(bitmap, p) <==> BitOf(bitmap0, p) || ProbedBy(hash0, j + 1, bits, p) {
          OneMoreProbe(hash0, j, bits, p);
        }
        h := (h + delta) % 0x1_0000_0000;
      }
    }

    /** KeyMayMatch, for filters made by this or other parameters. */
    method KeyMayMatch(key: Bytes, filter: Bytes) returns (r: bool)
      ensures r == MayMatch(hash, key, filter)
    {
      var len := |filter|;
      if len < 2 {
        return false;
      }
      var bits := (len - 1) * 8;
      var k := filter[len - 1];
      if k > MAX_PROBES {
        return true;
      }
      var h := hash(key);
      var delta := Delta(h);
      for j: nat := 0 to k
        invariant h == ProbeHash(hash(key), j)
        invariant AllSet(filter[..len - 1], hash(key), j, bits)
      {
        var bitpos := h % bits;
        if !BitOf(filter[..len - 1], bitpos) {
          assert Probe(hash(key), j, bits) == bitpos;
          return false;
        }
        h := (h + delta) % 0x1_0000_0000;
      }
      return true;
    }
  }

  predicate AllSet(bitmap: Bytes, h: Word, n: nat, bits: nat)
    requires bits > 0
  {
    forall j: nat :: j < n ==> BitOf(bitmap, Probe(h, j, bits))
  }

  predicate MayMatch(hash: Bytes -> Word, key: Bytes, filter: Bytes) {
    |filter| >= 2 && var n := |filter| - 1;
      filter[n] > MAX_PROBES || AllSet(filter[..n], hash(key), filter[n], n * 8)
  }

  // ---- the probes ----

  /** The probes of a hash are evenly spaced by the hash rotated right by 17 bits. */
  lemma ProbesAreSpaced(h: Word, j: nat, bits: nat)
    requires bits > 0
    ensures forall i: nat :: i < 32 ==> (TestBit(Delta(h), i) <==> TestBit(h, (i + 17) % 32))
    ensures Probe(h, j, bits) == (h + j * Delta(h)) % 0x1_0000_0000 % bits
  {
    forall i: nat | i < 32 ensures TestBit(Delta(h), i) <==> TestBit(h, (i + 17) % 32) {
      RotateBy17(h, i);
    }
    ProbeHashIs(h, j);
  }

  lemma {:induction false} ProbeHashIs(h: Word, j: nat)
    ensures ProbeHash(h, j) == (h + j * Delta(h)) % 0x1_0000_0000
  {
    hide Delta;
    if j > 0 {
      ProbeHashIs(h, j - 1);
      var d, before := Delta(h), h + (j - 1) * Delta(h);
      assert h + j * d == before + d;
      WrapsOnce(before, d);
    }
  }

  lemma WrapsOnce(a: nat, b: nat)
    ensures (a % 0x1_0000_0000 + b) % 0x1_0000_0000 == (a + b) % 0x1_0000_0000
  {
  }

  /** The bit array is the least number of whole bytes for 64 bits and for `bitsPerKey` a key. */
  lemma ArrayIsLeast(n: nat, bitsPerKey: nat)
    ensures
      var bits := ArraySize(n, bitsPerKey) * 8;
      bits >= 64 && bits >= n * bitsPerKey && (bits > 64 ==> bits < n * bitsPerKey + 8)
  {
  }

  lemma NoBits(bitmap: Bytes)
    requires forall i :: 0 <= i < |bitmap| ==> bitmap[i] == 0
    ensures forall p: nat :: !BitOf(bitmap, p)
  {
    forall p: nat ensures !BitOf(bitmap, p) {
      NoBitsInZero(p % 8);
    }
  }

  lemma OneMoreKey(hash: Bytes -> Word, keys: seq<Bytes>, i: nat, probes: nat, bits: nat, p: nat)
    requires i < |keys| && bits > 0
    ensures Probed(hash, keys, i + 1, probes, bits, p) <==>
      Probed(hash, keys, i, probes, bits, p) || ProbedBy(hash(keys[i]), probes, bits, p)
  {
  }

  lemma OneMoreProbe(h: Word, j: nat, bits: nat, p: nat)
    requires bits > 0
    ensures ProbedBy(h, j + 1, bits, p) <==> ProbedBy(h, j, bits, p) || Probe(h, j, bits) == p
  {
  }

  /** No false negatives: whatever the hash function does, a key the filter was made for matches. */
  lemma NoFalseNegatives(hash: Bytes -> Word, keys: seq<Bytes>, probes: nat, filter: Bytes, key: Bytes)
    requires IsFilterFor(hash, keys, probes, filter) && key in keys
    ensures MayMatch(hash, key, filter)
  {
    var i :| 0 <= i < |keys| && keys[i] == key;
    var n := |filter| - 1;
    forall j: nat | j < probes ensures BitOf(filter[..n], Probe(hash(key), j, n * 8)) {
      assert ProbedBy(hash(keys[i]), probes, n * 8, Probe(hash(key), j, n * 8));
    }
  }

  ghost predicate AllProbed(hash: Bytes -> Word, keys: seq<Bytes>, probes: nat, bits: nat, h: Word)
    requires bits > 0
  {
    forall j: nat :: j < probes ==> Probed(hash, keys, |keys|, probes, bits, Probe(h, j, bits))
  }

  /** A key matches if and only if each of its probes is a probe of some key of the filter. */
  lemma MatchesAreProbed(hash: Bytes -> Word, keys: seq<Bytes>, probes: nat, filter: Bytes, key: Bytes)
    requires IsFilterFor(hash, keys, probes, filter)
    ensures MayMatch(hash, key, filter) <==> AllProbed(hash, keys, probes, (|filter| - 1) * 8, hash(key))
  {
    var n := |filter| - 1;
    assert forall j: nat :: BitOf(filter[..n], Probe(hash(key), j, n * 8)) <==>
      Probed(hash, keys, |keys|, probes, n * 8, Probe(hash(key), j, n * 8));
  }
}
