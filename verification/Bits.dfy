/** Single bits of a word, as numbers. */
module Bits {

  /** b & (1 << i) */
  predicate TestBit(b: nat, i: nat)
    decreases i
  {
    if i == 0 then b % 2 == 1 else TestBit(b / 2, i - 1)
  }

  /** b | (1 << i) */
  function SetBit(b: nat, i: nat): (r: nat)
    decreases i
  {
    if i == 0 then b - b % 2 + 1 else b % 2 + 2 * SetBit(b / 2, i - 1)
  }

  lemma {:induction false} SetBitSets(b: nat, i: nat, j: nat)
    ensures TestBit(SetBit(b, i), j) <==> i == j || TestBit(b, j)
    decreases i
  {
    if i > 0 && j > 0 {
      SetBitSets(b / 2, i - 1, j - 1);
    }
  }

  lemma {:induction false} NoBitsInZero(i: nat)
    ensures !TestBit(0, i)
  {
    if i > 0 {
      NoBitsInZero(i - 1);
    }
  }

  function PowerOfTwo(n: nat): (r: nat)
    ensures r > 0
  {
    if n == 0 then 1 else 2 * PowerOfTwo(n - 1)
  }

  lemma {:induction false} SetBitFits(b: nat, i: nat, n: nat)
    requires i < n && b < PowerOfTwo(n)
    ensures SetBit(b, i) < PowerOfTwo(n)
    decreases i
  {
    if i > 0 {
      SetBitFits(b / 2, i - 1, n - 1);
    }
  }

  /** Of the lowest `n` bits, just the lowest `k` are set. */
  ghost predicate JustLow(w: nat, k: nat, n: nat) {
    forall i: nat :: i < n ==> (TestBit(w, i) <==> i < k)
  }

  lemma JustLowHalves(w: nat, k: nat, n: nat)
    requires 0 < n && k <= n
    ensures JustLow(w, k, n) <==> (w % 2 == 1 <==> 0 < k) && JustLow(w / 2, if k > 0 then k - 1 else 0, n - 1)
  {
    var k' := if k > 0 then k - 1 else 0;
    if JustLow(w, k, n) {
      assert TestBit(w, 0) <==> 0 < k;
      forall i: nat | i < n - 1 ensures TestBit(w / 2, i) <==> i < k' {
        assert TestBit(w, i + 1) <==> i + 1 < k;
      }
    }
    if (w % 2 == 1 <==> 0 < k) && JustLow(w / 2, k', n - 1) {
      forall i: nat | i < n ensures TestBit(w, i) <==> i < k {
        assert i > 0 ==> (TestBit(w / 2, i - 1) <==> i - 1 < k');
      }
    }
  }

  /** A word whose set bits are just the lowest `k` is 2^k - 1, and the other way round. */
  lemma {:induction false} LowBits(w: nat, k: nat, n: nat)
    requires k <= n && w < PowerOfTwo(n)
    ensures w == PowerOfTwo(k) - 1 <==> JustLow(w, k, n)
    decreases n
  {
    if n > 0 {
      LowBits(w / 2, if k > 0 then k - 1 else 0, n - 1);
      JustLowHalves(w, k, n);
    }
  }

  // ---- words put together from others ----

  lemma HalfOfProduct(w: nat, p: nat)
    requires p > 0
    ensures w / (2 * p) == w / 2 / p && (w % (2 * p)) / 2 == w / 2 % p && w % (2 * p) % 2 == w % 2
  {
    var q, r := w / 2 / p, w / 2 % p;
    assert w / 2 == q * p + r;
    assert w == q * (2 * p) + (2 * r + w % 2);
    QuotientIs(w, 2 * p, q, 2 * r + w % 2);
  }

  lemma FactorGrows(a: nat, b: nat, d: nat)
    requires a >= b
    ensures a * d >= b * d
  {
  }

  lemma QuotientIs(w: nat, d: nat, q: nat, r: nat)
    requires w == q * d + r && r < d
    ensures w / d == q && w % d == r
  {
    if w / d < q {
      FactorGrows(q, w / d + 1, d);
    } else if w / d > q {
      FactorGrows(w / d, q + 1, d);
    }
  }

  lemma {:induction false} HighBits(w: nat, k: nat, i: nat, high: nat)
    requires high == w / PowerOfTwo(k)
    ensures TestBit(high, i) <==> TestBit(w, i + k)
    decreases k
  {
    if k > 0 {
      HalfOfProduct(w, PowerOfTwo(k - 1));
      HighBits(w / 2, k - 1, i, high);
    }
  }

  lemma {:induction false} LowPart(w: nat, k: nat, i: nat, low: nat)
    requires low == w % PowerOfTwo(k)
    ensures TestBit(low, i) <==> i < k && TestBit(w, i)
    decreases k
  {
    if k == 0 {
      NoBitsInZero(i);
    } else {
      HalfOfProduct(w, PowerOfTwo(k - 1));
      if i > 0 {
        LowPart(w / 2, k - 1, i - 1, low / 2);
      }
    }
  }

  /** `b` behind the `k` bits of `a`. */
  lemma {:induction false} JoinedBits(a: nat, b: nat, k: nat, i: nat, both: nat)
    requires a < PowerOfTwo(k) && both == a + b * PowerOfTwo(k)
    ensures TestBit(both, i) <==> if i < k then TestBit(a, i) else TestBit(b, i - k)
    decreases k
  {
    if k > 0 {
      var p := PowerOfTwo(k - 1);
      assert both == a + 2 * (b * p);
      if i > 0 {
        assert both / 2 == a / 2 + b * p;
        JoinedBits(a / 2, b, k - 1, i - 1, both / 2);
      }
    }
  }

  lemma {:induction false} PowersAdd(a: nat, b: nat)
    ensures PowerOfTwo(a + b) == PowerOfTwo(a) * PowerOfTwo(b)
    decreases a
  {
    if a > 0 {
      PowersAdd(a - 1, b);
      var p, q := PowerOfTwo(a - 1), PowerOfTwo(b);
      assert 2 * (p * q) == (2 * p) * q;
    }
  }

  lemma {:induction false} ComplementBits(w: nat, n: nat, i: nat)
    requires w < PowerOfTwo(n) && i < n
    ensures TestBit(PowerOfTwo(n) - 1 - w, i) <==> !TestBit(w, i)
    decreases i
  {
    if i > 0 {
      var v := PowerOfTwo(n) - 1 - w;
      assert v / 2 == PowerOfTwo(n - 1) - 1 - w / 2;
      ComplementBits(w / 2, n - 1, i - 1);
    }
  }

  lemma PowersUpTo64()
    ensures PowerOfTwo(15) == 0x8000 && PowerOfTwo(17) == 0x2_0000 && PowerOfTwo(32) == 0x1_0000_0000
    ensures PowerOfTwo(63) == 0x8000_0000_0000_0000 && PowerOfTwo(64) == 0x1_0000_0000_0000_0000
  {
    assert PowerOfTwo(8) == 0x100 by {
      assert PowerOfTwo(4) == 0x10;
    }
    assert PowerOfTwo(7) == 0x80;
    PowersAdd(8, 7);
    PowersAdd(8, 8);
    PowersAdd(16, 1);
    PowersAdd(16, 16);
    PowersAdd(32, 16);
    PowersAdd(48, 15);
    PowersAdd(32, 32);
  }

  /** Rotating right by 17 moves each bit. */
  lemma RotateBy17(w: nat, i: nat)
    requires w < 0x1_0000_0000 && i < 32
    ensures TestBit(w / 0x2_0000 + w % 0x2_0000 * 0x8000, i) <==> TestBit(w, (i + 17) % 32)
  {
    hide PowerOfTwo, TestBit;
    PowersUpTo64();
    assert w / 0x2_0000 < 0x8000;
    JoinedBits(w / 0x2_0000, w % 0x2_0000, 15, i, w / 0x2_0000 + w % 0x2_0000 * 0x8000);
    if i < 15 {
      HighBits(w, 17, i, w / 0x2_0000);
    } else {
      LowPart(w, 17, i - 15, w % 0x2_0000);
    }
  }

  /** And by 15. */
  lemma RotateBy15(w: nat, i: nat)
    requires w < 0x1_0000_0000 && i < 32
    ensures TestBit(w / 0x8000 + w % 0x8000 * 0x2_0000, i) <==> TestBit(w, (i + 15) % 32)
  {
    hide PowerOfTwo, TestBit;
    PowersUpTo64();
    assert w / 0x8000 < 0x2_0000;
    JoinedBits(w / 0x8000, w % 0x8000, 17, i, w / 0x8000 + w % 0x8000 * 0x2_0000);
    if i < 17 {
      HighBits(w, 15, i, w / 0x8000);
    } else {
      LowPart(w, 15, i - 17, w % 0x8000);
    }
  }
}
