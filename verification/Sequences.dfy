/** Sequences laid end to end: blocks in a table, tables in a level, logs in the order of recovery. */
module Sequences {

  function Concat<T>(blocks: seq<seq<T>>): seq<T> {
    if blocks == [] then [] else Concat(blocks[..|blocks| - 1]) + blocks[|blocks| - 1]
  }

  /** Where block `i` begins in the concatenation. */
  function Start<T>(blocks: seq<seq<T>>, i: nat): nat
    requires i <= |blocks|
  {
    |Concat(blocks[..i])|
  }

  lemma {:induction false} BlockInConcat<T>(blocks: seq<seq<T>>, i: nat)
    requires i < |blocks|
    ensures Start(blocks, i) + |blocks[i]| == Start(blocks, i + 1) <= |Concat(blocks)|
    ensures forall k :: 0 <= k < |blocks[i]| ==> Concat(blocks)[Start(blocks, i) + k] == blocks[i][k]
  {
    var last := |blocks| - 1;
    assert blocks[..i + 1][..i] == blocks[..i];
    if i < last {
      BlockInConcat(blocks[..last], i);
      assert blocks[..last][..i] == blocks[..i] && blocks[..last][..i + 1] == blocks[..i + 1];
    } else {
      assert blocks[..i + 1] == blocks;
    }
  }

  lemma StartEnds<T>(blocks: seq<seq<T>>)
    ensures Start(blocks, 0) == 0 && Start(blocks, |blocks|) == |Concat(blocks)|
  {
    assert blocks[..|blocks|] == blocks;
  }

  lemma {:induction false} StartsIncrease<T>(blocks: seq<seq<T>>, i: nat, j: nat)
    requires i <= j <= |blocks|
    ensures Start(blocks, i) <= Start(blocks, j)
    decreases j
  {
    if i < j {
      BlockInConcat(blocks, j - 1);
      StartsIncrease(blocks, i, j - 1);
    }
  }

  /** Every position lies in one block. */
  lemma {:induction false} BlockOf<T>(blocks: seq<seq<T>>, p: nat) returns (i: nat, k: nat)
    requires p < |Concat(blocks)|
    ensures i < |blocks| && k < |blocks[i]| && p == Start(blocks, i) + k
  {
    var last := |blocks| - 1;
    if p >= |Concat(blocks[..last])| {
      i, k := last, p - |Concat(blocks[..last])|;
    } else {
      i, k := BlockOf(blocks[..last], p);
      assert blocks[..last][..i] == blocks[..i];
    }
  }

  lemma {:induction false} InConcat<T>(blocks: seq<seq<T>>, e: T)
    ensures e in Concat(blocks) <==> exists i :: 0 <= i < |blocks| && e in blocks[i]
  {
    if blocks != [] {
      var init := blocks[..|blocks| - 1];
      InConcat(init, e);
      if i :| 0 <= i < |blocks| && e in blocks[i] {
        assert i < |init| ==> e in init[i];
      }
    }
  }

  // ---- slices ----

  lemma SliceOfSlice<T>(s: seq<T>, lo: nat, hi: nat, a: nat, b: nat)
    requires a <= b && lo + b <= hi <= |s|
    ensures s[lo..hi][a..b] == s[lo + a..lo + b]
  {
    var x, y := s[lo..hi][a..b], s[lo + a..lo + b];
    assert forall k :: 0 <= k < b - a ==> x[k] == s[lo + a + k] && y[k] == s[lo + a + k];
  }

  /** Sequences with a common front have the slices of it in common. */
  lemma SameSlice<T>(a: seq<T>, b: seq<T>, n: nat, lo: nat, hi: nat)
    requires lo <= hi <= n && n <= |a| && n <= |b| && a[..n] == b[..n]
    ensures a[lo..hi] == b[lo..hi]
  {
    assert a[lo..hi] == a[..n][lo..hi] && b[lo..hi] == b[..n][lo..hi];
  }

  // ---- common prefixes ----

  predicate SharesPrefix<T(==)>(a: seq<T>, b: seq<T>, n: nat) {
    n <= |a| && n <= |b| && a[..n] == b[..n]
  }

  lemma SharedAgree<T>(a: seq<T>, b: seq<T>, n: nat)
    requires SharesPrefix(a, b, n)
    ensures forall j :: 0 <= j < n ==> a[j] == b[j]
  {
    assert forall j :: 0 <= j < n ==> a[..n][j] == a[j] && b[..n][j] == b[j];
  }

  /** No longer prefix is common to both. */
  ghost predicate SharesLongest<T>(a: seq<T>, b: seq<T>, n: nat) {
    SharesPrefix(a, b, n) && forall m: nat :: SharesPrefix(a, b, m) ==> m <= n
  }

  lemma DifferEnds<T>(a: seq<T>, b: seq<T>, n: nat)
    requires SharesPrefix(a, b, n) && (n == |a| || n == |b| || a[n] != b[n])
    ensures SharesLongest(a, b, n)
  {
    forall m: nat | SharesPrefix(a, b, m) ensures m <= n {
      SharedAgree(a, b, m);
    }
  }
}
