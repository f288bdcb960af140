/** The default comparator on byte strings, its embedding into the reals, and the short keys it
    finds between two others and behind one. */
module BytewiseOrder {
  import opened Keys
  import opened Sequences

  /** Slice::compare(a, b) < 0: memcmp, then the shorter one first. */
  predicate Less(a: Bytes, b: Bytes) {
    b != [] && (a == [] || a[0] < b[0] || (a[0] == b[0] && Less(a[1..], b[1..])))
  }

  lemma {:induction false} LessIsTotal(a: Bytes, b: Bytes)
    ensures Less(a, b) || Less(b, a) || a == b
    ensures !(Less(a, b) && Less(b, a)) && !Less(a, a)
  {
    if a != [] && b != [] {
      LessIsTotal(a[1..], b[1..]);
      assert a == [a[0]] + a[1..] && b == [b[0]] + b[1..];
      LessIsTotal(a[1..], a[1..]);
    } else if a != [] {
      LessIsTotal(a[1..], a[1..]);
    }
  }

  lemma {:induction false} LessIsTransitive(a: Bytes, b: Bytes, c: Bytes)
    requires Less(a, b) && Less(b, c)
    ensures Less(a, c)
  {
    if a != [] && a[0] == b[0] == c[0] {
      LessIsTransitive(a[1..], b[1..], c[1..]);
    }
  }

  // ---- positions ----

  /** The position of a byte string in the order. */
  function Rank(a: Bytes): (r: real)
    ensures 0.0 <= r < 1.0
  {
    if a == [] then 0.0 else ((a[0] as int + 1) as real + Rank(a[1..])) / 257.0
  }

  /** The embedding keeps and reflects the order, so that a user key is its position. */
  lemma {:induction false} RankEmbeds(a: Bytes, b: Bytes)
    ensures Less(a, b) <==> Rank(a) < Rank(b)
    ensures a == b <==> Rank(a) == Rank(b)
  {
    if a != [] && b != [] {
      RankEmbeds(a[1..], b[1..]);
      assert a == [a[0]] + a[1..] && b == [b[0]] + b[1..];
      if a[0] < b[0] {
        assert (a[0] as int + 1) as real + 1.0 <= (b[0] as int + 1) as real;
      } else if b[0] < a[0] {
        assert (b[0] as int + 1) as real + 1.0 <= (a[0] as int + 1) as real;
      }
    }
  }

  // ---- short separators ----

  lemma {:induction false} LessAfterPrefix(a: Bytes, b: Bytes, n: nat)
    requires SharesPrefix(a, b, n)
    ensures Less(a, b) <==> Less(a[n..], b[n..])
    decreases n
  {
    if n > 0 {
      assert a[0] == a[..n][0] == b[..n][0] == b[0];
      assert a[1..][..n - 1] == a[..n][1..] && b[1..][..n - 1] == b[..n][1..];
      LessAfterPrefix(a[1..], b[1..], n - 1);
      assert a[1..][n - 1..] == a[n..] && b[1..][n - 1..] == b[n..];
      LessIsTotal(a, b);
    } else {
      assert a[0..] == a && b[0..] == b;
    }
  }

  /** Behind the first bytes that differ there is room for one more between the two. */
  predicate RoomAt(start: Bytes, limit: Bytes, i: nat) {
    SharesPrefix(start, limit, i) && i < |start| && i < |limit| && start[i] as int + 1 < limit[i]
  }

  /** Byte `i` is the first that is not 0xff. */
  predicate GrowsAt(key: Bytes, i: nat) {
    i < |key| && key[i] != 0xff && forall j :: 0 <= j < i ==> key[j] == 0xff
  }

  lemma OneDifference(a: Bytes, b: Bytes, n: nat, i: nat)
    requires SharesPrefix(a, b, n) && (n == |a| || n == |b| || a[n] != b[n])
    requires SharesPrefix(a, b, i) && i < |a| && i < |b| && a[i] != b[i]
    ensures i == n
  {
    SharedAgree(a, b, n);
    SharedAgree(a, b, i);
  }

  /** A string between `start` and `limit`, no longer than `start`: cut at the first difference and one
      up there, where that is possible. */
  method FindShortestSeparator(start: Bytes, limit: Bytes) returns (separator: Bytes)
    ensures |separator| <= |start|
    ensures forall i: nat :: RoomAt(start, limit, i) ==> separator == start[..i] + [start[i] + 1]
    ensures separator == start || exists i: nat :: RoomAt(start, limit, i)
    ensures separator == start || (Less(start, separator) && Less(separator, limit))
  {
    var minLength := if |start| < |limit| then |start| else |limit|;
    var diffIndex := 0;
    while diffIndex < minLength && start[diffIndex] == limit[diffIndex]
      invariant diffIndex <= minLength && SharesPrefix(start, limit, diffIndex)
    {
      diffIndex := diffIndex + 1;
    }
    forall i: nat | RoomAt(start, limit, i) ensures i == diffIndex {
      OneDifference(start, limit, diffIndex, i);
    }
    separator := start;
    if diffIndex >= minLength {
      // One string is a prefix of the other.
    } else {
      var diffByte := start[diffIndex];
      if diffByte < 0xff && diffByte + 1 < limit[diffIndex] {
        separator := start[..diffIndex] + [diffByte + 1];
        assert RoomAt(start, limit, diffIndex);
        assert separator[..diffIndex] == start[..diffIndex];
        LessAfterPrefix(start, separator, diffIndex);
        LessAfterPrefix(separator, limit, diffIndex);
      }
    }
  }

  /** A string at or after `key`, no longer than it. */
  method FindShortSuccessor(key: Bytes) returns (successor: Bytes)
    ensures |successor| <= |key|
    ensures successor == key || Less(key, successor)
    ensures successor == key ==> forall i :: 0 <= i < |key| ==> key[i] == 0xff
    ensures forall i: nat :: GrowsAt(key, i) ==> successor == key[..i] + [key[i] + 1]
    ensures successor == key || exists i: nat :: GrowsAt(key, i)
  {
    for i := 0 to |key|
      invariant forall j :: 0 <= j < i ==> key[j] == 0xff
    {
      var b := key[i];
      if b != 0xff {
        successor := key[..i] + [b + 1];
        assert GrowsAt(key, i) && forall n: nat :: GrowsAt(key, n) ==> n == i;
        assert successor[..i] == key[..i];
        LessAfterPrefix(key, successor, i);
        return;
      }
    }
    successor := key;
  }
}
