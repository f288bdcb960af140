/** One shard of the cache: handles counted by reference, a hash table of those in the cache, and
    two circular lists of them, in use and least recently used first.  A handle is its number; the
    dummy heads of the lists are the first two. */
module LruCaches {
  import opened Keys
  import opened HandleTables

  // ---- circular doubly linked lists ----

  datatype Links = Links(next: seq<nat>, prev: seq<nat>)

  const LRU: nat := 0
  const IN_USE: nat := 1

  predicate Follows(l: Links, x: nat, y: nat) {
    x < |l.next| && y < |l.prev| && l.next[x] == y && l.prev[y] == x
  }

  /** From the head through the elements and back. */
  function Circle(head: nat, elems: seq<nat>): seq<nat> {
    [head] + elems + [head]
  }

  ghost predicate IsRing(l: Links, head: nat, elems: seq<nat>) {
    forall i :: 0 <= i <= |elems| ==> Follows(l, Circle(head, elems)[i], Circle(head, elems)[i + 1])
  }

  /** LRU_Remove */
  function Unlink(l: Links, e: nat): Links
    requires e < |l.next| && e < |l.prev| && l.next[e] < |l.prev| && l.prev[e] < |l.next|
  {
    Links(l.next[l.prev[e] := l.next[e]], l.prev[l.next[e] := l.prev[e]])
  }

  /** LRU_Append: just before the head, as the newest. */
  function LinkBefore(l: Links, head: nat, e: nat): Links
    requires e < |l.next| && e < |l.prev| && head < |l.prev| && head < |l.next| && l.prev[head] < |l.next|
  {
    Links(l.next[e := head][l.prev[head] := e], l.prev[e := l.prev[head]][head := e])
  }

  ghost predicate Apart(head: nat, elems: seq<nat>, e: nat) {
    e != head && e !in elems
  }

  lemma UnlinkOk(l: Links, head: nat, elems: seq<nat>, j: nat)
    requires IsRing(l, head, elems) && NoDuplicates([head] + elems) && j < |elems|
    ensures
      var e := elems[j];
      && e < |l.next| && e < |l.prev| && l.next[e] < |l.prev| && l.prev[e] < |l.next|
      && IsRing(Unlink(l, e), head, elems[..j] + elems[j + 1..])
  {
    var c := Circle(head, elems);
    assert Follows(l, c[j], c[j + 1]) && Follows(l, c[j + 1], c[j + 2]);
    var e, rest := elems[j], elems[..j] + elems[j + 1..];
    var d := Circle(head, rest);
    var l' := Unlink(l, e);
    assert forall i :: 0 <= i <= j ==> d[i] == c[i];
    assert forall i :: j < i < |d| ==> d[i] == c[i + 1];
    forall i | 0 <= i <= |rest| ensures Follows(l', d[i], d[i + 1]) {
      if i < j {
        assert Follows(l, c[i], c[i + 1]);
        assert ([head] + elems)[i] == c[i] && ([head] + elems)[j] == c[j] && ([head] + elems)[i + 1] == c[i + 1];
      } else if i > j {
        assert Follows(l, c[i + 1], c[i + 2]);
        assert ([head] + elems)[i + 1] == c[i + 1] && ([head] + elems)[j] == c[j];
        RingDistinct(head, elems, i + 2, j + 2);
      }
    }
  }

  /** Only the head occurs twice in the circle. */
  lemma RingDistinct(head: nat, elems: seq<nat>, i: nat, j: nat)
    requires NoDuplicates([head] + elems) && 0 < j < i < |Circle(head, elems)|
    ensures Circle(head, elems)[i] != Circle(head, elems)[j]
  {
    var c, d := Circle(head, elems), [head] + elems;
    assert c[j] == d[j];
    assert if i < |d| then c[i] == d[i] else c[i] == d[0];
  }

  lemma LinkBeforeOk(l: Links, head: nat, elems: seq<nat>, e: nat)
    requires IsRing(l, head, elems) && NoDuplicates([head] + elems) && Apart(head, elems, e)
    requires e < |l.next| && e < |l.prev|
    ensures head < |l.prev| && head < |l.next| && l.prev[head] < |l.next|
    ensures IsRing(LinkBefore(l, head, e), head, elems + [e])
  {
    var c := Circle(head, elems);
    var n := |elems|;
    assert Follows(l, c[0], c[1]) && Follows(l, c[n], c[n + 1]);
    var d, l' := Circle(head, elems + [e]), LinkBefore(l, head, e);
    assert forall i :: 0 <= i <= n ==> d[i] == c[i];
    forall i | 0 <= i <= n + 1 ensures Follows(l', d[i], d[i + 1]) {
      if i < n {
        assert Follows(l, c[i], c[i + 1]);
        assert ([head] + elems)[i] == c[i] && ([head] + elems)[n] == c[n] && ([head] + elems)[i + 1] == c[i + 1];
        assert c[i + 1] in elems && c[i] in [head] + elems;
      }
    }
  }

  /** Stores into other nodes leave a ring as it is. */
  lemma RingUndisturbed(l: Links, l': Links, head: nat, elems: seq<nat>)
    requires IsRing(l, head, elems)
    requires |l.next| <= |l'.next| && |l.prev| <= |l'.prev|
    requires forall x :: x in [head] + elems && x < |l.next| ==> l'.next[x] == l.next[x]
    requires forall x :: x in [head] + elems && x < |l.prev| ==> l'.prev[x] == l.prev[x]
    ensures IsRing(l', head, elems)
  {
    var c := Circle(head, elems);
    forall i | 0 <= i <= |elems| ensures Follows(l', c[i], c[i + 1]) {
      assert Follows(l, c[i], c[i + 1]);
      assert c[i] in [head] + elems && c[i + 1] in [head] + elems;
    }
  }

  lemma NeighboursInRing(l: Links, head: nat, elems: seq<nat>, e: nat)
    requires IsRing(l, head, elems) && e in [head] + elems
    ensures e < |l.next| && e < |l.prev| && l.next[e] in [head] + elems && l.prev[e] in [head] + elems
  {
    var c := Circle(head, elems);
    var j :| 0 <= j < |elems| + 1 && ([head] + elems)[j] == e;
    assert Follows(l, c[j], c[j + 1]);
    assert c[j + 1] in [head] + elems;
    if j == 0 {
      assert Follows(l, c[|elems|], c[|elems| + 1]);
      assert c[|elems|] in [head] + elems;
    } else {
      assert Follows(l, c[j - 1], c[j]);
      assert c[j - 1] in [head] + elems;
    }
  }

  // ---- the two lists together ----

  ghost predicate ListsOk(l: Links, lru: seq<nat>, inUse: seq<nat>) {
    && IsRing(l, LRU, lru) && IsRing(l, IN_USE, inUse)
    && NoDuplicates([LRU] + lru) && NoDuplicates([IN_USE] + inUse)
    && forall x :: x in [LRU] + lru ==> x !in [IN_USE] + inUse
  }

  function Without(s: seq<nat>, e: nat): (r: seq<nat>)
    ensures forall x :: x in r <==> x in s && x != e
  {
    if s == [] then []
    else
      var rest := Without(s[..|s| - 1], e);
      assert s == s[..|s| - 1] + [s[|s| - 1]];
      if s[|s| - 1] == e then rest else rest + [s[|s| - 1]]
  }

  lemma {:induction false} WithoutAbsent(s: seq<nat>, e: nat)
    requires e !in s
    ensures Without(s, e) == s
  {
    if s != [] {
      WithoutAbsent(s[..|s| - 1], e);
    }
  }

  lemma {:induction false} WithoutAt(s: seq<nat>, j: nat)
    requires NoDuplicates(s) && j < |s|
    ensures Without(s, s[j]) == s[..j] + s[j + 1..]
  {
    var last := |s| - 1;
    if j == last {
      WithoutAbsent(s[..last], s[j]);
    } else {
      WithoutAt(s[..last], j);
      assert s[..last][..j] == s[..j];
      assert s[..j] + s[j + 1..] == s[..j] + s[..last][j + 1..] + [s[last]];
    }
  }

  lemma TailNoDuplicates(head: nat, s: seq<nat>)
    requires NoDuplicates([head] + s)
    ensures NoDuplicates(s) && head !in s
  {
    forall i, j | 0 <= i < j < |s| ensures s[i] != s[j] {
      assert ([head] + s)[i + 1] == s[i] && ([head] + s)[j + 1] == s[j];
    }
    forall i | 0 <= i < |s| ensures s[i] != head {
      assert ([head] + s)[0] == head && ([head] + s)[i + 1] == s[i];
    }
  }

  lemma WithoutHead(head: nat, s: seq<nat>, e: nat)
    requires NoDuplicates([head] + s) && e in s
    ensures NoDuplicates([head] + Without(s, e))
  {
    TailNoDuplicates(head, s);
    var j :| 0 <= j < |s| && s[j] == e;
    WithoutAt(s, j);
    WithoutOne(s, j);
  }

  lemma UnlinkFromRing(l: Links, head: nat, elems: seq<nat>, e: nat)
    requires IsRing(l, head, elems) && NoDuplicates([head] + elems) && e in elems
    ensures e < |l.next| && e < |l.prev| && l.next[e] < |l.prev| && l.prev[e] < |l.next|
    ensures IsRing(Unlink(l, e), head, Without(elems, e)) && NoDuplicates([head] + Without(elems, e))
    ensures l.next[e] in [head] + elems && l.prev[e] in [head] + elems
  {
    TailNoDuplicates(head, elems);
    var j :| 0 <= j < |elems| && elems[j] == e;
    UnlinkOk(l, head, elems, j);
    WithoutAt(elems, j);
    WithoutHead(head, elems, e);
    NeighboursInRing(l, head, elems, e);
  }

  /** LRU_Remove takes a handle out of the list it is on and does not touch the other. */
  lemma RemoveOk(l: Links, lru: seq<nat>, inUse: seq<nat>, e: nat)
    requires ListsOk(l, lru, inUse) && (e in lru || e in inUse)
    ensures e < |l.next| && e < |l.prev| && l.next[e] < |l.prev| && l.prev[e] < |l.next|
    ensures ListsOk(Unlink(l, e), Without(lru, e), Without(inUse, e))
  {
    hide IsRing, NoDuplicates;
    if e in lru {
      assert e in [LRU] + lru;
      WithoutAbsent(inUse, e);
      UnlinkFromRing(l, LRU, lru, e);
      RingUndisturbed(l, Unlink(l, e), IN_USE, inUse);
    } else {
      WithoutAbsent(lru, e);
      UnlinkFromRing(l, IN_USE, inUse, e);
      RingUndisturbed(l, Unlink(l, e), LRU, lru);
    }
  }

  lemma AppendNoDuplicates(head: nat, s: seq<nat>, e: nat)
    requires NoDuplicates([head] + s) && Apart(head, s, e)
    ensures NoDuplicates([head] + (s + [e]))
  {
    var a, b := [head] + s, [head] + (s + [e]);
    assert b == a + [e];
    assert e !in a;
  }

  /** LRU_Append puts a handle that is on neither list at the new end of one. */
  lemma AppendOk(l: Links, lru: seq<nat>, inUse: seq<nat>, e: nat)
    requires ListsOk(l, lru, inUse) && e !in [LRU] + lru && e !in [IN_USE] + inUse
    requires e < |l.next| && e < |l.prev|
    ensures LRU < |l.prev| && LRU < |l.next| && l.prev[LRU] < |l.next| && ListsOk(LinkBefore(l, LRU, e), lru + [e], inUse)
    ensures IN_USE < |l.prev| && IN_USE < |l.next| && l.prev[IN_USE] < |l.next| && ListsOk(LinkBefore(l, IN_USE, e), lru, inUse + [e])
  {
    hide IsRing, NoDuplicates;
    LinkBeforeOk(l, LRU, lru, e);
    LinkBeforeOk(l, IN_USE, inUse, e);
    NeighboursInRing(l, LRU, lru, LRU);
    NeighboursInRing(l, IN_USE, inUse, IN_USE);
    AppendNoDuplicates(LRU, lru, e);
    AppendNoDuplicates(IN_USE, inUse, e);
    RingUndisturbed(l, LinkBefore(l, LRU, e), IN_USE, inUse);
    RingUndisturbed(l, LinkBefore(l, IN_USE, e), LRU, lru);
  }

  // ---- reference counts ----

  /** A cached handle nobody else refers to is on the LRU list, any other cached one is in use. */
  ghost predicate PlacedOk(refs: seq<nat>, inCache: seq<bool>, lru: seq<nat>, inUse: seq<nat>) {
    && 2 <= |refs| == |inCache|
    && (forall e :: e in lru ==> 2 <= e < |refs| && inCache[e] && refs[e] == 1)
    && (forall e :: e in inUse ==> 2 <= e < |refs| && inCache[e] && refs[e] >= 2)
    && (forall e :: 0 <= e < |refs| && inCache[e] ==> e in lru || e in inUse)
  }

  /** The deleter has run for exactly the handles without references, once for each. */
  ghost predicate DeletedOk(refs: seq<nat>, deletions: seq<nat>) {
    NoDuplicates(deletions) && forall e :: e in deletions <==> 2 <= e < |refs| && refs[e] == 0
  }

  /** The charges of the cached handles below `n`. */
  function Sum(charges: seq<nat>, inCache: seq<bool>, n: nat): nat
    requires n <= |charges| && n <= |inCache|
  {
    if n == 0 then 0 else Sum(charges, inCache, n - 1) + if inCache[n - 1] then charges[n - 1] else 0
  }

  lemma {:induction false} SumWith(charges: seq<nat>, inCache: seq<bool>, n: nat, e: nat, b: bool)
    requires n <= |charges| && n <= |inCache| && e < |inCache|
    ensures
      var change: int := if e < n then (if b then charges[e] as int else 0) - (if inCache[e] then charges[e] else 0) else 0;
      Sum(charges, inCache[e := b], n) == Sum(charges, inCache, n) + change
  {
    if n > 0 {
      SumWith(charges, inCache, n - 1, e, b);
    }
  }

  lemma {:induction false} SumOfPrefix(charges: seq<nat>, charges': seq<nat>, inCache: seq<bool>, inCache': seq<bool>, n: nat)
    requires n <= |charges| && n <= |inCache| && charges <= charges' && inCache <= inCache'
    ensures Sum(charges', inCache', n) == Sum(charges, inCache, n)
  {
    if n > 0 {
      SumOfPrefix(charges, charges', inCache, inCache', n - 1);
    }
  }

  lemma DeleteOne(refs: seq<nat>, deletions: seq<nat>, e: nat)
    requires DeletedOk(refs, deletions) && 2 <= e < |refs| && refs[e] > 0
    ensures refs[e] == 1 ==> DeletedOk(refs[e := 0], deletions + [e])
    ensures refs[e] > 1 ==> DeletedOk(refs[e := refs[e] - 1], deletions)
  {
  }

  /** Every reference is a client's handle or the cache's own. */
  ghost predicate CountsOk(refs: seq<nat>, inCache: seq<bool>, clients: seq<nat>) {
    && |refs| == |inCache| == |clients|
    && forall e :: 2 <= e < |refs| ==> refs[e] == clients[e] + if inCache[e] then 1 else 0
  }

  /** The cached handles are those of the hash table. */
  ghost predicate CachedOk(links: seq<HashLink>, contents: map<CacheKey, nat>, inCache: seq<bool>) {
    && |links| == |inCache|
    && (forall k :: k in contents ==> contents[k] < |inCache| && inCache[contents[k]] && links[contents[k]].key == k)
    && (forall e :: 0 <= e < |inCache| && inCache[e] ==> InContents(links, contents, e))
  }

  /** The table's contents without some handles. */
  function Drop(contents: map<CacheKey, nat>, es: seq<nat>): map<CacheKey, nat> {
    map k | k in contents && contents[k] !in es :: contents[k]
  }

  lemma DropOne(links: seq<HashLink>, contents: map<CacheKey, nat>, inCache: seq<bool>, e: nat)
    requires CachedOk(links, contents, inCache) && e < |inCache| && inCache[e]
    ensures contents - {links[e].key} == Drop(contents, [e])
  {
    assert InContents(links, contents, e);
  }

  lemma DropMore(contents: map<CacheKey, nat>, a: seq<nat>, b: seq<nat>)
    ensures Drop(Drop(contents, a), b) == Drop(contents, a + b)
  {
  }

  lemma UncacheOne(links: seq<HashLink>, links': seq<HashLink>, contents: map<CacheKey, nat>, inCache: seq<bool>, e: nat)
    requires CachedOk(links, contents, inCache) && e < |inCache| && inCache[e]
    requires SameKeys(links, links') && |links'| == |links|
    ensures CachedOk(links', contents - {links[e].key}, inCache[e := false])
  {
    assert InContents(links, contents, e);
    forall d: nat | d < |inCache| && inCache[e := false][d] ensures InContents(links', contents - {links[e].key}, d) {
      assert InContents(links, contents, d);
    }
  }

  /** A new handle takes the place of the one with its key, if there is one. */
  lemma ReplacedCached(links: seq<HashLink>, links': seq<HashLink>, contents: map<CacheKey, nat>, inCache: seq<bool>, key: CacheKey, h: nat)
    requires CachedOk(links, contents, inCache) && h == |links| && SameKeys(links, links') && |links'| == h + 1 && links'[h].key == key
    ensures
      var inCache' := inCache + [true];
      CachedOk(links', contents[key := h], if key in contents then inCache'[contents[key] := false] else inCache')
  {
    var contents' := contents[key := h];
    var inCache' := if key in contents then (inCache + [true])[contents[key] := false] else inCache + [true];
    forall e: nat | e < |inCache'| && inCache'[e] ensures InContents(links', contents', e) {
      if e != h {
        assert InContents(links, contents, e);
      }
    }
  }

  /** One more reference to a handle, which moves to the other list if it was nobody's. */
  lemma RefPlaced(refs: seq<nat>, inCache: seq<bool>, lru: seq<nat>, inUse: seq<nat>, deletions: seq<nat>, e: nat)
    requires PlacedOk(refs, inCache, lru, inUse) && DeletedOk(refs, deletions) && 2 <= e < |refs| && refs[e] >= 1
    ensures
      var refs' := refs[e := refs[e] + 1];
      && DeletedOk(refs', deletions)
      && if inCache[e] && refs[e] == 1 then e in lru && e !in inUse && PlacedOk(refs', inCache, Without(lru, e), inUse + [e])
         else PlacedOk(refs', inCache, lru, inUse)
  {
    var refs' := refs[e := refs[e] + 1];
    forall d ensures d in deletions <==> 2 <= d < |refs'| && refs'[d] == 0 {
    }
  }

  type CacheValue = int

  class LruCache {
    const capacity: nat
    const table: HandleTable
    var usage: nat
    var links: Links
    var refs: seq<nat>
    var inCache: seq<bool>
    var charges: seq<nat>
    var values: seq<CacheValue>
    var deletions: seq<nat>       // history: the handles deleters were called for, in order
    ghost var lru: seq<nat>       // oldest first
    ghost var inUse: seq<nat>
    ghost var clients: seq<nat>   // handles given to clients and not released

    ghost predicate SizesOk()
      reads this
    {
      && |refs| == |inCache| == |charges| == |values| == |links.next| == |links.prev|
    }

    ghost predicate Core()
      reads this
    {
      && SizesOk()
      && ListsOk(links, lru, inUse)
      && PlacedOk(refs, inCache, lru, inUse)
      && DeletedOk(refs, deletions)
      && usage == Sum(charges, inCache, |refs|)
    }

    method Ref(e: nat)
      requires Core() && 2 <= e < |refs| && refs[e] >= 1
      modifies this`refs, this`links, this`lru, this`inUse
      ensures Core() && refs == old(refs)[e := old(refs)[e] + 1]
      ensures
        if old(inCache[e] && refs[e] == 1) then lru == Without(old(lru), e) && inUse == old(inUse) + [e]
        else lru == old(lru) && inUse == old(inUse)
    {
      RefPlaced(refs, inCache, lru, inUse, deletions, e);
      hide ListsOk, Sum, PlacedOk, DeletedOk;
      if refs[e] == 1 && inCache[e] {
        WithoutAbsent(inUse, e);
        MoveTo(IN_USE, e);
      }
      refs := refs[e := refs[e] + 1];
    }

    /** LRU_Remove and LRU_Append together. */
    method MoveTo(head: nat, e: nat)
      requires SizesOk() && ListsOk(links, lru, inUse) && (e in lru || e in inUse) && (head == LRU || head == IN_USE)
      requires 2 <= e < |refs|
      modifies this`links, this`lru, this`inUse
      ensures SizesOk() && ListsOk(links, lru, inUse)
      ensures lru == Without(old(lru), e) + if head == LRU then [e] else []
      ensures inUse == Without(old(inUse), e) + if head == IN_USE then [e] else []
    {
      hide ListsOk;
      RemoveOk(links, lru, inUse, e);
      links, lru, inUse := Unlink(links, e), Without(lru, e), Without(inUse, e);
      AppendOk(links, lru, inUse, e);
      if head == LRU {
        links, lru := LinkBefore(links, LRU, e), lru + [e];
      } else {
        links, inUse := LinkBefore(links, IN_USE, e), inUse + [e];
      }
    }

    method Unref(e: nat)
      requires Core() && 2 <= e < |refs| && refs[e] > 0 && (refs[e] == 1 ==> !inCache[e])
      modifies this`refs, this`links, this`lru, this`inUse, this`deletions
      ensures Core() && refs == old(refs)[e := old(refs)[e] - 1]
      ensures deletions == old(deletions) + if old(refs)[e] == 1 then [e] else []
      ensures
        if inCache[e] && old(refs)[e] == 2 then inUse == Without(old(inUse), e) && lru == old(lru) + [e]
        else lru == old(lru) && inUse == old(inUse)
    {
      hide ListsOk, Sum, DeletedOk;
      DeleteOne(refs, deletions, e);
      refs := refs[e := refs[e] - 1];
      if refs[e] == 0 {
        deletions := deletions + [e];
      } else if inCache[e] && refs[e] == 1 {
        WithoutAbsent(lru, e);
        MoveTo(LRU, e);
      }
    }

    /** Completes the removal of a handle that is no longer in the hash table. */
    method FinishErase(p: Pointer) returns (erased: bool)
      requires Core() && (p.Some? ==> 2 <= p.value < |refs| && inCache[p.value])
      modifies this`refs, this`links, this`lru, this`inUse, this`deletions, this`inCache, this`usage
      ensures Core() && erased == p.Some?
      ensures p.None? ==>
        && refs == old(refs) && inCache == old(inCache) && lru == old(lru) && inUse == old(inUse)
        && deletions == old(deletions) && usage == old(usage)
      ensures p.Some? ==>
        var e := p.value;
        && refs == old(refs)[e := old(refs)[e] - 1] && inCache == old(inCache)[e := false]
        && lru == Without(old(lru), e) && inUse == Without(old(inUse), e)
        && deletions == old(deletions) + (if old(refs)[e] == 1 then [e] else [])
        && usage + charges[e] == old(usage)
    {
      hide ListsOk, Sum, DeletedOk;
      if p.Some? {
        var e := p.value;
        RemoveOk(links, lru, inUse, e);
        links, lru, inUse := Unlink(links, e), Without(lru, e), Without(inUse, e);
        SumWith(charges, inCache, |refs|, e, false);
        inCache := inCache[e := false];
        usage := usage - charges[e];
        Unref(e);
      }
      erased := p.Some?;
    }

    // ---- what clients call ----

    ghost predicate Ok()
      reads this, table
    {
      && Core() && table.Ok()
      && CountsOk(refs, inCache, clients)
      && CachedOk(table.links, table.contents, inCache)
    }

    static lemma NothingCached()
      ensures ListsOk(Links([LRU, IN_USE], [LRU, IN_USE]), [], [])
      ensures Sum([0, 0], [false, false], 2) == 0 && DeletedOk([0, 0], []) && PlacedOk([0, 0], [false, false], [], [])
    {
      assert Sum([0, 0], [false, false], 1) == 0;
    }

    constructor (capacity: nat, hashOf: CacheKey -> nat)
      ensures Ok() && fresh(table) && this.capacity == capacity && table.hashOf == hashOf
      ensures table.contents == map[] && usage == 0 && deletions == []
    {
      hide ListsOk, Sum, DeletedOk, PlacedOk, HandleTable.Ok;
      this.capacity := capacity;
      table := new HandleTable(hashOf);
      usage, deletions, lru, inUse := 0, [], [], [];
      links := Links([LRU, IN_USE], [LRU, IN_USE]);
      refs, inCache, charges, values, clients := [0, 0], [false, false], [0, 0], [0, 0], [0, 0];
      new;
      var a := table.NewHandle([], hashOf([]));
      var b := table.NewHandle([], hashOf([]));
      NothingCached();
    }

    static lemma UnusedHaveOneReference(refs: seq<nat>, inCache: seq<bool>, lru: seq<nat>, inUse: seq<nat>)
      requires PlacedOk(refs, inCache, lru, inUse)
      ensures forall e :: e in lru ==> 0 <= e < |refs| && refs[e] == 1
    {
    }

    static lemma OneMoreClient(refs: seq<nat>, inCache: seq<bool>, clients: seq<nat>, e: nat)
      requires CountsOk(refs, inCache, clients) && 2 <= e < |refs| && inCache[e]
      ensures e < |clients| && refs[e] >= 1
      ensures CountsOk(refs[e := refs[e] + 1], inCache, clients[e := clients[e] + 1])
    {
    }

    method Lookup(key: CacheKey, hash: nat) returns (e: Pointer)
      requires Ok() && hash == table.hashOf(key)
      modifies this
      ensures Ok() && e == if key in table.contents then Some(table.contents[key]) else None
      ensures clients == if e.Some? && e.value < |old(clients)| then old(clients)[e.value := old(clients)[e.value] + 1] else old(clients)
      ensures usage == old(usage) && deletions == old(deletions) && inCache == old(inCache) && values == old(values)
      ensures lru == if e.Some? then Without(old(lru), e.value) else old(lru)
    {
      hide ListsOk, Sum, DeletedOk, PlacedOk, CachedOk, CountsOk, HandleTable.Ok;
      CachedHandle(key);
      UnusedHaveOneReference(refs, inCache, lru, inUse);
      e := table.Lookup(key, hash);
      if e.Some? {
        OneMoreClient(refs, inCache, clients, e.value);
        if e.value !in lru {
          WithoutAbsent(lru, e.value);
        }
        Ref(e.value);
        clients := clients[e.value := clients[e.value] + 1];
      }
    }

    method Release(e: nat)
      requires Ok() && 2 <= e < |clients| && clients[e] > 0
      modifies this
      ensures Ok() && clients == old(clients)[e := old(clients)[e] - 1]
      ensures usage == old(usage) && inCache == old(inCache) && values == old(values)
      ensures deletions == old(deletions) + if old(clients)[e] == 1 && !inCache[e] then [e] else []
      ensures lru == old(lru) + if old(clients)[e] == 1 && inCache[e] then [e] else []
    {
      hide ListsOk, Sum, DeletedOk, HandleTable.Ok;
      Unref(e);
      clients := clients[e := clients[e] - 1];
    }

    /** Takes a cached handle out of the table and out of the cache. */
    method EraseHandle(key: CacheKey, hash: nat) returns (erased: bool)
      requires Ok() && hash == table.hashOf(key)
      modifies this, table
      ensures Ok() && table.contents == old(table.contents) - {key} && erased == (key in old(table.contents))
      ensures clients == old(clients) && charges == old(charges) && values == old(values)
      ensures SameKeys(old(table.links), table.links) && |table.links| == |old(table.links)|
      ensures !erased ==> usage == old(usage) && deletions == old(deletions) && lru == old(lru) && inUse == old(inUse) && inCache == old(inCache)
      ensures erased ==>
        var e := old(table.contents)[key];
        && 2 <= e < |clients| && usage + charges[e] == old(usage) && inCache == old(inCache)[e := false]
        && lru == Without(old(lru), e) && inUse == Without(old(inUse), e)
        && deletions == old(deletions) + if clients[e] == 0 then [e] else []
    {
      hide ListsOk, Sum, DeletedOk, HandleTable.Ok;
      ghost var links0, contents0 := table.links, table.contents;
      var p := table.Remove(key, hash);
      if p.Some? {
        UncacheOne(links0, table.links, contents0, inCache, p.value);
      } else {
        KeysStay(links0, table.links, contents0, inCache, key);
      }
      erased := FinishErase(p);
    }

    /** malloc, and everything Insert does to the new handle before it goes into the table. */
    method NewEntry(key: CacheKey, hash: nat, value: CacheValue, charge: nat) returns (h: nat)
      requires Core() && table.Ok() && |table.links| == |refs| == |clients| && hash == table.hashOf(key)
      modifies this, table`links
      ensures Core() && table.Ok() && h == |old(refs)| && 2 <= h
      ensures SameKeys(old(table.links), table.links) && |table.links| == h + 1 && table.links[h].key == key
      ensures refs == old(refs) + [2] && inCache == old(inCache) + [true] && charges == old(charges) + [charge]
      ensures values == old(values) + [value] && clients == old(clients) + [1]
      ensures lru == old(lru) && inUse == old(inUse) + [h] && usage == old(usage) + charge && deletions == old(deletions)
    {
      hide HandleTable.Ok, ListsOk;
      h := table.NewHandle(key, hash);
      NewInLists(h);
      SumOfPrefix(charges, charges + [charge], inCache, inCache + [true], h);
      links := Links(links.next + [h], links.prev + [h]);
      refs, inCache := refs + [2], inCache + [true];
      charges, values, clients := charges + [charge], values + [value], clients + [1];
      links, inUse := LinkBefore(links, IN_USE, h), inUse + [h];
      usage := usage + charge;
    }

    lemma NewInLists(h: nat)
      requires Core() && h == |refs|
      ensures
        var l := Links(links.next + [h], links.prev + [h]);
        && IN_USE < |l.prev| && IN_USE < |l.next| && l.prev[IN_USE] < |l.next|
        && ListsOk(LinkBefore(l, IN_USE, h), lru, inUse + [h])
    {
      var l := Links(links.next + [h], links.prev + [h]);
      RingUndisturbed(links, l, LRU, lru);
      RingUndisturbed(links, l, IN_USE, inUse);
      AppendOk(l, lru, inUse, h);
    }

    lemma CachedHandle(key: CacheKey)
      requires Core() && CachedOk(table.links, table.contents, inCache)
      ensures key in table.contents ==> 2 <= table.contents[key] < |refs| && inCache[table.contents[key]]
    {
    }

    /** Insert up to the evictions. */
    method AddEntry(key: CacheKey, hash: nat, value: CacheValue, charge: nat) returns (h: nat)
      requires Ok() && hash == table.hashOf(key)
      modifies this, table
      ensures Ok() && h == |old(refs)| && table.contents == old(table.contents)[key := h]
      ensures clients == old(clients) + [1] && charges == old(charges) + [charge] && values == old(values) + [value]
      ensures key !in old(table.contents) ==> lru == old(lru) && deletions == old(deletions) && usage == old(usage) + charge
      ensures key in old(table.contents) ==>
        var e := old(table.contents)[key];
        && 2 <= e < |old(clients)| && lru == Without(old(lru), e) && usage + charges[e] == old(usage) + charge
        && deletions == old(deletions) + if old(clients)[e] == 0 then [e] else []
    {
      hide ListsOk, Sum, DeletedOk, HandleTable.Ok, PlacedOk, Without;
      ghost var links0, contents0, inCache0 := table.links, table.contents, inCache;
      assert key in contents0 ==> 2 <= contents0[key] < |refs| && inCache[contents0[key]] by {
        CachedHandle(key);
      }
      h := NewEntry(key, hash, value, charge);
      var replaced := table.Insert(h);
      ReplacedCached(links0, table.links, contents0, inCache0, key, h);
      var erased := FinishErase(replaced);
    }

    /** `evicted` handles at the old end of the LRU list, no more than needed, make room. */
    method Insert(key: CacheKey, hash: nat, value: CacheValue, charge: nat) returns (h: nat, ghost evicted: nat)
      requires Ok() && hash == table.hashOf(key) && capacity > 0
      modifies this, table
      ensures Ok() && h == |old(refs)| && clients == old(clients) + [1] && values == old(values) + [value]
      ensures usage <= capacity || lru == []
      ensures
        var replaced := key in old(table.contents);
        var e := if replaced then old(table.contents)[key] else h;
        var lru1 := if replaced then Without(old(lru), e) else old(lru);
        && evicted <= |lru1| && lru == lru1[evicted..]
        && table.contents == Drop(old(table.contents)[key := h], lru1[..evicted])
        && deletions == old(deletions) + (if replaced && e < |old(clients)| && old(clients)[e] == 0 then [e] else []) + lru1[..evicted]
        && (evicted > 0 ==> lru1[evicted - 1] < |charges| && usage + charges[lru1[evicted - 1]] > capacity)
    {
      hide Ok;
      h := AddEntry(key, hash, value, charge);
      ghost var lru1, contents1, deletions1 := lru, table.contents, deletions;
      evicted := 0;
      while usage > capacity && LruNotEmpty()
        invariant Ok() && evicted <= |lru1| && lru == lru1[evicted..] && clients == old(clients) + [1] && values == old(values) + [value]
        invariant table.contents == Drop(contents1, lru1[..evicted]) && deletions == deletions1 + lru1[..evicted]
        invariant evicted > 0 ==> lru1[evicted - 1] < |charges| && usage + charges[lru1[evicted - 1]] > capacity
        decreases |lru|
      {
        DropMore(contents1, lru1[..evicted], [lru[0]]);
        assert lru1[..evicted + 1] == lru1[..evicted] + [lru[0]];
        EvictOldest();
        evicted := evicted + 1;
      }
      LruEmptyOrNot();
    }

    lemma LruEmptyOrNot()
      requires Ok()
      ensures LruNotEmpty() <==> lru != []
    {
    }

    method Erase(key: CacheKey, hash: nat)
      requires Ok() && hash == table.hashOf(key)
      modifies this, table
      ensures Ok() && table.contents == old(table.contents) - {key}
      ensures clients == old(clients) && values == old(values)
      ensures deletions == old(deletions) +
        if key in old(table.contents) && old(table.contents)[key] < |clients| && clients[old(table.contents)[key]] == 0
        then [old(table.contents)[key]] else []
    {
      hide Core, CountsOk, CachedOk, HandleTable.Ok;
      var erased := EraseHandle(key, hash);
    }

    /** Drops the least recently used handle that no client refers to. */
    method EvictOldest()
      requires Ok() && lru != []
      modifies this, table
      ensures Ok() && clients == old(clients) && charges == old(charges) && values == old(values) && inUse == old(inUse)
      ensures lru == old(lru)[1..] && deletions == old(deletions) + [old(lru)[0]]
      ensures old(lru)[0] < |charges| && usage + charges[old(lru)[0]] == old(usage)
      ensures table.contents == Drop(old(table.contents), [old(lru)[0]])
    {
      hide ListsOk, Sum, DeletedOk, HandleTable.Ok;
      var oldest := links.next[LRU];
      OldestIsFirst();
      DropOne(table.links, table.contents, inCache, oldest);
      WithoutFirst();
      var erased := EraseHandle(table.links[oldest].key, table.links[oldest].hash);
    }

    lemma OldestIsFirst()
      requires Ok() && lru != []
      ensures LRU < |links.next| && links.next[LRU] == lru[0] && 2 <= lru[0] < |refs|
      ensures refs[lru[0]] == 1 && inCache[lru[0]] && clients[lru[0]] == 0 && lru[0] < |table.links|
      ensures InContents(table.links, table.contents, lru[0]) && table.links[lru[0]].hash == table.hashOf(table.links[lru[0]].key)
    {
      assert Follows(links, Circle(LRU, lru)[0], Circle(LRU, lru)[1]);
      assert lru[0] in lru;
    }

    lemma WithoutFirst()
      requires Ok() && lru != []
      ensures Without(lru, lru[0]) == lru[1..] && Without(inUse, lru[0]) == inUse
    {
      TailNoDuplicates(LRU, lru);
      WithoutAt(lru, 0);
      assert lru[0] in lru;
      WithoutAbsent(inUse, lru[0]);
    }

    /** Drops everything no client refers to, oldest first. */
    method Prune()
      requires Ok()
      modifies this, table
      ensures Ok() && lru == [] && clients == old(clients) && values == old(values)
      ensures table.contents == Drop(old(table.contents), old(lru)) && deletions == old(deletions) + old(lru)
    {
      hide Ok;
      ghost var k := 0;
      while LruNotEmpty()
        invariant Ok() && k <= |old(lru)| && lru == old(lru)[k..] && clients == old(clients) && values == old(values)
        invariant table.contents == Drop(old(table.contents), old(lru)[..k]) && deletions == old(deletions) + old(lru)[..k]
        decreases |lru|
      {
        DropMore(old(table.contents), old(lru)[..k], [lru[0]]);
        assert old(lru)[..k + 1] == old(lru)[..k] + [lru[0]];
        EvictOldest();
        k := k + 1;
      }
      assert old(lru)[..k] == old(lru);
    }

    /** lru_.next != &lru_ */
    predicate LruNotEmpty()
      requires Ok()
      reads this, table
      ensures LruNotEmpty() <==> lru != []
    {
      NextOfHead();
      links.next[LRU] != LRU
    }

    lemma NextOfHead()
      requires Ok()
      ensures LRU < |links.next| && (links.next[LRU] == LRU <==> lru == [])
    {
      assert Follows(links, Circle(LRU, lru)[0], Circle(LRU, lru)[1]);
      if lru != [] {
        assert lru[0] in lru;
      }
    }
  }

  lemma KeysStay(links: seq<HashLink>, links': seq<HashLink>, contents: map<CacheKey, nat>, inCache: seq<bool>, key: CacheKey)
    requires CachedOk(links, contents, inCache) && SameKeys(links, links') && |links'| == |links| && key !in contents
    ensures CachedOk(links', contents - {key}, inCache) && contents - {key} == contents
  {
    assert contents - {key} == contents;
    forall e: nat | e < |inCache| && inCache[e] ensures InContents(links', contents, e) {
      assert InContents(links, contents, e);
    }
  }
}
