/** The skiplist: nodes that are allocated and linked but never moved or unlinked, one writer, and
    readers that take no lock.  A key is its position in the comparator's order; pointers are
    places in the arena, the head being the first node.  Each store is a function of the list, so
    that the sequential class below and the concurrent runs of SkipListRuns share them. */
module SkipLists {
  import opened Keys

  type Key = real
  type Pointer = Option<nat>

  const MAX_HEIGHT: nat := 12
  const HEAD: nat := 0

  datatype Node = Node(key: Key, next: seq<Pointer>)

  /** `levels` is a history variable: the nodes that have been linked at each level. */
  datatype List = List(nodes: seq<Node>, maxHeight: nat, levels: seq<set<nat>>)

  // ---- what holds at every moment ----

  predicate Linked(l: List, i: nat, n: nat)
    requires i < |l.levels|
  {
    n == HEAD || n in l.levels[i]
  }

  /** Node `m` comes after node `n`. */
  predicate After(l: List, m: nat, n: nat)
    requires m < |l.nodes| && n < |l.nodes|
  {
    n == HEAD || l.nodes[n].key < l.nodes[m].key
  }

  predicate InArena(l: List, i: nat, n: nat) {
    n != HEAD && n < |l.nodes| && i < |l.nodes[n].next|
  }

  ghost predicate ArenaOk(l: List) {
    && |l.levels| == MAX_HEIGHT
    && 0 < |l.nodes| && |l.nodes[HEAD].next| == MAX_HEIGHT
    && forall i: nat, n: nat :: i < MAX_HEIGHT && n in l.levels[i] ==> InArena(l, i, n)
  }

  /** The nodes of a level are among those of the levels below. */
  ghost predicate Nested(levels: seq<set<nat>>, maxHeight: nat) {
    && 1 <= maxHeight <= |levels|
    && (forall i, j :: 0 <= i <= j < |levels| ==> levels[j] <= levels[i])
    && (forall i :: maxHeight <= i < |levels| ==> levels[i] == {})
  }

  ghost predicate DistinctKeys(l: List, ns: set<nat>) {
    forall m: nat, n: nat :: m in ns && n in ns && m != n && InArena(l, 0, m) && InArena(l, 0, n) ==>
      l.nodes[m].key != l.nodes[n].key
  }

  ghost predicate Shape(l: List) {
    ArenaOk(l) && Nested(l.levels, l.maxHeight) && DistinctKeys(l, l.levels[0])
  }

  /** The pointer of `n` at level `i` leads to the next larger node linked there. */
  ghost predicate NextOk(l: List, i: nat, n: nat)
    requires Shape(l) && i < MAX_HEIGHT && Linked(l, i, n)
  {
    assert n == HEAD || InArena(l, i, n);
    match l.nodes[n].next[i]
    case None => forall m: nat :: m in l.levels[i] && InArena(l, i, m) ==> !After(l, m, n)
    case Some(k) =>
      && k in l.levels[i] && InArena(l, i, k) && After(l, k, n)
      && forall m: nat :: m in l.levels[i] && InArena(l, i, m) && After(l, m, n) ==> l.nodes[k].key <= l.nodes[m].key
  }

  /** Every level is strictly sorted, and its nodes are among those of the level below. */
  ghost predicate Ok(l: List) {
    && Shape(l)
    && forall i: nat, n: nat :: i < MAX_HEIGHT && Linked(l, i, n) ==> NextOk(l, i, n)
  }

  ghost function KeySet(l: List): set<Key>
    requires Shape(l)
  {
    set n: nat | n in l.levels[0] && InArena(l, 0, n) :: l.nodes[n].key
  }

  function Empty(): List {
    List([Node(0.0, seq(MAX_HEIGHT, _ => None))], 1, seq(MAX_HEIGHT, _ => {}))
  }

  // ---- the stores of Insert ----

  function RaiseHeight(l: List, height: nat): List {
    if height > l.maxHeight then l.(maxHeight := height) else l
  }

  /** The new node is not reachable, and its pointers are not set. */
  function Allocate(l: List, key: Key, height: nat): List {
    l.(nodes := l.nodes + [Node(key, seq(height, _ => None))])
  }

  function SetNext(l: List, n: nat, i: nat, p: Pointer): List
    requires n < |l.nodes| && i < |l.nodes[n].next|
  {
    l.(nodes := l.nodes[n := l.nodes[n].(next := l.nodes[n].next[i := p])])
  }

  /** x->NoBarrier_SetNext(i, prev[i]->NoBarrier_Next(i)) */
  function CopyNext(l: List, x: nat, prev: nat, i: nat): List
    requires x < |l.nodes| && i < |l.nodes[x].next| && prev < |l.nodes| && i < |l.nodes[prev].next|
  {
    SetNext(l, x, i, l.nodes[prev].next[i])
  }

  /** prev[i]->SetNext(i, x), which makes x reachable at level `i`. */
  function Publish(l: List, x: nat, prev: nat, i: nat): List
    requires prev < |l.nodes| && i < |l.nodes[prev].next| && i < |l.levels|
  {
    var l' := SetNext(l, prev, i, Some(x));
    l'.(levels := l'.levels[i := l'.levels[i] + {x}])
  }

  /** `p` is the last node before `key` at level `i`. */
  ghost predicate IsPrev(l: List, i: nat, p: nat, key: Key)
    requires Shape(l) && i < MAX_HEIGHT
  {
    && Linked(l, i, p)
    && (p == HEAD || (InArena(l, i, p) && l.nodes[p].key < key))
    && forall m: nat :: m in l.levels[i] && InArena(l, i, m) && l.nodes[m].key < key ==> !After(l, m, p)
  }

  lemma EmptyOk()
    ensures Ok(Empty()) && KeySet(Empty()) == {}
  {
  }

  lemma RaiseHeightOk(l: List, height: nat)
    requires Ok(l) && height <= MAX_HEIGHT
    ensures Ok(RaiseHeight(l, height)) && KeySet(RaiseHeight(l, height)) == KeySet(l)
  {
    var l' := RaiseHeight(l, height);
    forall i: nat, n: nat | i < MAX_HEIGHT && Linked(l', i, n) ensures NextOk(l', i, n) {
      assert NextOk(l, i, n);
    }
  }

  lemma AllocateOk(l: List, key: Key, height: nat)
    requires Ok(l)
    ensures Ok(Allocate(l, key, height)) && KeySet(Allocate(l, key, height)) == KeySet(l)
    ensures forall i: nat, p: nat, k: Key :: i < MAX_HEIGHT && IsPrev(l, i, p, k) ==> IsPrev(Allocate(l, key, height), i, p, k)
  {
    var l' := Allocate(l, key, height);
    assert Shape(l');
    forall i: nat, n: nat | i < MAX_HEIGHT && Linked(l', i, n) ensures NextOk(l', i, n) {
      assert NextOk(l, i, n);
    }
  }

  /** A store into a node that is not linked at that level shows nowhere. */
  lemma SetNextOk(l: List, x: nat, j: nat, p: Pointer)
    requires Ok(l) && x < |l.nodes| && j < |l.nodes[x].next| && j < MAX_HEIGHT && !Linked(l, j, x)
    ensures Ok(SetNext(l, x, j, p)) && KeySet(SetNext(l, x, j, p)) == KeySet(l)
    ensures forall i: nat, q: nat, k: Key :: i < MAX_HEIGHT && IsPrev(l, i, q, k) ==> IsPrev(SetNext(l, x, j, p), i, q, k)
  {
    var l' := SetNext(l, x, j, p);
    assert Shape(l');
    forall i: nat, n: nat | i < MAX_HEIGHT && Linked(l', i, n) ensures NextOk(l', i, n) {
      assert NextOk(l, i, n);
      assert l'.nodes[n].next[i] == l.nodes[n].next[i];
    }
  }

  /** Node `x` is linked below level `i` and ready to be published there. */
  ghost predicate Ready(l: List, x: nat, prev: nat, i: nat)
    requires Shape(l) && i < MAX_HEIGHT
  {
    && InArena(l, i, x) && i < l.maxHeight && x !in l.levels[i]
    && (forall j :: 0 <= j < i ==> x in l.levels[j])
    && (forall m: nat :: m in l.levels[0] && InArena(l, 0, m) && m != x ==> l.nodes[m].key != l.nodes[x].key)
    && IsPrev(l, i, prev, l.nodes[x].key) && prev < |l.nodes| && i < |l.nodes[prev].next|
    && l.nodes[x].next[i] == l.nodes[prev].next[i]
  }

  lemma PublishArena(l: List, x: nat, prev: nat, i: nat)
    requires ArenaOk(l) && i < MAX_HEIGHT && InArena(l, i, x) && prev < |l.nodes| && i < |l.nodes[prev].next|
    ensures ArenaOk(Publish(l, x, prev, i))
    ensures forall j: nat, n: nat :: InArena(Publish(l, x, prev, i), j, n) <==> InArena(l, j, n)
  {
    var l' := Publish(l, x, prev, i);
    forall j: nat, n: nat | j < MAX_HEIGHT && n in l'.levels[j] ensures InArena(l', j, n) {
      assert n in l.levels[j] || (j == i && n == x);
    }
  }

  lemma PublishNested(levels: seq<set<nat>>, maxHeight: nat, x: nat, i: nat)
    requires Nested(levels, maxHeight) && i < maxHeight && forall j :: 0 <= j < i ==> x in levels[j]
    ensures Nested(levels[i := levels[i] + {x}], maxHeight)
  {
  }

  lemma PublishKeys(l: List, x: nat, prev: nat, i: nat)
    requires Shape(l) && i < MAX_HEIGHT && Ready(l, x, prev, i) && Shape(Publish(l, x, prev, i))
    ensures KeySet(Publish(l, x, prev, i)) == KeySet(l) + if i == 0 then {l.nodes[x].key} else {}
  {
    hide Nested, DistinctKeys, IsPrev;
    var l' := Publish(l, x, prev, i);
    PublishArena(l, x, prev, i);
    assert l'.levels[0] == l.levels[0] + if i == 0 then {x} else {};
    forall n: nat | n in l'.levels[0] && InArena(l', 0, n) ensures l'.nodes[n].key in KeySet(l) + if i == 0 then {l.nodes[x].key} else {} {
      assert n in l.levels[0] || n == x;
    }
    forall n: nat | n in l.levels[0] && InArena(l, 0, n) ensures l.nodes[n].key in KeySet(l') {
      assert n in l'.levels[0] && InArena(l', 0, n) && l'.nodes[n].key == l.nodes[n].key;
    }
    if i == 0 {
      assert x in l'.levels[0] && InArena(l', 0, x) && l'.nodes[x].key == l.nodes[x].key;
    }
  }

  lemma PublishShape(l: List, x: nat, prev: nat, i: nat)
    requires Shape(l) && i < MAX_HEIGHT && Ready(l, x, prev, i)
    ensures Shape(Publish(l, x, prev, i))
  {
    hide Nested, IsPrev;
    var l' := Publish(l, x, prev, i);
    PublishArena(l, x, prev, i);
    PublishNested(l.levels, l.maxHeight, x, i);
    assert l'.levels[0] == l.levels[0] || l'.levels[0] == l.levels[0] + {x};
    assert forall n: nat :: n < |l.nodes| ==> l'.nodes[n].key == l.nodes[n].key;
  }

  lemma LevelsAreNested(l: List, i: nat)
    requires Ok(l) && i < MAX_HEIGHT
    ensures l.levels[i] <= l.levels[0]
  {
  }

  lemma PublishNext(l: List, x: nat, prev: nat, i: nat, j: nat, n: nat)
    requires Ok(l) && i < MAX_HEIGHT && Ready(l, x, prev, i)
    requires Shape(Publish(l, x, prev, i)) && j < MAX_HEIGHT && Linked(Publish(l, x, prev, i), j, n)
    ensures NextOk(Publish(l, x, prev, i), j, n)
  {
    hide Nested, KeySet;
    LevelsAreNested(l, i);
    var l' := Publish(l, x, prev, i);
    assert NextOk(l, i, prev);
    assert forall n: nat :: n < |l.nodes| ==> l'.nodes[n].key == l.nodes[n].key;
    if j != i {
      assert NextOk(l, j, n);
      assert l'.nodes[n].next[j] == l.nodes[n].next[j];
    } else if n == x {
      assert l'.nodes[x].next[i] == l.nodes[prev].next[i];
      assert forall k: nat :: k in l.levels[i] ==> InArena(l, 0, k) && l.nodes[k].key != l.nodes[x].key;
    } else if n != prev {
      assert NextOk(l, i, n);
      assert l'.nodes[n].next[i] == l.nodes[n].next[i];
      if n == HEAD || l.nodes[n].key < l.nodes[x].key {
        assert n != HEAD ==> !After(l, n, prev) && InArena(l, 0, n);
        assert prev != HEAD ==> InArena(l, 0, prev);
        assert After(l, prev, n);
      }
    }
  }

  lemma PublishOk(l: List, x: nat, prev: nat, i: nat)
    requires Ok(l) && i < MAX_HEIGHT && Ready(l, x, prev, i)
    ensures Ok(Publish(l, x, prev, i))
    ensures KeySet(Publish(l, x, prev, i)) == KeySet(l) + if i == 0 then {l.nodes[x].key} else {}
    ensures forall j: nat, p: nat :: i < j < MAX_HEIGHT && IsPrev(l, j, p, l.nodes[x].key) ==> IsPrev(Publish(l, x, prev, i), j, p, l.nodes[x].key)
  {
    var l' := Publish(l, x, prev, i);
    PublishShape(l, x, prev, i);
    PublishKeys(l, x, prev, i);
    forall j: nat, n: nat | j < MAX_HEIGHT && Linked(l', j, n) ensures NextOk(l', j, n) {
      PublishNext(l, x, prev, i, j, n);
    }
    forall j: nat, p: nat | i < j < MAX_HEIGHT && IsPrev(l, j, p, l.nodes[x].key) ensures IsPrev(l', j, p, l.nodes[x].key) {
      assert l'.levels[j] == l.levels[j];
    }
  }

  // ---- linking a new node ----

  /** Node `x` has been published at the levels below `i`. */
  ghost predicate NewNodeOk(l: List, x: nat, key: Key, i: nat, height: nat)
    requires Shape(l)
  {
    && x != HEAD && x < |l.nodes| && l.nodes[x].key == key && |l.nodes[x].next| == height <= l.maxHeight
    && (forall j :: 0 <= j < MAX_HEIGHT ==> (x in l.levels[j] <==> j < i))
    && (forall m: nat :: m in l.levels[0] && InArena(l, 0, m) && m != x ==> l.nodes[m].key != key)
  }

  lemma PrevAboveTop(l: List, key: Key)
    requires Ok(l)
    ensures forall i: nat :: l.maxHeight <= i < MAX_HEIGHT ==> IsPrev(l, i, HEAD, key)
  {
  }

  lemma RaiseHeightPrev(l: List, height: nat, key: Key)
    requires Ok(l) && height <= MAX_HEIGHT
    ensures
      var l' := RaiseHeight(l, height);
      && Ok(l') && KeySet(l') == KeySet(l) && height <= l'.maxHeight && l'.nodes == l.nodes
      && forall i: nat, p: nat :: i < MAX_HEIGHT && IsPrev(l, i, p, key) ==> IsPrev(l', i, p, key)
  {
    RaiseHeightOk(l, height);
  }

  lemma AllocateFresh(l: List, key: Key, height: nat)
    requires Ok(l) && key !in KeySet(l) && height <= l.maxHeight
    ensures
      var l' := Allocate(l, key, height);
      && Ok(l') && KeySet(l') == KeySet(l) && NewNodeOk(l', |l.nodes|, key, 0, height)
      && forall i: nat, p: nat :: i < MAX_HEIGHT && IsPrev(l, i, p, key) ==> IsPrev(l', i, p, key)
  {
    AllocateOk(l, key, height);
    var l' := Allocate(l, key, height);
    forall m: nat | m in l'.levels[0] && InArena(l', 0, m) ensures m != |l.nodes| && l'.nodes[m].key != key {
      assert InArena(l, 0, m) && l.nodes[m].key in KeySet(l);
    }
    forall j: nat | j < MAX_HEIGHT ensures |l.nodes| !in l'.levels[j] {
      assert |l.nodes| in l.levels[j] ==> InArena(l, j, |l.nodes|);
    }
  }

  /** One turn of Insert's loop: two stores, with the list in order after each of them. */
  lemma LinkOk(l: List, x: nat, prev: nat, key: Key, i: nat, height: nat)
    requires Ok(l) && NewNodeOk(l, x, key, i, height) && i < height <= MAX_HEIGHT && IsPrev(l, i, prev, key)
    ensures InArena(l, i, x) && prev < |l.nodes| && i < |l.nodes[prev].next|
    ensures
      var l1 := CopyNext(l, x, prev, i);
      && Ok(l1) && KeySet(l1) == KeySet(l)
      && prev < |l1.nodes| && i < |l1.nodes[prev].next| && i < |l1.levels|
      && var l2 := Publish(l1, x, prev, i);
      && Ok(l2) && NewNodeOk(l2, x, key, i + 1, height)
      && KeySet(l2) == KeySet(l) + (if i == 0 then {key} else {})
      && forall j: nat, p: nat :: i < j < MAX_HEIGHT && IsPrev(l, j, p, key) ==> IsPrev(l2, j, p, key)
  {
    hide Nested, DistinctKeys, KeySet, NextOk;
    var l1 := CopyNext(l, x, prev, i);
    SetNextOk(l, x, i, l.nodes[prev].next[i]);
    assert Ready(l1, x, prev, i);
    PublishOk(l1, x, prev, i);
    PublishArena(l1, x, prev, i);
  }

  // ---- searching ----

  /** Where a search stands.  Without a target it looks for the end of the list. */
  datatype Search = Search(target: Option<Key>, at: nat, level: nat)

  /** The node's key is before the target; null is after everything. */
  predicate IsBefore(l: List, p: Pointer, target: Option<Key>)
    requires p.Some? ==> p.value < |l.nodes|
  {
    p.Some? && (target.Some? ==> l.nodes[p.value].key < target.value)
  }

  ghost predicate SearchOk(l: List, s: Search)
    requires Shape(l)
  {
    && s.level < MAX_HEIGHT && Linked(l, s.level, s.at)
    && (s.at != HEAD ==> InArena(l, s.level, s.at) && IsBefore(l, Some(s.at), s.target))
  }

  /** Among `ns`, the first node at or after the target; none when all are before it. */
  ghost predicate IsFirstAmong(l: List, ns: set<nat>, target: Option<Key>, p: Pointer) {
    match p
    case None => forall m: nat :: m in ns && m < |l.nodes| ==> IsBefore(l, Some(m), target)
    case Some(k) =>
      && k in ns && k < |l.nodes| && !IsBefore(l, p, target)
      && forall m: nat :: m in ns && m < |l.nodes| && !IsBefore(l, Some(m), target) ==> l.nodes[k].key <= l.nodes[m].key
  }

  /** Among `ns`, the last node before the target, or the head. */
  ghost predicate IsLastAmong(l: List, ns: set<nat>, target: Option<Key>, n: nat) {
    && n < |l.nodes| && (n != HEAD ==> n in ns && IsBefore(l, Some(n), target))
    && forall m: nat :: m in ns && m < |l.nodes| && IsBefore(l, Some(m), target) ==> !After(l, m, n)
  }

  /** Everything linked after a node. */
  ghost function Beyond(l: List, n: nat): set<nat>
    requires n < |l.nodes| && 0 < |l.levels|
  {
    set m: nat | m in l.levels[0] && m < |l.nodes| && After(l, m, n)
  }

  lemma PointerOk(l: List, s: Search)
    requires Ok(l) && SearchOk(l, s)
    ensures s.at < |l.nodes| && s.level < |l.nodes[s.at].next|
    ensures
      var next := l.nodes[s.at].next[s.level];
      next.Some? ==> next.value < |l.nodes| && next.value in l.levels[s.level] && InArena(l, s.level, next.value) && After(l, next.value, s.at)
  {
    assert NextOk(l, s.level, s.at);
  }

  lemma AdvanceOk(l: List, s: Search)
    requires Ok(l) && SearchOk(l, s) && s.at < |l.nodes| && s.level < |l.nodes[s.at].next|
    requires l.nodes[s.at].next[s.level].Some? && l.nodes[s.at].next[s.level].value < |l.nodes|
    requires IsBefore(l, l.nodes[s.at].next[s.level], s.target)
    ensures SearchOk(l, s.(at := l.nodes[s.at].next[s.level].value))
    ensures Beyond(l, l.nodes[s.at].next[s.level].value) < Beyond(l, s.at)
  {
    PointerOk(l, s);
    var k := l.nodes[s.at].next[s.level].value;
    assert l.levels[s.level] <= l.levels[0];
    assert k in Beyond(l, s.at) && k !in Beyond(l, k);
  }

  lemma DescendOk(l: List, s: Search)
    requires Ok(l) && SearchOk(l, s) && s.level > 0
    ensures SearchOk(l, s.(level := s.level - 1))
  {
    assert l.levels[s.level] <= l.levels[s.level - 1];
  }

  /** A search that can go no further at its level has found the last node before the target there. */
  lemma StopsAtPrev(l: List, s: Search)
    requires Ok(l) && SearchOk(l, s) && s.at < |l.nodes| && s.level < |l.nodes[s.at].next| && s.target.Some?
    requires l.nodes[s.at].next[s.level].Some? ==> l.nodes[s.at].next[s.level].value < |l.nodes|
    requires !IsBefore(l, l.nodes[s.at].next[s.level], s.target)
    ensures IsPrev(l, s.level, s.at, s.target.value)
  {
    assert NextOk(l, s.level, s.at);
  }

  /** What a search returns from the bottom level. */
  lemma StopsAtBottom(l: List, s: Search)
    requires Ok(l) && SearchOk(l, s) && s.level == 0 && s.at < |l.nodes| && 0 < |l.nodes[s.at].next|
    requires l.nodes[s.at].next[0].Some? ==> l.nodes[s.at].next[0].value < |l.nodes|
    requires !IsBefore(l, l.nodes[s.at].next[0], s.target)
    ensures IsFirstAmong(l, l.levels[0], s.target, l.nodes[s.at].next[0]) && IsLastAmong(l, l.levels[0], s.target, s.at)
  {
    assert NextOk(l, 0, s.at);
  }

  // ---- the list used by one thread ----

  class SkipList {
    var list: List

    constructor ()
      ensures Ok(list) && KeySet(list) == {}
    {
      list := Empty();
      EmptyOk();
    }

    method FindGreaterOrEqual(key: Key) returns (x: Pointer, prev: seq<nat>)
      requires Ok(list)
      ensures IsFirstAmong(list, list.levels[0], Some(key), x)
      ensures |prev| == MAX_HEIGHT && forall i: nat :: i < list.maxHeight ==> IsPrev(list, i, prev[i], key)
    {
      hide Shape, NextOk, Beyond;
      prev := seq(MAX_HEIGHT, _ => HEAD);
      var s := StartSearch(Some(key));
      while true
        invariant Shape(list) && SearchOk(list, s) && s.target == Some(key) && s.at < |list.nodes| && 0 < |list.levels|
        invariant |prev| == MAX_HEIGHT && s.level < list.maxHeight
        invariant forall i: nat :: s.level < i < list.maxHeight ==> IsPrev(list, i, prev[i], key)
        decreases Beyond(list, s.at), s.level
      {
        PointerOk(list, s);
        var next := list.nodes[s.at].next[s.level];
        if IsBefore(list, next, Some(key)) {
          AdvanceOk(list, s);
          s := s.(at := next.value);
        } else {
          StopsAtPrev(list, s);
          prev := prev[s.level := s.at];
          if s.level == 0 {
            StopsAtBottom(list, s);
            return next, prev;
          }
          DescendOk(list, s);
          s := s.(level := s.level - 1);
        }
      }
    }

    method StartSearch(target: Option<Key>) returns (s: Search)
      requires Ok(list)
      ensures Shape(list) && s == Search(target, HEAD, list.maxHeight - 1) && SearchOk(list, s) && 0 < |list.nodes| && 0 < |list.levels|
    {
      s := Search(target, HEAD, list.maxHeight - 1);
    }

    /** The walk FindLessThan and FindLast share, without a target in FindLast. */
    method FindBefore(target: Option<Key>) returns (x: nat)
      requires Ok(list)
      ensures IsLastAmong(list, list.levels[0], target, x)
    {
      hide Shape, NextOk, Beyond;
      var s := StartSearch(target);
      while true
        invariant Shape(list) && SearchOk(list, s) && s.target == target && s.at < |list.nodes| && 0 < |list.levels|
        decreases Beyond(list, s.at), s.level
      {
        PointerOk(list, s);
        var next := list.nodes[s.at].next[s.level];
        if !IsBefore(list, next, target) {
          if s.level == 0 {
            StopsAtBottom(list, s);
            return s.at;
          }
          DescendOk(list, s);
          s := s.(level := s.level - 1);
        } else {
          AdvanceOk(list, s);
          s := s.(at := next.value);
        }
      }
    }

    method FindLessThan(key: Key) returns (x: nat)
      requires Ok(list)
      ensures IsLastAmong(list, list.levels[0], Some(key), x)
    {
      x := FindBefore(Some(key));
    }

    method FindLast() returns (x: nat)
      requires Ok(list)
      ensures IsLastAmong(list, list.levels[0], None, x)
    {
      x := FindBefore(None);
    }

    method Contains(key: Key) returns (r: bool)
      requires Ok(list)
      ensures r <==> key in KeySet(list)
    {
      var x, _ := FindGreaterOrEqual(key);
      r := x.Some? && list.nodes[x.value].key == key;
    }

    method Insert(key: Key, height: nat)
      requires Ok(list) && key !in KeySet(list)
      requires 1 <= height <= MAX_HEIGHT   // RandomHeight()
      modifies this
      ensures Ok(list) && KeySet(list) == old(KeySet(list)) + {key}
    {
      hide Shape, NextOk, KeySet, IsPrev, RaiseHeight, Allocate;
      var at: Pointer, prev: seq<nat> := FindGreaterOrEqual(key);
      PrevAboveTop(list, key);
      if height > list.maxHeight {
        for i := list.maxHeight to height
          invariant |prev| == MAX_HEIGHT && list == old(list)
          invariant forall j: nat :: j < i ==> IsPrev(list, j, prev[j], key)
        {
          prev := prev[i := HEAD];
        }
      }
      RaiseHeightPrev(list, height, key);
      list := RaiseHeight(list, height);
      var x := |list.nodes|;
      AllocateFresh(list, key, height);
      list := Allocate(list, key, height);
      for i := 0 to height
        invariant Ok(list) && NewNodeOk(list, x, key, i, height)
        invariant KeySet(list) == old(KeySet(list)) + if i > 0 then {key} else {}
        invariant |prev| == MAX_HEIGHT && forall j: nat :: i <= j < height ==> IsPrev(list, j, prev[j], key)
      {
        LinkOk(list, x, prev[i], key, i, height);
        list := CopyNext(list, x, prev[i], i);
        list := Publish(list, x, prev[i], i);
      }
    }
  }

  // ---- SkipList::Iterator ----

  class Iterator {
    const skiplist: SkipList
    var node: Pointer

    ghost predicate InList()
      reads this, skiplist
    {
      Ok(skiplist.list) && (node.Some? ==> node.value in skiplist.list.levels[0] && InArena(skiplist.list, 0, node.value))
    }

    predicate Valid()
      reads this
    {
      node.Some?
    }

    constructor (skiplist: SkipList)
      requires Ok(skiplist.list)
      ensures InList() && !Valid() && this.skiplist == skiplist
    {
      this.skiplist, node := skiplist, None;
    }

    function CurrentKey(): Key
      requires InList() && Valid()
      reads this, skiplist
    {
      skiplist.list.nodes[node.value].key
    }

    /** Goes to the least larger key. */
    method Next()
      requires InList() && Valid()
      modifies this
      ensures InList()
      ensures Valid() <==> exists k :: k in KeySet(skiplist.list) && k > old(CurrentKey())
      ensures Valid() ==> CurrentKey() > old(CurrentKey()) && forall k :: k in KeySet(skiplist.list) && k > old(CurrentKey()) ==> CurrentKey() <= k
    {
      ghost var n := node.value;
      assert NextOk(skiplist.list, 0, n);
      node := skiplist.list.nodes[node.value].next[0];
      if node.Some? {
        assert CurrentKey() in KeySet(skiplist.list);
      }
    }

    /** There are no links back: searches for the greatest smaller key. */
    method Prev()
      requires InList() && Valid()
      modifies this
      ensures InList()
      ensures Valid() <==> exists k :: k in KeySet(skiplist.list) && k < old(CurrentKey())
      ensures Valid() ==> CurrentKey() < old(CurrentKey()) && forall k :: k in KeySet(skiplist.list) && k < old(CurrentKey()) ==> k <= CurrentKey()
    {
      var n := skiplist.FindLessThan(CurrentKey());
      node := if n == HEAD then None else Some(n);
      if node.Some? {
        assert CurrentKey() in KeySet(skiplist.list);
      }
    }

    method Seek(target: Key)
      requires InList()
      modifies this
      ensures InList()
      ensures Valid() <==> exists k :: k in KeySet(skiplist.list) && k >= target
      ensures Valid() ==> CurrentKey() >= target && forall k :: k in KeySet(skiplist.list) && k >= target ==> CurrentKey() <= k
    {
      var x, _ := skiplist.FindGreaterOrEqual(target);
      node := x;
      if node.Some? {
        assert CurrentKey() in KeySet(skiplist.list);
      }
    }

    method SeekToFirst()
      requires InList()
      modifies this
      ensures InList()
      ensures Valid() <==> KeySet(skiplist.list) != {}
      ensures Valid() ==> forall k :: k in KeySet(skiplist.list) ==> CurrentKey() <= k
    {
      assert NextOk(skiplist.list, 0, HEAD);
      node := skiplist.list.nodes[HEAD].next[0];
      if node.Some? {
        assert CurrentKey() in KeySet(skiplist.list);
      }
    }

    method SeekToLast()
      requires InList()
      modifies this
      ensures InList()
      ensures Valid() <==> KeySet(skiplist.list) != {}
      ensures Valid() ==> forall k :: k in KeySet(skiplist.list) ==> k <= CurrentKey()
    {
      var n := skiplist.FindLast();
      node := if n == HEAD then None else Some(n);
      if node.Some? {
        assert CurrentKey() in KeySet(skiplist.list);
      }
    }
  }
}
