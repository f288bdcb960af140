/** The skiplist under one writer and any number of readers without locks: every store of Insert,
    and every pointer a reader loads, is a step of its own, in any interleaving. */
module SkipListRuns {
  import opened Keys
  import opened SkipLists

  datatype Writer =
    | NotInserting
    | Searched(key: Key, height: nat, prev: seq<nat>)      // prev is filled in
    | Raised(key: Key, height: nat, prev: seq<nat>)
    | Linking(x: nat, key: Key, height: nat, prev: seq<nat>, i: nat, copied: bool)

  /** `since` and `seen` are history variables: the nodes linked at the bottom when the search
      began, and when it made its last load. */
  datatype Reader =
    | Searching(search: Search, since: set<nat>)
    | Found(target: Option<Key>, next: Pointer, at: nat, since: set<nat>, seen: set<nat>)

  datatype State = State(list: List, writer: Writer, readers: seq<Reader>)

  datatype Event =
    | BeginInsert(key: Key, height: nat, prev: seq<nat>)
    | StoreHeight
    | AllocateNode
    | StoreNext
    | StorePrev
    | BeginSearch(target: Option<Key>, level: nat)
    | Load(reader: nat)

  /** The writer's own search, which nobody disturbs, with head_ filled in above the top. */
  ghost predicate PrevOk(l: List, key: Key, height: nat, prev: seq<nat>, from: nat)
    requires Shape(l)
  {
    |prev| == MAX_HEIGHT && height <= MAX_HEIGHT && forall j: nat :: from <= j < height ==> IsPrev(l, j, prev[j], key)
  }

  ghost predicate Enabled(s: State, ev: Event) {
    match ev
    case BeginInsert(key, height, prev) =>
      s.writer.NotInserting? && Shape(s.list) && key !in KeySet(s.list) && 1 <= height && PrevOk(s.list, key, height, prev, 0)
    case StoreHeight => s.writer.Searched?
    case AllocateNode => s.writer.Raised?
    case StoreNext => s.writer.Linking? && !s.writer.copied && CanStore(s)
    case StorePrev => s.writer.Linking? && s.writer.copied && CanStore(s)
    case BeginSearch(_, level) => level < s.list.maxHeight && 0 < |s.list.levels|
    case Load(r) => r < |s.readers| && s.readers[r].Searching? && CanLoad(s.list, s.readers[r].search)
  }

  predicate CanStore(s: State)
    requires s.writer.Linking?
  {
    var w := s.writer;
    && w.i < |w.prev| && w.x < |s.list.nodes| && w.i < |s.list.nodes[w.x].next|
    && w.prev[w.i] < |s.list.nodes| && w.i < |s.list.nodes[w.prev[w.i]].next| && w.i < |s.list.levels|
  }

  predicate CanLoad(l: List, s: Search) {
    && s.at < |l.nodes| && s.level < |l.nodes[s.at].next| && 0 < |l.levels|
    && (l.nodes[s.at].next[s.level].Some? ==> l.nodes[s.at].next[s.level].value < |l.nodes|)
  }

  /** One turn of a search loop: one load, then a comparison. */
  function LoadNext(l: List, r: Reader): Reader
    requires r.Searching? && CanLoad(l, r.search)
  {
    var s := r.search;
    var next := l.nodes[s.at].next[s.level];
    if IsBefore(l, next, s.target) then r.(search := s.(at := next.value))
    else if s.level > 0 then r.(search := s.(level := s.level - 1))
    else Found(s.target, next, s.at, r.since, l.levels[0])
  }

  ghost function Next(s: State, ev: Event): State
    requires Enabled(s, ev)
  {
    match ev
    case BeginInsert(key, height, prev) => s.(writer := Searched(key, height, prev))
    case StoreHeight => s.(list := RaiseHeight(s.list, s.writer.height), writer := Raised(s.writer.key, s.writer.height, s.writer.prev))
    case AllocateNode =>
      var w := s.writer;
      s.(list := Allocate(s.list, w.key, w.height), writer := Linking(|s.list.nodes|, w.key, w.height, w.prev, 0, false))
    case StoreNext =>
      var w := s.writer;
      s.(list := CopyNext(s.list, w.x, w.prev[w.i], w.i), writer := w.(copied := true))
    case StorePrev =>
      var w := s.writer;
      s.(list := Publish(s.list, w.x, w.prev[w.i], w.i),
         writer := if w.i + 1 < w.height then w.(i := w.i + 1, copied := false) else NotInserting)
    case BeginSearch(target, level) => s.(readers := s.readers + [Searching(Search(target, HEAD, level), s.list.levels[0])])
    case Load(r) => s.(readers := s.readers[r := LoadNext(s.list, s.readers[r])])
  }

  // ---- the invariant ----

  ghost predicate WriterOk(l: List, w: Writer)
    requires Shape(l)
  {
    match w
    case NotInserting => true
    case Searched(key, height, prev) => key !in KeySet(l) && 1 <= height && PrevOk(l, key, height, prev, 0)
    case Raised(key, height, prev) => key !in KeySet(l) && 1 <= height <= l.maxHeight && PrevOk(l, key, height, prev, 0)
    case Linking(x, key, height, prev, i, copied) =>
      && NewNodeOk(l, x, key, i, height) && i < height && PrevOk(l, key, height, prev, i)
      && (copied ==> Ready(l, x, prev[i], i))
  }

  /** A search holds on to a linked node before its target; an answer was right when it was found. */
  ghost predicate ReaderOk(l: List, r: Reader)
    requires Shape(l)
  {
    match r
    case Searching(search, since) => SearchOk(l, search) && since <= l.levels[0]
    case Found(target, next, at, since, seen) =>
      && since <= seen <= l.levels[0]
      && IsFirstAmong(l, seen, target, next) && IsLastAmong(l, seen, target, at)
  }

  ghost predicate Inv(s: State) {
    Ok(s.list) && WriterOk(s.list, s.writer) && forall i :: 0 <= i < |s.readers| ==> ReaderOk(s.list, s.readers[i])
  }

  /** Nothing is ever unlinked, and no key changes. */
  ghost predicate Grows(l: List, l': List) {
    && |l.levels| == |l'.levels| && (forall i :: 0 <= i < |l.levels| ==> l.levels[i] <= l'.levels[i])
    && |l.nodes| <= |l'.nodes|
    && forall n: nat :: n < |l.nodes| ==> l'.nodes[n].key == l.nodes[n].key && |l'.nodes[n].next| == |l.nodes[n].next|
  }

  lemma ReaderUndisturbed(l: List, l': List, r: Reader)
    requires Shape(l) && Shape(l') && Grows(l, l') && ReaderOk(l, r)
    ensures ReaderOk(l', r)
  {
    match r {
      case Searching(search, since) =>
        assert l.levels[search.level] <= l'.levels[search.level] && l.levels[0] <= l'.levels[0];
      case Found(target, next, at, since, seen) =>
        assert l.levels[0] <= l'.levels[0];
        assert forall m: nat :: m in seen ==> InArena(l, 0, m);
    }
  }

  lemma LoadOk(l: List, r: Reader)
    requires Ok(l) && ReaderOk(l, r) && r.Searching?
    ensures CanLoad(l, r.search) && ReaderOk(l, LoadNext(l, r))
  {
    hide Nested, DistinctKeys, NextOk;
    var s := r.search;
    PointerOk(l, s);
    if IsBefore(l, l.nodes[s.at].next[s.level], s.target) {
      AdvanceOk(l, s);
    } else if s.level > 0 {
      DescendOk(l, s);
    } else {
      StopsAtBottom(l, s);
    }
  }

  lemma WriterStep(l: List, w: Writer) returns (l': List, w': Writer)
    requires Ok(l) && WriterOk(l, w) && !w.NotInserting?
    ensures Ok(l') && WriterOk(l', w') && Grows(l, l')
    ensures KeySet(l) <= KeySet(l')
    ensures w.Linking? ==> CanStore(State(l, w, []))
    ensures var s := State(l, w, []);
      match w
      case Searched(_, _, _) => State(l', w', []) == Next(s, StoreHeight)
      case Raised(_, _, _) => State(l', w', []) == Next(s, AllocateNode)
      case Linking(_, _, _, _, _, copied) => State(l', w', []) == Next(s, if copied then StorePrev else StoreNext)
  {
    hide Nested, DistinctKeys, NextOk, KeySet, IsPrev;
    match w {
      case Searched(key, height, prev) =>
        RaiseHeightPrev(l, height, key);
        l', w' := RaiseHeight(l, height), Raised(key, height, prev);
      case Raised(key, height, prev) =>
        AllocateFresh(l, key, height);
        l', w' := Allocate(l, key, height), Linking(|l.nodes|, key, height, prev, 0, false);
      case Linking(x, key, height, prev, i, copied) =>
        assert IsPrev(l, i, prev[i], key);
        if copied {
          PublishOk(l, x, prev[i], i);
          PublishArena(l, x, prev[i], i);
          l' := Publish(l, x, prev[i], i);
          w' := if i + 1 < height then w.(i := i + 1, copied := false) else NotInserting;
        } else {
          InRange(l, i, prev[i], key);
          SetNextOk(l, x, i, l.nodes[prev[i]].next[i]);
          l' := CopyNext(l, x, prev[i], i);
          w' := w.(copied := true);
        }
    }
  }

  lemma InRange(l: List, i: nat, p: nat, key: Key)
    requires Shape(l) && i < MAX_HEIGHT && IsPrev(l, i, p, key)
    ensures p < |l.nodes| && i < |l.nodes[p].next|
  {
  }

  predicate IsStore(ev: Event) {
    ev.StoreHeight? || ev.AllocateNode? || ev.StoreNext? || ev.StorePrev?
  }

  lemma NextKeepsInv(s: State, ev: Event)
    requires Inv(s) && Enabled(s, ev)
    ensures Inv(Next(s, ev)) && Grows(s.list, Next(s, ev).list) && KeySet(s.list) <= KeySet(Next(s, ev).list)
  {
    var s' := Next(s, ev);
    if IsStore(ev) {
      hide Shape, NextOk, KeySet, IsPrev, Ready, NewNodeOk, Publish, CopyNext, RaiseHeight, Allocate, PrevOk;
      var l', w' := WriterStep(s.list, s.writer);
      assert s'.list == l' && s'.writer == w';
      forall i | 0 <= i < |s.readers| ensures ReaderOk(l', s.readers[i]) {
        ReaderUndisturbed(s.list, l', s.readers[i]);
      }
    } else if ev.Load? {
      hide Shape, NextOk, KeySet, IsPrev;
      LoadOk(s.list, s.readers[ev.reader]);
    } else if ev.BeginSearch? {
      hide NextOk, KeySet, IsPrev;
      assert ReaderOk(s.list, Searching(Search(ev.target, HEAD, ev.level), s.list.levels[0]));
    }
  }

  // ---- runs ----

  ghost predicate IsRun(states: seq<State>, events: seq<Event>) {
    && |states| == |events| + 1
    && states[0] == State(Empty(), NotInserting, [])
    && forall i :: 0 <= i < |events| ==> Enabled(states[i], events[i]) && states[i + 1] == Next(states[i], events[i])
  }

  lemma {:induction false} RunKeepsInv(states: seq<State>, events: seq<Event>, i: nat)
    requires IsRun(states, events) && i < |states|
    ensures Inv(states[i])
  {
    if i == 0 {
      EmptyOk();
    } else {
      RunKeepsInv(states, events, i - 1);
      hide Inv, Next, Enabled, KeySet;
      NextKeepsInv(states[i - 1], events[i - 1]);
    }
  }

  /** In every run, after every single store, each level is strictly sorted, its nodes are among
      those of the level below, and nothing that was inserted before is lost. */
  lemma AlwaysInOrder(states: seq<State>, events: seq<Event>, i: nat, j: nat)
    requires IsRun(states, events) && i <= j < |states|
    ensures Ok(states[i].list) && Ok(states[j].list)
    ensures KeySet(states[i].list) <= KeySet(states[j].list)
    ensures forall k :: 0 <= k < MAX_HEIGHT ==> states[i].list.levels[k] <= states[j].list.levels[k]
    decreases j - i
  {
    assert |states| == |events| + 1;
    hide IsRun;
    RunKeepsInv(states, events, i);
    RunKeepsInv(states, events, j);
    if i < j {
      AlwaysInOrder(states, events, i, j - 1);
      StepGrows(states, events, j - 1);
    }
  }

  lemma StepGrows(states: seq<State>, events: seq<Event>, i: nat)
    requires IsRun(states, events) && i < |events|
    ensures Ok(states[i].list) && Ok(states[i + 1].list)
    ensures Grows(states[i].list, states[i + 1].list) && KeySet(states[i].list) <= KeySet(states[i + 1].list)
  {
    RunKeepsInv(states, events, i);
    NextKeepsInv(states[i], events[i]);
  }

  /** Moments `j0` and `j` at which the nodes linked at the bottom were those of the reader's record. */
  ghost predicate Recorded(states: seq<State>, i: nat, r: Reader, j0: nat, j: nat) {
    && j0 <= j <= i < |states|
    && |states[j0].list.levels| > 0 && states[j0].list.levels[0] == r.since
    && (r.Found? ==> |states[j].list.levels| > 0 && states[j].list.levels[0] == r.seen)
  }

  lemma ReaderStep(s: State, ev: Event, k: nat)
    requires Enabled(s, ev) && k < |Next(s, ev).readers|
    ensures
      var r' := Next(s, ev).readers[k];
      if k < |s.readers| then
        || r' == s.readers[k]
        || (r'.since == s.readers[k].since && (r'.Found? ==> 0 < |s.list.levels| && r'.seen == s.list.levels[0]))
      else
        r'.Searching? && 0 < |s.list.levels| && r'.since == s.list.levels[0]
  {
  }

  lemma {:induction false} RecordedInRun(states: seq<State>, events: seq<Event>, i: nat, k: nat) returns (j0: nat, j: nat)
    requires IsRun(states, events) && i < |states| && k < |states[i].readers|
    ensures Recorded(states, i, states[i].readers[k], j0, j)
  {
    if i > 0 {
      hide Next, Enabled;
      var s := states[i - 1];
      ReaderStep(s, events[i - 1], k);
      if k < |s.readers| {
        j0, j := RecordedInRun(states, events, i - 1, k);
        if states[i].readers[k] != s.readers[k] {
          j := i - 1;
        }
      } else {
        j0, j := i - 1, i - 1;
      }
    }
  }

  /** Linearizable searches: in every run, whatever a search without locks returned was exactly
      right at one moment between its start and its end; so it is no earlier than the first key at
      or after the target that is there at the end, and no later than the first that was there at
      the start.  FindLessThan and FindLast are the same walk and return `at`. */
  lemma SearchesAreLinearizable(states: seq<State>, events: seq<Event>, i: nat, k: nat) returns (j0: nat, j: nat)
    requires IsRun(states, events) && i < |states| && k < |states[i].readers| && states[i].readers[k].Found?
    ensures Recorded(states, i, states[i].readers[k], j0, j)
    ensures
      var l, r := states[i].list, states[i].readers[k];
      && |l.levels| == MAX_HEIGHT
      && IsFirstAmong(l, states[j].list.levels[0], r.target, r.next)
      && IsLastAmong(l, states[j].list.levels[0], r.target, r.at)
      && states[j0].list.levels[0] <= states[j].list.levels[0] <= l.levels[0]
  {
    j0, j := RecordedInRun(states, events, i, k);
    hide IsRun;
    RunKeepsInv(states, events, i);
    assert ReaderOk(states[i].list, states[i].readers[k]);
  }

  /** In particular a key that was inserted before the search began is not missed. */
  lemma NothingInsertedBeforeIsMissed(states: seq<State>, events: seq<Event>, i: nat, k: nat, n: nat)
    requires IsRun(states, events) && i < |states| && k < |states[i].readers| && states[i].readers[k].Found?
    requires
      var l, r := states[i].list, states[i].readers[k];
      n in r.since && n < |l.nodes| && r.target == Some(l.nodes[n].key)
    ensures states[i].readers[k].next == Some(n)
  {
    hide IsRun;
    RunKeepsInv(states, events, i);
    var l, r := states[i].list, states[i].readers[k];
    assert ReaderOk(l, r) && n in l.levels[0] && InArena(l, 0, n);
    assert r.next.Some? && l.nodes[r.next.value].key == l.nodes[n].key;
    assert InArena(l, 0, r.next.value);
  }
}
