/** MergingIterator: several cursors kept in step so that together they are one cursor on the
    merge of what they iterate over, through both switches of direction. */
module MergingIterators {
  import opened Keys
  import opened Cursors

  /** `merged` is the merge of the lists, whose keys are all different. */
  ghost predicate IsMerge(merged: seq<Entry>, lists: seq<seq<Entry>>) {
    && SortedEntries(merged)
    && (forall e :: e in merged <==> exists i :: 0 <= i < |lists| && e in lists[i])
    && KeysDiffer(lists)
  }

  // ---- lists with different keys have exactly one merge ----

  function InsertEntry(e: Entry, es: seq<Entry>): (r: seq<Entry>)
    requires SortedEntries(es) && forall d :: d in es ==> d.key != e.key
    ensures SortedEntries(r)
    ensures forall d :: d in r <==> d == e || d in es
  {
    if es == [] || Before(e.key, es[0].key) then [e] + es
    else
      var rest := InsertEntry(e, es[1..]);
      assert es[0] in es && forall i :: 0 <= i < |rest| ==> rest[i] == e || rest[i] in es[1..];
      assert es == [es[0]] + es[1..];
      [es[0]] + rest
  }

  lemma {:induction false} MergeWithOne(merged: seq<Entry>, list: seq<Entry>) returns (r: seq<Entry>)
    requires SortedEntries(merged) && SortedEntries(list)
    requires forall d, e :: d in merged && e in list ==> d.key != e.key
    ensures SortedEntries(r)
    ensures forall d :: d in r <==> d in merged || d in list
  {
    if list == [] {
      r := merged;
    } else {
      var rest := list[1..];
      assert list == [list[0]] + rest;
      var m := MergeWithOne(merged, rest);
      forall d | d in m ensures d.key != list[0].key {
        if d in rest {
          var k :| 0 <= k < |rest| && rest[k] == d;
          assert Before(list[0].key, list[k + 1].key);
        } else {
          assert list[0] in list;
        }
      }
      r := InsertEntry(list[0], m);
    }
  }

  ghost predicate KeysDiffer(lists: seq<seq<Entry>>) {
    forall i, j, d, e :: 0 <= i < j < |lists| && d in lists[i] && e in lists[j] ==> d.key != e.key
  }

  lemma {:induction false} MergeExists(lists: seq<seq<Entry>>) returns (merged: seq<Entry>)
    requires KeysDiffer(lists) && forall i :: 0 <= i < |lists| ==> SortedEntries(lists[i])
    ensures IsMerge(merged, lists)
  {
    if lists == [] {
      merged := [];
    } else {
      var n := |lists| - 1;
      var m := MergeExists(lists[..n]);
      forall d, e | d in m && e in lists[n] ensures d.key != e.key {
        var i :| 0 <= i < n && d in lists[..n][i];
        assert d in lists[i];
      }
      merged := MergeWithOne(m, lists[n]);
      forall e ensures e in merged <==> exists i :: 0 <= i < |lists| && e in lists[i] {
        if e in m {
          var i :| 0 <= i < n && e in lists[..n][i];
          assert e in lists[i];
        }
        if i :| 0 <= i < |lists| && e in lists[i] {
          assert i < n ==> e in lists[..n][i];
        }
      }
    }
  }

  lemma {:induction false} SortedIsUnique(a: seq<Entry>, b: seq<Entry>)
    requires SortedEntries(a) && SortedEntries(b)
    requires forall e :: e in a <==> e in b
    ensures a == b
  {
    if a == [] {
      assert b == [] || b[0] in b;
    } else {
      assert a[0] in b && b[0] in (if b == [] then b else a);
      var k :| 0 <= k < |b| && b[k] == a[0];
      var l :| 0 <= l < |a| && a[l] == b[0];
      assert k > 0 ==> Before(b[0].key, b[k].key);
      assert l > 0 ==> Before(a[0].key, a[l].key);
      SameTails(a, b);
      SameTails(b, a);
      SortedIsUnique(a[1..], b[1..]);
    }
  }

  lemma SameTails(a: seq<Entry>, b: seq<Entry>)
    requires SortedEntries(a) && a != [] && b != [] && a[0] == b[0]
    requires forall e :: e in a ==> e in b
    ensures forall e :: e in a[1..] ==> e in b[1..]
  {
    forall e | e in a[1..] ensures e in b[1..] {
      var k :| 0 <= k < |a[1..]| && a[1..][k] == e;
      assert a[k + 1] == e && Before(a[0].key, a[k + 1].key);
      assert e != b[0] && e in [b[0]] + b[1..] by {
        assert b == [b[0]] + b[1..];
      }
    }
  }

  /** A MergingIterator's sequence is determined by its children's. */
  lemma MergeIsUnique(a: seq<Entry>, b: seq<Entry>, lists: seq<seq<Entry>>)
    requires IsMerge(a, lists) && IsMerge(b, lists)
    ensures a == b
  {
    SortedIsUnique(a, b);
  }

  predicate BelowCut(e: Entry, merged: seq<Entry>, cut: nat)
    requires cut <= |merged|
  {
    cut == |merged| || Before(e.key, merged[cut].key)
  }

  /** The list splits at `pos` where the merge splits at `cut`. */
  ghost predicate AtCut(es: seq<Entry>, pos: nat, merged: seq<Entry>, cut: nat)
    requires cut <= |merged|
  {
    && pos <= |es|
    && (forall k :: 0 <= k < pos ==> BelowCut(es[k], merged, cut))
    && (forall k :: pos <= k < |es| ==> !BelowCut(es[k], merged, cut))
  }

  /** `pos` is the last position of the list before the place where the merge splits at `cut`. */
  ghost predicate JustBeforeCut(es: seq<Entry>, pos: nat, merged: seq<Entry>, cut: nat)
    requires cut <= |merged|
  {
    pos <= |es| && AtCut(es, StepForth(es, pos), merged, cut)
  }

  // ---- how positions in the lists follow positions in the merge ----

  lemma MemberOfMerge(merged: seq<Entry>, lists: seq<seq<Entry>>, i: nat, k: nat) returns (m: nat)
    requires IsMerge(merged, lists) && i < |lists| && k < |lists[i]|
    ensures m < |merged| && merged[m] == lists[i][k]
  {
    assert lists[i][k] in merged;
    m :| 0 <= m < |merged| && merged[m] == lists[i][k];
  }

  lemma CutStart(es: seq<Entry>, merged: seq<Entry>, lists: seq<seq<Entry>>, i: nat)
    requires IsMerge(merged, lists) && i < |lists| && lists[i] == es
    ensures AtCut(es, 0, merged, 0)
  {
    forall k | 0 <= k < |es| ensures !BelowCut(es[k], merged, 0) {
      var m := MemberOfMerge(merged, lists, i, k);
      assert m > 0 ==> Before(merged[0].key, merged[m].key);
    }
  }

  lemma CutAtSeek(es: seq<Entry>, merged: seq<Entry>, lists: seq<seq<Entry>>, i: nat, target: InternalKey)
    requires IsMerge(merged, lists) && i < |lists| && lists[i] == es && SortedEntries(es)
    ensures AtCut(es, SeekPosition(es, target), merged, SeekPosition(merged, target))
  {
    var pos, cut := SeekPosition(es, target), SeekPosition(merged, target);
    forall k | pos <= k < |es| ensures !BelowCut(es[k], merged, cut) {
      SortedFrom(es, target, k);
      var m := MemberOfMerge(merged, lists, i, k);
      assert m >= cut;
      assert m > cut ==> Before(merged[cut].key, merged[m].key);
    }
  }

  /** A list that does not hold merge entry `cut` splits alike on both sides of it. */
  lemma CutPassesForeign(es: seq<Entry>, pos: nat, merged: seq<Entry>, lists: seq<seq<Entry>>, i: nat, cut: nat)
    requires IsMerge(merged, lists) && i < |lists| && lists[i] == es && cut < |merged|
    requires forall e :: e in es ==> e.key != merged[cut].key
    ensures AtCut(es, pos, merged, cut) <==> AtCut(es, pos, merged, cut + 1)
  {
    forall k | 0 <= k < |es|
      ensures BelowCut(es[k], merged, cut) <==> BelowCut(es[k], merged, cut + 1)
    {
      var m := MemberOfMerge(merged, lists, i, k);
      assert es[k] in es;
      assert m < cut ==> Before(merged[m].key, merged[cut].key);
      assert m > cut ==> Before(merged[cut].key, merged[m].key);
      assert cut + 1 < |merged| && m < cut + 1 ==> Before(merged[m].key, merged[cut + 1].key);
      assert m > cut + 1 ==> Before(merged[cut + 1].key, merged[m].key);
    }
  }

  /** The list that holds merge entry `cut` moves on by one position. */
  lemma CutPassesOwn(es: seq<Entry>, pos: nat, merged: seq<Entry>, lists: seq<seq<Entry>>, i: nat, cut: nat)
    requires IsMerge(merged, lists) && i < |lists| && lists[i] == es && SortedEntries(es)
    requires cut < |merged| && pos < |es| && es[pos] == merged[cut]
    ensures AtCut(es, pos, merged, cut) && AtCut(es, pos + 1, merged, cut + 1)
  {
    forall k | 0 <= k < |es|
      ensures k < pos <==> BelowCut(es[k], merged, cut)
      ensures k <= pos <==> BelowCut(es[k], merged, cut + 1)
    {
      var m := MemberOfMerge(merged, lists, i, k);
      assert k < pos ==> Before(es[k].key, es[pos].key);
      assert k > pos ==> Before(es[pos].key, es[k].key);
      assert m < cut ==> Before(merged[m].key, merged[cut].key);
      assert m > cut ==> Before(merged[cut].key, merged[m].key);
      assert cut + 1 < |merged| && m < cut + 1 ==> Before(merged[m].key, merged[cut + 1].key);
      assert m > cut + 1 ==> Before(merged[cut + 1].key, merged[m].key);
    }
  }

  lemma SteppedBack(es: seq<Entry>, p: nat, merged: seq<Entry>, cut: nat)
    requires cut <= |merged| && AtCut(es, p, merged, cut)
    ensures JustBeforeCut(es, StepBack(es, p), merged, cut)
  {
  }

  lemma HolderOf(merged: seq<Entry>, lists: seq<seq<Entry>>, m: nat) returns (i: nat, k: nat)
    requires IsMerge(merged, lists) && m < |merged|
    ensures i < |lists| && k < |lists[i]| && lists[i][k] == merged[m]
  {
    assert merged[m] in merged;
    i :| 0 <= i < |lists| && merged[m] in lists[i];
    k :| 0 <= k < |lists[i]| && lists[i][k] == merged[m];
  }

  /** Moves off an entry with this very key; with different keys everywhere there is none. */
  method StepPast(child: Cursor, key: InternalKey)
    requires child.Ok()
    modifies child
    ensures child.Ok()
    ensures child.at == old(child.at) + if old(child.Valid() && child.Current().key == key) then 1 else 0
  {
    if child.Valid() && key == child.Current().key {
      child.Next();
    }
  }

  // ---- the class ----

  datatype Direction = Forward | Reverse

  class MergingIterator {
    const children: seq<Cursor>
    ghost const merged: seq<Entry>
    ghost const lists: seq<seq<Entry>>
    var current: Option<nat>
    var direction: Direction
    ghost var at: nat   // the position in `merged`; its length when not valid

    /** What never changes: the children, all different, iterate over the lists. */
    ghost predicate Shape() {
      && |lists| == |children|
      && (forall i :: 0 <= i < |children| ==> children[i].entries == lists[i] && SortedEntries(lists[i]))
      && (forall i, j :: 0 <= i < j < |children| ==> children[i] != children[j])
      && IsMerge(merged, lists)
    }

    ghost predicate Ready()
      reads children
    {
      Shape() && forall i :: 0 <= i < |children| ==> children[i].Ok()
    }

    ghost predicate AllAtCut(cut: nat)
      requires cut <= |merged|
      reads children
    {
      forall i :: 0 <= i < |children| ==> AtCut(children[i].entries, children[i].at, merged, cut)
    }

    ghost predicate AllJustBefore(cut: nat)
      requires cut <= |merged|
      reads children
    {
      forall i :: 0 <= i < |children| ==> JustBeforeCut(children[i].entries, children[i].at, merged, cut)
    }

    ghost predicate Ok()
      reads this, children
    {
      && Ready()
      && at <= |merged|
      && (current.None? <==> at == |merged|)
      && (current.Some? ==>
            && current.value < |children|
            && children[current.value].Valid()
            && children[current.value].Current() == merged[at]
            && (direction.Forward? ==> AllAtCut(at))
            && (direction.Reverse? ==> AllJustBefore(at + 1)))
    }

    predicate Valid()
      reads this
    {
      current.Some?
    }

    constructor (cursors: seq<Cursor>, ghost merge: seq<Entry>)
      requires forall i :: 0 <= i < |cursors| ==> cursors[i].Ok()
      requires forall i, j :: 0 <= i < j < |cursors| ==> cursors[i] != cursors[j]
      requires IsMerge(merge, seq(|cursors|, i requires 0 <= i < |cursors| => cursors[i].entries))
      ensures Ok() && !Valid() && children == cursors && merged == merge
    {
      children := cursors;
      merged := merge;
      lists := seq(|cursors|, i requires 0 <= i < |cursors| => cursors[i].entries);
      current, direction, at := None, Forward, |merge|;
    }

    /** key() and value() */
    function Current(): (e: Entry)
      requires Ok() && Valid()
      reads this, children
      ensures e == merged[at]
    {
      children[current.value].Current()
    }

    method FindSmallest(ghost cut: nat)
      requires Ready() && cut <= |merged| && AllAtCut(cut)
      modifies this
      ensures Ready() && AllAtCut(cut)
      ensures direction == old(direction) && at == cut
      ensures current.None? <==> cut == |merged|
      ensures current.Some? ==>
        current.value < |children| && children[current.value].Valid() && children[current.value].Current() == merged[cut]
    {
      hide IsMerge, AtCut, SortedEntries, JustBeforeCut;
      var smallest: Option<nat> := None;
      for i := 0 to |children|
        invariant smallest.Some? ==> smallest.value < i && children[smallest.value].Valid()
        invariant forall j :: 0 <= j < i && children[j].Valid() ==>
          smallest.Some? && !Before(children[j].Current().key, children[smallest.value].Current().key)
      {
        if children[i].Valid() {
          if smallest.None? || Before(children[i].Current().key, children[smallest.value].Current().key) {
            smallest := Some(i);
          }
        }
      }
      SmallestIsCut(smallest, cut);
      current := smallest;
      at := cut;
    }

    method FindLargest(ghost cut: nat)
      requires Ready() && cut <= |merged| && AllJustBefore(cut)
      modifies this
      ensures Ready() && AllJustBefore(cut)
      ensures direction == old(direction) && at == StepBack(merged, cut)
      ensures current.None? <==> cut == 0
      ensures current.Some? ==>
        current.value < |children| && children[current.value].Valid() && children[current.value].Current() == merged[cut - 1]
    {
      var largest: Option<nat> := None;
      for i := |children| downto 0
        invariant largest.Some? ==> i <= largest.value < |children| && children[largest.value].Valid()
        invariant forall j :: i <= j < |children| && children[j].Valid() ==>
          largest.Some? && !Before(children[largest.value].Current().key, children[j].Current().key)
      {
        if children[i].Valid() {
          if largest.None? || Before(children[largest.value].Current().key, children[i].Current().key) {
            largest := Some(i);
          }
        }
      }
      LargestIsBeforeCut(largest, cut);
      current := largest;
      at := StepBack(merged, cut);
    }

    method SeekToFirst()
      requires Ok()
      modifies this, children
      ensures Ok() && at == 0
    {
      hide IsMerge, AtCut, SortedEntries, JustBeforeCut;
      for i := 0 to |children|
        invariant Ready()
        invariant forall j :: 0 <= j < i ==> children[j].at == 0
      {
        children[i].SeekToFirst();
      }
      AllAtStart();
      FindSmallest(0);
      direction := Forward;
    }

    method SeekToLast()
      requires Ok()
      modifies this, children
      ensures Ok() && at == StepBack(merged, |merged|)
    {
      hide IsMerge, AtCut, SortedEntries, JustBeforeCut;
      for i := 0 to |children|
        invariant Ready()
        invariant forall j :: 0 <= j < i ==> children[j].at == StepBack(children[j].entries, |children[j].entries|)
      {
        children[i].SeekToLast();
      }
      AllAtEnd();
      FindLargest(|merged|);
      direction := Reverse;
    }

    method Seek(target: InternalKey)
      requires Ok()
      modifies this, children
      ensures Ok() && at == SeekPosition(merged, target)
    {
      hide IsMerge, AtCut, SortedEntries, JustBeforeCut;
      for i := 0 to |children|
        invariant Ready()
        invariant forall j :: 0 <= j < i ==> children[j].at == SeekPosition(children[j].entries, target)
      {
        children[i].Seek(target);
      }
      AllSought(target);
      FindSmallest(SeekPosition(merged, target));
      direction := Forward;
    }

    /** What Next does first after the iterator has moved backwards. */
    method TurnForward(c: nat, ghost cut: nat)
      requires Ready() && c < |children| && cut < |merged|
      requires children[c].Valid() && children[c].Current() == merged[cut]
      modifies set i | 0 <= i < |children| && i != c :: children[i]
      ensures Ready()
      ensures forall j :: 0 <= j < |children| && j != c ==> AtCut(children[j].entries, children[j].at, merged, cut)
    {
      hide IsMerge, AtCut, SortedEntries, JustBeforeCut;
      var key := children[c].Current().key;
      for i := 0 to |children|
        invariant Ready()
        invariant children[c].at == old(children[c].at)
        invariant forall j :: 0 <= j < i && j != c ==> AtCut(children[j].entries, children[j].at, merged, cut)
      {
        if i != c {
          children[i].Seek(key);
          SeekForeign(i, c, cut);
          StepPast(children[i], key);
        }
      }
    }

    method Next()
      requires Ok() && Valid()
      modifies this, children
      ensures Ok() && at == old(at) + 1
    {
      hide IsMerge, AtCut, SortedEntries, JustBeforeCut;
      var c := current.value;
      ghost var cut := at;
      if direction != Forward {
        TurnForward(c, cut);
        direction := Forward;
      }
      OthersPass(c, cut);
      CutPassesOwn(lists[c], children[c].at, merged, lists, c, cut);
      children[c].Next();
      FindSmallest(cut + 1);
    }

    /** What Prev does first after the iterator has moved forwards. */
    method TurnBackward(c: nat, ghost cut: nat)
      requires Ready() && c < |children| && cut < |merged|
      requires children[c].Valid() && children[c].Current() == merged[cut]
      modifies set i | 0 <= i < |children| && i != c :: children[i]
      ensures Ready()
      ensures forall j :: 0 <= j < |children| && j != c ==> JustBeforeCut(children[j].entries, children[j].at, merged, cut)
    {
      hide IsMerge, AtCut, SortedEntries, JustBeforeCut;
      var key := children[c].Current().key;
      for i := 0 to |children|
        invariant Ready()
        invariant children[c].at == old(children[c].at)
        invariant forall j :: 0 <= j < i && j != c ==> JustBeforeCut(children[j].entries, children[j].at, merged, cut)
      {
        if i != c {
          children[i].Seek(key);
          SeekForeign(i, c, cut);
          SteppedBack(children[i].entries, children[i].at, merged, cut);
          if children[i].Valid() {
            children[i].Prev();
          } else {
            children[i].SeekToLast();
          }
        }
      }
    }

    method Prev()
      requires Ok() && Valid()
      modifies this, children
      ensures Ok() && at == StepBack(merged, old(at))
    {
      hide IsMerge, AtCut, SortedEntries, JustBeforeCut, StepForth, SeekPosition, Before;
      var c := current.value;
      ghost var cut := at;
      if direction != Reverse {
        TurnBackward(c, cut);
        direction := Reverse;
      } else {
        OthersPassBack(c, cut);
      }
      CutPassesOwn(lists[c], children[c].at, merged, lists, c, cut);
      SteppedBack(lists[c], children[c].at, merged, cut);
      children[c].Prev();
      FindLargest(cut);
    }

    // ---- lemmas about positions of the children ----

    lemma AllAtStart()
      requires Ready() && forall j :: 0 <= j < |children| ==> children[j].at == 0
      ensures AllAtCut(0)
    {
      forall i | 0 <= i < |children| ensures AtCut(children[i].entries, children[i].at, merged, 0) {
        CutStart(lists[i], merged, lists, i);
      }
    }

    lemma AllAtEnd()
      requires Ready()
      requires forall j :: 0 <= j < |children| ==> children[j].at == StepBack(children[j].entries, |children[j].entries|)
      ensures AllJustBefore(|merged|)
    {
      forall i | 0 <= i < |children| ensures JustBeforeCut(children[i].entries, children[i].at, merged, |merged|) {
        SteppedBack(lists[i], |lists[i]|, merged, |merged|);
      }
    }

    lemma AllSought(target: InternalKey)
      requires Ready()
      requires forall j :: 0 <= j < |children| ==> children[j].at == SeekPosition(children[j].entries, target)
      ensures AllAtCut(SeekPosition(merged, target))
    {
      forall i | 0 <= i < |children| ensures AtCut(children[i].entries, children[i].at, merged, SeekPosition(merged, target)) {
        CutAtSeek(lists[i], merged, lists, i, target);
      }
    }

    lemma SmallestIsCut(smallest: Option<nat>, cut: nat)
      requires Ready() && cut <= |merged| && AllAtCut(cut)
      requires smallest.Some? ==> smallest.value < |children| && children[smallest.value].Valid()
      requires forall j :: 0 <= j < |children| && children[j].Valid() ==>
        smallest.Some? && !Before(children[j].Current().key, children[smallest.value].Current().key)
      ensures smallest.None? <==> cut == |merged|
      ensures smallest.Some? ==> children[smallest.value].Current() == merged[cut]
    {
      if cut < |merged| {
        var i := HoldsCut(cut);
        var c := smallest.value;
        FromCut(c, cut);
        BeforeTrichotomy(children[c].Current().key, merged[cut].key);
        SameKeySameEntry(c, cut);
      }
    }

    lemma LargestIsBeforeCut(largest: Option<nat>, cut: nat)
      requires Ready() && cut <= |merged| && AllJustBefore(cut)
      requires largest.Some? ==> largest.value < |children| && children[largest.value].Valid()
      requires forall j :: 0 <= j < |children| && children[j].Valid() ==>
        largest.Some? && !Before(children[largest.value].Current().key, children[j].Current().key)
      ensures largest.None? <==> cut == 0
      ensures largest.Some? ==> children[largest.value].Current() == merged[cut - 1]
    {
      if cut > 0 {
        var i := HoldsBefore(cut);
        var c := largest.value;
        UpToCut(c, cut);
        BeforeTrichotomy(children[c].Current().key, merged[cut - 1].key);
        SameKeySameEntry(c, cut - 1);
      } else {
        NothingBeforeStart();
      }
    }

    lemma HoldsBefore(cut: nat) returns (i: nat)
      requires Ready() && 0 < cut <= |merged| && AllJustBefore(cut)
      ensures i < |children| && children[i].Valid() && children[i].Current() == merged[cut - 1]
    {
      var k: nat;
      i, k := HolderOf(merged, lists, cut - 1);
      var child := children[i];
      var p := StepForth(child.entries, child.at);
      assert BelowCut(child.entries[k], merged, cut);
      assert k < p;
      if k < p - 1 {
        assert Before(child.entries[k].key, child.entries[p - 1].key) && BelowCut(child.entries[p - 1], merged, cut);
        var m := MemberOfMerge(merged, lists, i, p - 1);
        assert m < cut ==> m == cut - 1 || Before(merged[m].key, merged[cut - 1].key);
        assert cut < m < |merged| ==> Before(merged[cut].key, merged[m].key);
      }
    }

    /** A child just before the cut is at a key no larger than that of the last entry below it. */
    lemma UpToCut(c: nat, cut: nat)
      requires Ready() && 0 < cut <= |merged| && AllJustBefore(cut) && c < |children| && children[c].Valid()
      ensures !Before(merged[cut - 1].key, children[c].Current().key)
    {
      var child := children[c];
      var p := StepForth(child.entries, child.at);
      assert BelowCut(child.entries[child.at], merged, cut);
      var m := MemberOfMerge(merged, lists, c, child.at);
      assert cut < m ==> Before(merged[cut].key, merged[m].key);
      assert m < cut - 1 ==> Before(merged[m].key, merged[cut - 1].key);
    }

    lemma NothingBeforeStart()
      requires Ready() && AllJustBefore(0)
      ensures forall i :: 0 <= i < |children| ==> !children[i].Valid()
    {
      forall i | 0 <= i < |children| ensures !children[i].Valid() {
        var child := children[i];
        var p := StepForth(child.entries, child.at);
        CutStart(lists[i], merged, lists, i);
        assert p > 0 ==> BelowCut(child.entries[0], merged, 0);
      }
    }

    /** No other child holds the entry the iterator is at. */
    lemma Foreign(i: nat, c: nat, cut: nat)
      requires Ready() && cut < |merged| && i < |children| && c < |children| && i != c
      requires children[c].Valid() && children[c].Current() == merged[cut]
      ensures forall e :: e in children[i].entries ==> e.key != merged[cut].key
    {
      assert merged[cut] in lists[c];
    }

    lemma SeekForeign(i: nat, c: nat, cut: nat)
      requires Ready() && cut < |merged| && i < |children| && c < |children| && i != c
      requires children[c].Valid() && children[c].Current() == merged[cut]
      requires children[i].at == SeekPosition(children[i].entries, merged[cut].key)
      ensures AtCut(children[i].entries, children[i].at, merged, cut)
      ensures children[i].Valid() ==> children[i].Current().key != merged[cut].key
    {
      Foreign(i, c, cut);
      var es := children[i].entries;
      forall k | children[i].at <= k < |es| ensures !BelowCut(es[k], merged, cut) {
        SortedFrom(es, merged[cut].key, k);
      }
      if children[i].Valid() {
        assert children[i].Current() in es;
      }
    }

    lemma OthersPass(c: nat, cut: nat)
      requires Ready() && cut < |merged| && c < |children|
      requires children[c].Valid() && children[c].Current() == merged[cut]
      requires forall j :: 0 <= j < |children| && j != c ==> AtCut(children[j].entries, children[j].at, merged, cut)
      ensures forall j :: 0 <= j < |children| && j != c ==> AtCut(children[j].entries, children[j].at, merged, cut + 1)
    {
      forall j | 0 <= j < |children| && j != c ensures AtCut(children[j].entries, children[j].at, merged, cut + 1) {
        Foreign(j, c, cut);
        CutPassesForeign(lists[j], children[j].at, merged, lists, j, cut);
      }
    }

    lemma OthersPassBack(c: nat, cut: nat)
      requires Ready() && cut < |merged| && c < |children|
      requires children[c].Valid() && children[c].Current() == merged[cut]
      requires AllJustBefore(cut + 1)
      ensures forall j :: 0 <= j < |children| && j != c ==> JustBeforeCut(children[j].entries, children[j].at, merged, cut)
    {
      forall j | 0 <= j < |children| && j != c ensures JustBeforeCut(children[j].entries, children[j].at, merged, cut) {
        var es := children[j].entries;
        var p := StepForth(es, children[j].at);
        Foreign(j, c, cut);
        CutPassesForeign(es, p, merged, lists, j, cut);
      }
    }

    /** Some child is positioned at merge entry `cut`. */
    lemma HoldsCut(cut: nat) returns (i: nat)
      requires Ready() && cut < |merged| && AllAtCut(cut)
      ensures i < |children| && children[i].Valid() && children[i].Current() == merged[cut]
    {
      var k: nat;
      i, k := HolderOf(merged, lists, cut);
      var child := children[i];
      assert AtCut(child.entries, child.at, merged, cut);
      assert child.at <= k;
      assert child.at < k ==> Before(child.entries[child.at].key, child.entries[k].key);
    }

    lemma FromCut(c: nat, cut: nat)
      requires Ready() && cut < |merged| && AllAtCut(cut) && c < |children| && children[c].Valid()
      ensures !Before(children[c].Current().key, merged[cut].key)
    {
      assert AtCut(children[c].entries, children[c].at, merged, cut);
    }

    lemma SameKeySameEntry(c: nat, m: nat)
      requires Ready() && m < |merged| && c < |children| && children[c].Valid()
      requires children[c].Current().key == merged[m].key
      ensures children[c].Current() == merged[m]
    {
      var n := MemberOfMerge(merged, lists, c, children[c].at);
      assert n < m ==> Before(merged[n].key, merged[m].key);
      assert m < n ==> Before(merged[m].key, merged[n].key);
    }
  }
}
