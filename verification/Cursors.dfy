/** The iterator interface as every user of it sees it: a position in a sorted sequence of
    entries.  The iterators of blocks (InternalKeys, TableReaders), tables and levels
    (TwoLevelIterators), memtables (MemTables) and merges (MergingIterators) are proved to move like
    this. */
module Cursors {
  import opened Keys

  /** The first position whose key is at or after the target; the length when there is none. */
  function SeekPosition(es: seq<Entry>, target: InternalKey): (i: nat)
    ensures i <= |es|
    ensures i < |es| ==> !Before(es[i].key, target)
    ensures forall j :: 0 <= j < i ==> Before(es[j].key, target)
  {
    if es == [] || !Before(es[0].key, target) then 0
    else 1 + SeekPosition(es[1..], target)
  }

  lemma SortedFrom(es: seq<Entry>, target: InternalKey, k: nat)
    requires SortedEntries(es) && SeekPosition(es, target) <= k < |es|
    ensures !Before(es[k].key, target)
  {
    var i := SeekPosition(es, target);
    if i < k {
      assert Before(es[i].key, es[k].key);
    }
  }

  lemma {:induction false} SeekIs(es: seq<Entry>, target: InternalKey, p: nat)
    requires p <= |es| && (forall j :: 0 <= j < p ==> Before(es[j].key, target))
    requires p < |es| ==> !Before(es[p].key, target)
    ensures SeekPosition(es, target) == p
  {
    if p > 0 {
      SeekIs(es[1..], target, p - 1);
    }
  }

  /** Where a step back from `i` leads; the length stands for an iterator that is not valid. */
  function StepBack<T>(es: seq<T>, i: nat): (j: nat)
    requires i <= |es|
    ensures j <= |es|
  {
    if i == 0 then |es| else i - 1
  }

  /** The position after `i`, when the length stands for the place before the first entry. */
  function StepForth<T>(es: seq<T>, i: nat): (j: nat)
    requires i <= |es|
    ensures j <= |es| && StepBack(es, j) == i
  {
    if i == |es| then 0 else i + 1
  }

  class Cursor {
    const entries: seq<Entry>
    var at: nat

    predicate Ok()
      reads this
    {
      SortedEntries(entries) && at <= |entries|
    }

    predicate Valid()
      reads this
    {
      at < |entries|
    }

    function Current(): Entry
      requires Valid()
      reads this
    {
      entries[at]
    }

    constructor (es: seq<Entry>)
      requires SortedEntries(es)
      ensures Ok() && entries == es && !Valid()
    {
      entries, at := es, |es|;
    }

    method SeekToFirst()
      requires Ok()
      modifies this
      ensures Ok() && at == 0
    {
      at := 0;
    }

    method SeekToLast()
      requires Ok()
      modifies this
      ensures Ok() && at == StepBack(entries, |entries|)
    {
      at := StepBack(entries, |entries|);
    }

    method Seek(target: InternalKey)
      requires Ok()
      modifies this
      ensures Ok() && at == SeekPosition(entries, target)
    {
      at := SeekPosition(entries, target);
    }

    method Next()
      requires Ok() && Valid()
      modifies this
      ensures Ok() && at == old(at) + 1
    {
      at := at + 1;
    }

    method Prev()
      requires Ok() && Valid()
      modifies this
      ensures Ok() && at == StepBack(entries, old(at))
    {
      at := StepBack(entries, at);
    }
  }
}
