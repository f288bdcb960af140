/** MemTableIterator: the skiplist's iterator, seen as a cursor over the memtable's entries in order.
    The list may grow between two moves; each move is over the entries of its moment. */
module MemTables {
  import opened Keys
  import opened Cursors
  import opened SkipLists

  /** `keys` are the places of the entries `es` in the order of memtable keys.  `rank` gives the
      place of an internal key. */
  ghost predicate Lists(keys: set<Key>, es: seq<Entry>, rank: InternalKey -> Key) {
    && SortedEntries(es)
    && (forall i, j :: 0 <= i < |es| && 0 <= j < |es| ==> (Before(es[i].key, es[j].key) <==> rank(es[i].key) < rank(es[j].key)))
    && (forall i :: 0 <= i < |es| ==> rank(es[i].key) in keys)
    && (forall k :: k in keys ==> exists i :: 0 <= i < |es| && rank(es[i].key) == k)
  }

  /** The target has its place among the entries. */
  ghost predicate Placed(es: seq<Entry>, rank: InternalKey -> Key, target: InternalKey) {
    forall i :: 0 <= i < |es| ==> (Before(es[i].key, target) <==> rank(es[i].key) < rank(target))
  }

  lemma InOrder(es: seq<Entry>, i: nat, j: nat)
    requires SortedEntries(es) && i <= j < |es|
    ensures !Before(es[j].key, es[i].key)
  {
  }

  /** The least key from position `p` on is that of position `p`. */
  lemma LeastFrom(keys: set<Key>, es: seq<Entry>, rank: InternalKey -> Key, p: nat, k: Option<Key>, bound: Key, strict: bool)
    requires Lists(keys, es, rank) && p <= |es|
    requires forall i :: 0 <= i < |es| ==> (p <= i <==> if strict then rank(es[i].key) > bound else rank(es[i].key) >= bound)
    requires k.Some? <==> exists x :: x in keys && if strict then x > bound else x >= bound
    requires k.Some? ==> k.value in keys && (if strict then k.value > bound else k.value >= bound)
    requires k.Some? ==> forall x :: x in keys && (if strict then x > bound else x >= bound) ==> k.value <= x
    ensures k == if p < |es| then Some(rank(es[p].key)) else None
  {
    assert p < |es| ==> rank(es[p].key) in keys;
    if k.Some? {
      var i :| 0 <= i < |es| && rank(es[i].key) == k.value;
      InOrder(es, p, i);
    }
  }

  /** The greatest key before position `p` is that of the position a step back. */
  lemma GreatestBefore(keys: set<Key>, es: seq<Entry>, rank: InternalKey -> Key, p: nat, k: Option<Key>)
    requires Lists(keys, es, rank) && p <= |es|
    requires k.Some? <==> exists i :: 0 <= i < p && rank(es[i].key) in keys
    requires k.Some? ==> exists i :: 0 <= i < p && rank(es[i].key) == k.value
    requires k.Some? ==> forall i :: 0 <= i < p ==> rank(es[i].key) <= k.value
    ensures k == if p > 0 then Some(rank(es[p - 1].key)) else None
  {
    assert p > 0 ==> rank(es[p - 1].key) in keys;
    if k.Some? {
      var i :| 0 <= i < p && rank(es[i].key) == k.value;
      InOrder(es, i, p - 1);
    }
  }

  class MemTableIterator {
    const iter: SkipLists.Iterator

    constructor (table: SkipList)
      requires Ok(table.list)
      ensures fresh(iter) && iter.InList() && !iter.Valid() && iter.skiplist == table
    {
      iter := new SkipLists.Iterator(table);
    }

    ghost function Keys(): set<Key>
      requires iter.InList()
      reads iter, iter.skiplist
    {
      KeySet(iter.skiplist.list)
    }

    /** The iterator is where a cursor over `es` at position `i` is. */
    ghost predicate StandsAt(es: seq<Entry>, rank: InternalKey -> Key, i: nat)
      reads iter, iter.skiplist
    {
      && iter.InList() && i <= |es|
      && (iter.Valid() <==> i < |es|)
      && (iter.Valid() ==> iter.CurrentKey() == rank(es[i].key))
    }

    ghost function Current(): Option<Key>
      requires iter.InList()
      reads iter, iter.skiplist
    {
      if iter.Valid() then Some(iter.CurrentKey()) else None
    }

    lemma CurrentInKeys()
      requires iter.InList() && iter.Valid()
      ensures iter.CurrentKey() in Keys()
    {
    }

    method Seek(target: InternalKey, memkey: Key, ghost es: seq<Entry>, ghost rank: InternalKey -> Key)
      requires iter.InList() && Lists(Keys(), es, rank) && Placed(es, rank, target) && memkey == rank(target)
      modifies iter
      ensures StandsAt(es, rank, SeekPosition(es, target))
    {
      iter.Seek(memkey);
      ghost var p := SeekPosition(es, target);
      forall j | p <= j < |es| ensures !Before(es[j].key, target) {
        SortedFrom(es, target, j);
      }
      if iter.Valid() {
        CurrentInKeys();
      }
      LeastFrom(Keys(), es, rank, p, Current(), memkey, false);
    }

    method Next(ghost es: seq<Entry>, ghost rank: InternalKey -> Key, ghost i: nat)
      requires StandsAt(es, rank, i) && Lists(Keys(), es, rank) && i < |es|
      modifies iter
      ensures StandsAt(es, rank, i + 1)
    {
      ghost var at := iter.CurrentKey();
      iter.Next();
      if iter.Valid() {
        CurrentInKeys();
      }
      LeastFrom(Keys(), es, rank, i + 1, Current(), at, true);
    }

    method SeekToFirst(ghost es: seq<Entry>, ghost rank: InternalKey -> Key)
      requires iter.InList() && Lists(Keys(), es, rank)
      modifies iter
      ensures StandsAt(es, rank, 0)
    {
      iter.SeekToFirst();
      assert es != [] ==> rank(es[0].key) in Keys();
      if iter.Valid() {
        CurrentInKeys();
        LeastFrom(Keys(), es, rank, 0, Current(), iter.CurrentKey(), false);
      }
    }

    method Prev(ghost es: seq<Entry>, ghost rank: InternalKey -> Key, ghost i: nat)
      requires StandsAt(es, rank, i) && Lists(Keys(), es, rank) && i < |es|
      modifies iter
      ensures StandsAt(es, rank, StepBack(es, i))
    {
      ghost var at := iter.CurrentKey();
      iter.Prev();
      if iter.Valid() {
        CurrentInKeys();
      }
      GreatestBefore(Keys(), es, rank, i, Current());
    }

    method SeekToLast(ghost es: seq<Entry>, ghost rank: InternalKey -> Key)
      requires iter.InList() && Lists(Keys(), es, rank)
      modifies iter
      ensures StandsAt(es, rank, StepBack(es, |es|))
    {
      iter.SeekToLast();
      if iter.Valid() {
        CurrentInKeys();
      }
      GreatestBefore(Keys(), es, rank, |es|, Current());
    }
  }
}
