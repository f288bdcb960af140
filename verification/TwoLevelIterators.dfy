/** TwoLevelIterator: an index whose entries lead to blocks, empty ones included, read as one
    sequence.  Tables use it over their index block, levels over their list of files. */
module TwoLevelIterators {
  import opened Keys
  import opened Sequences
  import opened Cursors

  /** Index key `i` is at or after everything in block `i` and before everything behind it. */
  ghost predicate IndexOk(index: seq<Entry>, blocks: seq<seq<Entry>>) {
    && |index| == |blocks|
    && (forall i, e :: 0 <= i < |blocks| && e in blocks[i] ==> !Before(index[i].key, e.key))
    && (forall i, j, e :: 0 <= i < j < |blocks| && e in blocks[j] ==> Before(index[i].key, e.key))
  }

  // ---- seeking ----

  /** Seeking in the index and then in its block is seeking in the whole. */
  lemma SeekSplits(index: seq<Entry>, blocks: seq<seq<Entry>>, target: InternalKey)
    requires IndexOk(index, blocks)
    ensures
      var i := SeekPosition(index, target);
      SeekPosition(Concat(blocks), target) == if i < |blocks| then Start(blocks, i) + SeekPosition(blocks[i], target) else |Concat(blocks)|
  {
    var i := SeekPosition(index, target);
    var all := Concat(blocks);
    var p := if i < |blocks| then Start(blocks, i) + SeekPosition(blocks[i], target) else |all|;
    if i < |blocks| {
      BlockInConcat(blocks, i);
    }
    forall j | 0 <= j < |all| ensures j < p ==> Before(all[j].key, target) ensures j == p ==> !Before(all[j].key, target) {
      var b, k := BlockOf(blocks, j);
      SeekInBlock(index, blocks, target, b, k);
      BlockInConcat(blocks, b);
      if i < |blocks| {
        StartsIncrease(blocks, if b < i then b + 1 else i, if b < i then i else b);
        if b > i {
          StartsIncrease(blocks, i + 1, b);
        }
      }
    }
    SeekIs(all, target, p);
  }

  lemma SeekInBlock(index: seq<Entry>, blocks: seq<seq<Entry>>, target: InternalKey, b: nat, k: nat)
    requires IndexOk(index, blocks) && b < |blocks| && k < |blocks[b]|
    ensures
      var i := SeekPosition(index, target);
      && (b < i ==> Before(blocks[b][k].key, target))
      && (b > i ==> !Before(blocks[b][k].key, target))
      && (b == i && k < SeekPosition(blocks[b], target) ==> Before(blocks[b][k].key, target))
      && (b == i && k == SeekPosition(blocks[b], target) ==> !Before(blocks[b][k].key, target))
  {
    var i, e := SeekPosition(index, target), blocks[b][k];
    assert e in blocks[b] && !Before(index[b].key, e.key);
    if b < i {
      assert Before(index[b].key, target);
    } else if b > i {
      assert Before(index[i].key, e.key) && !Before(index[i].key, target);
    }
  }

  class TwoLevelIterator {
    const index: Cursor
    const blocks: seq<seq<Entry>>
    var data: Option<Cursor>       // data_iter_
    var block: nat                 // data_block_handle_: the block data_iter_ is for

    /** The parts that never change. */
    ghost predicate Shape() {
      && IndexOk(index.entries, blocks)
      && SortedEntries(Concat(blocks))
      && forall i :: 0 <= i < |blocks| ==> SortedEntries(blocks[i])
    }

    ghost function Repr(): set<object>
      reads this
    {
      {index as object} + if data.Some? then {data.value as object} else {}
    }

    /** The data iterator is for the block the index is at. */
    ghost predicate Tied()
      reads this, Repr()
    {
      && Shape() && index.Ok() && index as object != this
      && (data.Some? ==>
            && data.value != index && data.value.Ok()
            && block == index.at < |blocks| && data.value.entries == blocks[block])
    }

    /** The position in the concatenation; its length when not valid. */
    ghost function At(): (p: nat)
      requires Tied()
      reads this, Repr()
      ensures p <= |Concat(blocks)|
    {
      if data.Some? then BlockInConcat(blocks, block); Start(blocks, block) + data.value.at else |Concat(blocks)|
    }

    predicate Valid()
      reads this, Repr()
    {
      data.Some? && data.value.Valid()
    }

    ghost predicate Ok()
      reads this, Repr()
    {
      Tied() && (data.Some? ==> data.value.Valid())
    }

    lemma ValidIsAt()
      requires Ok()
      ensures Valid() <==> At() < |Concat(blocks)|
      ensures Valid() ==> data.value.Current() == Concat(blocks)[At()]
    {
      if data.Some? {
        BlockInConcat(blocks, block);
      }
    }

    constructor (index: Cursor, blocks: seq<seq<Entry>>)
      requires index.Ok() && IndexOk(index.entries, blocks) && SortedEntries(Concat(blocks))
      requires forall i :: 0 <= i < |blocks| ==> SortedEntries(blocks[i])
      ensures Ok() && !Valid() && this.index == index && this.blocks == blocks && Repr() == {index}
    {
      this.index, this.blocks, data, block := index, blocks, None, 0;
    }

    /** A fresh iterator for the block the index is at, unless there is one already. */
    method InitDataBlock()
      requires Shape() && index.Ok() && (index as object) != this
      requires data.Some? ==> data.value != index && data.value.Ok() && block < |blocks| && data.value.entries == blocks[block]
      modifies this
      ensures Tied() && (data.Some? <==> index.at < |blocks|)
      ensures data == old(data) || data.None? || fresh(data.value)
      ensures old(data).Some? && old(block) == index.at < |blocks| ==> data == old(data)
    {
      if !index.Valid() {
        data := None;
      } else if data.Some? && block == index.at {
        // The data iterator is already the one for this block.
      } else {
        var iter := new Cursor(blocks[index.at]);
        block := index.at;
        data := Some(iter);
      }
    }

    method SkipEmptyDataBlocksForward()
      requires Tied() && (data.None? ==> index.at == |blocks|)
      modifies this, Repr()
      ensures Ok() && At() == old(At()) && (data == old(data) || data.None? || fresh(data.value))
    {
      hide SortedEntries;
      StartEnds(blocks);
      while data.None? || !data.value.Valid()
        invariant Tied() && (data.None? ==> index.at == |blocks|) && At() == old(At())
        invariant data == old(data) || data.None? || fresh(data.value)
        decreases |blocks| - index.at, data.Some?
      {
        if !index.Valid() {
          data := None;
          return;
        }
        BlockInConcat(blocks, block);
        index.Next();
        InitDataBlock();
        if data.Some? {
          data.value.SeekToFirst();
        }
      }
    }

    /** Where an iterator that has run off the front of its block is headed. */
    ghost function Behind(): nat
      requires Tied()
      reads this, Repr()
    {
      if data.None? then |Concat(blocks)|
      else if data.value.Valid() then At()
      else BlockInConcat(blocks, block); StepBack(Concat(blocks), Start(blocks, block))
    }

    method SkipEmptyDataBlocksBackward()
      requires Tied() && (data.None? ==> index.at == |blocks|)
      modifies this, Repr()
      ensures Ok() && At() == old(Behind()) && (data == old(data) || data.None? || fresh(data.value))
    {
      hide SortedEntries;
      StartEnds(blocks);
      ghost var goal := Behind();
      while data.None? || !data.value.Valid()
        invariant Tied() && (data.None? ==> index.at == |blocks|) && Behind() == goal
        invariant data == old(data) || data.None? || fresh(data.value)
        decreases data.Some?, if data.Some? then index.at else 0
      {
        if !index.Valid() {
          data := None;
          return;
        }
        if index.at > 0 {
          BlockInConcat(blocks, index.at - 1);
        }
        index.Prev();
        InitDataBlock();
        if data.Some? {
          data.value.SeekToLast();
        }
      }
    }

    method Seek(target: InternalKey)
      requires Ok()
      modifies this, Repr()
      ensures Ok() && At() == SeekPosition(Concat(blocks), target)
    {
      index.Seek(target);
      InitDataBlock();
      if data.Some? {
        data.value.Seek(target);
      }
      SeekSplits(index.entries, blocks, target);
      SkipEmptyDataBlocksForward();
    }

    method SeekToFirst()
      requires Ok()
      modifies this, Repr()
      ensures Ok() && At() == 0
    {
      index.SeekToFirst();
      InitDataBlock();
      if data.Some? {
        data.value.SeekToFirst();
      }
      StartEnds(blocks);
      SkipEmptyDataBlocksForward();
    }

    method SeekToLast()
      requires Ok()
      modifies this, Repr()
      ensures Ok() && At() == StepBack(Concat(blocks), |Concat(blocks)|)
    {
      StartEnds(blocks);
      if |blocks| > 0 {
        BlockInConcat(blocks, |blocks| - 1);
      }
      index.SeekToLast();
      InitDataBlock();
      if data.Some? {
        data.value.SeekToLast();
      }
      SkipEmptyDataBlocksBackward();
    }

    method Next()
      requires Ok() && Valid()
      modifies this, Repr()
      ensures Ok() && At() == old(At()) + 1
    {
      data.value.Next();
      SkipEmptyDataBlocksForward();
    }

    method Prev()
      requires Ok() && Valid()
      modifies this, Repr()
      ensures Ok() && At() == StepBack(Concat(blocks), old(At()))
    {
      data.value.Prev();
      SkipEmptyDataBlocksBackward();
    }
  }
}
