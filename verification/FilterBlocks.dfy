/** The filter block of a table: one filter for every 2KB of block offsets, then the array of the
    filters' offsets, the offset of that array, and the shift. */
module FilterBlocks {
  import opened Keys
  import opened Coding
  import opened Bloom

  const BASE_LG: Byte := 11
  const BASE: nat := 2048

  /** PutFixed32 of a size, cut to 32 bits. */
  function PutSize(n: nat): (r: Bytes)
    ensures |r| == 4
  {
    EncodeFixed32(n % 0x1_0000_0000)
  }

  function PutSizes(ns: seq<nat>): (r: Bytes)
    ensures |r| == 4 * |ns|
  {
    if ns == [] then [] else PutSizes(ns[..|ns| - 1]) + PutSize(ns[|ns| - 1])
  }

  lemma PutSizesNext(ns: seq<nat>, i: nat)
    requires i < |ns|
    ensures PutSizes(ns[..i + 1]) == PutSizes(ns[..i]) + PutSize(ns[i])
  {
    assert ns[..i + 1][..i] == ns[..i];
  }

  lemma {:induction false} SizeAt(ns: seq<nat>, i: nat)
    requires i < |ns|
    ensures PutSizes(ns)[4 * i..4 * i + 4] == PutSize(ns[i])
  {
    var last := |ns| - 1;
    if i < last {
      SizeAt(ns[..last], i);
      assert PutSizes(ns)[4 * i..4 * i + 4] == PutSizes(ns[..last])[4 * i..4 * i + 4];
    }
  }

  // ---- the builder ----

  /** `keys` holds the pending keys one after the other, key `i` from start[i] on. */
  ghost predicate Flattened(keys: Bytes, start: seq<nat>, pending: seq<Bytes>) {
    && |start| == |pending|
    && (forall i :: 0 <= i < |start| ==> start[i] <= End(keys, start, i) <= |keys|)
    && forall i :: 0 <= i < |start| ==> keys[start[i]..End(keys, start, i)] == pending[i]
  }

  function End(keys: Bytes, start: seq<nat>, i: nat): nat {
    if i + 1 < |start| then start[i + 1] else |keys|
  }

  /** A filter for these keys, or nothing where there are none. */
  ghost predicate IsGroup(hash: Bytes -> Word, probes: nat, group: seq<Bytes>, filter: Bytes) {
    if group == [] then filter == [] else IsFilterFor(hash, group, probes, filter)
  }

  function Limit(result: Bytes, offsets: seq<nat>, i: nat): nat {
    if i + 1 < |offsets| then offsets[i + 1] else |result|
  }

  ghost predicate GroupsOk(hash: Bytes -> Word, probes: nat, result: Bytes, offsets: seq<nat>, groups: seq<seq<Bytes>>) {
    && |groups| == |offsets|
    && (forall i :: 0 <= i < |offsets| ==> offsets[i] <= Limit(result, offsets, i) <= |result|)
    && forall i :: 0 <= i < |offsets| ==> IsGroup(hash, probes, groups[i], result[offsets[i]..Limit(result, offsets, i)])
  }

  lemma OneMoreGroup(hash: Bytes -> Word, probes: nat, result: Bytes, offsets: seq<nat>, groups: seq<seq<Bytes>>, result': Bytes, group: seq<Bytes>)
    requires GroupsOk(hash, probes, result, offsets, groups) && result <= result'
    requires IsGroup(hash, probes, group, result'[|result|..])
    ensures GroupsOk(hash, probes, result', offsets + [|result|], groups + [group])
  {
    var offsets' := offsets + [|result|];
    forall i | 0 <= i < |offsets'|
      ensures offsets'[i] <= Limit(result', offsets', i) <= |result'|
      ensures IsGroup(hash, probes, (groups + [group])[i], result'[offsets'[i]..Limit(result', offsets', i)])
    {
      if i < |offsets| {
        assert Limit(result', offsets', i) == Limit(result, offsets, i);
        assert result'[offsets[i]..Limit(result, offsets, i)] == result[offsets[i]..Limit(result, offsets, i)];
      } else {
        assert result'[|result|..|result'|] == result'[|result|..];
      }
    }
  }

  /** The filters, then the array of their offsets, which its own offset ends, then the shift. */
  function Block(filters: Bytes, offsets: seq<nat>): Bytes {
    filters + PutSizes(offsets + [|filters|]) + [BASE_LG]
  }

  // ---- the reader ----

  function ShiftRight(n: nat, shift: nat): nat {
    if shift == 0 then n else ShiftRight(n / 2, shift - 1)
  }

  function OffsetAt(contents: Bytes, at: nat): nat
    requires at + 4 <= |contents|
  {
    DecodeFixed32(contents[at..])
  }

  /** What FilterBlockReader answers for a filter block. */
  predicate FilterMayMatch(hash: Bytes -> Word, contents: Bytes, blockOffset: nat, key: Bytes) {
    var n := |contents|;
    if n < 5 then true
    else
      var baseLg := contents[n - 1];
      var lastWord := OffsetAt(contents, n - 5);
      if lastWord > n - 5 then true
      else
        var num := (n - 5 - lastWord) / 4;
        var index := ShiftRight(blockOffset, baseLg);
        if index < num then
          var first := OffsetAt(contents, lastWord + index * 4);
          var limit := OffsetAt(contents, lastWord + index * 4 + 4);
          if first <= limit <= lastWord then MayMatch(hash, key, contents[first..limit]) else first != limit
        else true
  }

  /** The words of the offset array, of which the last is the array's own offset. */
  lemma WordAt(filters: Bytes, offsets: seq<nat>, i: nat)
    requires i <= |offsets| && |filters| < 0x1_0000_0000 && (i < |offsets| ==> offsets[i] < 0x1_0000_0000)
    ensures |Block(filters, offsets)| == |filters| + 4 * |offsets| + 5
    ensures DecodeFixed32(Block(filters, offsets)[|filters| + 4 * i..]) == if i < |offsets| then offsets[i] else |filters|
  {
    hide PutSizes, EncodeFixed32, DecodeFixed32;
    var all := offsets + [|filters|];
    var word := all[i] % 0x1_0000_0000;
    SizeAt(all, i);
    var block := Block(filters, offsets);
    var tail := block[|filters| + 4 * i..];
    assert tail[..4] == PutSizes(all)[4 * i..4 * i + 4] == EncodeFixed32(word);
    assert tail == EncodeFixed32(word) + tail[4..];
    Fixed32RoundTrip(word, tail[4..]);
  }

  lemma ShiftTwice(n: nat, shift: nat)
    ensures ShiftRight(n, shift + 2) == ShiftRight(n / 4, shift)
  {
    assert n / 2 / 2 == n / 4;
    assert ShiftRight(n, shift + 2) == ShiftRight(n / 2, shift + 1);
  }

  lemma ShiftIsBase(offset: nat)
    ensures ShiftRight(offset, BASE_LG) == offset / BASE
  {
    ShiftTwice(offset, 9);
    ShiftTwice(offset / 4, 7);
    ShiftTwice(offset / 4 / 4, 5);
    ShiftTwice(offset / 4 / 4 / 4, 3);
    ShiftTwice(offset / 4 / 4 / 4 / 4, 1);
    assert offset / 4 / 4 / 4 / 4 / 4 / 2 == offset / BASE;
  }

  /** Reading a filter block finds the filter made for the offset's 2KB range. */
  lemma ReadsBack(hash: Bytes -> Word, probes: nat, filters: Bytes, offsets: seq<nat>, groups: seq<seq<Bytes>>, offset: nat, key: Bytes)
    requires GroupsOk(hash, probes, filters, offsets, groups) && |Block(filters, offsets)| < 0x1_0000_0000
    requires offset / BASE < |offsets|
    ensures
      var index := offset / BASE;
      FilterMayMatch(hash, Block(filters, offsets), offset, key) == MayMatch(hash, key, filters[offsets[index]..Limit(filters, offsets, index)])
  {
    hide PutSizes, DecodeFixed32, MayMatch, IsGroup, ShiftRight;
    var index := offset / BASE;
    var block := Block(filters, offsets);
    var n := |block|;
    WordAt(filters, offsets, |offsets|);
    WordAt(filters, offsets, index);
    WordAt(filters, offsets, index + 1);
    ShiftIsBase(offset);
    assert block[n - 1] == BASE_LG;
    assert n - 5 == |filters| + 4 * |offsets|;
    var first, limit := offsets[index], Limit(filters, offsets, index);
    assert block[first..limit] == filters[first..limit];
  }

  /** So a key added under the offset matches, and where no key was added nothing does. */
  lemma GroupAnswers(hash: Bytes -> Word, probes: nat, filters: Bytes, offsets: seq<nat>, groups: seq<seq<Bytes>>, offset: nat, key: Bytes)
    requires GroupsOk(hash, probes, filters, offsets, groups) && |Block(filters, offsets)| < 0x1_0000_0000
    requires offset / BASE < |offsets|
    ensures key in groups[offset / BASE] ==> FilterMayMatch(hash, Block(filters, offsets), offset, key)
    ensures groups[offset / BASE] == [] ==> !FilterMayMatch(hash, Block(filters, offsets), offset, key)
  {
    hide FilterMayMatch, Block, IsFilterFor;
    ReadsBack(hash, probes, filters, offsets, groups, offset, key);
    var index := offset / BASE;
    var filter := filters[offsets[index]..Limit(filters, offsets, index)];
    assert IsGroup(hash, probes, groups[index], filter);
    if key in groups[index] {
      NoFalseNegatives(hash, groups[index], probes, filter, key);
    }
  }

  function Under(groups: seq<seq<Bytes>>, pending: seq<Bytes>, index: nat): seq<Bytes> {
    if index < |groups| then groups[index] else if index == |groups| then pending else []
  }

  class FilterBlockBuilder {
    const policy: BloomFilterPolicy
    var keys: Bytes
    var start: seq<nat>
    var result: Bytes
    var filterOffsets: seq<nat>
    ghost var pending: seq<Bytes>        // the keys for the next filter
    ghost var groups: seq<seq<Bytes>>    // the keys of the filters made so far

    ghost predicate Ok()
      reads this
    {
      && 1 <= policy.probes <= MAX_PROBES
      && Flattened(keys, start, pending)
      && GroupsOk(policy.hash, policy.probes, result, filterOffsets, groups)
    }

    /** The keys that were added under block offsets of this 2KB range. */
    ghost function KeysUnder(index: nat): seq<Bytes>
      reads this
    {
      Under(groups, pending, index)
    }

    constructor (policy: BloomFilterPolicy)
      requires 1 <= policy.probes <= MAX_PROBES
      ensures Ok() && filterOffsets == [] && this.policy == policy && forall i :: KeysUnder(i) == []
    {
      this.policy := policy;
      keys, start, result, filterOffsets, pending, groups := [], [], [], [], [], [];
    }

    method GenerateFilter()
      requires Ok()
      modifies this
      ensures Ok() && |filterOffsets| == |old(filterOffsets)| + 1 && pending == [] && start == []
      ensures groups == old(groups) + [old(pending)]
    {
      hide GroupsOk, IsFilterFor;
      var numKeys := |start|;
      ghost var result0 := result;
      if numKeys == 0 {
        assert pending == [];
        OneMoreGroup(policy.hash, policy.probes, result, filterOffsets, groups, result, pending);
        filterOffsets := filterOffsets + [|result|];
        groups := groups + [pending];
        keys := [];
        return;
      }
      var tmpKeys := ListKeys();
      filterOffsets := filterOffsets + [|result|];
      result := policy.CreateFilter(tmpKeys, result);
      OneMoreGroup(policy.hash, policy.probes, result0, old(filterOffsets), groups, result, pending);
      groups := groups + [pending];
      keys, start, pending := [], [], [];
    }

    /** Cuts the flattened keys apart. */
    method ListKeys() returns (tmpKeys: seq<Bytes>)
      requires Flattened(keys, start, pending)
      ensures tmpKeys == pending
    {
      tmpKeys := [];
      for i := 0 to |start|
        invariant tmpKeys == pending[..i]
      {
        tmpKeys := tmpKeys + [keys[start[i]..End(keys, start, i)]];
      }
    }

    method StartBlock(blockOffset: nat)
      requires Ok() && |filterOffsets| <= blockOffset / BASE
      modifies this
      ensures Ok() && |filterOffsets| == blockOffset / BASE
      ensures forall i: nat :: KeysUnder(i) == old(KeysUnder(i))
    {
      var filterIndex := blockOffset / BASE;
      while filterIndex > |filterOffsets|
        invariant Ok() && |filterOffsets| <= filterIndex
        invariant forall i: nat :: KeysUnder(i) == old(KeysUnder(i))
        decreases filterIndex - |filterOffsets|
      {
        GenerateFilter();
      }
    }

    method AddKey(key: Bytes)
      requires Ok()
      modifies this
      ensures Ok() && filterOffsets == old(filterOffsets)
      ensures forall i: nat :: KeysUnder(i) == old(KeysUnder(i)) + if i == |filterOffsets| then [key] else []
    {
      ghost var keys0, start0 := keys, start;
      start := start + [|keys|];
      keys := keys + key;
      pending := pending + [key];
      forall i | 0 <= i < |start| ensures start[i] <= End(keys, start, i) <= |keys| && keys[start[i]..End(keys, start, i)] == pending[i] {
        if i < |start0| {
          assert End(keys, start, i) == End(keys0, start0, i);
          assert keys[start[i]..End(keys, start, i)] == keys0[start0[i]..End(keys0, start0, i)];
        }
      }
    }

    /** A key answers to every block offset it was added under, once the size fits 32 bits. */
    method Finish() returns (contents: Bytes)
      requires Ok()
      modifies this
      ensures |contents| >= 5 && contents[|contents| - 1] == 11
      ensures |contents| < 0x1_0000_0000 ==>
        forall key, offset: nat :: key in old(KeysUnder(offset / BASE)) ==> FilterMayMatch(policy.hash, contents, offset, key)
      ensures |contents| < 0x1_0000_0000 ==>
        forall key, offset: nat :: offset / BASE < |old(filterOffsets)| && old(KeysUnder(offset / BASE)) == [] ==>
          !FilterMayMatch(policy.hash, contents, offset, key)
    {
      hide GroupsOk, FilterMayMatch, Block;
      if start != [] {
        GenerateFilter();
      }
      assert forall i: nat :: KeysUnder(i) == old(KeysUnder(i));
      FilterAnswers();
      contents := AppendArray();
    }

    lemma FilterAnswers()
      requires Ok() && pending == []
      ensures |Block(result, filterOffsets)| < 0x1_0000_0000 ==>
        forall key, offset: nat ::
          && (key in KeysUnder(offset / BASE) ==> FilterMayMatch(policy.hash, Block(result, filterOffsets), offset, key))
          && (offset / BASE < |filterOffsets| && KeysUnder(offset / BASE) == [] ==>
                !FilterMayMatch(policy.hash, Block(result, filterOffsets), offset, key))
    {
      hide FilterMayMatch, Block, Flattened;
      if |Block(result, filterOffsets)| < 0x1_0000_0000 {
        forall key: Bytes, offset: nat
          ensures key in KeysUnder(offset / BASE) ==> FilterMayMatch(policy.hash, Block(result, filterOffsets), offset, key)
          ensures offset / BASE < |filterOffsets| && KeysUnder(offset / BASE) == [] ==>
            !FilterMayMatch(policy.hash, Block(result, filterOffsets), offset, key)
        {
          if offset / BASE < |filterOffsets| {
            GroupAnswers(policy.hash, policy.probes, result, filterOffsets, groups, offset, key);
          }
        }
      }
    }

    method AppendArray() returns (contents: Bytes)
      modifies this`result
      ensures contents == Block(old(result), filterOffsets)
      ensures |contents| >= 5 && contents[|contents| - 1] == 11
    {
      hide PutSize, PutSizes;
      var arrayOffset := |result|;
      ghost var words := filterOffsets + [arrayOffset];
      NoSizes(words);
      for i := 0 to |filterOffsets|
        invariant result == old(result) + PutSizes(words[..i])
      {
        PutSizesNext(words, i);
        result := result + PutSize(filterOffsets[i]);
      }
      PutSizesNext(words, |filterOffsets|);
      assert words[..|words|] == words;
      result := result + PutSize(arrayOffset);
      result := result + [BASE_LG];
      contents := result;
    }
  }

  lemma NoSizes(ns: seq<nat>)
    ensures PutSizes(ns[..0]) == []
  {
  }
}
