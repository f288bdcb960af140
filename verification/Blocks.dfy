/** The block format: prefix-compressed entries, an array of restart points, and its length. */
module Blocks {
  import opened Keys
  import opened Sequences
  import opened Coding

  datatype KeyValue = KeyValue(key: Bytes, value: Bytes)

  /** An entry together with how many bytes it shares with the key before. */
  datatype Item = Item(kv: KeyValue, shared: nat)

  predicate ItemOk(item: Item) {
    item.shared <= |item.kv.key| < 0x1_0000_0000 && |item.kv.value| < 0x1_0000_0000
  }

  function Delta(item: Item): Bytes {
    if item.shared <= |item.kv.key| then item.kv.key[item.shared..] else []
  }

  function Header(item: Item): (r: Bytes)
    ensures |r| >= 3
  {
    Varint(item.shared) + Varint(|Delta(item)|) + Varint(|item.kv.value|)
  }

  function ItemBytes(item: Item): (r: Bytes)
    ensures |r| >= 3 + |item.kv.value|
  {
    Header(item) + Delta(item) + item.kv.value
  }

  function Buffer(items: seq<Item>): Bytes {
    if items == [] then [] else Buffer(items[..|items| - 1]) + ItemBytes(items[|items| - 1])
  }

  /** Where entry `i` begins. */
  function Offset(items: seq<Item>, i: nat): nat
    requires i <= |items|
  {
    |Buffer(items[..i])|
  }

  ghost predicate ItemsOk(items: seq<Item>) {
    && (forall i :: 0 <= i < |items| ==> ItemOk(items[i]))
    && (items != [] ==> items[0].shared == 0)
    && forall i :: 0 < i < |items| ==> SharesPrefix(items[i - 1].kv.key, items[i].kv.key, items[i].shared)
  }

  /** `marks` are the entries at restart points, which share nothing. */
  ghost predicate MarksOk(items: seq<Item>, marks: seq<nat>) {
    && marks != [] && marks[0] == 0
    && (forall j :: 0 < j < |marks| ==> marks[j - 1] < marks[j] < |items|)
    && forall j :: 0 <= j < |marks| && marks[j] < |items| ==> items[marks[j]].shared == 0
  }

  ghost predicate RestartsOk(items: seq<Item>, marks: seq<nat>, restarts: seq<nat>)
  {
    |restarts| == |marks| && forall j :: 0 <= j < |marks| ==> marks[j] <= |items| && restarts[j] == Offset(items, marks[j])
  }

  function Words(ns: seq<nat>): (r: Bytes)
    ensures |r| == 4 * |ns|
  {
    if ns == [] then [] else Words(ns[..|ns| - 1]) + EncodeFixed32(ns[|ns| - 1] % 0x1_0000_0000)
  }

  /** A finished block. */
  function BlockBytes(items: seq<Item>, restarts: seq<nat>): Bytes {
    Buffer(items) + Words(restarts + [|restarts|])
  }

  lemma BufferNext(items: seq<Item>, i: nat)
    requires i < |items|
    ensures Buffer(items[..i + 1]) == Buffer(items[..i]) + ItemBytes(items[i])
    ensures Offset(items, i) < Offset(items, i + 1) == Offset(items, i) + |ItemBytes(items[i])|
  {
    assert items[..i + 1][..i] == items[..i];
  }

  lemma {:induction false} BufferPrefix(items: seq<Item>, i: nat, j: nat)
    requires i <= j <= |items|
    ensures Buffer(items[..i]) <= Buffer(items[..j])
    ensures i < j ==> Offset(items, i) < Offset(items, j)
    decreases j
  {
    hide ItemBytes;
    if i < j {
      BufferNext(items, j - 1);
      BufferPrefix(items, i, j - 1);
    }
  }

  /** Entry `i` is where its offset says. */
  lemma ItemInBuffer(items: seq<Item>, i: nat)
    requires i < |items|
    ensures Offset(items, i) + |ItemBytes(items[i])| == Offset(items, i + 1) <= |Buffer(items)|
    ensures Buffer(items)[Offset(items, i)..Offset(items, i + 1)] == ItemBytes(items[i])
  {
    hide ItemBytes, Buffer;
    BufferNext(items, i);
    BufferPrefix(items, i + 1, |items|);
    assert items[..|items|] == items;
  }

  /** Three numbers of at most seven bits each, what the key does not share, the value. */
  lemma EntryOnDisk(items: seq<Item>, item: Item)
    requires ItemOk(item) && item.shared < 128 && |item.kv.key| - item.shared < 128 && |item.kv.value| < 128
    ensures Buffer(items + [item]) ==
      Buffer(items) + ([item.shared, |item.kv.key| - item.shared, |item.kv.value|] + item.kv.key[item.shared..] + item.kv.value)
  {
    assert (items + [item])[..|items|] == items;
    assert Header(item) == [item.shared, |item.kv.key| - item.shared, |item.kv.value|];
  }

  // ---- adding an entry ----

  function LastKey(items: seq<Item>): Bytes {
    if items == [] then [] else items[|items| - 1].kv.key
  }

  lemma SharesAtMost(last: Bytes, key: Bytes, n: nat)
    ensures SharesPrefix(last, key, 0)
    ensures SharesPrefix(last, key, n) ==> n <= |last| && n <= |key| && last[..n] == key[..n]
  {
  }

  /** A restart point every `interval` entries, `counter` of them since the last. */
  ghost predicate Spaced(items: seq<Item>, marks: seq<nat>, interval: nat, counter: nat) {
    && marks != [] && marks[|marks| - 1] + counter == |items|
    && forall j :: 0 < j < |marks| ==> marks[j] == marks[j - 1] + interval
  }

  lemma AddedItem(items: seq<Item>, item: Item)
    requires ItemsOk(items) && ItemOk(item) && SharesPrefix(LastKey(items), item.kv.key, item.shared)
    ensures ItemsOk(items + [item]) && Buffer(items + [item]) == Buffer(items) + ItemBytes(item)
  {
    hide ItemBytes;
    var items' := items + [item];
    assert items'[..|items|] == items;
  }

  lemma AddedMark(items: seq<Item>, marks: seq<nat>, item: Item, restart: bool)
    requires MarksOk(items, marks) && (items == [] ==> marks == [0] && item.shared == 0) && (restart ==> items != [] && item.shared == 0)
    ensures MarksOk(items + [item], if restart then marks + [|items|] else marks)
  {
    var marks' := if restart then marks + [|items|] else marks;
    forall j | 0 < j < |marks'| ensures marks'[j - 1] < marks'[j] < |items| + 1 {
      assert restart && j == |marks| ==> marks[j - 1] < |items|;
    }
  }

  lemma AddedRestart(items: seq<Item>, marks: seq<nat>, restarts: seq<nat>, item: Item, restart: bool)
    requires RestartsOk(items, marks, restarts)
    ensures
      RestartsOk(items + [item], if restart then marks + [|items|] else marks, if restart then restarts + [|Buffer(items)|] else restarts)
  {
    hide Buffer;
    var items' := items + [item];
    var marks' := if restart then marks + [|items|] else marks;
    var restarts' := if restart then restarts + [|Buffer(items)|] else restarts;
    forall j | 0 <= j < |marks'| ensures marks'[j] <= |items'| && restarts'[j] == Offset(items', marks'[j]) {
      if j < |marks| {
        assert items'[..marks[j]] == items[..marks[j]];
      } else {
        assert items'[..|items|] == items;
      }
    }
  }

  // ---- the builder ----

  class BlockBuilder {
    const restartInterval: nat
    var buffer: Bytes
    var restarts: seq<nat>
    var counter: nat
    var lastKey: Bytes
    ghost var items: seq<Item>
    ghost var marks: seq<nat>

    ghost predicate Ok()
      reads this
    {
      && ItemsOk(items) && MarksOk(items, marks) && RestartsOk(items, marks, restarts)
      && buffer == Buffer(items)
      && lastKey == LastKey(items)
      && restartInterval >= 1 && counter <= restartInterval && (items == [] <==> counter == 0) && (items == [] ==> marks == [0])
      && Spaced(items, marks, restartInterval, counter)
    }

    constructor (restartInterval: nat)
      requires restartInterval >= 1
      ensures Ok() && items == [] && this.restartInterval == restartInterval
    {
      this.restartInterval := restartInterval;
      buffer, restarts, counter, lastKey := [], [0], 0, [];
      items, marks := [], [0];
    }

    predicate Empty()
      reads this
    {
      buffer == []
    }

    function CurrentSizeEstimate(): nat
      reads this
    {
      |buffer| + 4 * |restarts| + 4
    }

    lemma EmptyHasNoItems()
      requires Ok()
      ensures Empty() <==> items == []
    {
      hide ItemBytes;
    }

    /** Also after Finish. */
    method Reset()
      requires restartInterval >= 1
      modifies this
      ensures Ok() && items == []
    {
      buffer, restarts, counter, lastKey := [], [0], 0, [];
      items, marks := [], [0];
    }

    /** The loop over the common prefix with the last key. */
    method CommonPrefix(key: Bytes) returns (shared: nat)
      ensures SharesLongest(lastKey, key, shared)
    {
      var minLength := if |lastKey| < |key| then |lastKey| else |key|;
      shared := 0;
      while shared < minLength && lastKey[shared] == key[shared]
        invariant shared <= minLength && SharesPrefix(lastKey, key, shared)
      {
        shared := shared + 1;
      }
      DifferEnds(lastKey, key, shared);
    }

    /** The entry shares as much as it can with the key before, or starts anew every `restartInterval`
        entries. */
    method Add(key: Bytes, value: Bytes)
      requires Ok() && |key| < 0x1_0000_0000 && |value| < 0x1_0000_0000
      modifies this
      ensures Ok() && |items| == |old(items)| + 1 && items[..|old(items)|] == old(items)
      ensures items[|old(items)|].kv == KeyValue(key, value)
      ensures
        var count, last, shared := |old(items)|, old(marks)[|old(marks)| - 1], items[|old(items)|].shared;
        if count == last + restartInterval then marks == old(marks) + [count] && shared == 0
        else marks == old(marks) && SharesLongest(LastKey(old(items)), key, shared)
    {
      hide ItemsOk, MarksOk, RestartsOk, Buffer, ItemBytes, SharesPrefix;
      ghost var restart := counter >= restartInterval;
      var shared := 0;
      if counter < restartInterval {
        shared := CommonPrefix(key);
      } else {
        restarts := restarts + [|buffer|];
        counter := 0;
      }
      SharesAtMost(LastKey(items), key, shared);
      ghost var item := Item(KeyValue(key, value), shared);
      AppendItem(key, value, shared);
      AddedItem(items, item);
      AddedMark(items, marks, item, restart);
      AddedRestart(items, marks, old(restarts), item, restart);
      marks := if restart then marks + [|items|] else marks;
      items := items + [item];
      lastKey := lastKey[..shared] + key[shared..];
      assert lastKey == key;
      counter := counter + 1;
    }

    /** Three varints, the key's delta and the value. */
    method AppendItem(key: Bytes, value: Bytes, shared: nat)
      requires shared <= |key| < 0x1_0000_0000 && |value| < 0x1_0000_0000
      modifies this`buffer
      ensures buffer == old(buffer) + ItemBytes(Item(KeyValue(key, value), shared))
    {
      hide Varint;
      var nonShared := |key| - shared;
      var a := EncodeVarint32(shared);
      var b := EncodeVarint32(nonShared);
      var c := EncodeVarint32(|value|);
      buffer := buffer + a + b + c;
      buffer := buffer + key[shared..];
      buffer := buffer + value;
    }

    /** The restart array, and its length. */
    method Finish() returns (block: Bytes)
      requires Ok()
      modifies this`buffer
      ensures block == BlockBytes(items, restarts)
    {
      hide ItemsOk, MarksOk, RestartsOk, Buffer, Words;
      ghost var words := restarts + [|restarts|];
      NoWords(words);
      for i := 0 to |restarts|
        invariant buffer == Buffer(items) + Words(words[..i])
      {
        WordsNext(words, i);
        buffer := buffer + EncodeFixed32(restarts[i] % 0x1_0000_0000);
      }
      WordsNext(words, |restarts|);
      assert words[..|words|] == words;
      buffer := buffer + EncodeFixed32(|restarts| % 0x1_0000_0000);
      block := buffer;
    }
  }

  lemma NoWords(ns: seq<nat>)
    ensures Words(ns[..0]) == []
  {
  }

  lemma WordsNext(ns: seq<nat>, i: nat)
    requires i < |ns|
    ensures Words(ns[..i + 1]) == Words(ns[..i]) + EncodeFixed32(ns[i] % 0x1_0000_0000)
  {
    assert ns[..i + 1][..i] == ns[..i];
  }

  lemma {:induction false} WordAt(ns: seq<nat>, i: nat)
    requires i < |ns| && ns[i] < 0x1_0000_0000
    ensures DecodeFixed32(Words(ns)[4 * i..]) == ns[i]
  {
    hide EncodeFixed32, DecodeFixed32;
    var last := |ns| - 1;
    var word := EncodeFixed32(ns[last] % 0x1_0000_0000);
    if i < last {
      WordAt(ns[..last], i);
      FirstFourBytes(Words(ns[..last])[4 * i..], word);
      assert Words(ns)[4 * i..] == Words(ns[..last])[4 * i..] + word;
    } else {
      Fixed32RoundTrip(ns[last], []);
      assert Words(ns)[4 * i..] == word + [];
    }
  }

  lemma FirstFourBytes(p: Bytes, rest: Bytes)
    requires |p| >= 4
    ensures DecodeFixed32(p + rest) == DecodeFixed32(p)
  {
  }
}
