/** Block::Iter: a cursor over the entries of a block, kept in its bytes. */
module BlockIterators {
  import opened Keys
  import opened Coding
  import opened Sequences
  import opened Cursors
  import opened Blocks

  // ---- DecodeEntry ----

  datatype EntryHeader = EntryHeader(shared: nat, nonShared: nat, valueLength: nat, length: nat)

  function Low32(n: nat): nat {
    n % 0x1_0000_0000
  }

  /** The three varints at the front. */
  function Varints(p: Bytes): (r: Option<EntryHeader>)
    ensures r.Some? ==> 3 <= r.value.length <= |p|
  {
    match GetVarint(p, 5)
    case None => None
    case Some(a) =>
      match GetVarint(p[a.length..], 5)
      case None => None
      case Some(b) =>
        match GetVarint(p[a.length + b.length..], 5)
        case None => None
        case Some(c) => Some(EntryHeader(Low32(a.value), Low32(b.value), Low32(c.value), a.length + b.length + c.length))
  }

  /** A header counts only when what it announces is there. */
  function DecodeEntry(p: Bytes): (r: Option<EntryHeader>)
    ensures r.Some? ==> r.value.length <= |p|
  {
    match Varints(p)
    case None => None
    case Some(h) => if Low32(|p| - h.length) < Low32(h.nonShared + h.valueLength) then None else Some(h)
  }

  method ReadVarints(p: Bytes) returns (r: Option<EntryHeader>)
    ensures r == Varints(p)
  {
    hide GetVarint;
    var a := GetVarint32(p);
    if a.None? {
      return None;
    }
    var b := GetVarint32(p[a.value.length..]);
    if b.None? {
      return None;
    }
    var c := GetVarint32(p[a.value.length + b.value.length..]);
    if c.None? {
      return None;
    }
    r := Some(EntryHeader(a.value.value, b.value.value, c.value.value, a.value.length + b.value.length + c.value.length));
  }

  /** As the code does it, with the fast path for three small numbers. */
  method ReadHeader(p: Bytes) returns (r: Option<EntryHeader>)
    ensures r == DecodeEntry(p)
  {
    hide Varints;
    if |p| < 3 {
      TooShort(p);
      return None;
    }
    var header: EntryHeader;
    if p[0] < 128 && p[1] < 128 && p[2] < 128 {
      header := EntryHeader(p[0], p[1], p[2], 3);
      FastPath(p);
    } else {
      var h := ReadVarints(p);
      if h.None? {
        return None;
      }
      header := h.value;
    }
    r := if Low32(|p| - header.length) < Low32(header.nonShared + header.valueLength) then None else Some(header);
  }

  lemma TooShort(p: Bytes)
    requires |p| < 3
    ensures Varints(p) == None
  {
  }

  lemma FastPath(p: Bytes)
    requires |p| >= 3 && p[0] < 128 && p[1] < 128 && p[2] < 128
    ensures Varints(p) == Some(EntryHeader(p[0], p[1], p[2], 3))
  {
  }

  lemma VarintsOfItem(item: Item, tail: Bytes)
    requires ItemOk(item)
    ensures Varints(Header(item) + tail) == Some(EntryHeader(item.shared, |Delta(item)|, |item.kv.value|, |Header(item)|))
  {
    hide Varint, GetVarint, Delta;
    assert |Delta(item)| <= |item.kv.key| by {
      DeltaLength(item);
    }
    var p := Header(item) + tail;
    var a, b, c := Varint(item.shared), Varint(|Delta(item)|), Varint(|item.kv.value|);
    assert p == a + (b + (c + tail));
    Varint32RoundTrip(item.shared, b + (c + tail));
    assert p[|a|..] == b + (c + tail);
    Varint32RoundTrip(|Delta(item)|, c + tail);
    assert p[|a| + |b|..] == c + tail;
    Varint32RoundTrip(|item.kv.value|, tail);
  }

  lemma DeltaLength(item: Item)
    requires ItemOk(item)
    ensures |Delta(item)| == |item.kv.key| - item.shared
  {
  }

  lemma DecodesItem(item: Item, rest: Bytes)
    requires ItemOk(item) && |ItemBytes(item) + rest| < 0x1_0000_0000
    ensures DecodeEntry(ItemBytes(item) + rest) == Some(EntryHeader(item.shared, |Delta(item)|, |item.kv.value|, |Header(item)|))
  {
    hide Varints, Header;
    var tail := Delta(item) + item.kv.value + rest;
    assert ItemBytes(item) + rest == Header(item) + tail;
    VarintsOfItem(item, tail);
  }

  // ---- the iterator ----

  ghost predicate Transitive(less: (Bytes, Bytes) -> bool) {
    forall a, b, c :: less(a, b) && less(b, c) ==> less(a, c)
  }

  ghost predicate SortedItems(less: (Bytes, Bytes) -> bool, items: seq<Item>) {
    forall i, j :: 0 <= i < j < |items| ==> less(items[i].kv.key, items[j].kv.key)
  }

  /** The first entry whose key is at or after the target. */
  ghost predicate IsFirstFrom(less: (Bytes, Bytes) -> bool, items: seq<Item>, target: Bytes, i: nat) {
    && i <= |items|
    && (forall j :: 0 <= j < i ==> less(items[j].kv.key, target))
    && (forall j :: i <= j < |items| ==> !less(items[j].kv.key, target))
  }

  class BlockIterator {
    const less: (Bytes, Bytes) -> bool      // the comparator
    const data: Bytes
    const restartsAt: nat
    const numRestarts: nat
    var current: nat
    var restartIndex: nat
    var key: Bytes
    var valueStart: nat
    var valueEnd: nat
    var corrupt: bool
    ghost const items: seq<Item>
    ghost const marks: seq<nat>
    ghost const restarts: seq<nat>
    ghost var at: nat               // the entry; their number when not valid

    /** The bytes are those of a block with these entries. */
    ghost predicate Shape() {
      && ItemsOk(items) && MarksOk(items, marks) && RestartsOk(items, marks, restarts) && SortedItems(less, items) && Transitive(less)
      && data == BlockBytes(items, restarts) && |data| < 0x1_0000_0000
      && restartsAt == |Buffer(items)| && numRestarts == |marks|
    }

    /** The entry in the fields is entry `i`. */
    ghost predicate AtEntry(i: nat)
      reads this
    {
      && i < |items| && current == Offset(items, i) && key == items[i].kv.key
      && valueEnd == Offset(items, i + 1) && valueStart + |items[i].kv.value| == valueEnd
      && restartIndex < |marks| && marks[restartIndex] <= i && (restartIndex + 1 < |marks| ==> i <= marks[restartIndex + 1])
    }

    /** ParseNextKey would find entry `i`, or the end. */
    ghost predicate Before(i: nat)
      reads this
    {
      && i <= |items| && valueEnd == Offset(items, i) && restartIndex < |marks| && marks[restartIndex] <= i
      && (i < |items| ==> SharesPrefix(key, items[i].kv.key, items[i].shared))
    }

    ghost predicate Ok()
      reads this
    {
      && Shape() && !corrupt && at <= |items|
      && (at < |items| ==> AtEntry(at))
      && (at == |items| ==> current == restartsAt && restartIndex == numRestarts)
    }

    predicate Valid()
      reads this
    {
      current < restartsAt
    }

    function Value(): Bytes
      requires Ok() && at < |items| && valueStart <= valueEnd <= |data|
      reads this
    {
      data[valueStart..valueEnd]
    }

    lemma ValidIsAt()
      requires Ok()
      ensures Valid() <==> at < |items|
      ensures at < |items| ==> key == items[at].kv.key && valueStart <= valueEnd <= |data| && Value() == items[at].kv.value
    {
      hide ItemsOk, MarksOk, RestartsOk, SortedItems, Transitive, Words, Buffer, ItemBytes;
      OffsetOfEnd(items, at);
      if at < |items| {
        ItemInBuffer(items, at);
        ValueOfEntry(items[at], Offset(items, at), Offset(items, at + 1));
      }
    }

    lemma ValueOfEntry(item: Item, a: nat, b: nat)
      requires a <= b <= restartsAt <= |data| && data[..restartsAt] == Buffer(items) && Buffer(items)[a..b] == ItemBytes(item)
      requires valueEnd == b && valueStart + |item.kv.value| == valueEnd
      ensures valueStart <= valueEnd <= |data| && data[valueStart..valueEnd] == item.kv.value
    {
      hide Buffer, ItemBytes;
      ValueAtEnd(item);
      assert data[a..b] == ItemBytes(item);
      assert data[valueStart..valueEnd] == data[a..b][valueStart - a..];
    }

    lemma ValueAtEnd(item: Item)
      ensures |item.kv.value| <= |ItemBytes(item)| && ItemBytes(item)[|ItemBytes(item)| - |item.kv.value|..] == item.kv.value
    {
    }

    /** Block's constructor and NewIterator, for a block that a BlockBuilder has finished. */
    constructor (less: (Bytes, Bytes) -> bool, block: Bytes, ghost items: seq<Item>, ghost marks: seq<nat>, ghost restarts: seq<nat>)
      requires ItemsOk(items) && MarksOk(items, marks) && RestartsOk(items, marks, restarts) && SortedItems(less, items) && Transitive(less)
      requires block == BlockBytes(items, restarts) && |block| < 0x1_0000_0000
      ensures Ok() && at == |items| && this.items == items && this.less == less
    {
      RestartCount(items, restarts);
      this.less, data := less, block;
      this.items, this.marks, this.restarts := items, marks, restarts;
      var n := DecodeFixed32(block[|block| - 4..]);
      numRestarts := n;
      restartsAt := |block| - (1 + n) * 4;
      current, restartIndex := |block| - (1 + n) * 4, n;
      key, valueStart, valueEnd, corrupt, at := [], 0, 0, false, |items|;
    }

    method GetRestartPoint(index: nat) returns (offset: nat)
      requires Shape() && index < numRestarts
      ensures marks[index] <= |items| && offset == Offset(items, marks[index])
    {
      hide ItemsOk, MarksOk, RestartsOk, SortedItems, Transitive, Buffer, Words, DecodeFixed32;
      MarkInBuffer(items, marks, restarts, index);
      RestartAt(items, restarts, index);
      offset := DecodeFixed32(data[restartsAt + 4 * index..]);
    }

    method SeekToRestartPoint(index: nat)
      requires Shape() && index < numRestarts
      modifies this`key, this`restartIndex, this`valueStart, this`valueEnd
      ensures Before(marks[index]) && restartIndex == index
    {
      MarkInBuffer(items, marks, restarts, index);
      key := [];
      restartIndex := index;
      var offset := GetRestartPoint(index);
      valueStart, valueEnd := offset, offset;
    }

    /** ParseNextKey's part for an entry that is there. */
    method ParseEntry() returns (ok: bool)
      requires current <= restartsAt <= |data|
      requires match DecodeEntry(data[current..restartsAt])
               case None => true
               case Some(h) => h.length + h.nonShared + h.valueLength <= restartsAt - current
      modifies this`current, this`restartIndex, this`key, this`valueStart, this`valueEnd, this`corrupt
      ensures match DecodeEntry(data[old(current)..restartsAt])
              case None => !ok
              case Some(h) =>
                && ok == (h.shared <= |old(key)|)
                && (ok ==>
                      && key == old(key)[..h.shared] + data[old(current) + h.length..old(current) + h.length + h.nonShared]
                      && valueStart == old(current) + h.length + h.nonShared && valueEnd == valueStart + h.valueLength
                      && current == old(current) && restartIndex == old(restartIndex) && corrupt == old(corrupt))
    {
      hide DecodeEntry;
      var p := data[current..restartsAt];
      var header := ReadHeader(p);
      if header.None? || |key| < header.value.shared {
        CorruptionError();
        ok := false;
      } else {
        var h := header.value;
        SliceOfSlice(data, current, restartsAt, h.length, h.length + h.nonShared);
        key := key[..h.shared];
        key := key + p[h.length..h.length + h.nonShared];
        valueStart := current + h.length + h.nonShared;
        valueEnd := valueStart + h.valueLength;
        ok := true;
      }
    }

    method CorruptionError()
      modifies this`current, this`restartIndex, this`key, this`valueStart, this`valueEnd, this`corrupt
      ensures corrupt && current == restartsAt && restartIndex == numRestarts
    {
      current, restartIndex, corrupt := restartsAt, numRestarts, true;
      key, valueStart, valueEnd := [], 0, 0;
    }

    method ParseNextKey(ghost i: nat) returns (ok: bool)
      requires Shape() && Before(i) && !corrupt
      modifies this
      ensures Ok() && at == i && ok == (i < |items|)
    {
      hide ItemsOk, MarksOk, RestartsOk, SortedItems, Transitive, Buffer, Words, DecodeEntry, Header, Delta, ItemBytes, SharesPrefix;
      current := valueEnd;
      at := i;
      OffsetOfEnd(items, i);
      if current >= restartsAt {
        current, restartIndex := restartsAt, numRestarts;
        return false;
      }
      EntryDecodes(i);
      ok := ParseEntry();
      assert key == items[i].kv.key;
      AdvanceRestart(i);
    }

    method AdvanceRestart(ghost i: nat)
      requires Shape() && i < |items| && current == Offset(items, i) && restartIndex < |marks| && marks[restartIndex] <= i
      modifies this`restartIndex
      ensures restartIndex < |marks| && marks[restartIndex] <= i && (restartIndex + 1 < |marks| ==> i <= marks[restartIndex + 1])
    {
      hide ItemsOk, MarksOk, RestartsOk, SortedItems, Transitive, Buffer, Words;
      while restartIndex + 1 < numRestarts
        invariant restartIndex < |marks| && marks[restartIndex] <= i
        decreases numRestarts - restartIndex
      {
        var next := GetRestartPoint(restartIndex + 1);
        OffsetOrder(items, marks[restartIndex + 1], i);
        if next >= current {
          break;
        }
        restartIndex := restartIndex + 1;
      }
    }

    /** What the bytes at entry `i` decode to, and what they make of the key before. */
    lemma EntryDecodes(i: nat)
      requires Shape() && i < |items| && Before(i)
      ensures Offset(items, i) <= restartsAt <= |data|
      ensures
        var item, a := items[i], Offset(items, i);
        var h := EntryHeader(item.shared, |Delta(item)|, |item.kv.value|, |Header(item)|);
        && DecodeEntry(data[a..restartsAt]) == Some(h)
        && a + h.length + h.nonShared + h.valueLength == Offset(items, i + 1) <= restartsAt
        && h.shared <= |key|
        && key[..h.shared] + data[a + h.length..a + h.length + h.nonShared] == item.kv.key
    {
      hide MarksOk, RestartsOk, SortedItems, Transitive, Buffer, Words, DecodeEntry, Header, Delta;
      var item, a, b := items[i], Offset(items, i), Offset(items, i + 1);
      ItemInBuffer(items, i);
      var rest := data[b..restartsAt];
      assert data[a..b] == Buffer(items)[a..b];
      assert data[a..restartsAt] == ItemBytes(item) + rest;
      DecodesItem(item, rest);
      var h, n := |Header(item)|, |Delta(item)|;
      assert data[a + h..a + h + n] == data[a..b][h..h + n] == Delta(item);
      DeltaCompletes(item, key);
    }

    method Next()
      requires Ok() && at < |items|
      modifies this
      ensures Ok() && at == old(at) + 1
    {
      hide ItemsOk, MarksOk, RestartsOk, SortedItems, Transitive, Buffer, Words;
      ReadyForNext();
      var ok := ParseNextKey(at + 1);
    }

    /** Back to a restart point before the entry, and from there forward again. */
    method Prev()
      requires Ok() && at < |items|
      modifies this
      ensures Ok() && at == StepBack(items, old(at))
    {
      hide ItemsOk, RestartsOk, SortedItems, Buffer, Words;
      ghost var i := at;
      var original := current;
      var point := GetRestartPoint(restartIndex);
      while point >= original
        invariant !corrupt && restartIndex < |marks| && marks[restartIndex] <= i && point == Offset(items, marks[restartIndex])
        decreases restartIndex
      {
        OffsetOrder(items, marks[restartIndex], i);
        if restartIndex == 0 {
          current, restartIndex, at := restartsAt, numRestarts, |items|;
          return;
        }
        restartIndex := restartIndex - 1;
        point := GetRestartPoint(restartIndex);
      }
      OffsetOrder(items, marks[restartIndex], i);
      SeekToRestartPoint(restartIndex);
      ghost var j := marks[restartIndex];
      var ok := ParseNextKey(j);
      while ok && valueEnd < original
        invariant Ok() && at < i && ok && j == at
        decreases i - at
      {
        OffsetOrder(items, at + 1, i);
        Next();
        j := at;
      }
      OffsetOrder(items, at + 1, i);
    }

    method SeekToFirst()
      requires Ok()
      modifies this
      ensures Ok() && at == 0
    {
      hide ItemsOk, RestartsOk, SortedItems, Buffer, Words;
      SeekToRestartPoint(0);
      var ok := ParseNextKey(0);
    }

    method SeekToLast()
      requires Ok()
      modifies this
      ensures Ok() && at == StepBack(items, |items|)
    {
      assert marks != [];
      hide ItemsOk, MarksOk, RestartsOk, SortedItems, Transitive, Buffer, Words;
      MarkInBuffer(items, marks, restarts, numRestarts - 1);
      SeekToRestartPoint(numRestarts - 1);
      var ok := ParseNextKey(marks[numRestarts - 1]);
      if ok {
        ScanToLast();
      }
    }

    /** Keeps skipping until the entry that ends where the restarts begin. */
    method ScanToLast()
      requires Ok() && at < |items|
      modifies this
      ensures Ok() && at == |items| - 1
    {
      hide Shape, AtEntry;
      EndsAtRestarts();
      while valueEnd < restartsAt
        invariant Ok() && at < |items|
        invariant valueEnd < restartsAt <==> at + 1 < |items|
        decreases |items| - at
      {
        Next();
        EndsAtRestarts();
      }
    }

    lemma EndsAtRestarts()
      requires Ok() && at < |items|
      ensures valueEnd < restartsAt <==> at + 1 < |items|
    {
      hide ItemsOk, MarksOk, RestartsOk, SortedItems, Transitive, Buffer, Words;
      OffsetOfEnd(items, at + 1);
    }

    /** The whole key at a restart point behind the first. */
    method KeyAtRestart(mid: nat) returns (midKey: Bytes)
      requires Shape() && 0 < mid < numRestarts
      ensures marks[mid] < |items| && midKey == items[marks[mid]].kv.key
    {
      hide RestartsOk, SortedItems, Transitive, Buffer, Words, DecodeEntry, Header;
      var offset := GetRestartPoint(mid);
      RestartDecodes(mid);
      var header := ReadHeader(data[offset..restartsAt]);
      midKey := data[offset + header.value.length..offset + header.value.length + header.value.nonShared];
    }

    lemma RestartDecodes(mid: nat)
      requires Shape() && 0 < mid < numRestarts
      ensures marks[mid] < |items| && Offset(items, marks[mid]) <= restartsAt <= |data|
      ensures
        var item, a := items[marks[mid]], Offset(items, marks[mid]);
        var h := EntryHeader(item.shared, |Delta(item)|, |item.kv.value|, |Header(item)|);
        && DecodeEntry(data[a..restartsAt]) == Some(h) && h.shared == 0
        && a + h.length + h.nonShared <= restartsAt
        && data[a + h.length..a + h.length + h.nonShared] == item.kv.key
    {
      hide RestartsOk, SortedItems, Transitive, Buffer, Words, DecodeEntry, Header;
      var i := marks[mid];
      var item, a, b := items[i], Offset(items, i), Offset(items, i + 1);
      ItemInBuffer(items, i);
      var rest := data[b..restartsAt];
      assert data[a..b] == Buffer(items)[a..b];
      assert data[a..restartsAt] == ItemBytes(item) + rest;
      DecodesItem(item, rest);
      var h, n := |Header(item)|, |Delta(item)|;
      assert data[a + h..a + h + n] == data[a..b][h..h + n] == Delta(item);
    }

    /** The last restart point with a key before the target, or the first. */
    method FindRestart(target: Bytes) returns (left: nat)
      requires Shape()
      ensures left < numRestarts
      ensures left > 0 ==> marks[left] < |items| && less(items[marks[left]].kv.key, target)
      ensures left + 1 < numRestarts ==> marks[left + 1] < |items| && !less(items[marks[left + 1]].kv.key, target)
    {
      hide ItemsOk, RestartsOk, SortedItems, Transitive, Buffer, Words;
      left := 0;
      var right := numRestarts - 1;
      while left < right
        invariant 0 <= left <= right < numRestarts
        invariant left > 0 ==> marks[left] < |items| && less(items[marks[left]].kv.key, target)
        invariant right + 1 < numRestarts ==> marks[right + 1] < |items| && !less(items[marks[right + 1]].kv.key, target)
      {
        var mid := (left + right + 1) / 2;
        var midKey := KeyAtRestart(mid);
        if less(midKey, target) {
          left := mid;
        } else {
          right := mid - 1;
        }
      }
    }

    /** Binary search over the restart points, then a linear search. */
    method Seek(target: Bytes)
      requires Ok()
      modifies this
      ensures Ok() && IsFirstFrom(less, items, target, at)
    {
      hide ItemsOk, RestartsOk, Buffer, Words;
      var left := FindRestart(target);
      MarkInBuffer(items, marks, restarts, left);
      SeekToRestartPoint(left);
      ghost var i := marks[left];
      while true
        invariant Shape() && !corrupt && Before(i)
        invariant forall j :: 0 <= j < i ==> less(items[j].kv.key, target)
        decreases |items| - i
      {
        var ok := ParseNextKey(i);
        if !ok {
          return;
        }
        if !less(key, target) {
          return;
        }
        ReadyForNext();
        i := i + 1;
      }
    }

    /** With an entry in the fields, ParseNextKey finds the next. */
    lemma ReadyForNext()
      requires Ok() && at < |items|
      ensures Before(at + 1)
    {
      hide MarksOk, RestartsOk, SortedItems, Transitive, Buffer, Words;
      assert at + 1 < |items| ==> SharesPrefix(items[at].kv.key, items[at + 1].kv.key, items[at + 1].shared);
    }
  }

  lemma MarkInBuffer(items: seq<Item>, marks: seq<nat>, restarts: seq<nat>, j: nat)
    requires ItemsOk(items) && MarksOk(items, marks) && RestartsOk(items, marks, restarts) && j < |marks|
    ensures j < |restarts| && marks[j] <= |items| && restarts[j] == Offset(items, marks[j]) <= |Buffer(items)|
    ensures marks[j] < |items| ==> items[marks[j]].shared == 0
    ensures marks[j] == |items| ==> items == []
  {
    BufferPrefix(items, marks[j], |items|);
    assert items[..|items|] == items;
    assert j > 0 ==> marks[j - 1] < marks[j] < |items|;
  }

  lemma OffsetOfEnd(items: seq<Item>, i: nat)
    requires i <= |items|
    ensures i < |items| <==> Offset(items, i) < |Buffer(items)|
    ensures i == |items| ==> Offset(items, i) == |Buffer(items)|
  {
    BufferPrefix(items, i, |items|);
    assert items[..|items|] == items;
  }

  lemma OffsetOrder(items: seq<Item>, i: nat, j: nat)
    requires i <= |items| && j <= |items|
    ensures Offset(items, i) < Offset(items, j) <==> i < j
  {
    if i < j {
      BufferPrefix(items, i, j);
    } else {
      BufferPrefix(items, j, i);
    }
  }

  lemma DeltaCompletes(item: Item, key: Bytes)
    requires SharesPrefix(key, item.kv.key, item.shared)
    ensures item.shared <= |key| && key[..item.shared] + Delta(item) == item.kv.key
  {
  }

  lemma RestartCount(items: seq<Item>, restarts: seq<nat>)
    requires |BlockBytes(items, restarts)| < 0x1_0000_0000
    ensures
      var block := BlockBytes(items, restarts);
      && |block| == |Buffer(items)| + 4 * (|restarts| + 1)
      && DecodeFixed32(block[|block| - 4..]) == |restarts|
  {
    hide Buffer, Words, DecodeFixed32;
    var block, words := BlockBytes(items, restarts), restarts + [|restarts|];
    WordAt(words, |restarts|);
    assert block[|block| - 4..] == Words(words)[4 * |restarts|..];
  }

  lemma RestartAt(items: seq<Item>, restarts: seq<nat>, j: nat)
    requires |BlockBytes(items, restarts)| < 0x1_0000_0000 && j < |restarts| && restarts[j] <= |Buffer(items)|
    ensures
      var block := BlockBytes(items, restarts);
      && |Buffer(items)| + 4 * j + 4 <= |block|
      && DecodeFixed32(block[|Buffer(items)| + 4 * j..]) == restarts[j]
  {
    hide Buffer, Words, DecodeFixed32;
    var block, words := BlockBytes(items, restarts), restarts + [|restarts|];
    WordAt(words, j);
    assert block[|Buffer(items)| + 4 * j..] == Words(words)[4 * j..];
  }
}
