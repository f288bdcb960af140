/** The records of the manifest: what a VersionEdit says, and the bytes that say it. */
module VersionEdits {
  import opened Keys
  import opened Coding
  import opened Versions

  const TWO64: nat := 0x1_0000_0000_0000_0000

  /** What the manifest knows of a table; the keys are encoded internal keys. */
  datatype FileMeta = FileMeta(number: nat, fileSize: nat, smallest: Bytes, largest: Bytes)

  /** A value for each has_ flag that is set.  The deleted files are in the order std::set keeps. */
  datatype Edit = Edit(
    comparator: Option<Bytes>,
    logNumber: Option<nat>,
    prevLogNumber: Option<nat>,
    nextFileNumber: Option<nat>,
    lastSequence: Option<nat>,
    compactPointers: seq<(nat, Bytes)>,
    deletedFiles: seq<(nat, nat)>,
    newFiles: seq<(nat, FileMeta)>)

  const EMPTY := Edit(None, None, None, None, None, [], [], [])

  datatype Counter = LogNumber | PrevLogNumber | NextFileNumber | LastSequence

  datatype Item =
    | Comparator(name: Bytes)
    | Counted(counter: Counter, n: nat)
    | CompactPointer(level: nat, key: Bytes)
    | DeletedFile(level: nat, n: nat)
    | NewFile(level: nat, file: FileMeta)

  // ---- the deleted files ----

  predicate PairLess(a: (nat, nat), b: (nat, nat)) {
    a.0 < b.0 || (a.0 == b.0 && a.1 < b.1)
  }

  ghost predicate PairsSorted(s: seq<(nat, nat)>) {
    forall i, j :: 0 <= i < j < |s| ==> PairLess(s[i], s[j])
  }

  function InsertPair(s: seq<(nat, nat)>, p: (nat, nat)): (r: seq<(nat, nat)>)
    ensures forall q :: q in r <==> q in s || q == p
  {
    if s == [] || PairLess(p, s[0]) then [p] + s
    else if PairLess(s[0], p) then [s[0]] + InsertPair(s[1..], p)
    else s
  }

  lemma {:induction false} InsertLast(s: seq<(nat, nat)>, p: (nat, nat))
    requires forall i :: 0 <= i < |s| ==> PairLess(s[i], p)
    ensures InsertPair(s, p) == s + [p]
  {
    if s != [] {
      InsertLast(s[1..], p);
    }
  }

  // ---- the bytes ----

  function TagOf(item: Item): (t: Word)
    ensures t < 128
  {
    match item
    case Comparator(_) => 1
    case Counted(LogNumber, _) => 2
    case Counted(NextFileNumber, _) => 3
    case Counted(LastSequence, _) => 4
    case CompactPointer(_, _) => 5
    case DeletedFile(_, _) => 6
    case NewFile(_, _) => 7
    case Counted(PrevLogNumber, _) => 9
  }

  function Payload(item: Item): Bytes {
    match item
    case Comparator(name) => SliceBytes(name)
    case Counted(_, n) => Varint(n)
    case CompactPointer(level, key) => Varint(level) + SliceBytes(key)
    case DeletedFile(level, n) => Varint(level) + Varint(n)
    case NewFile(level, f) => Varint(level) + Varint(f.number) + Varint(f.fileSize) + SliceBytes(f.smallest) + SliceBytes(f.largest)
  }

  function ItemBytes(item: Item): Bytes {
    Varint(TagOf(item)) + Payload(item)
  }

  /** The items on disk, each behind the tag number that stands for its kind. */
  lemma ItemsOnDisk(item: Item)
    ensures
      match item
      case Comparator(name) => ItemBytes(item) == [1] + SliceBytes(name)
      case Counted(LogNumber, n) => ItemBytes(item) == [2] + Varint(n)
      case Counted(NextFileNumber, n) => ItemBytes(item) == [3] + Varint(n)
      case Counted(LastSequence, n) => ItemBytes(item) == [4] + Varint(n)
      case CompactPointer(level, key) => ItemBytes(item) == [5] + (Varint(level) + SliceBytes(key))
      case DeletedFile(level, n) => ItemBytes(item) == [6] + (Varint(level) + Varint(n))
      case NewFile(level, f) =>
        ItemBytes(item) == [7] + (Varint(level) + Varint(f.number) + Varint(f.fileSize) + SliceBytes(f.smallest) + SliceBytes(f.largest))
      case Counted(PrevLogNumber, n) => ItemBytes(item) == [9] + Varint(n)
  {
    var t := TagOf(item);
    assert Varint(t) == [t];
    hide SliceBytes;
  }

  function ItemsBytes(items: seq<Item>): Bytes {
    if items == [] then [] else ItemsBytes(items[..|items| - 1]) + ItemBytes(items[|items| - 1])
  }

  /** What the fields of the source can hold. */
  predicate ItemOk(item: Item) {
    match item
    case Comparator(name) => |name| < 0x1_0000_0000
    case Counted(_, n) => n < TWO64
    case CompactPointer(level, key) => level < NUM_LEVELS && |key| < 0x1_0000_0000
    case DeletedFile(level, n) => level < NUM_LEVELS && n < TWO64
    case NewFile(level, f) =>
      level < NUM_LEVELS && f.number < TWO64 && f.fileSize < TWO64 && |f.smallest| < 0x1_0000_0000 && |f.largest| < 0x1_0000_0000
  }

  function CounterItem(counter: Counter, o: Option<nat>): seq<Item> {
    if o.Some? then [Counted(counter, o.value)] else []
  }

  function PointerItems(s: seq<(nat, Bytes)>): (r: seq<Item>)
    ensures |r| == |s|
  {
    seq(|s|, i requires 0 <= i < |s| => CompactPointer(s[i].0, s[i].1))
  }

  function DeletedItems(s: seq<(nat, nat)>): (r: seq<Item>)
    ensures |r| == |s|
  {
    seq(|s|, i requires 0 <= i < |s| => DeletedFile(s[i].0, s[i].1))
  }

  function NewItems(s: seq<(nat, FileMeta)>): (r: seq<Item>)
    ensures |r| == |s|
  {
    seq(|s|, i requires 0 <= i < |s| => NewFile(s[i].0, s[i].1))
  }

  function HeadItems(e: Edit): seq<Item> {
    (if e.comparator.Some? then [Comparator(e.comparator.value)] else [])
    + CounterItem(LogNumber, e.logNumber) + CounterItem(PrevLogNumber, e.prevLogNumber)
    + CounterItem(NextFileNumber, e.nextFileNumber) + CounterItem(LastSequence, e.lastSequence)
  }

  /** Everything an edit says, in the order it is written. */
  function Items(e: Edit): seq<Item> {
    HeadItems(e) + PointerItems(e.compactPointers) + DeletedItems(e.deletedFiles) + NewItems(e.newFiles)
  }

  function EditBytes(e: Edit): Bytes {
    ItemsBytes(Items(e))
  }

  ghost predicate EditOk(e: Edit) {
    PairsSorted(e.deletedFiles) && forall i :: 0 <= i < |Items(e)| ==> ItemOk(Items(e)[i])
  }

  // ---- reading them ----

  datatype Taken = Malformed(message: string) | Taken(item: Item, rest: Bytes)

  function Number(b: Bytes): (r: Option<(nat, Bytes)>)
    ensures r.Some? ==> |r.value.1| < |b|
  {
    match Varint64Of(b)
    case None => None
    case Some(d) => Some((d.value, b[d.length..]))
  }

  /** GetLevel */
  function Level(b: Bytes): (r: Option<(nat, Bytes)>)
    ensures r.Some? ==> |r.value.1| < |b|
  {
    match Varint32Of(b)
    case None => None
    case Some(d) => if d.value < NUM_LEVELS then Some((d.value, b[d.length..])) else None
  }

  function TakeCounter(counter: Counter, b: Bytes, message: string): Taken {
    match Number(b)
    case None => Malformed(message)
    case Some(p) => Taken(Counted(counter, p.0), p.1)
  }

  function TakeNewFile(b: Bytes): Option<(FileMeta, Bytes)> {
    match Number(b)
    case None => None
    case Some(number) =>
      match Number(number.1)
      case None => None
      case Some(size) =>
        match SliceOf(size.1)
        case None => None
        case Some(smallest) =>
          match SliceOf(smallest.rest)
          case None => None
          case Some(largest) => Some((FileMeta(number.0, size.0, smallest.data, largest.data), largest.rest))
  }

  function TakePayload(tag: nat, b: Bytes): Taken {
    if tag == 1 then
      match SliceOf(b)
      case None => Malformed("comparator name")
      case Some(s) => Taken(Comparator(s.data), s.rest)
    else if tag == 2 then TakeCounter(LogNumber, b, "log number")
    else if tag == 9 then TakeCounter(PrevLogNumber, b, "previous log number")
    else if tag == 3 then TakeCounter(NextFileNumber, b, "next file number")
    else if tag == 4 then TakeCounter(LastSequence, b, "last sequence number")
    else if tag == 5 then
      match Level(b)
      case None => Malformed("compaction pointer")
      case Some(l) =>
        (match SliceOf(l.1)
         case None => Malformed("compaction pointer")
         case Some(s) => Taken(CompactPointer(l.0, s.data), s.rest))
    else if tag == 6 then
      match Level(b)
      case None => Malformed("deleted file")
      case Some(l) =>
        (match Number(l.1)
         case None => Malformed("deleted file")
         case Some(n) => Taken(DeletedFile(l.0, n.0), n.1))
    else if tag == 7 then
      match Level(b)
      case None => Malformed("new-file entry")
      case Some(l) =>
        (match TakeNewFile(l.1)
         case None => Malformed("new-file entry")
         case Some(f) => Taken(NewFile(l.0, f.0), f.1))
    else Malformed("unknown tag")
  }

  lemma TakesSome(tag: nat, b: Bytes)
    ensures TakePayload(tag, b).Taken? ==> |TakePayload(tag, b).rest| <= |b|
  {
  }

  /** What the cases of DecodeFrom's switch do with what they parsed. */
  function Note(e: Edit, item: Item): Edit {
    match item
    case Comparator(name) => e.(comparator := Some(name))
    case Counted(LogNumber, n) => e.(logNumber := Some(n))
    case Counted(PrevLogNumber, n) => e.(prevLogNumber := Some(n))
    case Counted(NextFileNumber, n) => e.(nextFileNumber := Some(n))
    case Counted(LastSequence, n) => e.(lastSequence := Some(n))
    case CompactPointer(level, key) => e.(compactPointers := e.compactPointers + [(level, key)])
    case DeletedFile(level, n) => e.(deletedFiles := InsertPair(e.deletedFiles, (level, n)))
    case NewFile(level, f) => e.(newFiles := e.newFiles + [(level, f)])
  }

  datatype Decoding = Corruption(message: string) | Ok(edit: Edit)

  /** DecodeFrom, from the middle of a record on. */
  function DecodeRest(b: Bytes, e: Edit): Decoding
    decreases |b|
  {
    match Varint32Of(b)
    case None => if b == [] then Ok(e) else Corruption("invalid tag")
    case Some(tag) =>
      var left := b[tag.length..];
      TakesSome(tag.value, left);
      match TakePayload(tag.value, left)
      case Malformed(message) => Corruption(message)
      case Taken(item, rest) => DecodeRest(rest, Note(e, item))
  }

  function Decode(b: Bytes): Decoding {
    DecodeRest(b, EMPTY)
  }

  // ---- round trip ----

  lemma NumberBack(n: nat, rest: Bytes)
    requires n < TWO64
    ensures Number(Varint(n) + rest) == Some((n, rest))
  {
    hide Varint, Varint64Of;
    Varint64Back(n, rest);
  }

  lemma LevelBack(level: nat, rest: Bytes)
    requires level < NUM_LEVELS
    ensures Level(Varint(level) + rest) == Some((level, rest))
  {
    hide Varint, Varint32Of;
    Varint32Back(level, rest);
  }

  lemma NewFileBack(f: FileMeta, rest: Bytes)
    requires ItemOk(NewFile(0, f))
    ensures
      TakeNewFile(Varint(f.number) + (Varint(f.fileSize) + (SliceBytes(f.smallest) + (SliceBytes(f.largest) + rest)))) == Some((f, rest))
  {
    hide Varint, SliceBytes, SliceOf, Number;
    var d := SliceBytes(f.largest) + rest;
    var c := SliceBytes(f.smallest) + d;
    NumberBack(f.number, Varint(f.fileSize) + c);
    NumberBack(f.fileSize, c);
    SliceBack(f.smallest, d);
    SliceBack(f.largest, rest);
  }

  lemma PayloadBack(item: Item, rest: Bytes)
    requires ItemOk(item)
    ensures TakePayload(TagOf(item), Payload(item) + rest) == Taken(item, rest)
  {
    hide Varint, SliceBytes, SliceOf, Number, Level, TakeNewFile;
    match item {
      case Comparator(name) => SliceBack(name, rest);
      case CompactPointer(level, key) =>
        assert Payload(item) + rest == Varint(level) + (SliceBytes(key) + rest);
        LevelBack(level, SliceBytes(key) + rest);
        SliceBack(key, rest);
      case DeletedFile(level, n) =>
        assert Payload(item) + rest == Varint(level) + (Varint(n) + rest);
        LevelBack(level, Varint(n) + rest);
        NumberBack(n, rest);
      case NewFile(level, f) =>
        var tail := Varint(f.number) + (Varint(f.fileSize) + (SliceBytes(f.smallest) + (SliceBytes(f.largest) + rest)));
        assert Payload(item) + rest == Varint(level) + tail;
        LevelBack(level, tail);
        NewFileBack(f, rest);
      case Counted(_, n) => NumberBack(n, rest);
    }
  }

  function NoteAll(e: Edit, items: seq<Item>): Edit {
    if items == [] then e else Note(NoteAll(e, items[..|items| - 1]), items[|items| - 1])
  }

  lemma ItemBack(item: Item, rest: Bytes, e: Edit)
    requires ItemOk(item)
    ensures DecodeRest(ItemBytes(item) + rest, e) == DecodeRest(rest, Note(e, item))
  {
    hide Varint, Varint32Of, Payload, TakePayload, Note;
    var b := ItemBytes(item) + rest;
    assert b == Varint(TagOf(item)) + (Payload(item) + rest);
    Varint32Back(TagOf(item), Payload(item) + rest);
    PayloadBack(item, rest);
  }

  lemma {:induction false} ItemsBack(items: seq<Item>, rest: Bytes, e: Edit)
    requires forall i :: 0 <= i < |items| ==> ItemOk(items[i])
    ensures DecodeRest(ItemsBytes(items) + rest, e) == DecodeRest(rest, NoteAll(e, items))
  {
    hide DecodeRest, ItemBytes, ItemOk, Note;
    if items == [] {
      assert ItemsBytes(items) + rest == rest;
    } else {
      var before, item := items[..|items| - 1], items[|items| - 1];
      ItemsBack(before, ItemBytes(item) + rest, e);
      ItemBack(item, rest, NoteAll(e, before));
      assert ItemsBytes(items) + rest == ItemsBytes(before) + (ItemBytes(item) + rest);
    }
  }

  lemma {:induction false} NoteBoth(e: Edit, a: seq<Item>, b: seq<Item>)
    ensures NoteAll(e, a + b) == NoteAll(NoteAll(e, a), b)
    decreases |b|
  {
    hide Note;
    if b == [] {
      assert a + b == a;
    } else {
      assert (a + b)[..|a + b| - 1] == a + b[..|b| - 1];
      NoteBoth(e, a, b[..|b| - 1]);
    }
  }

  lemma NotesOne(e: Edit, item: Item)
    ensures NoteAll(e, [item]) == Note(e, item) && NoteAll(e, []) == e
  {
    assert [item][..0] == [];
    assert NoteAll(e, [item][..0]) == e;
  }

  lemma NotesCounter(e: Edit, counter: Counter, o: Option<nat>)
    ensures NoteAll(e, CounterItem(counter, o)) == if o.Some? then Note(e, Counted(counter, o.value)) else e
  {
    NotesOne(e, Counted(counter, if o.Some? then o.value else 0));
  }

  lemma NotesHead(e: Edit)
    ensures NoteAll(EMPTY, HeadItems(e)) == e.(compactPointers := [], deletedFiles := [], newFiles := [])
  {
    hide NoteAll, CounterItem;
    var a := if e.comparator.Some? then [Comparator(e.comparator.value)] else [];
    NotesOne(EMPTY, Comparator(if e.comparator.Some? then e.comparator.value else []));
    var b, c := CounterItem(LogNumber, e.logNumber), CounterItem(PrevLogNumber, e.prevLogNumber);
    var d, f := CounterItem(NextFileNumber, e.nextFileNumber), CounterItem(LastSequence, e.lastSequence);
    NoteBoth(EMPTY, a + b + c + d, f);
    NoteBoth(EMPTY, a + b + c, d);
    NoteBoth(EMPTY, a + b, c);
    NoteBoth(EMPTY, a, b);
    NotesCounter(NoteAll(EMPTY, a), LogNumber, e.logNumber);
    NotesCounter(NoteAll(EMPTY, a + b), PrevLogNumber, e.prevLogNumber);
    NotesCounter(NoteAll(EMPTY, a + b + c), NextFileNumber, e.nextFileNumber);
    NotesCounter(NoteAll(EMPTY, a + b + c + d), LastSequence, e.lastSequence);
  }

  lemma {:induction false} NotesPointers(e: Edit, s: seq<(nat, Bytes)>)
    ensures NoteAll(e, PointerItems(s)) == e.(compactPointers := e.compactPointers + s)
  {
    if s != [] {
      NotesPointers(e, s[..|s| - 1]);
      assert PointerItems(s)[..|s| - 1] == PointerItems(s[..|s| - 1]);
    }
  }

  lemma {:induction false} NotesDeleted(e: Edit, s: seq<(nat, nat)>)
    requires PairsSorted(s) && e.deletedFiles == []
    ensures NoteAll(e, DeletedItems(s)) == e.(deletedFiles := s)
  {
    if s != [] {
      NotesDeleted(e, s[..|s| - 1]);
      assert DeletedItems(s)[..|s| - 1] == DeletedItems(s[..|s| - 1]);
      InsertLast(s[..|s| - 1], s[|s| - 1]);
    }
  }

  lemma {:induction false} NotesNew(e: Edit, s: seq<(nat, FileMeta)>)
    ensures NoteAll(e, NewItems(s)) == e.(newFiles := e.newFiles + s)
  {
    if s != [] {
      NotesNew(e, s[..|s| - 1]);
      assert NewItems(s)[..|s| - 1] == NewItems(s[..|s| - 1]);
    }
  }

  lemma NotesEverything(e: Edit)
    requires PairsSorted(e.deletedFiles)
    ensures NoteAll(EMPTY, Items(e)) == e
  {
    hide NoteAll, HeadItems, PointerItems, DeletedItems, NewItems;
    var a, b, c, d := HeadItems(e), PointerItems(e.compactPointers), DeletedItems(e.deletedFiles), NewItems(e.newFiles);
    NoteBoth(EMPTY, a + b + c, d);
    NoteBoth(EMPTY, a + b, c);
    NoteBoth(EMPTY, a, b);
    NotesHead(e);
    NotesPointers(NoteAll(EMPTY, a), e.compactPointers);
    NotesDeleted(NoteAll(EMPTY, a + b), e.deletedFiles);
    NotesNew(NoteAll(EMPTY, a + b + c), e.newFiles);
  }

  /** Decoding what was encoded gives the edit back, whatever it says. */
  lemma EditRoundTrip(e: Edit)
    requires EditOk(e)
    ensures Decode(EditBytes(e)) == Ok(e)
  {
    hide Items, ItemsBytes, NoteAll;
    ItemsBack(Items(e), [], EMPTY);
    NotesEverything(e);
    assert EditBytes(e) + [] == EditBytes(e);
  }

  // ---- the class ----

  lemma OneMoreItem(items: seq<Item>, item: Item)
    ensures ItemsBytes(items + [item]) == ItemsBytes(items) + ItemBytes(item)
  {
    assert (items + [item])[..|items|] == items;
  }

  method PutItem(dst: Bytes, item: Item, ghost start: Bytes, ghost items: seq<Item>) returns (r: Bytes)
    requires dst == start + ItemsBytes(items) && (item.CompactPointer? || item.DeletedFile? || item.NewFile? ==> item.level < NUM_LEVELS)
    ensures r == start + ItemsBytes(items + [item])
  {
    hide Varint, SliceBytes, ItemsBytes;
    var tag := EncodeVarint32(TagOf(item));
    r := dst + tag;
    match item {
      case Comparator(name) => r := PutLengthPrefixedSlice(r, name);
      case Counted(_, n) =>
        var number := EncodeVarint64(n);
        r := r + number;
      case CompactPointer(level, key) =>
        var l := EncodeVarint32(level);
        r := PutLengthPrefixedSlice(r + l, key);
      case DeletedFile(level, n) =>
        var l := EncodeVarint32(level);
        var number := EncodeVarint64(n);
        r := r + l + number;
      case NewFile(level, f) =>
        var l := EncodeVarint32(level);
        var file := PutNewFile(f);
        r := r + l + file;
    }
    OneMoreItem(items, item);
    assert r == dst + ItemBytes(item);
  }

  method PutNewFile(f: FileMeta) returns (r: Bytes)
    ensures forall l: Bytes :: l + Varint(f.number) + Varint(f.fileSize) + SliceBytes(f.smallest) + SliceBytes(f.largest) == l + r
  {
    hide Varint, SliceBytes;
    var number := EncodeVarint64(f.number);
    var size := EncodeVarint64(f.fileSize);
    r := PutLengthPrefixedSlice(number + size, f.smallest);
    r := PutLengthPrefixedSlice(r, f.largest);
  }

  method ReadNumber(b: Bytes) returns (r: Option<(nat, Bytes)>)
    ensures r == Number(b)
  {
    var d := GetVarint64(b);
    r := if d.None? then None else Some((d.value.value, b[d.value.length..]));
  }

  method GetLevel(b: Bytes) returns (r: Option<(nat, Bytes)>)
    ensures r == Level(b)
  {
    var d := GetVarint32(b);
    r := if d.Some? && d.value.value < NUM_LEVELS then Some((d.value.value, b[d.value.length..])) else None;
  }

  method ReadNewFile(b: Bytes) returns (r: Option<(FileMeta, Bytes)>)
    ensures r == TakeNewFile(b)
  {
    hide Number, SliceOf;
    var number := ReadNumber(b);
    if number.None? {
      return None;
    }
    var size := ReadNumber(number.value.1);
    if size.None? {
      return None;
    }
    var smallest := GetLengthPrefixedSlice(size.value.1);
    if smallest.None? {
      return None;
    }
    var largest := GetLengthPrefixedSlice(smallest.value.rest);
    if largest.None? {
      return None;
    }
    r := Some((FileMeta(number.value.0, size.value.0, smallest.value.data, largest.value.data), largest.value.rest));
  }

  method ReadCounter(counter: Counter, b: Bytes, message: string) returns (r: Taken)
    ensures r == TakeCounter(counter, b, message)
  {
    hide Number;
    var n := ReadNumber(b);
    r := if n.None? then Malformed(message) else Taken(Counted(counter, n.value.0), n.value.1);
  }

  /** The cases of the switch, up to what they parse. */
  method ReadPayload(tag: nat, b: Bytes) returns (r: Taken)
    ensures r == TakePayload(tag, b)
  {
    hide Number, SliceOf, Level, TakeNewFile, TakeCounter;
    if tag == 1 {
      var s := GetLengthPrefixedSlice(b);
      r := if s.None? then Malformed("comparator name") else Taken(Comparator(s.value.data), s.value.rest);
    } else if tag == 2 {
      r := ReadCounter(LogNumber, b, "log number");
    } else if tag == 9 {
      r := ReadCounter(PrevLogNumber, b, "previous log number");
    } else if tag == 3 {
      r := ReadCounter(NextFileNumber, b, "next file number");
    } else if tag == 4 {
      r := ReadCounter(LastSequence, b, "last sequence number");
    } else if tag == 5 {
      r := Malformed("compaction pointer");
      var l := GetLevel(b);
      if l.Some? {
        var s := GetLengthPrefixedSlice(l.value.1);
        if s.Some? {
          r := Taken(CompactPointer(l.value.0, s.value.data), s.value.rest);
        }
      }
    } else if tag == 6 {
      r := Malformed("deleted file");
      var l := GetLevel(b);
      if l.Some? {
        var n := ReadNumber(l.value.1);
        if n.Some? {
          r := Taken(DeletedFile(l.value.0, n.value.0), n.value.1);
        }
      }
    } else if tag == 7 {
      r := Malformed("new-file entry");
      var l := GetLevel(b);
      if l.Some? {
        var f := ReadNewFile(l.value.1);
        if f.Some? {
          r := Taken(NewFile(l.value.0, f.value.0), f.value.1);
        }
      }
    } else {
      r := Malformed("unknown tag");
    }
  }

  class VersionEdit {
    var comparator: Option<Bytes>
    var logNumber: Option<nat>
    var prevLogNumber: Option<nat>
    var nextFileNumber: Option<nat>
    var lastSequence: Option<nat>
    var compactPointers: seq<(nat, Bytes)>
    var deletedFiles: seq<(nat, nat)>
    var newFiles: seq<(nat, FileMeta)>

    function Says(): Edit
      reads this
    {
      Edit(comparator, logNumber, prevLogNumber, nextFileNumber, lastSequence, compactPointers, deletedFiles, newFiles)
    }

    constructor ()
      ensures Says() == EMPTY
    {
      comparator, logNumber, prevLogNumber, nextFileNumber, lastSequence := None, None, None, None, None;
      compactPointers, deletedFiles, newFiles := [], [], [];
    }

    /** Leaves the compaction pointers, as the source does. */
    method Clear()
      modifies this
      ensures Says() == EMPTY.(compactPointers := old(compactPointers))
    {
      comparator, logNumber, prevLogNumber, nextFileNumber, lastSequence := None, None, None, None, None;
      deletedFiles, newFiles := [], [];
    }

    method PutCounter(dst: Bytes, counter: Counter, value: Option<nat>, ghost start: Bytes, ghost items: seq<Item>) returns (r: Bytes)
      requires dst == start + ItemsBytes(items)
      ensures r == start + ItemsBytes(items + CounterItem(counter, value))
    {
      r := dst;
      if value.Some? {
        r := PutItem(r, Counted(counter, value.value), start, items);
      } else {
        assert items + [] == items;
      }
    }

    method EncodeTo(dst: Bytes) returns (r: Bytes)
      requires EditOk(Says())
      ensures r == dst + EditBytes(Says())
    {
      LevelsOk(Says());
      hide ItemsBytes, HeadItems, PointerItems, DeletedItems, NewItems, EditOk;
      r := PutHead(dst);
      ghost var items := HeadItems(Says());
      r := PutPointers(r, dst, items);
      items := items + PointerItems(compactPointers);
      r := PutDeleted(r, dst, items);
      items := items + DeletedItems(deletedFiles);
      r := PutNew(r, dst, items);
    }

    method PutPointers(dst: Bytes, ghost start: Bytes, ghost items: seq<Item>) returns (r: Bytes)
      requires dst == start + ItemsBytes(items) && forall i :: 0 <= i < |compactPointers| ==> compactPointers[i].0 < NUM_LEVELS
      ensures r == start + ItemsBytes(items + PointerItems(compactPointers))
    {
      hide ItemsBytes;
      r := dst;
      assert items + PointerItems(compactPointers[..0]) == items;
      for i := 0 to |compactPointers|
        invariant r == start + ItemsBytes(items + PointerItems(compactPointers[..i]))
      {
        var (level, key) := compactPointers[i];
        r := PutItem(r, CompactPointer(level, key), start, items + PointerItems(compactPointers[..i]));
        assert items + PointerItems(compactPointers[..i + 1]) == items + PointerItems(compactPointers[..i]) + [CompactPointer(level, key)];
      }
      assert compactPointers[..|compactPointers|] == compactPointers;
    }

    method PutDeleted(dst: Bytes, ghost start: Bytes, ghost items: seq<Item>) returns (r: Bytes)
      requires dst == start + ItemsBytes(items) && forall i :: 0 <= i < |deletedFiles| ==> deletedFiles[i].0 < NUM_LEVELS
      ensures r == start + ItemsBytes(items + DeletedItems(deletedFiles))
    {
      hide ItemsBytes;
      r := dst;
      assert items + DeletedItems(deletedFiles[..0]) == items;
      for i := 0 to |deletedFiles|
        invariant r == start + ItemsBytes(items + DeletedItems(deletedFiles[..i]))
      {
        var (level, number) := deletedFiles[i];
        r := PutItem(r, DeletedFile(level, number), start, items + DeletedItems(deletedFiles[..i]));
        assert items + DeletedItems(deletedFiles[..i + 1]) == items + DeletedItems(deletedFiles[..i]) + [DeletedFile(level, number)];
      }
      assert deletedFiles[..|deletedFiles|] == deletedFiles;
    }

    method PutNew(dst: Bytes, ghost start: Bytes, ghost items: seq<Item>) returns (r: Bytes)
      requires dst == start + ItemsBytes(items) && forall i :: 0 <= i < |newFiles| ==> newFiles[i].0 < NUM_LEVELS
      ensures r == start + ItemsBytes(items + NewItems(newFiles))
    {
      hide ItemsBytes;
      r := dst;
      assert items + NewItems(newFiles[..0]) == items;
      for i := 0 to |newFiles|
        invariant r == start + ItemsBytes(items + NewItems(newFiles[..i]))
      {
        var (level, f) := newFiles[i];
        r := PutItem(r, NewFile(level, f), start, items + NewItems(newFiles[..i]));
        assert items + NewItems(newFiles[..i + 1]) == items + NewItems(newFiles[..i]) + [NewFile(level, f)];
      }
      assert newFiles[..|newFiles|] == newFiles;
    }

    method PutHead(dst: Bytes) returns (r: Bytes)
      ensures r == dst + ItemsBytes(HeadItems(Says()))
    {
      hide CounterItem, ItemBytes;
      r := dst;
      ghost var items: seq<Item> := [];
      assert dst + ItemsBytes([]) == dst;
      if comparator.Some? {
        r := PutItem(r, Comparator(comparator.value), dst, []);
        items := [Comparator(comparator.value)];
        assert [] + items == items;
      }
      hide ItemsBytes;
      r := PutCounter(r, LogNumber, logNumber, dst, items);
      items := items + CounterItem(LogNumber, logNumber);
      r := PutCounter(r, PrevLogNumber, prevLogNumber, dst, items);
      items := items + CounterItem(PrevLogNumber, prevLogNumber);
      r := PutCounter(r, NextFileNumber, nextFileNumber, dst, items);
      items := items + CounterItem(NextFileNumber, nextFileNumber);
      r := PutCounter(r, LastSequence, lastSequence, dst, items);
    }

    /** Either the edit the record says, or the message of the error. */
    method DecodeFrom(src: Bytes) returns (error: Option<string>)
      modifies this
      ensures match DecodeRest(src, EMPTY.(compactPointers := old(compactPointers)))
              case Ok(e) => error == None && Says() == e
              case Corruption(message) => error == Some(message)
    {
      hide TakePayload, Varint32Of;
      Clear();
      ghost var goal := DecodeRest(src, Says());
      var input := src;
      var tag := GetVarint32(input);
      while tag.Some?
        invariant tag == Varint32Of(input) && DecodeRest(input, Says()) == goal
        decreases |input|
      {
        input := input[tag.value.length..];
        var taken := ReadPayload(tag.value.value, input);
        TakesSome(tag.value.value, input);
        if taken.Malformed? {
          return Some(taken.message);
        }
        Record(taken.item);
        input := taken.rest;
        tag := GetVarint32(input);
      }
      error := if input == [] then None else Some("invalid tag");
    }

    method Record(item: Item)
      modifies this
      ensures Says() == Note(old(Says()), item)
    {
      match item {
        case Comparator(name) => comparator := Some(name);
        case Counted(LogNumber, n) => logNumber := Some(n);
        case Counted(PrevLogNumber, n) => prevLogNumber := Some(n);
        case Counted(NextFileNumber, n) => nextFileNumber := Some(n);
        case Counted(LastSequence, n) => lastSequence := Some(n);
        case CompactPointer(level, key) => compactPointers := compactPointers + [(level, key)];
        case DeletedFile(level, n) => deletedFiles := InsertPair(deletedFiles, (level, n));
        case NewFile(level, f) => newFiles := newFiles + [(level, f)];
      }
    }
  }

  lemma LevelsOk(e: Edit)
    requires EditOk(e)
    ensures forall i :: 0 <= i < |e.compactPointers| ==> e.compactPointers[i].0 < NUM_LEVELS
    ensures forall i :: 0 <= i < |e.deletedFiles| ==> e.deletedFiles[i].0 < NUM_LEVELS
    ensures forall i :: 0 <= i < |e.newFiles| ==> e.newFiles[i].0 < NUM_LEVELS
  {
    var a, b, c := HeadItems(e), PointerItems(e.compactPointers), DeletedItems(e.deletedFiles);
    hide HeadItems;
    forall i | 0 <= i < |e.compactPointers| ensures e.compactPointers[i].0 < NUM_LEVELS {
      assert ItemOk(Items(e)[|a| + i]);
    }
    forall i | 0 <= i < |e.deletedFiles| ensures e.deletedFiles[i].0 < NUM_LEVELS {
      assert ItemOk(Items(e)[|a| + |b| + i]);
    }
    forall i | 0 <= i < |e.newFiles| ensures e.newFiles[i].0 < NUM_LEVELS {
      assert ItemOk(Items(e)[|a| + |b| + |c| + i]);
    }
  }
}
