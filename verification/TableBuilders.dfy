/** TableBuilder: entries with internal keys, cut into blocks of bytes that are appended to a file,
    with the filter, the index and the footer behind them. */
module TableBuilders {
  import opened Keys
  import opened Sequences
  import opened BytewiseOrder
  import opened InternalKeys
  import opened Blocks
  import opened Tables
  import opened TableFormat
  import Coding
  import LogFormat
  import FilterBlocks
  import Bloom

  datatype TableOptions = TableOptions(
    blockSize: nat,
    restartInterval: nat,
    snappy: bool,
    codec: Codec,
    crc: LogFormat.Crc,
    filterName: Bytes)       // "filter." and the policy's name

  ghost predicate OptionsOk(o: TableOptions) {
    o.restartInterval >= 1 && CodecOk(o.codec) && |o.filterName| < 0x1_0000_0000
  }

  type Hash = Bytes -> Coding.Word

  /** InternalFilterPolicy: the user's policy, shown user keys only. */
  function OverUserKeys(hash: Hash): Hash {
    k => hash(UserOf(k))
  }

  ghost predicate HashesUserKeys(hash: Hash) {
    forall a, b :: UserOf(a) == UserOf(b) ==> hash(a) == hash(b)
  }

  lemma InternalPolicyHashes(hash: Hash)
    ensures HashesUserKeys(OverUserKeys(hash))
  {
  }

  // ---- blocks in the file ----

  /** What a BlockBuilder had when it finished. */
  datatype BlockImage = BlockImage(items: seq<Item>, marks: seq<nat>, restarts: seq<nat>)

  /** CurrentSizeEstimate of the builder that had it. */
  function ImageSize(b: BlockImage): nat {
    |Buffer(b.items)| + 4 * |b.restarts| + 4
  }

  function ImageBytes(b: BlockImage): Bytes {
    BlockBytes(b.items, b.restarts)
  }

  ghost predicate ImageOk(b: BlockImage) {
    ItemsOk(b.items) && MarksOk(b.items, b.marks) && RestartsOk(b.items, b.marks, b.restarts)
  }

  /** The handle reads back as `contents`. */
  ghost predicate Holds(o: TableOptions, file: Bytes, h: BlockHandle, contents: Bytes) {
    && h.offset + h.size + TRAILER_SIZE <= |file|
    && forall verify: bool :: ReadBlock(o.crc, o.codec, verify, file, h) == BlockContents(contents)
  }

  lemma HoldsKept(o: TableOptions, file: Bytes, file': Bytes, h: BlockHandle, contents: Bytes)
    requires Holds(o, file, h, contents) && file <= file'
    ensures Holds(o, file', h, contents)
  {
    hide ReadBlock;
    assert file' == file + file'[|file|..];
    forall verify: bool ensures ReadBlock(o.crc, o.codec, verify, file', h) == BlockContents(contents) {
      ReadBlockKept(o.crc, o.codec, verify, file, file'[|file|..], h);
    }
  }

  ghost predicate BlocksHeld(o: TableOptions, file: Bytes, blocks: seq<BlockImage>, handles: seq<BlockHandle>) {
    && |blocks| == |handles|
    && forall i :: 0 <= i < |blocks| ==> ImageOk(blocks[i]) && Holds(o, file, handles[i], ImageBytes(blocks[i]))
  }

  lemma BlocksKept(o: TableOptions, file: Bytes, file': Bytes, blocks: seq<BlockImage>, handles: seq<BlockHandle>)
    requires BlocksHeld(o, file, blocks, handles) && file <= file'
    ensures BlocksHeld(o, file', blocks, handles)
  {
    hide Holds, ImageOk;
    forall i | 0 <= i < |blocks| ensures Holds(o, file', handles[i], ImageBytes(blocks[i])) {
      HoldsKept(o, file, file', handles[i], ImageBytes(blocks[i]));
    }
  }

  /** Index entry `i` carries the handle of block `i`. */
  ghost predicate Leads(index: seq<KeyValue>, handles: seq<BlockHandle>) {
    |index| <= |handles| && forall i :: 0 <= i < |index| ==> index[i].value == EncodeHandle(handles[i])
  }

  // ---- the table in terms of entries ----

  function BlockPairs(blocks: seq<BlockImage>): (r: seq<seq<KeyValue>>)
    ensures |r| == |blocks| && forall i :: 0 <= i < |r| ==> r[i] == Pairs(blocks[i].items)
  {
    seq(|blocks|, i requires 0 <= i < |blocks| => Pairs(blocks[i].items))
  }

  function BlockEntries(blocks: seq<BlockImage>): (r: seq<seq<Entry>>)
    ensures |r| == |blocks| && forall i :: 0 <= i < |r| ==> r[i] == Entries(Pairs(blocks[i].items))
  {
    seq(|blocks|, i requires 0 <= i < |blocks| => Entries(Pairs(blocks[i].items)))
  }

  function Offsets(handles: seq<BlockHandle>): (r: seq<nat>)
    ensures |r| == |handles| && forall i :: 0 <= i < |r| ==> r[i] == handles[i].offset
  {
    seq(|handles|, i requires 0 <= i < |handles| => handles[i].offset)
  }

  ghost predicate InternalBlocks(blocks: seq<BlockImage>) {
    forall i :: 0 <= i < |blocks| ==> InternalPairs(Pairs(blocks[i].items))
  }

  lemma PairsAdded(items: seq<Item>, items': seq<Item>, kv: KeyValue)
    requires |items'| == |items| + 1 && items'[..|items|] == items && items'[|items|].kv == kv
    ensures Pairs(items') == Pairs(items) + [kv]
    ensures Entries(Pairs(items')) == Entries(Pairs(items)) + [EntryOf(kv)]
  {
    assert forall i :: 0 <= i < |items| ==> items'[i] == items'[..|items|][i] == items[i];
    EntriesAdded(Pairs(items), kv);
  }

  lemma EntriesAdded(pairs: seq<KeyValue>, kv: KeyValue)
    ensures Entries(pairs + [kv]) == Entries(pairs) + [EntryOf(kv)]
  {
  }

  lemma BlockAdded(blocks: seq<BlockImage>, handles: seq<BlockHandle>, block: BlockImage, handle: BlockHandle)
    ensures BlockPairs(blocks + [block]) == BlockPairs(blocks) + [Pairs(block.items)]
    ensures Concat(BlockPairs(blocks + [block])) == Concat(BlockPairs(blocks)) + Pairs(block.items)
    ensures BlockEntries(blocks + [block]) == BlockEntries(blocks) + [Entries(Pairs(block.items))]
    ensures Offsets(handles + [handle]) == Offsets(handles) + [handle.offset]
  {
    assert BlockPairs(blocks + [block]) == BlockPairs(blocks) + [Pairs(block.items)];
    assert (BlockPairs(blocks) + [Pairs(block.items)])[..|blocks|] == BlockPairs(blocks);
  }

  // ---- the filter ----

  /** Every user key the filter was given under an offset gets through there. */
  ghost predicate FilterAdmits(hash: Hash, filter: Bytes, added: set<(nat, UserKey)>) {
    |filter| < 0x1_0000_0000 ==>
      forall k, offset: nat :: (offset / FILTER_BASE, Rank(UserOf(k))) in added ==> FilterBlocks.FilterMayMatch(hash, filter, offset, k)
  }

  ghost predicate Given(filter: FilterBlocks.FilterBlockBuilder, added: set<(nat, UserKey)>)
    reads filter
  {
    forall i: nat, u :: (i, u) in added ==> exists key :: key in filter.KeysUnder(i) && Rank(UserOf(key)) == u
  }

  lemma SameHashSameAnswer(hash: Hash, filter: Bytes, offset: nat, a: Bytes, b: Bytes)
    requires hash(a) == hash(b)
    ensures FilterBlocks.FilterMayMatch(hash, filter, offset, a) == FilterBlocks.FilterMayMatch(hash, filter, offset, b)
  {
  }

  lemma GivenAreAdmitted(hash: Hash, groups: seq<seq<Bytes>>, pending: seq<Bytes>, added: set<(nat, UserKey)>, filter: Bytes)
    requires HashesUserKeys(hash)
    requires forall i: nat, u :: (i, u) in added ==> exists key :: key in FilterBlocks.Under(groups, pending, i) && Rank(UserOf(key)) == u
    requires |filter| < 0x1_0000_0000 ==>
      forall key, offset: nat :: key in FilterBlocks.Under(groups, pending, offset / FILTER_BASE) ==> FilterBlocks.FilterMayMatch(hash, filter, offset, key)
    ensures FilterAdmits(hash, filter, added)
  {
    hide FilterBlocks.FilterMayMatch, UserOf, Rank;
    if |filter| < 0x1_0000_0000 {
      forall k, offset: nat | (offset / FILTER_BASE, Rank(UserOf(k))) in added ensures FilterBlocks.FilterMayMatch(hash, filter, offset, k) {
        var key :| key in FilterBlocks.Under(groups, pending, offset / FILTER_BASE) && Rank(UserOf(key)) == Rank(UserOf(k));
        RankEmbeds(UserOf(key), UserOf(k));
        SameHashSameAnswer(hash, filter, offset, key, k);
      }
    }
  }

  // ---- the finished file ----

  datatype FilterImage = FilterImage(handle: BlockHandle, data: Bytes)

  datatype TableImage = TableImage(
    contents: seq<KeyValue>,
    blocks: seq<BlockImage>,
    handles: seq<BlockHandle>,
    index: BlockImage,
    indexHandle: BlockHandle,
    meta: BlockImage,
    metaHandle: BlockHandle,
    filter: Option<FilterImage>,
    added: set<(nat, UserKey)>)

  function TableOf(t: TableImage): Table {
    Table(Entries(Pairs(t.index.items)), BlockEntries(t.blocks), Offsets(t.handles))
  }

  /** The metaindex leads to the filter, if there is one. */
  ghost predicate MetaOk(o: TableOptions, hash: Option<Hash>, file: Bytes, t: TableImage) {
    match t.filter
    case None => hash.None? && t.meta.items == []
    case Some(f) =>
      && hash.Some? && Pairs(t.meta.items) == [KeyValue(o.filterName, EncodeHandle(f.handle))]
      && Holds(o, file, f.handle, f.data) && FilterAdmits(hash.value, f.data, t.added)
  }

  /** The bytes of `file` are a table of `t.contents`. */
  ghost predicate IsTableFile(o: TableOptions, hash: Option<Hash>, file: Bytes, t: TableImage) {
    && t.contents == Concat(BlockPairs(t.blocks)) && InternalPairs(t.contents) && InternalBlocks(t.blocks)
    && IsTableOf(TableOf(t), Entries(t.contents), t.added)
    && BlocksHeld(o, file, t.blocks, t.handles)
    && |t.index.items| == |t.blocks| == |t.handles| && Leads(Pairs(t.index.items), t.handles) && InternalPairs(Pairs(t.index.items))
    && ImageOk(t.index) && Holds(o, file, t.indexHandle, ImageBytes(t.index))
    && ImageOk(t.meta) && Holds(o, file, t.metaHandle, ImageBytes(t.meta)) && MetaOk(o, hash, file, t)
    && exists body :: file == body + EncodeFooter(t.metaHandle, t.indexHandle)
  }

  // ---- the builder ----

  /** The entries given so far are those of the blocks and of the block being filled. */
  ghost predicate ContentsOk(contents: seq<KeyValue>, blocks: seq<BlockImage>, data: seq<KeyValue>, numEntries: nat, lastKey: Bytes) {
    && contents == Concat(BlockPairs(blocks)) + data && numEntries == |contents|
    && InternalPairs(contents) && InternalBlocks(blocks) && InternalPairs(data)
    && (contents != [] ==> lastKey == contents[|contents| - 1].key && |lastKey| < 0x1_0000_0000)
  }

  lemma ContentsGrow(contents: seq<KeyValue>, blocks: seq<BlockImage>, data: seq<KeyValue>, numEntries: nat, lastKey: Bytes, kv: KeyValue)
    requires ContentsOk(contents, blocks, data, numEntries, lastKey) && IsInternalKey(kv.key) && |kv.key| < 0x1_0000_0000
    ensures ContentsOk(contents + [kv], blocks, data + [kv], numEntries + 1, kv.key)
  {
    hide Concat, IsInternalKey, InternalBlocks;
  }

  lemma ContentsFlushed(contents: seq<KeyValue>, blocks: seq<BlockImage>, block: BlockImage, numEntries: nat, lastKey: Bytes)
    requires ContentsOk(contents, blocks, Pairs(block.items), numEntries, lastKey)
    ensures ContentsOk(contents, blocks + [block], [], numEntries, lastKey)
  {
    hide Concat, IsInternalKey;
    BlockAdded(blocks, [], block, BlockHandle(0, 0));
  }

  ghost predicate FileOk(o: TableOptions, file: Bytes, offset: nat, blocks: seq<BlockImage>, handles: seq<BlockHandle>,
                         pending: bool, pendingHandle: BlockHandle) {
    && offset == |file| && |blocks| == |handles| && BlocksHeld(o, file, blocks, handles)
    && (pending ==> handles != [] && pendingHandle == handles[|handles| - 1])
  }

  ghost predicate IndexOk(index: seq<KeyValue>, handles: seq<BlockHandle>) {
    Leads(index, handles) && InternalPairs(index)
  }

  ghost predicate Represents(b: Building, contents: seq<KeyValue>) {
    BuildingOk(b) && Tables.Contents(b) == Entries(contents)
  }

  lemma LastIsLastKey(b: Building, contents: seq<KeyValue>, blocks: seq<BlockImage>, data: seq<KeyValue>, numEntries: nat, lastKey: Bytes)
    requires Represents(b, contents) && ContentsOk(contents, blocks, data, numEntries, lastKey)
    ensures contents != [] <==> Tables.Contents(b) != []
    ensures contents != [] ==> LastEntry(b).key == Position(lastKey) && IsInternalKey(lastKey)
    ensures contents != [] ==> |lastKey| < 0x1_0000_0000
    ensures b.waiting ==> contents != []
    ensures |b.index| + (if b.waiting then 1 else 0) == |b.blocks|
  {
    hide Position, IsInternalKey, SortedEntries, KeysOk, FilterOk;
    if contents != [] {
      assert contents[|contents| - 1] in contents;
    }
    if b.waiting {
      LastOfBlocks(b);
    }
  }

  lemma NothingAdded(o: TableOptions)
    ensures ContentsOk([], [], Pairs([]), 0, []) && FileOk(o, [], 0, [], [], false, BlockHandle(0, 0)) && IndexOk(Pairs([]), [])
    ensures Represents(Building(Entries(Pairs([])), BlockEntries([]), Offsets([]), Entries(Pairs([])), false, 0, {}), [])
  {
    NothingBuilt(0, {});
  }

  lemma PositionUser(k: Bytes)
    ensures Position(k).user == Rank(UserOf(k))
  {
  }

  lemma LeadsOn(index: seq<KeyValue>, handles: seq<BlockHandle>, handle: BlockHandle)
    requires IndexOk(index, handles)
    ensures IndexOk(index, handles + [handle])
  {
  }

  lemma OneMoreBlock(o: TableOptions, file: Bytes, file': Bytes, blocks: seq<BlockImage>, handles: seq<BlockHandle>, block: BlockImage, handle: BlockHandle)
    requires BlocksHeld(o, file, blocks, handles) && file <= file' && ImageOk(block) && Holds(o, file', handle, ImageBytes(block))
    ensures BlocksHeld(o, file', blocks + [block], handles + [handle])
  {
    hide Holds, ImageOk;
    BlocksKept(o, file, file', blocks, handles);
  }

  lemma BlockIsWritten(b: Building, contents: seq<KeyValue>, offset: nat, range: nat)
    requires Represents(b, contents) && b.data != [] && b.range == offset / FILTER_BASE
    ensures Represents(WithBlock(b, offset, range), contents)
  {
    hide BuildingOk, Tables.Contents;
    BlockWritten(b, offset, range);
  }

  /** What was written one after the other makes a table file. */
  lemma FileComplete(o: TableOptions, hash: Option<Hash>, t: TableImage, numEntries: nat, lastKey: Bytes,
                     file0: Bytes, file1: Bytes, file2: Bytes, file3: Bytes)
    requires file0 <= file1 <= file2 <= file3
    requires ContentsOk(t.contents, t.blocks, Pairs([]), numEntries, lastKey) && BlocksHeld(o, file0, t.blocks, t.handles)
    requires t.filter.Some? <==> hash.Some?
    requires t.filter.Some? ==>
      && Holds(o, file1, t.filter.value.handle, t.filter.value.data) && FilterAdmits(hash.value, t.filter.value.data, t.added)
      && Pairs(t.meta.items) == [KeyValue(o.filterName, EncodeHandle(t.filter.value.handle))]
    requires t.filter.None? ==> Pairs(t.meta.items) == []
    requires ImageOk(t.meta) && Holds(o, file2, t.metaHandle, ImageBytes(t.meta))
    requires ImageOk(t.index) && Holds(o, file3, t.indexHandle, ImageBytes(t.index))
    requires IndexOk(Pairs(t.index.items), t.handles) && |t.index.items| == |t.blocks| == |t.handles|
    requires IsTableOf(TableOf(t), Entries(t.contents), t.added)
    ensures IsTableFile(o, hash, file3 + EncodeFooter(t.metaHandle, t.indexHandle), t)
  {
    hide BlocksHeld, Holds, ImageOk, IsTableOf, FilterAdmits, InternalPairs, InternalBlocks, EncodeFooter, EncodeHandle, ImageBytes, Concat;
    var file := file3 + EncodeFooter(t.metaHandle, t.indexHandle);
    BlocksKept(o, file0, file, t.blocks, t.handles);
    HoldsKept(o, file2, file, t.metaHandle, ImageBytes(t.meta));
    HoldsKept(o, file3, file, t.indexHandle, ImageBytes(t.index));
    if t.filter.Some? {
      HoldsKept(o, file1, file, t.filter.value.handle, t.filter.value.data);
    }
    assert Concat(BlockPairs(t.blocks)) + Pairs([]) == Concat(BlockPairs(t.blocks));
    assert |Pairs(t.meta.items)| == |t.meta.items|;
  }

  class TableBuilder {
    const options: TableOptions
    const dataBlock: BlockBuilder
    const indexBlock: BlockBuilder
    const filterBlock: Option<FilterBlocks.FilterBlockBuilder>
    var file: Bytes                 // what was appended to the WritableFile
    var offset: nat
    var lastKey: Bytes
    var numEntries: nat
    var closed: bool
    var pendingIndexEntry: bool
    var pendingHandle: BlockHandle
    ghost var contents: seq<KeyValue>
    ghost var blocks: seq<BlockImage>
    ghost var handles: seq<BlockHandle>
    ghost var added: set<(nat, UserKey)>

    ghost function FilterRepr(): set<object> {
      if filterBlock.Some? then {filterBlock.value as object} else {}
    }

    ghost function Repr(): set<object> {
      {this, dataBlock, indexBlock} + FilterRepr()
    }

    ghost predicate Shape() {
      OptionsOk(options) && dataBlock != indexBlock && (filterBlock.Some? ==> HashesUserKeys(filterBlock.value.policy.hash))
    }

    ghost function PolicyHash(): Option<Hash> {
      if filterBlock.Some? then Some(filterBlock.value.policy.hash) else None
    }

    ghost function Built(): Building
      reads this, dataBlock, indexBlock
    {
      Building(Entries(Pairs(indexBlock.items)), BlockEntries(blocks), Offsets(handles), Entries(Pairs(dataBlock.items)),
               pendingIndexEntry, offset / FILTER_BASE, added)
    }

    /** The filter was given what was added and is at the range of the block being filled. */
    ghost predicate FilterReady(range: nat, added: set<(nat, UserKey)>)
      reads FilterRepr()
    {
      filterBlock.Some? ==>
        && filterBlock.value.Ok() && |filterBlock.value.filterOffsets| == range
        && Given(filterBlock.value, added)
    }

    ghost predicate Ok()
      reads Repr()
    {
      && Shape() && dataBlock.Ok() && indexBlock.Ok()
      && ContentsOk(contents, blocks, Pairs(dataBlock.items), numEntries, lastKey)
      && FileOk(options, file, offset, blocks, handles, pendingIndexEntry, pendingHandle)
      && IndexOk(Pairs(indexBlock.items), handles)
      && FilterReady(offset / FILTER_BASE, added)
      && Represents(Built(), contents)
    }

    constructor (options: TableOptions, policy: Option<Bloom.BloomFilterPolicy>)
      requires OptionsOk(options)
      requires policy.Some? ==> 1 <= policy.value.probes <= Bloom.MAX_PROBES && HashesUserKeys(policy.value.hash)
      ensures Ok() && !closed && contents == [] && file == [] && this.options == options
      ensures PolicyHash() == if policy.Some? then Some(policy.value.hash) else None
      ensures fresh(Repr())
    {
      hide ContentsOk, FileOk, IndexOk, Represents, CodecOk, HashesUserKeys, FilterBlocks.FilterBlockBuilder.Ok, BlockBuilder.Ok;
      this.options := options;
      dataBlock := new BlockBuilder(options.restartInterval);
      indexBlock := new BlockBuilder(1);
      var filter: Option<FilterBlocks.FilterBlockBuilder> := None;
      if policy.Some? {
        var fb := new FilterBlocks.FilterBlockBuilder(policy.value);
        fb.StartBlock(0);
        filter := Some(fb);
      }
      filterBlock := filter;
      file, offset, lastKey, numEntries, closed := [], 0, [], 0, false;
      pendingIndexEntry, pendingHandle := false, BlockHandle(0, 0);
      contents, blocks, handles, added := [], [], [], {};
      new;
      NothingAdded(options);
    }

    method Add(key: Bytes, value: Bytes)
      requires Ok() && !closed && IsInternalKey(key) && |key| < 0x1_0000_0000 && |value| < 0x1_0000_0000
      requires contents != [] ==> KeyLess(lastKey, key)
      modifies Repr()
      ensures Ok() && !closed && contents == old(contents) + [KeyValue(key, value)]
      ensures dataBlock.items == [] || dataBlock.CurrentSizeEstimate() < options.blockSize
      ensures blocks == old(blocks) || (
        && |blocks| == |old(blocks)| + 1 && blocks[..|old(blocks)|] == old(blocks)
        && ImageSize(blocks[|old(blocks)|]) >= options.blockSize && dataBlock.items == [])
    {
      AddEntry(key, value);
      if dataBlock.CurrentSizeEstimate() >= options.blockSize {
        Flush();
      }
    }

    /** Add up to the decision to flush. */
    method AddEntry(key: Bytes, value: Bytes)
      requires Ok() && !closed && IsInternalKey(key) && |key| < 0x1_0000_0000 && |value| < 0x1_0000_0000
      requires contents != [] ==> KeyLess(lastKey, key)
      modifies Repr()
      ensures Ok() && !closed && contents == old(contents) + [KeyValue(key, value)] && blocks == old(blocks)
    {
      hide Represents, ContentsOk, BlocksHeld, IndexOk, KeyLess, Position, Separates, IsInternalKey, FilterReady, BlockBuilder.Ok,
        Tables.Contents, LastEntry;
      ghost var kv := KeyValue(key, value);
      ghost var before, s := Built(), None;
      LastIsLastKey(before, contents, blocks, Pairs(dataBlock.items), numEntries, lastKey);
      if pendingIndexEntry {
        var separator := FindInternalSeparator(lastKey, key);
        ghost var entry := AddIndexEntry(separator);
        s := Some(EntryOf(entry));
        pendingIndexEntry := false;
      }
      AddFilterKey(key);
      AddData(key, value);
      EntryIsAdded(before, old(contents), old(lastKey), s, kv);
      assert before.index + [] == before.index;
      PositionUser(key);
      assert Built() == WithEntry(before, s, EntryOf(kv));
    }

    static lemma EntryIsAdded(b: Building, contents: seq<KeyValue>, lastKey: Bytes, s: Option<Entry>, kv: KeyValue)
      requires Represents(b, contents) && IsInternalKey(kv.key)
      requires contents != [] ==> IsInternalKey(lastKey) && KeyLess(lastKey, kv.key)
      requires contents != [] ==> Tables.Contents(b) != [] && LastEntry(b).key == Position(lastKey)
      requires (b.waiting <==> s.Some?) && (b.waiting ==> contents != [] && Separates(Position(lastKey), s.value.key, Position(kv.key)))
      ensures Represents(WithEntry(b, s, EntryOf(kv)), contents + [kv])
    {
      hide BuildingOk, KeyLess, Position, Separates, IsInternalKey, LastEntry, WithEntry;
      if contents != [] {
        PositionEmbeds(lastKey, kv.key);
      }
      EntryAdded(b, s, EntryOf(kv));
      EntriesAdded(contents, kv);
    }

    /** The index entry for the block written last. */
    method AddIndexEntry(key: Bytes) returns (ghost entry: KeyValue)
      requires indexBlock.Ok() && IsInternalKey(key) && |key| < 0x1_0000_0000
      requires IndexOk(Pairs(indexBlock.items), handles) && |indexBlock.items| + 1 == |handles| && pendingHandle == handles[|handles| - 1]
      modifies indexBlock
      ensures indexBlock.Ok() && IndexOk(Pairs(indexBlock.items), handles)
      ensures Entries(Pairs(indexBlock.items)) == old(Entries(Pairs(indexBlock.items))) + [EntryOf(entry)]
      ensures entry.key == key
    {
      hide BlockBuilder.Ok, EncodeHandle, IsInternalKey, EntryOf;
      ghost var items := indexBlock.items;
      HandleFits(pendingHandle);
      entry := KeyValue(key, EncodeHandle(pendingHandle));
      indexBlock.Add(key, EncodeHandle(pendingHandle));
      PairsAdded(items, indexBlock.items, entry);
    }

    method AddFilterKey(key: Bytes)
      requires FilterReady(offset / FILTER_BASE, added)
      modifies this`added, FilterRepr()
      ensures added == old(added) + {(offset / FILTER_BASE, Rank(UserOf(key)))}
      ensures FilterReady(offset / FILTER_BASE, added)
    {
      if filterBlock.Some? {
        filterBlock.value.AddKey(key);
      }
      added := added + {(offset / FILTER_BASE, Rank(UserOf(key)))};
    }

    method AddData(key: Bytes, value: Bytes)
      requires dataBlock.Ok() && ContentsOk(contents, blocks, Pairs(dataBlock.items), numEntries, lastKey)
      requires IsInternalKey(key) && |key| < 0x1_0000_0000 && |value| < 0x1_0000_0000
      modifies this`lastKey, this`numEntries, this`contents, dataBlock
      ensures dataBlock.Ok() && ContentsOk(contents, blocks, Pairs(dataBlock.items), numEntries, lastKey)
      ensures contents == old(contents) + [KeyValue(key, value)]
      ensures Entries(Pairs(dataBlock.items)) == old(Entries(Pairs(dataBlock.items))) + [EntryOf(KeyValue(key, value))]
    {
      hide BlockBuilder.Ok, ContentsOk, IsInternalKey;
      ghost var items := dataBlock.items;
      ContentsGrow(contents, blocks, Pairs(items), numEntries, lastKey, KeyValue(key, value));
      lastKey := key;
      numEntries := numEntries + 1;
      dataBlock.Add(key, value);
      PairsAdded(items, dataBlock.items, KeyValue(key, value));
      contents := contents + [KeyValue(key, value)];
    }

    method Flush()
      requires Ok() && !closed
      modifies Repr()
      ensures Ok() && !closed && contents == old(contents) && dataBlock.items == []
      ensures blocks == if old(dataBlock.items) == [] then old(blocks)
                        else old(blocks) + [BlockImage(old(dataBlock.items), old(dataBlock.marks), old(dataBlock.restarts))]
    {
      hide Represents, ContentsOk, BlocksHeld, IndexOk, FilterReady, BlockBuilder.Ok;
      dataBlock.EmptyHasNoItems();
      if !dataBlock.Empty() {
        WriteDataBlock();
      }
    }

    method WriteDataBlock()
      requires Ok() && !closed && dataBlock.items != []
      modifies Repr()
      ensures Ok() && !closed && contents == old(contents) && dataBlock.items == []
      ensures blocks == old(blocks) + [BlockImage(old(dataBlock.items), old(dataBlock.marks), old(dataBlock.restarts))]
    {
      hide Represents, ContentsOk, BlocksHeld, IndexOk, BlockBuilder.Ok, FilterReady, Tables.Contents, Holds, ImageOk, ImageBytes,
        OptionsOk, HashesUserKeys, WithBlock;
      ghost var before, file0, offset0 := Built(), file, offset;
      ghost var image: BlockImage;
      pendingHandle, image := WriteBlock(dataBlock);
      pendingIndexEntry := true;
      StartFilterRange(offset0);
      blocks, handles := blocks + [image], handles + [pendingHandle];
      StateFlushed(options, file0, file, contents, old(blocks), old(handles), numEntries, lastKey, Pairs(indexBlock.items),
                   before, image, pendingHandle);
    }

    /** What a written block makes of the builder's parts. */
    static lemma StateFlushed(o: TableOptions, file: Bytes, file': Bytes, contents: seq<KeyValue>, blocks: seq<BlockImage>, handles: seq<BlockHandle>,
                              numEntries: nat, lastKey: Bytes, index: seq<KeyValue>, b: Building, image: BlockImage, handle: BlockHandle)
      requires BlocksHeld(o, file, blocks, handles) && file <= file' && ImageOk(image) && Holds(o, file', handle, ImageBytes(image))
      requires ContentsOk(contents, blocks, Pairs(image.items), numEntries, lastKey) && IndexOk(index, handles)
      requires Represents(b, contents) && image.items != [] && b.data == Entries(Pairs(image.items)) && b.range == handle.offset / FILTER_BASE
      requires b.blocks == BlockEntries(blocks) && b.handles == Offsets(handles)
      ensures BlocksHeld(o, file', blocks + [image], handles + [handle])
      ensures ContentsOk(contents, blocks + [image], Pairs([]), numEntries, lastKey) && IndexOk(index, handles + [handle])
      ensures
        var range := |file'| / FILTER_BASE;
        Represents(Building(b.index, BlockEntries(blocks + [image]), Offsets(handles + [handle]), Entries(Pairs([])), true, range, b.added), contents)
    {
      hide Represents, ContentsOk, BlocksHeld, IndexOk, Holds, ImageOk;
      OneMoreBlock(o, file, file', blocks, handles, image, handle);
      ContentsFlushed(contents, blocks, image, numEntries, lastKey);
      LeadsOn(index, handles, handle);
      BlockIsWritten(b, contents, handle.offset, |file'| / FILTER_BASE);
      BlockAdded(blocks, handles, image, handle);
    }

    method StartFilterRange(ghost offset0: nat)
      requires offset0 <= offset && FilterReady(offset0 / FILTER_BASE, added)
      modifies FilterRepr()
      ensures FilterReady(offset / FILTER_BASE, added)
    {
      hide FilterBlocks.FilterBlockBuilder.Ok;
      if filterBlock.Some? {
        filterBlock.value.StartBlock(offset);
      }
    }

    /** Appends a finished block, compressed where that helps, and starts the next. */
    method WriteBlock(block: BlockBuilder) returns (handle: BlockHandle, ghost image: BlockImage)
      requires OptionsOk(options) && block.Ok() && offset == |file|
      modifies this`file, this`offset, block
      ensures block.Ok() && block.items == [] && offset == |file| && old(file) <= file
      ensures image == BlockImage(old(block.items), old(block.marks), old(block.restarts)) && ImageOk(image) && handle.offset == old(offset)
      ensures Holds(options, file, handle, ImageBytes(image))
    {
      hide ItemsOk, MarksOk, RestartsOk, BlockBytes, Holds;
      image := BlockImage(block.items, block.marks, block.restarts);
      var raw := block.Finish();
      var blockContents, kind := raw, NO_COMPRESSION;
      if options.snappy {
        var compressed := options.codec.compress(raw);
        if compressed.Some? && |compressed.value| < |raw| - |raw| / 8 {
          blockContents, kind := compressed.value, SNAPPY_COMPRESSION;
        }
      }
      handle := WriteRawBlock(blockContents, kind, raw);
      block.Reset();
    }

    /** The block and its trailer go to the end of the file. */
    method WriteRawBlock(blockContents: Bytes, kind: Byte, ghost raw: Bytes) returns (handle: BlockHandle)
      requires offset == |file|
      requires if kind == NO_COMPRESSION then raw == blockContents
               else kind == SNAPPY_COMPRESSION && options.codec.uncompress(blockContents) == Some(raw)
      modifies this`file, this`offset
      ensures file == old(file) + blockContents + Trailer(options.crc, blockContents, kind) && offset == |file|
      ensures handle == BlockHandle(old(offset), |blockContents|)
      ensures Holds(options, file, handle, raw)
    {
      hide ReadBlock, Trailer;
      handle := BlockHandle(offset, |blockContents|);
      ghost var before := file;
      file := file + blockContents;
      file := file + Trailer(options.crc, blockContents, kind);
      offset := offset + |blockContents| + TRAILER_SIZE;
      forall verify: bool ensures ReadBlock(options.crc, options.codec, verify, file, handle) == BlockContents(raw) {
        ReadsWritten(options.crc, options.codec, verify, before, blockContents, kind, []);
        assert before + blockContents + Trailer(options.crc, blockContents, kind) + [] == file;
      }
    }

    // ---- Finish ----

    method Finish() returns (ghost t: TableImage)
      requires Ok() && !closed
      modifies Repr()
      ensures closed && IsTableFile(options, PolicyHash(), file, t) && t.contents == old(contents)
    {
      hide Represents, ContentsOk, BlocksHeld, IndexOk, BlockBuilder.Ok, FilterReady, Tables.Contents, Holds, ImageOk, ImageBytes,
        OptionsOk, HashesUserKeys, IsTableOf, IsTableFile, EncodeFooter, FilterAdmits;
      Flush();
      closed := true;
      ghost var b, file0 := Built(), file;
      var filterHandle;
      ghost var filter;
      filterHandle, filter := WriteFilter();
      ghost var file1 := file;
      var metaHandle;
      ghost var meta;
      metaHandle, meta := WriteMetaindex(filterHandle);
      ghost var file2 := file;
      var indexHandle;
      ghost var index;
      indexHandle, index := WriteIndex(b);
      ghost var file3 := file;
      var footer := EncodeFooter(metaHandle, indexHandle);
      file := file + footer;
      offset := offset + |footer|;
      t := TableImage(contents, blocks, handles, index, indexHandle, meta, metaHandle, filter, added);
      FileComplete(options, PolicyHash(), t, numEntries, lastKey, file0, file1, file2, file3);
    }

    method WriteFilter() returns (handle: Option<BlockHandle>, ghost filter: Option<FilterImage>)
      requires Shape() && FilterReady(offset / FILTER_BASE, added) && offset == |file|
      modifies this`file, this`offset, FilterRepr()
      ensures offset == |file| && old(file) <= file && (handle.Some? <==> filterBlock.Some?) && (filter.Some? <==> filterBlock.Some?)
      ensures filter.Some? ==>
        handle == Some(filter.value.handle) && Holds(options, file, filter.value.handle, filter.value.data)
        && FilterAdmits(PolicyHash().value, filter.value.data, added)
    {
      hide FilterBlocks.FilterMayMatch, FilterBlocks.FilterBlockBuilder.Ok, Holds, Trailer, FilterAdmits, UserOf, Rank, FilterBlocks.Under, OptionsOk;
      handle, filter := None, None;
      if filterBlock.Some? {
        ghost var groups, pending := filterBlock.value.groups, filterBlock.value.pending;
        var data := filterBlock.value.Finish();
        GivenAreAdmitted(filterBlock.value.policy.hash, groups, pending, added, data);
        var h := WriteRawBlock(data, NO_COMPRESSION, data);
        handle, filter := Some(h), Some(FilterImage(h, data));
      }
    }

    method WriteMetaindex(filterHandle: Option<BlockHandle>) returns (handle: BlockHandle, ghost meta: BlockImage)
      requires OptionsOk(options) && offset == |file|
      modifies this`file, this`offset
      ensures offset == |file| && old(file) <= file && ImageOk(meta) && Holds(options, file, handle, ImageBytes(meta))
      ensures Pairs(meta.items) == if filterHandle.Some? then [KeyValue(options.filterName, EncodeHandle(filterHandle.value))] else []
    {
      hide BlockBuilder.Ok, Holds, ImageOk, ImageBytes, EncodeHandle;
      var metaIndexBlock := new BlockBuilder(options.restartInterval);
      if filterHandle.Some? {
        HandleFits(filterHandle.value);
        metaIndexBlock.Add(options.filterName, EncodeHandle(filterHandle.value));
      }
      handle, meta := WriteBlock(metaIndexBlock);
    }

    method WriteIndex(ghost b: Building) returns (handle: BlockHandle, ghost index: BlockImage)
      requires Shape() && indexBlock.Ok() && IndexOk(Pairs(indexBlock.items), handles) && offset == |file|
      requires ContentsOk(contents, blocks, Pairs([]), numEntries, lastKey) && |blocks| == |handles|
      requires Represents(b, contents) && b.index == Entries(Pairs(indexBlock.items)) && b.waiting == pendingIndexEntry && b.data == []
      requires b.blocks == BlockEntries(blocks) && b.handles == Offsets(handles)
      requires pendingIndexEntry ==> handles != [] && pendingHandle == handles[|handles| - 1]
      modifies this`file, this`offset, this`pendingIndexEntry, indexBlock
      ensures offset == |file| && old(file) <= file && ImageOk(index) && Holds(options, file, handle, ImageBytes(index))
      ensures IndexOk(Pairs(index.items), handles) && |index.items| == |blocks|
      ensures IsTableOf(Table(Entries(Pairs(index.items)), b.blocks, b.handles), Entries(contents), b.added)
    {
      hide Represents, ContentsOk, IndexOk, Position, Succeeds, IsInternalKey, BlockBuilder.Ok, Tables.Contents, LastEntry, Holds, ImageOk, ImageBytes,
        IsTableOf, OptionsOk, HashesUserKeys;
      LastIsLastKey(b, contents, blocks, Pairs([]), numEntries, lastKey);
      ghost var s := None;
      if pendingIndexEntry {
        var successor := FindInternalSuccessor(lastKey);
        ghost var entry := AddIndexEntry(successor);
        pendingIndexEntry := false;
        s := Some(EntryOf(entry));
      }
      assert b.index + [] == b.index;
      IndexEnds(b, contents, s);
      handle, index := WriteBlock(indexBlock);
    }

    static lemma IndexEnds(b: Building, contents: seq<KeyValue>, s: Option<Entry>)
      requires Represents(b, contents) && b.data == [] && (b.waiting <==> s.Some?)
      requires b.waiting ==> Tables.Contents(b) != [] && Succeeds(LastEntry(b).key, s.value.key)
      ensures IsTableOf(Table(WithIndex(b, s).index, b.blocks, b.handles), Entries(contents), b.added)
    {
      hide BuildingOk, Succeeds, LastEntry;
      BuildingEnds(b, s);
    }
  }
}
