/** Table: opening a file that a TableBuilder finished, and what lookups and iterators find in it. */
module TableReaders {
  import opened Keys
  import opened Sequences
  import opened Cursors
  import opened BytewiseOrder
  import opened InternalKeys
  import opened Blocks
  import opened BlockIterators
  import opened Tables
  import opened TableFormat
  import opened TableBuilders
  import FilterBlocks
  import TwoLevelIterators
  import Versions

  /** Table::Rep.  `policy` is the hash of the filter policy, `filter` the filter block that was found. */
  datatype Rep = Rep(options: TableOptions, file: Bytes, policy: Option<Hash>, filter: Option<Bytes>, indexBlock: Bytes, metaindexHandle: BlockHandle)

  datatype OpenResult = Opened(rep: Rep) | Failed(message: string)

  /** Sizes and offsets fit the integers of the format. */
  ghost predicate Fits(file: Bytes, t: TableImage) {
    && |file| < LIMIT64
    && |ImageBytes(t.index)| < 0x1_0000_0000 && |ImageBytes(t.meta)| < 0x1_0000_0000
    && (forall i :: 0 <= i < |t.blocks| ==> |ImageBytes(t.blocks[i])| < 0x1_0000_0000)
    && (t.filter.Some? ==> |t.filter.value.data| < 0x1_0000_0000)
  }

  // ---- opening ----

  function ReadAt(o: TableOptions, verify: bool, file: Bytes, value: Bytes): BlockRead {
    match DecodeHandle(value)
    case None => Corruption("bad block handle")
    case Some(d) => ReadBlock(o.crc, o.codec, verify, file, d.handle)
  }

  /** The filter that a metaindex block leads to. */
  function FilterIn(o: TableOptions, verify: bool, file: Bytes, meta: seq<KeyValue>): Option<Bytes> {
    if meta == [] || meta[0].key != o.filterName then None
    else
      match ReadAt(o, verify, file, meta[0].value)
      case BlockContents(data) => Some(data)
      case Corruption(_) => None
  }

  /** If there is a metaindex block, `meta` is what it has: at most one entry. */
  ghost predicate MetaReadable(o: TableOptions, verify: bool, file: Bytes, handle: BlockHandle, meta: BlockImage) {
    var r := ReadBlock(o.crc, o.codec, verify, file, handle);
    r.BlockContents? ==> r.data == ImageBytes(meta) && |r.data| < 0x1_0000_0000 && ImageOk(meta) && |meta.items| <= 1
  }

  /** Table::Open of any file. */
  function OpenResultOf(o: TableOptions, policy: Option<Hash>, verify: bool, file: Bytes, meta: seq<KeyValue>): OpenResult {
    match ReadFooter(file)
    case BadFooter(message) => Failed(message)
    case Footer(metaindex, index) =>
      match ReadBlock(o.crc, o.codec, verify, file, index)
      case Corruption(message) => Failed(message)
      case BlockContents(data) =>
        var metaRead := ReadBlock(o.crc, o.codec, verify, file, metaindex);
        Opened(Rep(o, file, policy, if policy.Some? && metaRead.BlockContents? then FilterIn(o, verify, file, meta) else None, data, metaindex))
  }

  method Open(o: TableOptions, policy: Option<Hash>, paranoid: bool, file: Bytes, ghost meta: BlockImage) returns (r: OpenResult)
    requires ReadFooter(file).Footer? ==> MetaReadable(o, paranoid, file, ReadFooter(file).metaindex, meta)
    ensures r == OpenResultOf(o, policy, paranoid, file, Pairs(meta.items))
  {
    hide ReadBlock, ReadFooter, FilterIn, ImageOk, ImageBytes;
    match ReadFooter(file)
    case BadFooter(message) =>
      r := Failed(message);
    case Footer(metaindex, index) =>
      match ReadBlock(o.crc, o.codec, paranoid, file, index)
      case Corruption(message) =>
        r := Failed(message);
      case BlockContents(data) =>
        var filter := ReadMeta(o, policy, paranoid, file, metaindex, meta);
        r := Opened(Rep(o, file, policy, filter, data, metaindex));
  }

  /** Without a filter the table works as well: errors are not passed on. */
  method ReadMeta(o: TableOptions, policy: Option<Hash>, paranoid: bool, file: Bytes, metaHandle: BlockHandle, ghost meta: BlockImage)
    returns (filter: Option<Bytes>)
    requires MetaReadable(o, paranoid, file, metaHandle, meta)
    ensures filter == if policy.Some? && ReadBlock(o.crc, o.codec, paranoid, file, metaHandle).BlockContents?
                      then FilterIn(o, paranoid, file, Pairs(meta.items)) else None
  {
    hide ReadBlock, DecodeHandle, ItemsOk, MarksOk, RestartsOk, BlockBytes, BlockIterator.Shape, BlockIterator.AtEntry, Transitive;
    filter := None;
    if policy.None? {
      return;
    }
    var contents := ReadBlock(o.crc, o.codec, paranoid, file, metaHandle);
    if contents.Corruption? {
      return;
    }
    LessTransitive();
    var iter := new BlockIterator(Less, contents.data, meta.items, meta.marks, meta.restarts);
    iter.Seek(o.filterName);
    iter.ValidIsAt();
    LessIsTotal(o.filterName, o.filterName);
    if iter.Valid() && iter.key == o.filterName {
      filter := ReadFilter(o, paranoid, file, iter.Value());
    }
  }

  lemma LessTransitive()
    ensures Transitive(Less)
  {
    forall a, b, c | Less(a, b) && Less(b, c) ensures Less(a, c) {
      LessIsTransitive(a, b, c);
    }
  }

  method ReadFilter(o: TableOptions, paranoid: bool, file: Bytes, handleValue: Bytes) returns (filter: Option<Bytes>)
    ensures filter == match ReadAt(o, paranoid, file, handleValue)
                      case BlockContents(data) => Some(data)
                      case Corruption(_) => None
  {
    hide ReadBlock, DecodeHandle;
    var handle := DecodeHandle(handleValue);
    if handle.None? {
      return None;
    }
    var block := ReadBlock(o.crc, o.codec, paranoid, file, handle.value.handle);
    if block.Corruption? {
      return None;
    }
    filter := Some(block.data);
  }

  // ---- opening what a builder finished ----

  /** A policy finds its own filters only; tables without a filter can be opened with any. */
  ghost predicate PolicyFor(policy: Option<Hash>, hash: Option<Hash>) {
    policy.None? || hash.None? || policy == hash
  }

  function FilterFor(policy: Option<Hash>, t: TableImage): Option<Bytes> {
    if policy.Some? && t.filter.Some? then Some(t.filter.value.data) else None
  }

  function RepOf(o: TableOptions, policy: Option<Hash>, file: Bytes, t: TableImage): Rep {
    Rep(o, file, policy, FilterFor(policy, t), ImageBytes(t.index), t.metaHandle)
  }

  lemma FooterReads(o: TableOptions, hash: Option<Hash>, file: Bytes, t: TableImage)
    requires IsTableFile(o, hash, file, t) && |file| < LIMIT64
    ensures ReadFooter(file) == Footer(t.metaHandle, t.indexHandle)
  {
    hide IsTableOf, BlocksHeld, ImageOk, FilterAdmits, InternalPairs, InternalBlocks, ReadBlock, ReadFooter, ImageBytes, EncodeFooter, MetaOk;
    var body :| file == body + EncodeFooter(t.metaHandle, t.indexHandle);
    FooterRoundTrip(body, t.metaHandle, t.indexHandle);
  }

  lemma ReadsAtHandle(o: TableOptions, verify: bool, file: Bytes, h: BlockHandle, contents: Bytes)
    requires Holds(o, file, h, contents) && |file| < LIMIT64
    ensures DecodeHandle(EncodeHandle(h)) == Some(DecodedHandle(h, |EncodeHandle(h)|))
    ensures ReadAt(o, verify, file, EncodeHandle(h)) == BlockContents(contents)
  {
    hide ReadBlock, EncodeHandle, DecodeHandle;
    HandleRoundTrip(h, []);
    assert EncodeHandle(h) + [] == EncodeHandle(h);
  }

  /** A finished table opens, and its filter is found by the policy that made it. */
  lemma BuiltTableOpens(o: TableOptions, hash: Option<Hash>, policy: Option<Hash>, verify: bool, file: Bytes, t: TableImage)
    requires IsTableFile(o, hash, file, t) && Fits(file, t)
    ensures ReadFooter(file) == Footer(t.metaHandle, t.indexHandle) && MetaReadable(o, verify, file, t.metaHandle, t.meta)
    ensures OpenResultOf(o, policy, verify, file, Pairs(t.meta.items)) == Opened(RepOf(o, policy, file, t))
  {
    hide IsTableOf, BlocksHeld, ImageOk, FilterAdmits, InternalPairs, InternalBlocks, ReadBlock, ReadFooter, ImageBytes, EncodeFooter, EncodeHandle, ReadAt;
    FooterReads(o, hash, file, t);
    assert |Pairs(t.meta.items)| == |t.meta.items|;
    if t.filter.Some? {
      ReadsAtHandle(o, verify, file, t.filter.value.handle, t.filter.value.data);
    }
  }

  // ---- looking up ----

  /** FilterBlockReader::KeyMayMatch, where there is a filter. */
  predicate MayHave(rep: Rep, offset: nat, k: Bytes) {
    rep.filter.Some? && rep.policy.Some? ==> FilterBlocks.FilterMayMatch(rep.policy.value, rep.filter.value, offset, k)
  }

  datatype GetResult = Saw(kv: KeyValue) | SawNothing | GetFailed(message: string)

  function Seen(r: GetResult): Option<Entry> {
    if r.Saw? then Some(EntryOf(r.kv)) else None
  }

  /** What the table says about its blocks, in the form the iterators need. */
  lemma BlocksReadable(o: TableOptions, hash: Option<Hash>, file: Bytes, t: TableImage, verify: bool)
    requires IsTableFile(o, hash, file, t) && Fits(file, t)
    ensures |t.blocks| == |t.handles| == |t.index.items|
    ensures Readable(t.index, ImageBytes(t.index))
    ensures forall i :: 0 <= i < |t.blocks| ==> Readable(t.blocks[i], ImageBytes(t.blocks[i]))
    ensures forall i :: 0 <= i < |t.blocks| ==>
      var value := t.index.items[i].kv.value;
      && ReadAt(o, verify, file, value) == BlockContents(ImageBytes(t.blocks[i]))
      && DecodeHandle(value).Some? && DecodeHandle(value).value.handle == t.handles[i]
  {
    hide IsTableOf, ImageOk, FilterAdmits, InternalPairs, ReadBlock, ReadAt, ReadFooter, ImageBytes, EncodeFooter, EncodeHandle, DecodeHandle, MetaOk,
      Holds, SortedEntries, BlocksHeld, Leads, TwoLevelIterators.IndexOk, Concat;
    TableCanBeIterated(TableOf(t), Entries(t.contents), t.added);
    forall i | 0 <= i < |t.blocks|
      ensures Readable(t.blocks[i], ImageBytes(t.blocks[i]))
      ensures
        var value := t.index.items[i].kv.value;
        && ReadAt(o, verify, file, value) == BlockContents(ImageBytes(t.blocks[i]))
        && DecodeHandle(value).Some? && DecodeHandle(value).value.handle == t.handles[i]
    {
      assert SortedEntries(TableOf(t).blocks[i]);
      HandleOfBlock(o, file, t, i);
      ReadsAtHandle(o, verify, file, t.handles[i], ImageBytes(t.blocks[i]));
    }
  }

  lemma HandleOfBlock(o: TableOptions, file: Bytes, t: TableImage, i: nat)
    requires BlocksHeld(o, file, t.blocks, t.handles) && Leads(Pairs(t.index.items), t.handles) && i < |t.index.items|
    ensures |t.blocks| == |t.handles| && t.index.items[i].kv.value == EncodeHandle(t.handles[i])
    ensures i < |t.blocks| ==> ImageOk(t.blocks[i]) && Holds(o, file, t.handles[i], ImageBytes(t.blocks[i]))
  {
    assert Pairs(t.index.items)[i] == t.index.items[i].kv;
  }

  /** A block iterator over the contents can be made. */
  ghost predicate Readable(b: BlockImage, contents: Bytes) {
    && ImageOk(b) && contents == ImageBytes(b) && |contents| < 0x1_0000_0000
    && InternalPairs(Pairs(b.items)) && SortedEntries(Entries(Pairs(b.items)))
  }

  /** Block::NewIterator and Seek: what the iterator is at. */
  method SeekIn(contents: Bytes, k: Bytes, ghost b: BlockImage) returns (kv: Option<KeyValue>)
    requires Readable(b, contents) && IsInternalKey(k)
    ensures
      var p := SeekPosition(Entries(Pairs(b.items)), Position(k));
      kv == if p < |b.items| then Some(b.items[p].kv) else None
  {
    hide KeyLess, Position, IsInternalKey, SortedEntries, SortedItems, ImageOk, BlockBytes, BlockIterator.Shape, BlockIterator.AtEntry,
      InternalPairs, IsFirstFrom;
    ItemsSorted(b.items);
    var iter := BlockIteratorOver(contents, b);
    iter.Seek(k);
    iter.ValidIsAt();
    BlockSeekIsCursorSeek(b.items, k, iter.at);
    kv := if iter.Valid() then Some(KeyValue(iter.key, iter.Value())) else None;
  }

  method InternalGet(rep: Rep, verify: bool, k: Bytes, ghost hash: Option<Hash>, ghost t: TableImage) returns (r: GetResult)
    requires IsTableFile(rep.options, hash, rep.file, t) && Fits(rep.file, t) && rep == RepOf(rep.options, rep.policy, rep.file, t)
    requires IsInternalKey(k)
    ensures !r.GetFailed? && |t.index.items| == |t.blocks| == |t.handles|
    ensures Seen(r) == Found(TableOf(t), (offset: nat) => MayHave(rep, offset, k), Position(k))
    ensures r.Saw? ==> r.kv in t.contents
    ensures PolicyFor(rep.policy, hash) ==> forall user, seqno :: k == EncodeKey(user, seqno, Put) ==> IsAnswer(t.contents, user, seqno, r)
  {
    hide IsTableFile, Fits, KeyLess, Position, IsInternalKey, Readable, ReadAt, MayHave, ImageBytes, DecodeHandle;
    BlocksReadable(rep.options, hash, rep.file, t, verify);
    r := SawNothing;
    var entry := SeekIn(rep.indexBlock, k, t.index);
    ghost var i := SeekPosition(Entries(Pairs(t.index.items)), Position(k));
    if entry.Some? {
      var handle := DecodeHandle(entry.value.value);
      if handle.Some? && !MayHave(rep, handle.value.handle.offset, k) {
        // The filter has no such key under this block's offset.
      } else {
        match ReadAt(rep.options, verify, rep.file, entry.value.value)
        case Corruption(message) =>
          r := GetFailed(message);
        case BlockContents(data) =>
          var found := SeekIn(data, k, t.blocks[i]);
          if found.Some? {
            r := Saw(found.value);
            InContents(t, rep.options, hash, rep.file, i, found.value);
          }
      }
    }
    if PolicyFor(rep.policy, hash) {
      forall user, seqno | k == EncodeKey(user, seqno, Put) ensures IsAnswer(t.contents, user, seqno, r) {
        FoundIsAnswer(rep, hash, t, user, seqno, r);
      }
    }
  }

  lemma InContents(t: TableImage, o: TableOptions, hash: Option<Hash>, file: Bytes, i: nat, kv: KeyValue)
    requires IsTableFile(o, hash, file, t) && i < |t.blocks| && kv in Pairs(t.blocks[i].items)
    ensures kv in t.contents
  {
    hide IsTableOf, BlocksHeld, Holds, ImageOk, MetaOk, Leads;
    InConcat(BlockPairs(t.blocks), kv);
    assert kv in BlockPairs(t.blocks)[i];
  }

  predicate VisiblePair(kv: KeyValue, user: Bytes, seqno: SequenceNumber) {
    UserOf(kv.key) == user && SeqnoOf(kv.key) <= seqno
  }

  /** What was seen has the user key and is its newest entry up to the sequence number; if something
      else was seen, or nothing, there is none. */
  ghost predicate IsAnswer(contents: seq<KeyValue>, user: Bytes, seqno: SequenceNumber, r: GetResult) {
    if r.Saw? && UserOf(r.kv.key) == user then
      && r.kv in contents && VisiblePair(r.kv, user, seqno)
      && forall kv :: kv in contents && VisiblePair(kv, user, seqno) ==> SeqnoOf(kv.key) <= SeqnoOf(r.kv.key)
    else forall kv :: kv in contents ==> !VisiblePair(kv, user, seqno)
  }

  lemma FilterLetsThrough(rep: Rep, hash: Option<Hash>, t: TableImage, k: Bytes)
    requires IsTableFile(rep.options, hash, rep.file, t) && Fits(rep.file, t) && rep == RepOf(rep.options, rep.policy, rep.file, t)
    requires PolicyFor(rep.policy, hash)
    ensures Admits((offset: nat) => MayHave(rep, offset, k), t.added, Rank(UserOf(k)))
  {
    hide IsTableOf, BlocksHeld, Holds, ImageOk, Leads, Rank, UserOf, FilterBlocks.FilterMayMatch, InternalPairs, InternalBlocks;
  }

  /** Prefix compression, short index keys and the filter do not show: a lookup in the bytes of a
      table finds the newest entry, as a version's probe of the file does. */
  lemma FoundIsAnswer(rep: Rep, hash: Option<Hash>, t: TableImage, user: Bytes, seqno: SequenceNumber, r: GetResult)
    requires IsTableFile(rep.options, hash, rep.file, t) && Fits(rep.file, t) && rep == RepOf(rep.options, rep.policy, rep.file, t)
    requires PolicyFor(rep.policy, hash) && |t.index.items| == |t.blocks| == |t.handles| && (r.Saw? ==> r.kv in t.contents)
    requires
      var k := EncodeKey(user, seqno, Put);
      Seen(r) == Found(TableOf(t), (offset: nat) => MayHave(rep, offset, k), Position(k))
    ensures IsAnswer(t.contents, user, seqno, r)
    ensures forall f: Versions.File :: f.entries == Entries(t.contents) ==> Saved(Seen(r), Rank(user)) == Versions.Probe(f, Rank(user), seqno)
  {
    hide IsTableFile, Fits, MayHave, EncodeKey, Found, Versions.FirstAtOrAfter, SortedEntries, Position, TableOf, IsTableOf, RepOf;
    var k := EncodeKey(user, seqno, Put);
    var mayMatch := (offset: nat) => MayHave(rep, offset, k);
    EncodedKey(user, seqno, Put);
    FilterLetsThrough(rep, hash, t, k);
    IsTableOfContents(rep.options, hash, rep.file, t);
    FoundIsProbe(TableOf(t), Entries(t.contents), t.added, mayMatch, Rank(user), seqno);
    FirstIsNewest(Entries(t.contents), Rank(user), seqno);
    SavedIsAnswer(t.contents, user, seqno, r);
  }

  lemma IsTableOfContents(o: TableOptions, hash: Option<Hash>, file: Bytes, t: TableImage)
    requires IsTableFile(o, hash, file, t)
    ensures IsTableOf(TableOf(t), Entries(t.contents), t.added) && SortedEntries(Entries(t.contents))
  {
  }

  lemma PairIsEntry(kv: KeyValue, user: Bytes, seqno: SequenceNumber)
    ensures VisiblePair(kv, user, seqno) <==> VisibleAt(EntryOf(kv), Rank(user), seqno)
    ensures UserOf(kv.key) == user <==> EntryOf(kv).key.user == Rank(user)
    ensures EntryOf(kv).key.seqno == SeqnoOf(kv.key)
  {
    RankEmbeds(UserOf(kv.key), user);
  }

  lemma SavedIsAnswer(contents: seq<KeyValue>, user: Bytes, seqno: SequenceNumber, r: GetResult)
    requires r.Saw? ==> r.kv in contents
    requires
      var e := Saved(Seen(r), Rank(user));
      && (e.Some? ==> IsNewest(ToSet(Entries(contents)), Rank(user), seqno, e.value))
      && (e.None? ==> forall e :: e in Entries(contents) ==> !VisibleAt(e, Rank(user), seqno))
    ensures IsAnswer(contents, user, seqno, r)
  {
    hide UserOf, Rank, SeqnoOf, VisiblePair, EntryOf;
    if r.Saw? {
      PairIsEntry(r.kv, user, seqno);
    }
    forall kv | kv in contents
      ensures VisiblePair(kv, user, seqno) <==> VisibleAt(EntryOf(kv), Rank(user), seqno)
      ensures EntryOf(kv).key.seqno == SeqnoOf(kv.key) && EntryOf(kv) in Entries(contents)
    {
      PairIsEntry(kv, user, seqno);
      var i :| 0 <= i < |contents| && contents[i] == kv;
      assert Entries(contents)[i] == EntryOf(kv);
    }
  }

  // ---- iterating ----

  /** A two-level iterator may be opened on the table and goes through the entries it was built from. */
  lemma BuiltTableIterates(o: TableOptions, hash: Option<Hash>, file: Bytes, t: TableImage)
    requires IsTableFile(o, hash, file, t)
    ensures
      var table := TableOf(t);
      && TwoLevelIterators.IndexOk(table.index, table.blocks) && SortedEntries(table.index)
      && Concat(table.blocks) == Entries(t.contents) && SortedEntries(Concat(table.blocks))
      && (forall i :: 0 <= i < |table.blocks| ==> SortedEntries(table.blocks[i]))
  {
    IsTableOfContents(o, hash, file, t);
    TableCanBeIterated(TableOf(t), Entries(t.contents), t.added);
  }

  /** A block iterator and a cursor over the block's entries, at the same position, show the same. */
  lemma SameView(iter: BlockIterator, cursor: Cursor)
    requires iter.Ok() && cursor.entries == Entries(Pairs(iter.items)) && cursor.at == iter.at
    ensures iter.Valid() <==> cursor.Valid()
    ensures iter.Valid() ==>
      && iter.valueStart <= iter.valueEnd <= |iter.data|
      && EntryOf(KeyValue(iter.key, iter.Value())) == cursor.Current()
  {
    hide BlockIterator.Shape, BlockIterator.AtEntry, EntryOf;
    iter.ValidIsAt();
  }

  /** The loop of ScanTable: SeekToFirst, then Next as long as the iterator is valid. */
  method ScanTable(rep: Rep, verify: bool, ghost hash: Option<Hash>, ghost t: TableImage) returns (kvs: seq<KeyValue>, ok: bool)
    requires IsTableFile(rep.options, hash, rep.file, t) && Fits(rep.file, t) && rep == RepOf(rep.options, rep.policy, rep.file, t)
    ensures ok && kvs == t.contents
  {
    hide IsTableFile, Fits, KeyLess, ReadAt, ImageBytes, DecodeHandle, BlockIterator.Shape, BlockIterator.AtEntry, Readable;
    BlocksReadable(rep.options, hash, rep.file, t, verify);
    kvs, ok := [], true;
    var index := BlockScan(rep.indexBlock, t.index);
    for i := 0 to |index|
      invariant ok && kvs == Concat(BlockPairs(t.blocks)[..i])
    {
      match ReadAt(rep.options, verify, rep.file, index[i].value)
      case Corruption(message) =>
        ok := false;
        return;
      case BlockContents(data) =>
        var block := BlockScan(data, t.blocks[i]);
        kvs := kvs + block;
        assert BlockPairs(t.blocks)[..i + 1][..i] == BlockPairs(t.blocks)[..i];
    }
    assert BlockPairs(t.blocks)[..|index|] == BlockPairs(t.blocks);
    ContentsAreBlocks(rep.options, hash, rep.file, t);
  }

  lemma ContentsAreBlocks(o: TableOptions, hash: Option<Hash>, file: Bytes, t: TableImage)
    requires IsTableFile(o, hash, file, t)
    ensures t.contents == Concat(BlockPairs(t.blocks))
  {
  }

  /** The iterator is at its position, or not valid at the end. */
  ghost predicate Shows(iter: BlockIterator, items: seq<Item>)
    reads iter
  {
    && iter.Ok() && iter.items == items && iter.at <= |items| && (iter.Valid() <==> iter.at < |items|)
    && (iter.Valid() ==>
          && iter.valueStart <= iter.valueEnd <= |iter.data|
          && KeyValue(iter.key, iter.Value()) == items[iter.at].kv)
  }

  lemma IterShows(iter: BlockIterator)
    requires iter.Ok()
    ensures Shows(iter, iter.items)
  {
    hide BlockIterator.Shape, BlockIterator.AtEntry;
    iter.ValidIsAt();
  }

  method BlockIteratorOver(contents: Bytes, ghost b: BlockImage) returns (iter: BlockIterator)
    requires Readable(b, contents)
    ensures fresh(iter) && iter.Ok() && iter.items == b.items && iter.less == KeyLess
  {
    hide KeyLess, SortedEntries, SortedItems, Transitive, ItemsOk, MarksOk, RestartsOk, BlockBytes, BlockIterator.Ok, InternalPairs;
    KeyLessIsTransitive();
    ItemsSorted(b.items);
    iter := new BlockIterator(KeyLess, contents, b.items, b.marks, b.restarts);
  }

  /** All entries of a block, in the order of its iterator. */
  method BlockScan(contents: Bytes, ghost b: BlockImage) returns (kvs: seq<KeyValue>)
    requires Readable(b, contents)
    ensures kvs == Pairs(b.items)
  {
    hide Readable, BlockIterator.Shape, BlockIterator.AtEntry;
    var iter := BlockIteratorOver(contents, b);
    iter.SeekToFirst();
    IterShows(iter);
    kvs := [];
    while iter.Valid()
      invariant Shows(iter, b.items) && kvs == Pairs(b.items)[..iter.at]
      decreases |b.items| - iter.at
    {
      kvs := kvs + [KeyValue(iter.key, iter.Value())];
      iter.Next();
      IterShows(iter);
    }
  }
}
