/** Tables above their bytes: blocks of entries, an index with short keys between them, a filter that
    knows which user keys a range of offsets has, and what a lookup through these finds. */
module Tables {
  import opened Keys
  import opened Versions
  import opened Cursors
  import opened Sequences
  import opened TwoLevelIterators

  /** The data blocks in file order with their offsets, and the index entries that lead to them. */
  datatype Table = Table(index: seq<Entry>, blocks: seq<seq<Entry>>, handles: seq<nat>)

  const FILTER_BASE: nat := 2048

  /** What FindShortestSeparator may return for internal keys. */
  predicate Separates(start: InternalKey, separator: InternalKey, limit: InternalKey) {
    separator == start || start.user < separator.user < limit.user
  }

  /** What FindShortSuccessor may return. */
  predicate Succeeds(key: InternalKey, successor: InternalKey) {
    successor == key || key.user < successor.user
  }

  // ---- what the builder keeps ----

  /** Index key `s` stands between a block and an entry behind it. */
  predicate Divides(block: seq<Entry>, s: InternalKey, e: Entry)
    requires block != []
  {
    Before(s, e.key) && (s == block[|block| - 1].key || s.user < e.key.user)
  }

  ghost predicate BlocksOk(blocks: seq<seq<Entry>>) {
    forall i :: 0 <= i < |blocks| ==> blocks[i] != [] && SortedEntries(blocks[i])
  }

  /** Index key `i` is at or after all of block `i`, and divides it from everything behind. */
  ghost predicate KeyOk(index: seq<Entry>, blocks: seq<seq<Entry>>, pending: seq<Entry>, i: nat)
    requires i < |index| <= |blocks| && BlocksOk(blocks)
  {
    && (forall e :: e in blocks[i] ==> !Before(index[i].key, e.key))
    && (forall j, e :: i < j < |blocks| && e in blocks[j] ==> Divides(blocks[i], index[i].key, e))
    && (forall e :: e in pending ==> Divides(blocks[i], index[i].key, e))
  }

  ghost predicate KeysOk(index: seq<Entry>, blocks: seq<seq<Entry>>, pending: seq<Entry>)
    requires |index| <= |blocks| && BlocksOk(blocks)
  {
    forall i :: 0 <= i < |index| ==> KeyOk(index, blocks, pending, i)
  }

  /** The user key of every entry was added to the filter under its block's offset. */
  ghost predicate FilterOk(blocks: seq<seq<Entry>>, handles: seq<nat>, added: set<(nat, UserKey)>) {
    && |handles| == |blocks|
    && forall i, e :: 0 <= i < |blocks| && e in blocks[i] ==> (handles[i] / FILTER_BASE, e.key.user) in added
  }

  /** A table of these entries. */
  ghost predicate IsTableOf(t: Table, es: seq<Entry>, added: set<(nat, UserKey)>) {
    && BlocksOk(t.blocks) && |t.index| == |t.blocks| && KeysOk(t.index, t.blocks, [])
    && Concat(t.blocks) == es && SortedEntries(es)
    && FilterOk(t.blocks, t.handles, added)
  }

  lemma DividesLater(block: seq<Entry>, s: InternalKey, d: Entry, e: Entry)
    requires block != [] && Divides(block, s, d) && Before(d.key, e.key)
    ensures Divides(block, s, e)
  {
  }

  /** Entries that come after the last key come after all. */
  lemma AfterLast(es: seq<Entry>, e: Entry)
    requires SortedEntries(es) && (es != [] ==> Before(es[|es| - 1].key, e.key))
    ensures SortedEntries(es + [e])
    ensures forall d :: d in es ==> Before(d.key, e.key)
  {
    forall i | 0 <= i < |es| ensures Before(es[i].key, e.key) {
      assert i < |es| - 1 ==> Before(es[i].key, es[|es| - 1].key);
    }
  }

  /** The index key made for the last block when the entry behind it is known. */
  lemma IndexedBefore(index: seq<Entry>, blocks: seq<seq<Entry>>, s: Entry, e: Entry)
    requires BlocksOk(blocks) && |index| + 1 == |blocks| && KeysOk(index, blocks, [])
    requires
      var last := blocks[|blocks| - 1];
      Before(last[|last| - 1].key, e.key) && Separates(last[|last| - 1].key, s.key, e.key)
    ensures KeysOk(index + [s], blocks, []) && Divides(blocks[|blocks| - 1], s.key, e)
  {
    var index', n := index + [s], |blocks| - 1;
    EndsAtLast(blocks[n]);
    forall i | 0 <= i < |index'| ensures KeyOk(index', blocks, [], i) {
      assert i < n ==> KeyOk(index, blocks, [], i);
    }
  }

  /** The index key made for the last block of the table. */
  lemma IndexedLast(index: seq<Entry>, blocks: seq<seq<Entry>>, s: Entry)
    requires BlocksOk(blocks) && |index| + 1 == |blocks| && KeysOk(index, blocks, [])
    requires
      var last := blocks[|blocks| - 1];
      Succeeds(last[|last| - 1].key, s.key)
    ensures KeysOk(index + [s], blocks, [])
  {
    var index', n := index + [s], |blocks| - 1;
    EndsAtLast(blocks[n]);
    forall i | 0 <= i < |index'| ensures KeyOk(index', blocks, [], i) {
      assert i < n ==> KeyOk(index, blocks, [], i);
    }
  }

  lemma EndsAtLast(block: seq<Entry>)
    requires block != [] && SortedEntries(block)
    ensures forall e :: e in block ==> e == block[|block| - 1] || Before(e.key, block[|block| - 1].key)
  {
  }

  /** One more entry behind everything. */
  lemma Extended(index: seq<Entry>, blocks: seq<seq<Entry>>, pending: seq<Entry>, e: Entry)
    requires BlocksOk(blocks) && |index| == |blocks| && KeysOk(index, blocks, pending)
    requires forall d :: d in Concat(blocks) + pending ==> Before(d.key, e.key)
    requires pending == [] && blocks != [] ==> Divides(blocks[|blocks| - 1], index[|blocks| - 1].key, e)
    ensures KeysOk(index, blocks, pending + [e])
  {
    forall i | 0 <= i < |index| ensures KeyOk(index, blocks, pending + [e], i) {
      assert KeyOk(index, blocks, pending, i);
      if pending != [] {
        assert pending[0] in Concat(blocks) + pending;
        DividesLater(blocks[i], index[i].key, pending[0], e);
      } else if i < |blocks| - 1 {
        var d := blocks[|blocks| - 1][0];
        InConcat(blocks, d);
        assert d in Concat(blocks) + pending;
        DividesLater(blocks[i], index[i].key, d, e);
      }
    }
  }

  /** The pending entries become a block. */
  lemma Flushed(index: seq<Entry>, blocks: seq<seq<Entry>>, pending: seq<Entry>)
    requires BlocksOk(blocks) && |index| == |blocks| && KeysOk(index, blocks, pending) && pending != [] && SortedEntries(pending)
    ensures BlocksOk(blocks + [pending]) && KeysOk(index, blocks + [pending], [])
    ensures Concat(blocks + [pending]) == Concat(blocks) + pending
  {
    var blocks' := blocks + [pending];
    assert blocks'[..|blocks|] == blocks;
    forall i | 0 <= i < |index| ensures KeyOk(index, blocks', [], i) {
      assert KeyOk(index, blocks, pending, i);
    }
  }

  // ---- building ----

  /** What a TableBuilder has so far: the blocks it wrote, the one it is filling, and whether the last
      block written still waits for its index key. */
  datatype Building = Building(
    index: seq<Entry>,
    blocks: seq<seq<Entry>>,
    handles: seq<nat>,
    data: seq<Entry>,
    waiting: bool,
    range: nat,                      // of the block being filled
    added: set<(nat, UserKey)>)      // what the filter was given

  function Contents(b: Building): seq<Entry> {
    Concat(b.blocks) + b.data
  }

  ghost predicate BuildingOk(b: Building) {
    && SortedEntries(Contents(b)) && BlocksOk(b.blocks) && SortedEntries(b.data)
    && |b.index| + (if b.waiting then 1 else 0) == |b.blocks|
    && (b.waiting <==> b.data == [] && b.blocks != [])
    && KeysOk(b.index, b.blocks, b.data)
    && FilterOk(b.blocks, b.handles, b.added)
    && forall e :: e in b.data ==> (b.range, e.key.user) in b.added
  }

  lemma NothingBuilt(range: nat, added: set<(nat, UserKey)>)
    ensures BuildingOk(Building([], [], [], [], false, range, added))
  {
  }

  function WithIndex(b: Building, s: Option<Entry>): Building {
    b.(index := b.index + (if s.Some? then [s.value] else []), waiting := false)
  }

  function WithEntry(b: Building, s: Option<Entry>, e: Entry): Building {
    WithIndex(b, s).(data := b.data + [e], added := b.added + {(b.range, e.key.user)})
  }

  function LastEntry(b: Building): Entry
    requires Contents(b) != []
  {
    Contents(b)[|Contents(b)| - 1]
  }

  /** TableBuilder::Add with a separator for the waiting block. */
  lemma EntryAdded(b: Building, s: Option<Entry>, e: Entry)
    requires BuildingOk(b) && (b.waiting <==> s.Some?)
    requires Contents(b) != [] ==> Before(LastEntry(b).key, e.key)
    requires b.waiting ==> Contents(b) != [] && Separates(LastEntry(b).key, s.value.key, e.key)
    ensures BuildingOk(WithEntry(b, s, e)) && Contents(WithEntry(b, s, e)) == Contents(b) + [e]
  {
    hide SortedEntries, KeysOk, Before, Separates, Concat, Divides;
    AfterLast(Contents(b), e);
    DataAfter(b, e);
    if b.waiting {
      LastOfBlocks(b);
      IndexedBefore(b.index, b.blocks, s.value, e);
    }
    var b' := WithEntry(b, s, e);
    assert s.None? ==> b'.index == b.index;
    Extended(b'.index, b.blocks, b.data, e);
    assert Contents(b') == Contents(b) + [e];
  }

  lemma DataAfter(b: Building, e: Entry)
    requires SortedEntries(Contents(b)) && SortedEntries(b.data) && (Contents(b) != [] ==> Before(LastEntry(b).key, e.key))
    ensures SortedEntries(b.data + [e])
  {
    AfterLast(Contents(b), e);
    assert forall d :: d in b.data ==> d in Contents(b);
  }

  lemma LastOfBlocks(b: Building)
    requires BuildingOk(b) && b.waiting
    ensures
      var last := b.blocks[|b.blocks| - 1];
      last != [] && Contents(b) != [] && LastEntry(b) == last[|last| - 1]
  {
  }

  /** TableBuilder::Flush, at a file offset. */
  function WithBlock(b: Building, offset: nat, range: nat): Building {
    b.(blocks := b.blocks + [b.data], handles := b.handles + [offset], data := [], waiting := true, range := range)
  }

  lemma BlockWritten(b: Building, offset: nat, range: nat)
    requires BuildingOk(b) && b.data != [] && b.range == offset / FILTER_BASE
    ensures BuildingOk(WithBlock(b, offset, range)) && Contents(WithBlock(b, offset, range)) == Contents(b)
  {
    hide SortedEntries, KeysOk, Before, Concat, Divides;
    Flushed(b.index, b.blocks, b.data);
    var b' := WithBlock(b, offset, range);
    assert Contents(b') == Contents(b);
    NothingSorted();
    FilterHasBlock(b, offset);
  }

  lemma FilterHasBlock(b: Building, offset: nat)
    requires FilterOk(b.blocks, b.handles, b.added) && b.range == offset / FILTER_BASE
    requires forall e :: e in b.data ==> (b.range, e.key.user) in b.added
    ensures FilterOk(b.blocks + [b.data], b.handles + [offset], b.added)
  {
  }

  lemma NothingSorted()
    ensures SortedEntries([])
  {
  }

  /** TableBuilder::Finish, with a last index key if a block waits for one. */
  lemma BuildingEnds(b: Building, s: Option<Entry>)
    requires BuildingOk(b) && b.data == [] && (b.waiting <==> s.Some?)
    requires b.waiting ==> Contents(b) != [] && Succeeds(LastEntry(b).key, s.value.key)
    ensures IsTableOf(Table(WithIndex(b, s).index, b.blocks, b.handles), Contents(b), b.added)
  {
    hide SortedEntries, KeysOk, Before, Separates, Concat, Divides;
    if b.waiting {
      LastOfBlocks(b);
      IndexedLast(b.index, b.blocks, s.value);
    }
    assert Contents(b) == Concat(b.blocks);
  }

  // ---- reading ----

  /** Table::NewIterator may be opened on a built table: its iterator goes through the entries the
      builder was given. */
  lemma TableCanBeIterated(t: Table, es: seq<Entry>, added: set<(nat, UserKey)>)
    requires IsTableOf(t, es, added)
    ensures IndexOk(t.index, t.blocks) && SortedEntries(t.index) && Concat(t.blocks) == es
    ensures forall i :: 0 <= i < |t.blocks| ==> SortedEntries(t.blocks[i])
  {
    forall i, e | 0 <= i < |t.blocks| && e in t.blocks[i] ensures !Before(t.index[i].key, e.key) {
      assert KeyOk(t.index, t.blocks, [], i);
    }
    forall i, j, e | 0 <= i < j < |t.blocks| && e in t.blocks[j] ensures Before(t.index[i].key, e.key) {
      assert KeyOk(t.index, t.blocks, [], i);
      assert Divides(t.blocks[i], t.index[i].key, e);
    }
    forall i, j | 0 <= i < j < |t.index| ensures Before(t.index[i].key, t.index[j].key) {
      assert KeyOk(t.index, t.blocks, [], i) && KeyOk(t.index, t.blocks, [], j);
      assert t.blocks[j][0] in t.blocks[j];
    }
  }

  /** What InternalGet hands to its saver, where `mayMatch` is the filter's answer for an offset. */
  function Found(t: Table, mayMatch: nat -> bool, k: InternalKey): Option<Entry>
    requires |t.index| == |t.blocks| == |t.handles|
  {
    var i := SeekPosition(t.index, k);
    if i == |t.index| || !mayMatch(t.handles[i]) then None
    else
      var p := SeekPosition(t.blocks[i], k);
      if p < |t.blocks[i]| then Some(t.blocks[i][p]) else None
  }

  lemma {:induction false} FirstIsSought(es: seq<Entry>, k: InternalKey)
    ensures FirstAtOrAfter(es, k) == if SeekPosition(es, k) < |es| then Some(es[SeekPosition(es, k)]) else None
  {
    if es != [] && Before(es[0].key, k) {
      FirstIsSought(es[1..], k);
    }
  }

  /** SaveValue keeps the entry only when it has the user key that was asked for. */
  function Saved(r: Option<Entry>, user: UserKey): Option<Entry> {
    match r
    case Some(e) => if e.key.user == user then r else None
    case None => None
  }

  /** The filter lets a user key through at every offset under which it was added. */
  ghost predicate Admits(mayMatch: nat -> bool, added: set<(nat, UserKey)>, user: UserKey) {
    forall o: nat :: (o / FILTER_BASE, user) in added ==> mayMatch(o)
  }

  /** When the block the index leads to has nothing at or after the target, then the entry behind
      it, if any, has a larger user key: the index key lies strictly between. */
  lemma NextBlockHasLargerUser(t: Table, es: seq<Entry>, added: set<(nat, UserKey)>, k: InternalKey, i: nat, e: Entry)
    requires IsTableOf(t, es, added) && i == SeekPosition(t.index, k) < |t.blocks|
    requires SeekPosition(t.blocks[i], k) == |t.blocks[i]| && exists j :: i < j < |t.blocks| && e in t.blocks[j]
    ensures k.user < e.key.user
  {
    assert KeyOk(t.index, t.blocks, [], i);
    var j :| i < j < |t.blocks| && e in t.blocks[j];
    assert Divides(t.blocks[i], t.index[i].key, e);
    var last := t.blocks[i][|t.blocks[i]| - 1];
    assert Before(last.key, k);
  }

  lemma SoughtEntry(t: Table, es: seq<Entry>, added: set<(nat, UserKey)>, k: InternalKey)
    requires IsTableOf(t, es, added)
    ensures
      var i := SeekPosition(t.index, k);
      && (i == |t.index| ==> FirstAtOrAfter(es, k) == None)
      && (i < |t.index| && SeekPosition(t.blocks[i], k) < |t.blocks[i]| ==>
            FirstAtOrAfter(es, k) == Some(t.blocks[i][SeekPosition(t.blocks[i], k)]))
      && (i < |t.index| && SeekPosition(t.blocks[i], k) == |t.blocks[i]| ==>
            FirstAtOrAfter(es, k).None? || k.user < FirstAtOrAfter(es, k).value.key.user)
  {
    hide IndexOk, SortedEntries, BlocksOk, KeysOk, FilterOk;
    assert IndexOk(t.index, t.blocks) by {
      TableCanBeIterated(t, es, added);
    }
    SeekSplits(t.index, t.blocks, k);
    FirstIsSought(es, k);
    var i := SeekPosition(t.index, k);
    if i < |t.index| {
      BlockInConcat(t.blocks, i);
      var p := SeekPosition(es, k);
      if SeekPosition(t.blocks[i], k) == |t.blocks[i]| && p < |es| {
        BeyondBlock(t, es, added, k, i, p);
      }
    }
  }

  lemma BeyondBlock(t: Table, es: seq<Entry>, added: set<(nat, UserKey)>, k: InternalKey, i: nat, p: nat)
    requires IsTableOf(t, es, added) && i == SeekPosition(t.index, k) < |t.blocks| && SeekPosition(t.blocks[i], k) == |t.blocks[i]|
    requires p == Start(t.blocks, i + 1) < |es|
    ensures k.user < es[p].key.user
  {
    hide SortedEntries, BlocksOk, KeysOk, FilterOk, Before;
    var j, m := BlockOf(t.blocks, p);
    BlockInConcat(t.blocks, j);
    LaterBlock(t.blocks, i, j, m);
    assert es[p] == t.blocks[j][m] && es[p] in t.blocks[j];
    NextBlockHasLargerUser(t, es, added, k, i, es[p]);
  }

  lemma LaterBlock(blocks: seq<seq<Entry>>, i: nat, j: nat, m: nat)
    requires i < |blocks| && j < |blocks| && m < |blocks[j]| && Start(blocks, j) + m == Start(blocks, i + 1)
    ensures i < j
  {
    if j <= i {
      BlockInConcat(blocks, j);
      StartsIncrease(blocks, j + 1, i + 1);
    }
  }

  /** Despite short index keys and the filter, what a table lookup saves for a user key is what the
      first entry at or after the lookup key says, as a version's probe of the file does. */
  lemma FoundIsProbe(t: Table, es: seq<Entry>, added: set<(nat, UserKey)>, mayMatch: nat -> bool, user: UserKey, seqno: SequenceNumber)
    requires IsTableOf(t, es, added) && Admits(mayMatch, added, user)
    ensures |t.index| == |t.blocks| == |t.handles|
    ensures Saved(Found(t, mayMatch, SeekKey(user, seqno)), user) == Saved(FirstAtOrAfter(es, SeekKey(user, seqno)), user)
    ensures forall f: File :: f.entries == es ==> Saved(Found(t, mayMatch, SeekKey(user, seqno)), user) == Probe(f, user, seqno)
  {
    hide SortedEntries, BlocksOk, KeysOk, Concat;
    var k := SeekKey(user, seqno);
    SoughtEntry(t, es, added, k);
    var i := SeekPosition(t.index, k);
    if i < |t.index| && !mayMatch(t.handles[i]) && SeekPosition(t.blocks[i], k) < |t.blocks[i]| {
      var e := t.blocks[i][SeekPosition(t.blocks[i], k)];
      assert e in t.blocks[i] && (t.handles[i] / FILTER_BASE, e.key.user) in added;
    }
  }

  /** And that is the newest entry of the user key up to the sequence number. */
  lemma FirstIsNewest(es: seq<Entry>, user: UserKey, seqno: SequenceNumber)
    requires SortedEntries(es)
    ensures
      var r := Saved(FirstAtOrAfter(es, SeekKey(user, seqno)), user);
      && (r.Some? ==> IsNewest(ToSet(es), user, seqno, r.value))
      && (r.None? ==> forall e :: e in es ==> !VisibleAt(e, user, seqno))
  {
  }
}
