/** DBImpl::Get and the iterators NewIterator opens, for a reader that has taken its references
    and then runs without the mutex while the database goes on. */
module StoreReads {
  import opened Keys
  import opened Versions
  import opened MergingIterators
  import opened DbIterators
  import opened FileIterators
  import opened Store
  import opened StoreRuns

  // ---- Get ----

  /** MemTable::Get: the first entry of the skiplist at or after the lookup key, if it has the
      user key. */
  function MemGet(mem: seq<Entry>, user: UserKey, seqno: SequenceNumber): Option<Entry> {
    match FirstAtOrAfter(mem, SeekKey(user, seqno))
    case Some(e) => if e.key.user == user then Some(e) else None
    case None => None
  }

  lemma MemGetFindsNewest(mem: seq<Entry>, user: UserKey, seqno: SequenceNumber)
    requires SortedEntries(mem)
    ensures IsHit(ToSet(mem), user, seqno, MemGet(mem, user, seqno))
  {
  }

  /** The entry a Get stops at. */
  function FirstFound(mem: seq<Entry>, imm: Option<seq<Entry>>, v: Version, user: UserKey, seqno: SequenceNumber): Option<Entry> {
    var m := MemGet(mem, user, seqno);
    if m.Some? then m
    else
      var i := if imm.Some? then MemGet(imm.value, user, seqno) else None;
      if i.Some? then i else SearchFrom(v, 0, user, seqno)
  }

  method DbGet(mem: seq<Entry>, imm: Option<seq<Entry>>, v: Version, user: UserKey, seqno: SequenceNumber) returns (value: Option<Value>)
    requires |v| == NUM_LEVELS && FilesOk(v)
    requires forall l :: 1 <= l < NUM_LEVELS ==> SortedLevel(v[l])
    ensures value == ValueOf(FirstFound(mem, imm, v, user, seqno))
  {
    var hit := MemGet(mem, user, seqno);
    if hit.None? && imm.Some? {
      hit := MemGet(imm.value, user, seqno);
    }
    if hit.Some? {
      value := Val(hit.value);
    } else {
      value := Versions.Get(v, user, seqno);
    }
  }

  ghost function ListEntries(list: Option<seq<Entry>>): set<Entry> {
    if list.Some? then ToSet(list.value) else {}
  }

  /** A hit in newer entries hides all older ones; without a hit the older ones decide. */
  lemma HitOnTop(new_: set<Entry>, older: set<Entry>, user: UserKey, seqno: SequenceNumber, hit: Option<Entry>, rest: Option<Entry>)
    requires AllNewer(new_, older) && IsHit(new_, user, seqno, hit) && IsHit(older, user, seqno, rest)
    ensures IsHit(new_ + older, user, seqno, if hit.Some? then hit else rest)
  {
  }

  /** Get answers with the newest entry of the memtables and the version together. */
  lemma GetFindsNewest(mem: seq<Entry>, imm: Option<seq<Entry>>, v: Version, user: UserKey, seqno: SequenceNumber)
    requires SortedEntries(mem) && (imm.Some? ==> SortedEntries(imm.value)) && TreeInv(v)
    requires AllNewer(ToSet(mem), ListEntries(imm)) && AllNewer(ToSet(mem), VersionEntries(v))
    requires AllNewer(ListEntries(imm), VersionEntries(v))
    ensures IsHit(ToSet(mem) + (ListEntries(imm) + VersionEntries(v)), user, seqno, FirstFound(mem, imm, v, user, seqno))
  {
    hide TreeInv, SortedEntries, SearchFrom, MemGet;
    MemGetFindsNewest(mem, user, seqno);
    if imm.Some? {
      MemGetFindsNewest(imm.value, user, seqno);
    }
    SearchFindsNewest(v, user, seqno);
    var i := if imm.Some? then MemGet(imm.value, user, seqno) else None;
    var s := SearchFrom(v, 0, user, seqno);
    assert IsHit(ListEntries(imm), user, seqno, i);
    HitOnTop(ListEntries(imm), VersionEntries(v), user, seqno, i, s);
    HitOnTop(ToSet(mem), ListEntries(imm) + VersionEntries(v), user, seqno, MemGet(mem, user, seqno), if i.Some? then i else s);
  }

  /** `mem` and `imm` are the sorted contents of the reader's memtables. */
  ghost predicate Contents(r: Reader, mems: map<nat, set<Entry>>, mem: seq<Entry>, imm: Option<seq<Entry>>) {
    && SortedEntries(mem) && ToSet(mem) == MemEntries(mems, r.mem)
    && (imm.Some? <==> r.imm.Some?)
    && (imm.Some? ==> SortedEntries(imm.value)) && ListEntries(imm) == ImmEntries(mems, r.imm)
  }

  /** In every run, Get returns to every reader, however long ago it took its references, what the
      history of inserted entries shows at its sequence number. */
  lemma EveryGetSeesItsSnapshot(states: seq<State>, events: seq<Event>, i: nat, r: Reader,
                                mem: seq<Entry>, imm: Option<seq<Entry>>, user: UserKey)
    requires IsRun(states, events) && i < |states| && r in states[i].readers
    requires Contents(r, states[i].mems, mem, imm)
    ensures ValueOf(FirstFound(mem, imm, r.version, user, r.at)) == Lookup(states[i].history, user, r.at)
  {
    hide IsRun, SortedEntries, TreeInv, FirstFound;
    EveryReaderSeesItsSnapshot(states, events, i, r, user);
    ReaderFacts(states, events, i, r);
    GetFindsNewest(mem, imm, r.version, user, r.at);
    var view := ReaderView(states[i].mems, r);
    assert view == ToSet(mem) + (ListEntries(imm) + VersionEntries(r.version));
    match FirstFound(mem, imm, r.version, user, r.at)
    case Some(e) => LookupIsNewest(view, user, r.at, e);
    case None => LookupOfNothing(view, user, r.at);
  }

  lemma ReaderFacts(states: seq<State>, events: seq<Event>, i: nat, r: Reader)
    requires IsRun(states, events) && i < |states| && r in states[i].readers
    ensures
      var s := states[i];
      && TreeOk(r.version)
      && OrderOk(r.version, ImmEntries(s.mems, r.imm), MemEntries(s.mems, r.mem), s.history)
      && ReaderView(s.mems, r) <= s.history && Distinct(ReaderView(s.mems, r)) && r.at <= s.lastSeqno
  {
    hide IsRun, TreeInv;
    var s := states[i];
    RunKeepsInv(states, events, i);
    assert ReaderOk(r, s.mems, s.history, s.lastSeqno, s.disk.tables, Published(s.disk.base, s.disk.changes));
    assert s.history <= s.logged;
  }

  // ---- NewIterator ----

  /** Version::AddIterators, over the first `n` levels. */
  function LevelLists(v: Version, n: nat): seq<seq<Entry>>
    requires 1 <= n <= |v|
  {
    if n == 1 then FileLists(v[0]) else LevelLists(v, n - 1) + OneLevel(v[n - 1])
  }

  /** NewInternalIterator: the children of the merging iterator. */
  function InternalLists(mem: seq<Entry>, imm: Option<seq<Entry>>, v: Version): seq<seq<Entry>>
    requires |v| == NUM_LEVELS
  {
    [mem] + ((if imm.Some? then [imm.value] else []) + LevelLists(v, NUM_LEVELS))
  }

  ghost function EntriesAbove(v: Version, n: nat): set<Entry>
    requires n <= |v|
  {
    set l, e | 0 <= l < n && e in LevelEntries(v[l]) :: e
  }

  lemma LevelsApart(v: Version, n: nat)
    requires TreeInv(v) && n < NUM_LEVELS
    ensures KeysApart(EntriesAbove(v, n), LevelEntries(v[n]))
  {
    forall d, e | d in EntriesAbove(v, n) && e in LevelEntries(v[n]) ensures d.key != e.key {
      var l :| 0 <= l < n && d in LevelEntries(v[l]);
      var f :| f in v[l] && d in f.entries;
      var g :| g in v[n] && e in g.entries;
      assert Newer(f, g);
    }
  }

  lemma {:induction false} LevelListsOk(v: Version, n: nat)
    requires TreeOk(v) && 1 <= n <= NUM_LEVELS
    ensures Mergeable(LevelLists(v, n)) && Union(LevelLists(v, n)) == EntriesAbove(v, n)
  {
    hide Mergeable, SortedEntries, Newer, LevelEntries;
    if n == 1 {
      FileListsOk(v[0]);
      assert EntriesAbove(v, 1) == LevelEntries(v[0]);
    } else {
      LevelListsOk(v, n - 1);
      OneLevelOk(v[n - 1]);
      LevelsApart(v, n - 1);
      MergeableAppend(LevelLists(v, n - 1), OneLevel(v[n - 1]));
      OneMoreLevel(v, n - 1);
    }
  }

  lemma OneMoreLevel(v: Version, n: nat)
    requires n < |v|
    ensures EntriesAbove(v, n + 1) == EntriesAbove(v, n) + LevelEntries(v[n])
  {
  }

  lemma NewerApart(a: set<Entry>, b: set<Entry>)
    requires AllNewer(a, b)
    ensures KeysApart(a, b)
  {
  }

  lemma InternalListsOk(mem: seq<Entry>, imm: Option<seq<Entry>>, v: Version)
    requires SortedEntries(mem) && (imm.Some? ==> SortedEntries(imm.value)) && TreeOk(v)
    requires AllNewer(ToSet(mem), ListEntries(imm)) && AllNewer(ToSet(mem), VersionEntries(v))
    requires AllNewer(ListEntries(imm), VersionEntries(v))
    ensures Mergeable(InternalLists(mem, imm, v))
    ensures Union(InternalLists(mem, imm, v)) == ToSet(mem) + (ListEntries(imm) + VersionEntries(v))
  {
    assert |v| == NUM_LEVELS;
    hide TreeOk, SortedEntries, Mergeable, LevelLists;
    LevelListsOk(v, NUM_LEVELS);
    assert EntriesAbove(v, NUM_LEVELS) == VersionEntries(v);
    OneListOk(mem);
    var older := LevelLists(v, NUM_LEVELS);
    if imm.Some? {
      OneListOk(imm.value);
      NewerApart(ToSet(imm.value), VersionEntries(v));
      MergeableAppend([imm.value], older);
      older := [imm.value] + older;
    }
    NewerApart(ToSet(mem), Union(older));
    MergeableAppend([mem], older);
    assert InternalLists(mem, imm, v) == [mem] + older;
  }

  /** A DbIter over `merged` comes to the user key with this value. */
  ghost predicate GoesThrough(merged: seq<Entry>, at: SequenceNumber, user: UserKey, value: Value) {
    exists k :: 0 <= k < |LiveList(merged, at)|
      && merged[LiveList(merged, at)[k]].key.user == user && merged[LiveList(merged, at)[k]].value == value
  }

  /** In every run, the iterators a reader opens merge to one sequence, and the keys a DbIter over
      that sequence goes through at the reader's sequence number, with their values, are those the
      history of inserted entries shows there. */
  lemma EveryIteratorSeesItsSnapshot(states: seq<State>, events: seq<Event>, i: nat, r: Reader,
                                     mem: seq<Entry>, imm: Option<seq<Entry>>, merged: seq<Entry>, user: UserKey, value: Value)
    requires IsRun(states, events) && i < |states| && r in states[i].readers
    requires Contents(r, states[i].mems, mem, imm) && |r.version| == NUM_LEVELS
    requires IsMerge(merged, InternalLists(mem, imm, r.version))
    ensures Lookup(states[i].history, user, r.at) == Some(value) <==> GoesThrough(merged, r.at, user, value)
  {
    hide IsRun, TreeOk, InternalLists;
    EveryReaderSeesItsSnapshot(states, events, i, r, user);
    ReaderFacts(states, events, i, r);
    InternalListsOk(mem, imm, r.version);
    MergedIsUnion(merged, InternalLists(mem, imm, r.version));
    assert ToSet(merged) == ReaderView(states[i].mems, r);
    LiveListIsLookup(merged, user, value, r.at);
  }

  /** The memtable an open iterator reads grows under it.  The merge of a later moment has other
      entries, but the keys and values that a DbIter goes through in it are the same. */
  lemma IteratorsAreStable(states: seq<State>, events: seq<Event>, i: nat, j: nat, r: Reader,
                           mem: seq<Entry>, imm: Option<seq<Entry>>, merged: seq<Entry>,
                           mem': seq<Entry>, imm': Option<seq<Entry>>, merged': seq<Entry>, user: UserKey, value: Value)
    requires IsRun(states, events) && i <= j < |states| && r in states[i].readers && r in states[j].readers
    requires forall k :: i <= k < j ==> !events[k].CrashAndReopen?
    requires |r.version| == NUM_LEVELS
    requires Contents(r, states[i].mems, mem, imm) && IsMerge(merged, InternalLists(mem, imm, r.version))
    requires Contents(r, states[j].mems, mem', imm') && IsMerge(merged', InternalLists(mem', imm', r.version))
    ensures GoesThrough(merged, r.at, user, value) <==> GoesThrough(merged', r.at, user, value)
  {
    hide IsRun, InternalLists, Contents, IsMerge;
    ReaderFacts(states, events, i, r);
    EveryIteratorSeesItsSnapshot(states, events, i, r, mem, imm, merged, user, value);
    EveryIteratorSeesItsSnapshot(states, events, j, r, mem', imm', merged', user, value);
    ViewsNeverChange(states, events, i, j, user, r.at);
  }

  /** Such a merge exists, so that a MergingIterator can be opened. */
  lemma EveryReaderHasAMerge(states: seq<State>, events: seq<Event>, i: nat, r: Reader, mem: seq<Entry>, imm: Option<seq<Entry>>)
      returns (merged: seq<Entry>)
    requires IsRun(states, events) && i < |states| && r in states[i].readers
    requires Contents(r, states[i].mems, mem, imm)
    ensures |r.version| == NUM_LEVELS && IsMerge(merged, InternalLists(mem, imm, r.version))
  {
    hide IsRun, InternalLists;
    ReaderFacts(states, events, i, r);
    InternalListsOk(mem, imm, r.version);
    merged := MergeExists(InternalLists(mem, imm, r.version));
  }
}
