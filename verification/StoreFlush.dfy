/** CompactMemTable as steps: number, table, level, manifest record, installed version. */
module StoreFlush {
  import opened Keys
  import opened Versions
  import opened CompactionWork
  import opened InputSelection
  import opened Builders
  import opened ManifestReplay
  import opened Tree
  import opened CompactionSteps
  import opened Store

  // ---- recording one more edit in the manifest ----

  ghost predicate AddedSomewhere(c: Change, n: nat) {
    exists l: nat :: l < NUM_LEVELS && n in Numbers(AddedAt(c.added, l))
  }

  lemma PublishedAppend(base: Version, changes: seq<Change>, c: Change)
    ensures Published(base, changes) <= Published(base, changes + [c])
    ensures forall n :: n in Published(base, changes + [c]) ==>
      n in Published(base, changes) || AddedSomewhere(c, n)
  {
    forall n | n in Published(base, changes) ensures n in Published(base, changes + [c]) {
      var l: nat :| 0 <= l < NUM_LEVELS && n in KnownAt(base, changes, l);
      KnownAppend(base, changes, c, l);
      assert n in KnownAt(base, changes + [c], l);
    }
    forall n | n in Published(base, changes + [c]) && n !in Published(base, changes)
      ensures AddedSomewhere(c, n)
    {
      var l: nat :| 0 <= l < NUM_LEVELS && n in KnownAt(base, changes + [c], l);
      KnownAppend(base, changes, c, l);
      assert n !in KnownAt(base, changes, l);
      assert n in Numbers(AddedAt(c.added, l));
    }
  }

  /** A manifest record whose new files carry numbers that never were at their level. */
  ghost predicate Recordable(base: Version, changes: seq<Change>, c: Change, nextFile: nat) {
    forall l :: 0 <= l < NUM_LEVELS ==>
      && Fresh(AddedAt(c.added, l), KnownAt(base, changes, l))
      && forall f :: f in AddedAt(c.added, l) ==> f.number < nextFile
  }

  lemma RecordKeepsManifest(base: Version, changes: seq<Change>, c: Change, nextFile: nat, nextFile': nat)
    requires ManifestOk(base, changes, nextFile) && nextFile <= nextFile' && Recordable(base, changes, c, nextFile')
    ensures ManifestOk(base, changes + [c], nextFile')
  {
    forall l | 0 <= l < NUM_LEVELS ensures AddedOnce(Numbers(base[l]), l, changes + [c]) {
      AddedOnceAppend(Numbers(base[l]), l, changes, c);
    }
    PublishedAppend(base, changes, c);
    forall n | n in Published(base, changes + [c]) ensures n < nextFile' {
      if n !in Published(base, changes) {
        assert AddedSomewhere(c, n);
        var l: nat :| l < NUM_LEVELS && n in Numbers(AddedAt(c.added, l));
      }
    }
  }

  /** Files already on a version keep going down only: each new file is on its level only, or was
      above it before. */
  lemma RecordMovesDown(v: Version, v': Version, base: Version, changes: seq<Change>, c: Change)
    requires MovesDown(v, base, changes) && |v'| == NUM_LEVELS
    requires forall l, f :: 0 <= l < NUM_LEVELS && f in v'[l] ==> f in v[l] || f in AddedAt(c.added, l)
    requires forall l, m, f :: 0 <= l < m < NUM_LEVELS && f in AddedAt(c.added, l) ==> f.number !in KnownAt(base, changes, m)
    requires forall l, m, f :: 0 <= l < m < NUM_LEVELS && f in v'[l] ==> f.number !in Numbers(AddedAt(c.added, m))
    ensures MovesDown(v', base, changes + [c])
  {
    forall l | 0 <= l < NUM_LEVELS
      ensures KnownAt(base, changes + [c], l) == KnownAt(base, changes, l) + Numbers(AddedAt(c.added, l))
    {
      KnownAppend(base, changes, c, l);
    }
  }

  lemma StoredGrows(v: Version, tables: map<nat, seq<Entry>>, published: set<nat>, published': set<nat>)
    requires Stored(v, tables, published) && published <= published'
    ensures Stored(v, tables, published')
  {
  }

  // ---- the steps ----

  predicate CanStartFlush(s: State) {
    s.imm.Some? && s.flush.NoFlush? && (s.work.NoWork? || s.work.Compacting?)
  }

  function StartFlush(s: State): State {
    s.(flush := FlushBuilding(s.nextFile), pending := s.pending + {s.nextFile}, nextFile := s.nextFile + 1)
  }

  /** BuildTable: `order` is the memtable's iteration order; an empty memtable leaves no file. */
  ghost predicate CanBuildTable(s: State, order: seq<Entry>) {
    && s.flush.FlushBuilding?
    && SortedEntries(order) && ToSet(order) == ImmEntries(s.mems, s.imm)
  }

  function BuildTable(s: State, order: seq<Entry>, size: nat): State
    requires s.flush.FlushBuilding?
  {
    if order == [] then s.(flush := FlushBuilt(s.flush.number, None))
    else
      var f := NewFile(s.flush.number, size, order);
      s.(flush := FlushBuilt(f.number, Some(f)), disk := s.disk.(tables := s.disk.tables[f.number := order]))
  }

  /** Back under the mutex: the number leaves pending_outputs_, the level is picked, LogAndApply
      prepares the edit. */
  ghost predicate CanPickFlushLevel(s: State, level: nat) {
    && s.flush.FlushBuilt?
    && level <= MAX_MEM_COMPACT_LEVEL
    && (s.flush.file.Some? ==> FitsAt(s.current, level, s.flush.file.value))
  }

  function PickFlushLevel(s: State, level: nat): State
    requires s.flush.FlushBuilt?
  {
    s.(flush := FlushLogging(level, s.flush.file, Counters(s.lastSeqno, s.nextFile)), pending := s.pending - {s.flush.number})
  }

  /** The record reaches the manifest, without the mutex. */
  function RecordFlush(s: State): State
    requires s.flush.FlushLogging?
  {
    s.(disk := s.disk.(changes := s.disk.changes + [FlushEdit(s.flush.level, s.flush.file)],
                       logNumber := s.logfileNumber, lastSeqno := s.flush.edit.lastSeqno, nextFile := s.flush.edit.nextFile),
       flush := FlushInstalling(s.flush.level, s.flush.file))
  }

  /** AppendVersion, and imm_ = NULL. */
  function InstallFlush(s: State): State
    requires s.flush.FlushInstalling?
  {
    s.(current := Apply(s.current, FlushEdit(s.flush.level, s.flush.file)), logNumber := s.logfileNumber,
       imm := None, flush := NoFlush)
  }

  // ---- each step keeps the invariant ----

  lemma WorkGrows(work: Working, current: Version, snapshots: seq<SequenceNumber>, lastSeqno: SequenceNumber, pending: set<nat>, pending': set<nat>,
                  tables: map<nat, seq<Entry>>, published: set<nat>, nextFile: nat, nextFile': nat)
    requires WorkOk(work, current, snapshots, lastSeqno, pending, tables, published, nextFile)
    requires pending <= pending' && nextFile <= nextFile'
    ensures WorkOk(work, current, snapshots, lastSeqno, pending', tables, published, nextFile')
  {
  }

  lemma StartFlushOk(s: State)
    requires Inv(s) && CanStartFlush(s)
    ensures Inv(StartFlush(s))
  {
    var s' := StartFlush(s);
    WorkGrows(s.work, s.current, s.snapshots, s.lastSeqno, s.pending, s'.pending, s.disk.tables,
              Published(s.disk.base, s.disk.changes), s.nextFile, s'.nextFile);
    assert s.nextFile !in Published(s.disk.base, s.disk.changes);
    hide WriterOk, MemsOk, OrderOk, SnapshotsOk, TreeOk, Stored, SameAnswers, ReadersOk, RecordedOk, WorkOk,
      MemEntries, ImmEntries, Todo, AllEntries, Published;
  }

  /** Writing a table under an unpublished number disturbs no version that readers may hold. */
  lemma StoredKeeps(v: Version, tables: map<nat, seq<Entry>>, published: set<nat>, n: nat, es: seq<Entry>)
    requires Stored(v, tables, published) && n !in published
    ensures Stored(v, tables[n := es], published)
  {
  }

  lemma ReadersKeep(readers: seq<Reader>, mems: map<nat, set<Entry>>, history: set<Entry>, lastSeqno: SequenceNumber,
                    tables: map<nat, seq<Entry>>, published: set<nat>, n: nat, es: seq<Entry>)
    requires ReadersOk(readers, mems, history, lastSeqno, tables, published) && n !in published
    ensures ReadersOk(readers, mems, history, lastSeqno, tables[n := es], published)
  {
    forall r | r in readers ensures ReaderOk(r, mems, history, lastSeqno, tables[n := es], published) {
      StoredKeeps(r.version, tables, published, n, es);
    }
  }

  /** The compaction in progress does not use number `n`. */
  ghost predicate WorkAvoids(work: Working, n: nat) {
    work.Compacting? ==> (forall f :: f in work.outs ==> f.number != n) && work.building != Some(n)
  }

  lemma WorkKeeps(work: Working, current: Version, snapshots: seq<SequenceNumber>, lastSeqno: SequenceNumber, pending: set<nat>,
                  tables: map<nat, seq<Entry>>, published: set<nat>, nextFile: nat, n: nat, es: seq<Entry>)
    requires WorkOk(work, current, snapshots, lastSeqno, pending, tables, published, nextFile)
    requires work.NoWork? || work.Compacting?
    requires n !in published && WorkAvoids(work, n)
    ensures WorkOk(work, current, snapshots, lastSeqno, pending, tables[n := es], published, nextFile)
  {
    if work.Compacting? {
      StoredKeeps(work.job.base, tables, published, n, es);
    }
  }

  lemma BuildTableOk(s: State, order: seq<Entry>, size: nat)
    requires Inv(s) && CanBuildTable(s, order)
    ensures Inv(BuildTable(s, order, size))
  {
    var published := Published(s.disk.base, s.disk.changes);
    var n := s.flush.number;
    if order == [] {
      assert ToSet(order) == {};
    } else {
      var f := NewFile(n, size, order);
      assert FileEntries(f) == ToSet(order);
      StoredKeeps(s.current, s.disk.tables, published, n, order);
      ReadersKeep(s.readers, s.mems, s.history, s.lastSeqno, s.disk.tables, published, n, order);
      WorkKeeps(s.work, s.current, s.snapshots, s.lastSeqno, s.pending, s.disk.tables, published, s.nextFile, n, order);
    }
  }

  lemma PickFlushLevelOk(s: State, level: nat)
    requires Inv(s) && CanPickFlushLevel(s, level)
    ensures Inv(PickFlushLevel(s, level))
  {
    if s.flush.file.Some? {
      FlushedFileIsNewer(s.flush.file.value, s.current, ImmEntries(s.mems, s.imm));
    }
    PickedWork(s.work, s.current, s.snapshots, s.lastSeqno, s.pending, s.disk.tables,
               Published(s.disk.base, s.disk.changes), s.nextFile, s.flush.number);
  }

  /** The compaction in progress does not rely on the flush's number being pending. */
  lemma PickedWork(work: Working, current: Version, snapshots: seq<SequenceNumber>, lastSeqno: SequenceNumber, pending: set<nat>,
                   tables: map<nat, seq<Entry>>, published: set<nat>, nextFile: nat, n: nat)
    requires WorkOk(work, current, snapshots, lastSeqno, pending, tables, published, nextFile)
    requires (work.NoWork? || work.Compacting?) && WorkAvoids(work, n)
    ensures WorkOk(work, current, snapshots, lastSeqno, pending - {n}, tables, published, nextFile)
  {
  }

  lemma FlushedFileIsNewer(f: File, v: Version, imm: set<Entry>)
    requires FileEntries(f) == imm && AllNewer(imm, VersionEntries(v))
    ensures NewerThanAll(f, v)
  {
    forall l, g, e, d | 0 <= l < |v| && g in v[l] && e in f.entries && d in g.entries && e.key.user == d.key.user
      ensures e.key.seqno > d.key.seqno
    {
      assert e in FileEntries(f);
      assert d in LevelEntries(v[l]) && d in VersionEntries(v);
    }
  }

  lemma EmptyEdit(v: Version)
    ensures Apply(v, Change({}, [])) == v
  {
    forall l | 0 <= l < |v| ensures Apply(v, Change({}, []))[l] == v[l] {
      assert DeletedAt(Change({}, []), l) == {};
      MergeNothing(v[l]);
      var none: set<nat> := {};
      assert none + none == none;
    }
  }

  /** What the flush's edit does to the current version. */
  lemma FlushEditApplies(v: Version, level: nat, file: Option<File>, imm: set<Entry>)
    requires TreeOk(v) && IsTableOf(file, imm)
    requires file.Some? ==> Flushable(v, level, file.value)
    ensures
      var v' := Apply(v, FlushEdit(level, file));
      && TreeOk(v')
      && VersionEntries(v') == VersionEntries(v) + imm
      && if file.Some? then FlushedInto(v, v', level, file.value) else v' == v
  {
    if file.Some? {
      FlushApplies(v, level, file.value);
      FlushKeepsTreeInv(v, Apply(v, FlushEdit(level, file)), level, file.value);
      FlushEntries(v, Apply(v, FlushEdit(level, file)), level, file.value);
    } else {
      EmptyEdit(v);
    }
  }

  lemma FlushAddedAt(level: nat, file: Option<File>, l: nat)
    ensures AddedAt(FlushEdit(level, file).added, l) == if file.Some? && l == level then [file.value] else []
  {
    if file.Some? {
      AddedAtTagged([file.value], level, l);
      assert Tagged([file.value], level) == FlushEdit(level, file).added;
    }
  }

  lemma FlushRecordable(base: Version, changes: seq<Change>, nextFile: nat, level: nat, file: Option<File>)
    requires file.Some? ==> Unused(file.value.number, Published(base, changes), nextFile)
    ensures Recordable(base, changes, FlushEdit(level, file), nextFile)
  {
    forall l: nat | l < NUM_LEVELS
      ensures Fresh(AddedAt(FlushEdit(level, file).added, l), KnownAt(base, changes, l))
      ensures forall f :: f in AddedAt(FlushEdit(level, file).added, l) ==> f.number < nextFile
    {
      FlushAddedAt(level, file, l);
      KnownIsPublished(base, changes, l);
    }
  }

  lemma FlushMovesDown(v: Version, v': Version, base: Version, changes: seq<Change>, nextFile: nat, level: nat, file: Option<File>)
    requires MovesDown(v, base, changes)
    requires if file.Some? then FlushedInto(v, v', level, file.value) else v' == v
    requires file.Some? ==> Unused(file.value.number, Published(base, changes), nextFile)
    ensures MovesDown(v', base, changes + [FlushEdit(level, file)])
  {
    var c := FlushEdit(level, file);
    forall l: nat | l < NUM_LEVELS ensures AddedAt(c.added, l) == if file.Some? && l == level then [file.value] else [] {
      FlushAddedAt(level, file, l);
    }
    if file.Some? {
      var n := file.value.number;
      forall m: nat | m < NUM_LEVELS ensures n !in KnownAt(base, changes, m) {
        KnownIsPublished(base, changes, m);
      }
      forall l: nat, m: nat, f | l < m < NUM_LEVELS && f in v'[l] ensures f.number !in Numbers(AddedAt(c.added, m)) {
        if m == level {
          assert f in v[l] && f.number in KnownAt(base, changes, l);
        }
      }
    }
    RecordMovesDown(v, v', base, changes, c);
  }

  lemma WorkPublishes(work: Working, current: Version, snapshots: seq<SequenceNumber>, lastSeqno: SequenceNumber, pending: set<nat>,
                      tables: map<nat, seq<Entry>>, published: set<nat>, published': set<nat>, nextFile: nat)
    requires WorkOk(work, current, snapshots, lastSeqno, pending, tables, published, nextFile)
    requires work.NoWork? || work.Compacting?
    requires published <= published'
    requires forall n :: n in published' && n !in published ==> WorkAvoids(work, n)
    ensures WorkOk(work, current, snapshots, lastSeqno, pending, tables, published', nextFile)
  {
    if work.Compacting? {
      StoredGrows(work.job.base, tables, published, published');
    }
  }

  lemma ReadersPublish(readers: seq<Reader>, mems: map<nat, set<Entry>>, history: set<Entry>, lastSeqno: SequenceNumber,
                       tables: map<nat, seq<Entry>>, published: set<nat>, published': set<nat>)
    requires ReadersOk(readers, mems, history, lastSeqno, tables, published) && published <= published'
    ensures ReadersOk(readers, mems, history, lastSeqno, tables, published')
  {
    forall r | r in readers ensures ReaderOk(r, mems, history, lastSeqno, tables, published') {
      StoredGrows(r.version, tables, published, published');
    }
  }

  /** The only number a flush publishes is its file's. */
  lemma FlushPublishes(base: Version, changes: seq<Change>, level: nat, file: Option<File>)
    requires level < NUM_LEVELS
    ensures
      var published, published' := Published(base, changes), Published(base, changes + [FlushEdit(level, file)]);
      && published <= published'
      && (file.Some? ==> file.value.number in published')
      && forall n :: n in published' && n !in published ==> file.Some? && n == file.value.number
  {
    var c := FlushEdit(level, file);
    PublishedAppend(base, changes, c);
    forall n | n in Published(base, changes + [c]) && n !in Published(base, changes)
      ensures file.Some? && n == file.value.number
    {
      assert AddedSomewhere(c, n);
      var l: nat :| l < NUM_LEVELS && n in Numbers(AddedAt(c.added, l));
      FlushAddedAt(level, file, l);
    }
    if file.Some? {
      FlushAddedAt(level, file, level);
      KnownAppend(base, changes, c, level);
      assert file.value.number in KnownAt(base, changes + [c], level);
    }
  }

  lemma FlushTargetOk(d: Disk, v: Version, v': Version, level: nat, file: Option<File>, published': set<nat>)
    requires Stored(v, d.tables, Published(d.base, d.changes)) && Published(d.base, d.changes) <= published'
    requires if file.Some? then FlushedInto(v, v', level, file.value) && file.value.number in published' && OnDisk(file.value, d.tables) else v' == v
    ensures Stored(v', d.tables, published')
  {
  }

  lemma FlushRecorded(d: Disk, v: Version, level: nat, file: Option<File>, imm: set<Entry>, d': Disk)
    requires RecordedOk(d, v) && IsTableOf(file, imm) && level < NUM_LEVELS
    requires file.Some? ==> Flushable(v, level, file.value)
    requires file.Some? ==> Unused(file.value.number, Published(d.base, d.changes), d'.nextFile) && OnDisk(file.value, d.tables)
    requires d'.base == d.base && d'.changes == d.changes + [FlushEdit(level, file)] && d'.tables == d.tables && d.nextFile <= d'.nextFile
    ensures RecordedOk(d', Apply(v, FlushEdit(level, file)))
  {
    var c := FlushEdit(level, file);
    var v' := Apply(v, c);
    ApplyAllAppend(d.base, d.changes, c);
    FlushEditApplies(v, level, file, imm);
    FlushRecordable(d.base, d.changes, d'.nextFile, level, file);
    RecordKeepsManifest(d.base, d.changes, c, d.nextFile, d'.nextFile);
    FlushMovesDown(v, v', d.base, d.changes, d'.nextFile, level, file);
    FlushPublishes(d.base, d.changes, level, file);
    FlushTargetOk(d, v, v', level, file, Published(d'.base, d'.changes));
  }

  lemma FlushCounters(s: State)
    requires Inv(s) && s.flush.FlushLogging?
    ensures
      var s' := RecordFlush(s);
      CountersOk(s'.disk, s'.logfileNumber, s'.nextFile, s'.lastSeqno, s'.logged)
  {
    var s' := RecordFlush(s);
    forall e | e in s.logged ensures e.key.seqno <= s'.disk.lastSeqno || e in LogEntries(s'.disk.logs, s.logfileNumber) {
      if e in LogEntries(s.disk.logs, s.disk.logNumber) {
        var n :| n in s.disk.logs && s.disk.logNumber <= n && e in s.disk.logs[n];
        if n == s.logNumber {
          assert e in ImmEntries(s.mems, s.imm);
        }
      }
    }
  }

  lemma RecordFlushOk(s: State)
    requires Inv(s) && s.flush.FlushLogging?
    ensures Inv(RecordFlush(s))
  {
    var s' := RecordFlush(s);
    var published, published' := Published(s.disk.base, s.disk.changes), Published(s'.disk.base, s'.disk.changes);
    FlushRecorded(s.disk, s.current, s.flush.level, s.flush.file, ImmEntries(s.mems, s.imm), s'.disk);
    FlushPublishes(s.disk.base, s.disk.changes, s.flush.level, s.flush.file);
    FlushCounters(s);
    StoredGrows(s.current, s.disk.tables, published, published');
    ReadersPublish(s.readers, s.mems, s.history, s.lastSeqno, s.disk.tables, published, published');
    WorkPublishes(s.work, s.current, s.snapshots, s.lastSeqno, s.pending, s.disk.tables, published, published', s.nextFile);
  }

  lemma WorkSurvivesFlush(work: Working, v: Version, v': Version, level: nat, file: Option<File>, snapshots: seq<SequenceNumber>, lastSeqno: SequenceNumber,
                          pending: set<nat>, tables: map<nat, seq<Entry>>, published: set<nat>, nextFile: nat)
    requires TreeInv(v) && WorkOk(work, v, snapshots, lastSeqno, pending, tables, published, nextFile)
    requires work.NoWork? || work.Compacting?
    requires if file.Some? then Flushable(v, level, file.value) && FlushedInto(v, v', level, file.value) else v' == v
    ensures WorkOk(work, v', snapshots, lastSeqno, pending, tables, published, nextFile)
  {
    if work.Compacting? && file.Some? {
      var job := work.job;
      FlushDuringCompaction(job.base, v, v', job.level, job.in0, job.in1, job.smallest, level, file.value);
    }
  }

  /** Moving the immutable memtable's entries into the version keeps the order of ages. */
  lemma FlushedOrder(v: Version, v': Version, imm: set<Entry>, mem: set<Entry>, history: set<Entry>)
    requires OrderOk(v, imm, mem, history) && imm <= history && VersionEntries(v') == VersionEntries(v) + imm
    ensures OrderOk(v', {}, mem, history)
  {
  }

  lemma InstallFlushViews(s: State)
    requires Inv(s) && s.flush.FlushInstalling?
    ensures
      var s' := InstallFlush(s);
      && AllEntries(s') == AllEntries(s)
      && OrderOk(s'.current, ImmEntries(s'.mems, s'.imm), MemEntries(s'.mems, s'.mem), s'.history)
      && TreeOk(s'.current)
  {
    hide ReadersOk, LogsOk, CountersOk, WorkOk, EditsOk, SameAnswers, WriterOk, SnapshotsOk, RecordedOk, TreeOk, Stored, Published;
    var s' := InstallFlush(s);
    FlushEditApplies(s.current, s.flush.level, s.flush.file, ImmEntries(s.mems, s.imm));
    FlushedOrder(s.current, s'.current, ImmEntries(s.mems, s.imm), MemEntries(s.mems, s.mem), s.history);
  }

  lemma InstallFlushWork(s: State)
    requires Inv(s) && s.flush.FlushInstalling?
    ensures
      var s' := InstallFlush(s);
      WorkOk(s'.work, s'.current, s'.snapshots, s'.lastSeqno, s'.pending, s'.disk.tables, Published(s'.disk.base, s'.disk.changes), s'.nextFile)
  {
    var s' := InstallFlush(s);
    FlushEditApplies(s.current, s.flush.level, s.flush.file, ImmEntries(s.mems, s.imm));
    WorkSurvivesFlush(s.work, s.current, s'.current, s.flush.level, s.flush.file, s.snapshots, s.lastSeqno, s.pending,
                      s.disk.tables, Published(s.disk.base, s.disk.changes), s.nextFile);
  }

  lemma InstallFlushLogs(s: State)
    requires Inv(s) && s.flush.FlushInstalling?
    ensures
      var s' := InstallFlush(s);
      && MemsOk(s'.mems, s'.mem, s'.imm, s'.history, s'.lastSeqno)
      && LogsOk(s'.disk.logs, s'.logNumber, s'.logfileNumber, s'.nextFile, MemEntries(s'.mems, s'.mem) + Todo(s'.writer), ImmSet(s'))
      && Stored(s'.current, s'.disk.tables, Published(s'.disk.base, s'.disk.changes))
      && RecordedOk(s'.disk, Target(s'.current, s'.flush, s'.work))
      && EditsOk(s'.flush, s'.work, s'.disk, s'.lastSeqno, s'.nextFile)
  {
  }

  lemma InstallFlushOk(s: State)
    requires Inv(s) && s.flush.FlushInstalling?
    ensures Inv(InstallFlush(s))
  {
    InstallFlushViews(s);
    InstallFlushWork(s);
    var s' := InstallFlush(s);
    InstallFlushLogs(s);
    hide WriterOk, MemsOk, OrderOk, SnapshotsOk, TreeOk, SameAnswers, ReadersOk, LogsOk, RecordedOk, CountersOk, WorkOk, EditsOk,
      MemEntries, ImmEntries, ImmSet, Todo, AllEntries, Published, Apply;
    assert s'.flush == NoFlush && s'.imm == None;
  }
}
