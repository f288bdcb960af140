/** Compactions and trivial moves as steps.  What the code does not check itself is a guard of the
    first step, and no more than that: modules CompactionSteps and CompactionFaults show that each
    condition holds exactly if the tree invariant, the answers, or the inputs' place survive. */
module StoreCompaction {
  import opened Keys
  import opened Versions
  import opened Compactions
  import opened CompactionWork
  import opened InputSelection
  import opened Builders
  import opened ManifestReplay
  import opened Tree
  import opened CompactionSteps
  import opened CompactionInstall
  import opened Store
  import opened StoreWrites
  import opened StoreFlush

  // ---- the steps ----

  ghost predicate SafeInputs(v: Version, level: nat, in0: seq<File>, in1: seq<File>, smallest: SequenceNumber) {
    && InputsOk(v, level, in0, in1)
    && FlushSafe(v, level, in0, in1)
    && (level > 0 ==> BoundaryClear(v[level], in0))
    && !UncoversAtBoundary(v, level, in0, in1, smallest)
  }

  function SmallestSnapshot(s: State): SequenceNumber {
    if s.snapshots == [] then s.lastSeqno else s.snapshots[0]
  }

  ghost predicate CanStartCompaction(s: State, level: nat, in0: seq<File>, in1: seq<File>, input: seq<Entry>) {
    && s.flush.NoFlush? && s.work.NoWork? && s.imm.None?
    && |s.current| == NUM_LEVELS && SafeInputs(s.current, level, in0, in1, SmallestSnapshot(s))
    && SortedEntries(input) && ToSet(input) == InputEntries(in0, in1)
  }

  function StartCompaction(s: State, level: nat, in0: seq<File>, in1: seq<File>, input: seq<Entry>): State {
    s.(work := Compacting(Job(s.current, level, in0, in1, input, SmallestSnapshot(s)), [], None))
  }

  /** OpenCompactionOutputFile */
  predicate CanStartOutput(s: State) {
    s.flush.NoFlush? && s.work.Compacting? && s.work.building.None?
  }

  function StartOutput(s: State): State
    requires CanStartOutput(s)
  {
    s.(work := s.work.(building := Some(s.nextFile)), pending := s.pending + {s.nextFile}, nextFile := s.nextFile + 1)
  }

  /** FinishCompactionOutputFile: the next stretch of kept entries is on disk. */
  ghost predicate CanFinishOutput(s: State, entries: seq<Entry>) {
    && s.flush.NoFlush? && s.work.Compacting? && s.work.building.Some?
    && entries != [] && Written(s.work.outs, entries) <= KeptEntries(s.work.job)
  }

  function FinishOutput(s: State, entries: seq<Entry>, size: nat): State
    requires s.work.Compacting? && s.work.building.Some? && entries != []
  {
    var f := NewFile(s.work.building.value, size, entries);
    s.(work := s.work.(outs := s.work.outs + [f], building := None),
       disk := s.disk.(tables := s.disk.tables[f.number := entries]))
  }

  /** Back under the mutex with everything written: LogAndApply prepares the edit. */
  ghost predicate CanLogCompaction(s: State) {
    && s.flush.NoFlush? && s.work.Compacting? && s.work.building.None?
    && Flat(s.work.outs) == KeptEntries(s.work.job)
  }

  function LogCompaction(s: State): State
    requires s.work.Compacting?
  {
    s.(work := WorkLogging(s.work.job, s.work.outs, Counters(s.lastSeqno, s.nextFile)))
  }

  /** The trivial move of BackgroundCompaction goes straight to the manifest. */
  ghost predicate CanMove(s: State, level: nat, f: File) {
    && s.flush.NoFlush? && s.work.NoWork? && s.imm.None?
    && |s.current| == NUM_LEVELS && InputsOk(s.current, level, [f], [])
    && (level > 0 ==> BoundaryClear(s.current[level], [f]))
  }

  function Move(s: State, level: nat, f: File): State {
    s.(work := WorkLogging(Job(s.current, level, [f], [], f.entries, 0), [f], Counters(s.lastSeqno, s.nextFile)))
  }

  function RecordWork(s: State): State
    requires s.work.WorkLogging?
  {
    s.(disk := s.disk.(changes := s.disk.changes + [WorkEdit(s.work.job, s.work.outs)],
                       logNumber := s.logNumber, lastSeqno := s.work.edit.lastSeqno, nextFile := s.work.edit.nextFile),
       work := WorkInstalling(s.work.job, s.work.outs))
  }

  function Max(a: SequenceNumber, b: SequenceNumber): SequenceNumber {
    if a < b then b else a
  }

  /** AppendVersion, then CleanupCompaction and ReleaseInputs in the same mutex region. */
  function InstallWork(s: State): State
    requires s.work.WorkInstalling?
  {
    s.(current := Apply(s.current, WorkEdit(s.work.job, s.work.outs)),
       pending := s.pending - Numbers(s.work.outs),
       floor := Max(s.floor, s.work.job.smallest),
       work := NoWork)
  }

  // ---- starting ----

  lemma JobStarts(v: Version, level: nat, in0: seq<File>, in1: seq<File>, input: seq<Entry>, smallest: SequenceNumber,
                  snapshots: seq<SequenceNumber>, lastSeqno: SequenceNumber, tables: map<nat, seq<Entry>>, published: set<nat>)
    requires TreeInv(v) && Distinct(VersionEntries(v)) && SafeInputs(v, level, in0, in1, smallest) && Stored(v, tables, published)
    requires SortedEntries(input) && ToSet(input) == InputEntries(in0, in1)
    requires smallest <= lastSeqno && forall i :: 0 <= i < |snapshots| ==> smallest <= snapshots[i]
    ensures JobOk(Job(v, level, in0, in1, input, smallest), v, snapshots, lastSeqno, tables, published)
  {
    CompactionStarts(v, level, in0, in1, smallest);
  }

  lemma StartCompactionOk(s: State, level: nat, in0: seq<File>, in1: seq<File>, input: seq<Entry>)
    requires Inv(s) && CanStartCompaction(s, level, in0, in1, input)
    ensures Inv(StartCompaction(s, level, in0, in1, input))
  {
    DistinctSubset(VersionEntries(s.current), s.logged);
    JobStarts(s.current, level, in0, in1, input, SmallestSnapshot(s), s.snapshots, s.lastSeqno,
              s.disk.tables, Published(s.disk.base, s.disk.changes));
    NothingWritten(KeptEntries(StartCompaction(s, level, in0, in1, input).work.job), s.pending, s.disk.tables,
                   Published(s.disk.base, s.disk.changes), s.nextFile);
  }

  lemma NothingWritten(kept: seq<Entry>, pending: set<nat>, tables: map<nat, seq<Entry>>, published: set<nat>, nextFile: nat)
    ensures OutputsStored([], pending, tables, published, nextFile) && Flat([]) <= kept
  {
  }

  lemma StartOutputOk(s: State)
    requires Inv(s) && CanStartOutput(s)
    ensures Inv(StartOutput(s))
  {
    assert s.nextFile !in Published(s.disk.base, s.disk.changes);
  }

  /** The outputs after one more finished table. */
  lemma OutputsGrow(outs: seq<File>, n: nat, size: nat, entries: seq<Entry>, kept: seq<Entry>,
                    pending: set<nat>, tables: map<nat, seq<Entry>>, published: set<nat>, nextFile: nat)
    requires OutputsStored(outs, pending, tables, published, nextFile)
    requires n in pending && Unused(n, published, nextFile) && forall f :: f in outs ==> f.number != n
    requires entries != [] && SortedEntries(kept) && Written(outs, entries) <= kept
    ensures
      var f := NewFile(n, size, entries);
      && OutputsStored(outs + [f], pending, tables[n := entries], published, nextFile)
      && Flat(outs + [f]) <= kept
  {
    var f := NewFile(n, size, entries);
    PrefixSorted(Written(outs, entries), kept[|Written(outs, entries)|..]);
    FinishedFileFits(outs, entries, f);
    assert (outs + [f])[..|outs|] == outs;
  }

  lemma FinishOutputOk(s: State, entries: seq<Entry>, size: nat)
    requires Inv(s) && CanFinishOutput(s, entries)
    ensures Inv(FinishOutput(s, entries, size))
  {
    var published := Published(s.disk.base, s.disk.changes);
    var job, n := s.work.job, s.work.building.value;
    KeptIsSorted(job.input, SCAN_START, job.base, job.level, job.smallest);
    OutputsGrow(s.work.outs, n, size, entries, KeptEntries(job), s.pending, s.disk.tables, published, s.nextFile);
    StoredKeeps(s.current, s.disk.tables, published, n, entries);
    StoredKeeps(job.base, s.disk.tables, published, n, entries);
    ReadersKeep(s.readers, s.mems, s.history, s.lastSeqno, s.disk.tables, published, n, entries);
  }

  lemma LogCompactionOk(s: State)
    requires Inv(s) && CanLogCompaction(s)
    ensures Inv(LogCompaction(s))
  {
  }

  lemma OneFileInput(v: Version, level: nat, f: File)
    requires TreeInv(v) && level < NUM_LEVELS && f in v[level]
    ensures SortedEntries(f.entries) && ToSet(f.entries) == InputEntries([f], [])
  {
    assert FileOk(f);
    assert LevelEntries([f]) == FileEntries(f);
  }

  /** One file has no gap, and nothing of the next level is rewritten. */
  lemma MovesAreSafe(v: Version, level: nat, f: File, smallest: SequenceNumber)
    requires TreeInv(v) && InputsOk(v, level, [f], []) && (level > 0 ==> BoundaryClear(v[level], [f]))
    ensures SafeInputs(v, level, [f], [], smallest)
  {
    assert [f] + [] == [f] && f in [f];
    var out := level + 1;
    forall user: UserKey | f.smallest.user <= user <= f.largest.user ensures CoveredDownTo(v, out, user) {
      assert Covers(v[level], user);
    }
  }

  lemma MoveOk(s: State, level: nat, f: File)
    requires Inv(s) && CanMove(s, level, f)
    ensures Inv(Move(s, level, f))
  {
    DistinctSubset(VersionEntries(s.current), s.logged);
    assert f in [f];
    MovesAreSafe(s.current, level, f, 0);
    OneFileInput(s.current, level, f);
    JobStarts(s.current, level, [f], [], f.entries, 0, s.snapshots, s.lastSeqno,
              s.disk.tables, Published(s.disk.base, s.disk.changes));
    assert IsMove(Move(s, level, f).work.job, [f]);
  }

  // ---- the result ----

  lemma FinishedFromInputs(job: Job, outs: seq<File>)
    requires Finished(job, outs) && SortedEntries(job.input) && ToSet(job.input) == InputEntries(job.in0, job.in1)
    requires forall f :: f in job.in0 ==> FileOk(f)
    ensures OutputsFromInputs(job.in0, job.in1, outs)
  {
    KeptIsSorted(job.input, SCAN_START, job.base, job.level, job.smallest);
    forall o, e | o in outs && e in o.entries ensures IsInput(job.in0, job.in1, e) {
      if !IsMove(job, outs) {
        InFlat(outs, o, e);
        assert e in ToSet(job.input);
      }
    }
  }

  /** Output numbers never were at the output level. */
  ghost predicate OutputNumbersOk(job: Job, outs: seq<File>, v: Version, base: Version, changes: seq<Change>, nextFile: nat) {
    && job.level + 1 < NUM_LEVELS
    && (forall i, j :: 0 <= i < j < |outs| ==> outs[i].number != outs[j].number)
    && (forall f :: f in outs ==> f.number < nextFile)
    && (forall f, m :: f in outs && job.level < m < NUM_LEVELS ==> f.number !in KnownAt(base, changes, m))
    && (forall l, f, o :: 0 <= l <= job.level && l < |v| && f in v[l] && o in outs && f.number == o.number ==> l == job.level && f in job.in0)
  }

  lemma OutputsAreNew(job: Job, outs: seq<File>, v: Version, pending: set<nat>, tables: map<nat, seq<Entry>>,
                      base: Version, changes: seq<Change>, nextFile: nat)
    requires job.level + 1 < NUM_LEVELS && Stored(v, tables, Published(base, changes))
    requires OutputsStored(outs, pending, tables, Published(base, changes), nextFile)
    ensures OutputNumbersOk(job, outs, v, base, changes, nextFile)
  {
    forall f, m | f in outs && job.level < m < NUM_LEVELS ensures f.number !in KnownAt(base, changes, m) {
      KnownIsPublished(base, changes, m);
    }
  }

  lemma MovedIsNew(job: Job, outs: seq<File>, v: Version, tables: map<nat, seq<Entry>>, base: Version, changes: seq<Change>, recorded: nat, nextFile: nat)
    requires job.level + 1 < NUM_LEVELS && IsMove(job, outs) && |v| == NUM_LEVELS
    requires forall f :: f in job.in0 ==> f in v[job.level]
    requires Listed(v) && MovesDown(v, base, changes) && Stored(v, tables, Published(base, changes))
    requires ManifestOk(base, changes, recorded) && recorded <= nextFile
    ensures OutputNumbersOk(job, outs, v, base, changes, nextFile)
  {
    var o := outs[0];
    assert o in v[job.level];
    assert o.number in KnownAt(base, changes, job.level);
    forall f | f in v[job.level] && f.number == o.number ensures f in job.in0 {
      NumberedUnique(v[job.level], [f], o);
    }
  }

  lemma WorkNumbers(s: State)
    requires Inv(s) && s.work.WorkLogging?
    ensures OutputNumbersOk(s.work.job, s.work.outs, s.current, s.disk.base, s.disk.changes, s.work.edit.nextFile)
  {
    if IsMove(s.work.job, s.work.outs) {
      MovedIsNew(s.work.job, s.work.outs, s.current, s.disk.tables, s.disk.base, s.disk.changes, s.disk.nextFile, s.work.edit.nextFile);
    } else {
      OutputsAreNew(s.work.job, s.work.outs, s.current, s.pending, s.disk.tables, s.disk.base, s.disk.changes, s.work.edit.nextFile);
    }
  }

  lemma OutputsFresh(job: Job, outs: seq<File>, v: Version, base: Version, changes: seq<Change>, nextFile: nat)
    requires MovesDown(v, base, changes) && OutputNumbersOk(job, outs, v, base, changes, nextFile)
    ensures Fresh(outs, Numbers(v[job.level + 1]))
  {
    assert Numbers(v[job.level + 1]) <= KnownAt(base, changes, job.level + 1);
  }

  /** The version the edit produces. */
  lemma WorkApplies(job: Job, outs: seq<File>, v: Version, base: Version, changes: seq<Change>, nextFile: nat)
    requires TreeOk(v) && MovesDown(v, base, changes)
    requires InputsPlaced(v, job.level, job.in0, job.in1)
    requires SortedEntries(job.input) && ToSet(job.input) == InputEntries(job.in0, job.in1)
    requires Finished(job, outs) && OutputNumbersOk(job, outs, v, base, changes, nextFile)
    ensures
      var v' := Apply(v, WorkEdit(job, outs));
      TreeOk(v') && ReplacedBy(v, v', job.level, job.in0, job.in1, outs)
  {
    var v' := Apply(v, WorkEdit(job, outs));
    FinishedFromInputs(job, outs);
    OutputsFresh(job, outs, v, base, changes, nextFile);
    InstallApplies(v, job.level, job.in0, job.in1, outs);
    InstallKeepsTreeInv(v, v', job.level, job.in0, job.in1, outs);
  }

  lemma WorkAddedAt(job: Job, outs: seq<File>, l: nat)
    ensures AddedAt(WorkEdit(job, outs).added, l) == if l == job.level + 1 then outs else []
  {
    AddedAtTagged(outs, job.level + 1, l);
  }

  lemma WorkRecordable(job: Job, outs: seq<File>, v: Version, base: Version, changes: seq<Change>, nextFile: nat)
    requires OutputNumbersOk(job, outs, v, base, changes, nextFile)
    ensures Recordable(base, changes, WorkEdit(job, outs), nextFile)
  {
    forall l: nat | l < NUM_LEVELS
      ensures Fresh(AddedAt(WorkEdit(job, outs).added, l), KnownAt(base, changes, l))
      ensures forall f :: f in AddedAt(WorkEdit(job, outs).added, l) ==> f.number < nextFile
    {
      WorkAddedAt(job, outs, l);
    }
  }

  lemma WorkMovesDown(job: Job, outs: seq<File>, v: Version, v': Version, base: Version, changes: seq<Change>, nextFile: nat)
    requires MovesDown(v, base, changes) && OutputNumbersOk(job, outs, v, base, changes, nextFile)
    requires ReplacedBy(v, v', job.level, job.in0, job.in1, outs)
    ensures MovesDown(v', base, changes + [WorkEdit(job, outs)])
  {
    var c := WorkEdit(job, outs);
    forall l: nat | l < NUM_LEVELS ensures AddedAt(c.added, l) == if l == job.level + 1 then outs else [] {
      WorkAddedAt(job, outs, l);
    }
    forall l: nat, m: nat, f | l < m < NUM_LEVELS && f in v'[l] ensures f.number !in Numbers(AddedAt(c.added, m)) {
      if m == job.level + 1 {
        assert f in v[l];
        forall o | o in outs ensures o.number != f.number {}
      }
    }
    RecordMovesDown(v, v', base, changes, c);
  }

  lemma WorkPublishesOuts(job: Job, outs: seq<File>, base: Version, changes: seq<Change>)
    requires job.level + 1 < NUM_LEVELS
    ensures
      var published' := Published(base, changes + [WorkEdit(job, outs)]);
      Published(base, changes) <= published' && forall f :: f in outs ==> f.number in published'
  {
    var c := WorkEdit(job, outs);
    PublishedAppend(base, changes, c);
    WorkAddedAt(job, outs, job.level + 1);
    KnownAppend(base, changes, c, job.level + 1);
    forall f | f in outs ensures f.number in Published(base, changes + [c]) {
      assert f.number in KnownAt(base, changes + [c], job.level + 1);
    }
  }

  lemma WorkTargetStored(job: Job, outs: seq<File>, v: Version, v': Version, tables: map<nat, seq<Entry>>, published: set<nat>, published': set<nat>)
    requires Stored(v, tables, published) && published <= published'
    requires ReplacedBy(v, v', job.level, job.in0, job.in1, outs)
    requires forall f :: f in outs ==> f.number in published' && OnDisk(f, tables)
    ensures Stored(v', tables, published')
  {
    forall l, f | 0 <= l < NUM_LEVELS && f in v'[l] ensures f.number in published' && OnDisk(f, tables) {
      assert f in outs || f in v[l];
    }
  }

  lemma WorkRecorded(d: Disk, v: Version, job: Job, outs: seq<File>, d': Disk)
    requires RecordedOk(d, v) && InputsPlaced(v, job.level, job.in0, job.in1)
    requires SortedEntries(job.input) && ToSet(job.input) == InputEntries(job.in0, job.in1)
    requires Finished(job, outs) && OutputNumbersOk(job, outs, v, d.base, d.changes, d'.nextFile)
    requires forall f :: f in outs ==> OnDisk(f, d.tables)
    requires d'.base == d.base && d'.changes == d.changes + [WorkEdit(job, outs)] && d'.tables == d.tables && d.nextFile <= d'.nextFile
    ensures RecordedOk(d', Apply(v, WorkEdit(job, outs)))
  {
    var c := WorkEdit(job, outs);
    var v' := Apply(v, c);
    ApplyAllAppend(d.base, d.changes, c);
    WorkApplies(job, outs, v, d.base, d.changes, d'.nextFile);
    WorkRecordable(job, outs, v, d.base, d.changes, d'.nextFile);
    RecordKeepsManifest(d.base, d.changes, c, d.nextFile, d'.nextFile);
    WorkMovesDown(job, outs, v, v', d.base, d.changes, d'.nextFile);
    WorkPublishesOuts(job, outs, d.base, d.changes);
    WorkTargetStored(job, outs, v, v', d.tables, Published(d.base, d.changes), Published(d'.base, d'.changes));
  }

  lemma OutsOnDisk(s: State)
    requires Inv(s) && s.work.WorkLogging?
    ensures forall f :: f in s.work.outs ==> OnDisk(f, s.disk.tables)
  {
    if IsMove(s.work.job, s.work.outs) {
      assert forall f :: f in s.work.outs ==> f in s.current[s.work.job.level];
    }
  }

  lemma RecordWorkOk(s: State)
    requires Inv(s) && s.work.WorkLogging?
    ensures Inv(RecordWork(s))
  {
    var s' := RecordWork(s);
    var job, outs := s.work.job, s.work.outs;
    var published, published' := Published(s.disk.base, s.disk.changes), Published(s'.disk.base, s'.disk.changes);
    WorkNumbers(s);
    OutsOnDisk(s);
    WorkRecorded(s.disk, s.current, job, outs, s'.disk);
    WorkApplies(job, outs, s.current, s.disk.base, s.disk.changes, s.work.edit.nextFile);
    WorkPublishesOuts(job, outs, s.disk.base, s.disk.changes);
    StoredGrows(s.current, s.disk.tables, published, published');
    StoredGrows(job.base, s.disk.tables, published, published');
    ReadersPublish(s.readers, s.mems, s.history, s.lastSeqno, s.disk.tables, published, published');
    assert JobOk(job, s.current, s.snapshots, s.lastSeqno, s.disk.tables, published');
  }

  // ---- answers ----

  lemma MoveKeepsEntries(job: Job, outs: seq<File>, v: Version, v': Version)
    requires IsMove(job, outs) && ReplacedBy(v, v', job.level, job.in0, job.in1, outs)
    requires forall f :: f in job.in0 ==> f in v[job.level]
    ensures VersionEntries(v') == VersionEntries(v)
  {
    EntriesBefore(v, job.level, job.in0, job.in1);
    EntriesAfter(v, v', job.level, job.in0, job.in1, outs);
    var none: seq<File> := [];
    assert LevelEntries(none) == {};
  }

  lemma KeptEntriesOnly(job: Job, outs: seq<File>, v: Version, v': Version)
    requires Flat(outs) == KeptEntries(job) && ReplacedBy(v, v', job.level, job.in0, job.in1, outs)
    requires (forall f :: f in job.in0 ==> f in v[job.level]) && (forall f :: f in job.in1 ==> f in v[job.level + 1])
    requires SortedEntries(job.input) && ToSet(job.input) == InputEntries(job.in0, job.in1)
    ensures VersionEntries(v') <= VersionEntries(v)
  {
    EntriesBefore(v, job.level, job.in0, job.in1);
    EntriesAfter(v, v', job.level, job.in0, job.in1, outs);
    FlatIsLevelEntries(outs);
    KeptIsSorted(job.input, SCAN_START, job.base, job.level, job.smallest);
    forall e | e in LevelEntries(outs) ensures e in InputEntries(job.in0, job.in1) {
      assert e in ToSet(Flat(outs));
      assert e in ToSet(job.input);
    }
  }

  lemma SameAnswersRefl(es: set<Entry>, floor: SequenceNumber)
    ensures SameAnswers(es, es, floor)
  {
  }

  /** Between a finished compaction and its installation, the two versions answer alike whatever
      the memtables hold. */
  lemma WorkKeepsAnswers(job: Job, outs: seq<File>, v: Version, v': Version, newer: set<Entry>,
                         snapshots: seq<SequenceNumber>, lastSeqno: SequenceNumber, tables: map<nat, seq<Entry>>, published: set<nat>)
    requires TreeInv(v) && JobOk(job, v, snapshots, lastSeqno, tables, published) && Finished(job, outs)
    requires ReplacedBy(v, v', job.level, job.in0, job.in1, outs)
    requires Distinct(VersionEntries(v) + newer) && AllNewer(newer, VersionEntries(v)) && job.smallest < MAX_SEQUENCE
    ensures VersionEntries(v') <= VersionEntries(v)
    ensures SameAnswers(VersionEntries(v) + newer, VersionEntries(v') + newer, job.smallest)
  {
    hide TreeInv, VersionEntries, Distinct, ReplacedBy, Stored, FlushSafe, SameAnswers, TombstonesUncoverNothing, RestEntries;
    assert SameAnswers(VersionEntries(v) + newer, VersionEntries(v) + newer, job.smallest) by {
      SameAnswersRefl(VersionEntries(v) + newer, job.smallest);
    }
    if IsMove(job, outs) {
      MoveKeepsEntries(job, outs, v, v');
    } else {
      KeptEntriesOnly(job, outs, v, v');
      CompactionKeepsAnswers(job.base, v, v', job.level, job.in0, job.in1, job.input, outs, newer, job.smallest);
    }
  }

  lemma InstallWorkAnswers(s: State)
    requires Inv(s) && s.work.WorkInstalling?
    ensures
      var s' := InstallWork(s);
      && VersionEntries(s'.current) <= VersionEntries(s.current)
      && SameAnswers(AllEntries(s'), s'.history, s'.floor)
  {
    var s' := InstallWork(s);
    DistinctSubset(AllEntries(s), s.logged);
    WorkKeepsAnswers(s.work.job, s.work.outs, s.current, s'.current, Unflushed(s), s.snapshots, s.lastSeqno,
                     s.disk.tables, Published(s.disk.base, s.disk.changes));
    SameAnswersTrans(AllEntries(s'), AllEntries(s), s.history, s.work.job.smallest, s.floor, s'.floor);
  }

  lemma InstallWorkOk(s: State)
    requires Inv(s) && s.work.WorkInstalling?
    ensures Inv(InstallWork(s))
  {
    InstallWorkAnswers(s);
    var s' := InstallWork(s);
    assert SnapshotsOk(s'.snapshots, s'.lastSeqno, s'.floor);
  }
}
