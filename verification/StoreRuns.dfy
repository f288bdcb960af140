/** Whole runs of the database: any sequence of steps, with any number of crashes. */
module StoreRuns {
  import opened Keys
  import opened Versions
  import opened ManifestReplay
  import opened Store
  import opened StoreWrites
  import opened StoreFlush
  import opened StoreCompaction
  import opened StoreRecovery
  import opened StoreReopen

  datatype Event =
    | DoBeginWrite(batch: seq<Entry>)
    | DoAppendLog
    | DoInsertOne
    | DoEndWrite
    | DoSwitchMemTable
    | DoTakeSnapshot
    | DoReleaseSnapshot(index: nat)
    | DoOpenReader(snapshot: Option<SequenceNumber>)
    | DoCloseReader(index: nat)
    | DoStartFlush
    | DoBuildTable(order: seq<Entry>, size: nat)
    | DoPickFlushLevel(level: nat)
    | DoRecordFlush
    | DoInstallFlush
    | DoDeleteObsolete
    | DoStartCompaction(level: nat, in0: seq<File>, in1: seq<File>, input: seq<Entry>)
    | DoStartOutput
    | DoFinishOutput(entries: seq<Entry>, size: nat)
    | DoLogCompaction
    | DoMove(level: nat, file: File)
    | DoRecordWork
    | DoInstallWork
    | CrashAndReopen(failedTables: map<nat, seq<Entry>>, failedLogs: set<nat>, chunks: seq<seq<Entry>>, files: seq<File>, newLog: nat)

  ghost predicate Enabled(s: State, ev: Event) {
    match ev
    case DoBeginWrite(batch) => CanBeginWrite(s, batch)
    case DoAppendLog => CanAppendLog(s)
    case DoInsertOne => CanInsertOne(s)
    case DoEndWrite => CanEndWrite(s)
    case DoSwitchMemTable => CanSwitchMemTable(s)
    case DoTakeSnapshot => true
    case DoReleaseSnapshot(i) => i < |s.snapshots|
    case DoOpenReader(snapshot) => CanOpenReader(s, snapshot)
    case DoCloseReader(i) => i < |s.readers|
    case DoStartFlush => CanStartFlush(s)
    case DoBuildTable(order, _) => CanBuildTable(s, order)
    case DoPickFlushLevel(level) => CanPickFlushLevel(s, level)
    case DoRecordFlush => s.flush.FlushLogging?
    case DoInstallFlush => s.flush.FlushInstalling?
    case DoDeleteObsolete => CanDeleteObsolete(s)
    case DoStartCompaction(level, in0, in1, input) => CanStartCompaction(s, level, in0, in1, input)
    case DoStartOutput => CanStartOutput(s)
    case DoFinishOutput(entries, _) => CanFinishOutput(s, entries)
    case DoLogCompaction => CanLogCompaction(s)
    case DoMove(level, f) => CanMove(s, level, f)
    case DoRecordWork => s.work.WorkLogging?
    case DoInstallWork => s.work.WorkInstalling?
    case CrashAndReopen(failedTables, failedLogs, chunks, files, newLog) =>
      LeftByFailedOpens(s.disk, failedTables, failedLogs) && CanReopen(AfterFailedOpens(s.disk, failedTables, failedLogs), chunks, files, newLog)
  }

  ghost function Next(s: State, ev: Event): State
    requires Enabled(s, ev)
  {
    match ev
    case DoBeginWrite(batch) => BeginWrite(s, batch)
    case DoAppendLog => AppendLog(s)
    case DoInsertOne => InsertOne(s)
    case DoEndWrite => EndWrite(s)
    case DoSwitchMemTable => SwitchMemTable(s)
    case DoTakeSnapshot => TakeSnapshot(s)
    case DoReleaseSnapshot(i) => ReleaseSnapshot(s, i)
    case DoOpenReader(snapshot) => OpenReader(s, snapshot)
    case DoCloseReader(i) => CloseReader(s, i)
    case DoStartFlush => StartFlush(s)
    case DoBuildTable(order, size) => BuildTable(s, order, size)
    case DoPickFlushLevel(level) => PickFlushLevel(s, level)
    case DoRecordFlush => RecordFlush(s)
    case DoInstallFlush => InstallFlush(s)
    case DoDeleteObsolete => DeleteObsolete(s)
    case DoStartCompaction(level, in0, in1, input) => StartCompaction(s, level, in0, in1, input)
    case DoStartOutput => StartOutput(s)
    case DoFinishOutput(entries, size) => FinishOutput(s, entries, size)
    case DoLogCompaction => LogCompaction(s)
    case DoMove(level, f) => Move(s, level, f)
    case DoRecordWork => RecordWork(s)
    case DoInstallWork => InstallWork(s)
    case CrashAndReopen(failedTables, failedLogs, _, files, newLog) =>
      Reopen(s.(disk := AfterFailedOpens(s.disk, failedTables, failedLogs)), files, newLog)
  }

  /** Steps of the front writer, of readers and of snapshots. */
  predicate IsForeground(ev: Event) {
    || ev.DoBeginWrite? || ev.DoAppendLog? || ev.DoInsertOne? || ev.DoEndWrite? || ev.DoSwitchMemTable?
    || ev.DoTakeSnapshot? || ev.DoReleaseSnapshot? || ev.DoOpenReader? || ev.DoCloseReader?
  }

  predicate IsFlush(ev: Event) {
    ev.DoStartFlush? || ev.DoBuildTable? || ev.DoPickFlushLevel? || ev.DoRecordFlush? || ev.DoInstallFlush?
  }

  lemma ForegroundKeepsInv(s: State, ev: Event)
    requires Inv(s) && Enabled(s, ev) && IsForeground(ev)
    ensures Inv(Next(s, ev))
  {
    hide Inv, CanBeginWrite, CanAppendLog, CanInsertOne, CanEndWrite, CanSwitchMemTable, CanOpenReader,
      BeginWrite, AppendLog, InsertOne, EndWrite, SwitchMemTable, TakeSnapshot, ReleaseSnapshot, OpenReader, CloseReader;
    match ev
    case DoBeginWrite(batch) => BeginWriteOk(s, batch);
    case DoAppendLog => AppendLogOk(s);
    case DoInsertOne => InsertOneOk(s);
    case DoEndWrite => EndWriteOk(s);
    case DoSwitchMemTable => SwitchMemTableOk(s);
    case DoTakeSnapshot => TakeSnapshotOk(s);
    case DoReleaseSnapshot(i) => ReleaseSnapshotOk(s, i);
    case DoOpenReader(snapshot) => OpenReaderOk(s, snapshot);
    case DoCloseReader(i) => CloseReaderOk(s, i);
  }

  lemma FlushKeepsInv(s: State, ev: Event)
    requires Inv(s) && Enabled(s, ev) && IsFlush(ev)
    ensures Inv(Next(s, ev))
  {
    hide Inv;
    match ev
    case DoStartFlush => StartFlushOk(s);
    case DoBuildTable(order, size) => BuildTableOk(s, order, size);
    case DoPickFlushLevel(level) => PickFlushLevelOk(s, level);
    case DoRecordFlush => RecordFlushOk(s);
    case DoInstallFlush => InstallFlushOk(s);
  }

  lemma OtherStepsKeepInv(s: State, ev: Event)
    requires Inv(s) && Enabled(s, ev) && !IsForeground(ev) && !IsFlush(ev)
    ensures Inv(Next(s, ev))
  {
    hide Inv, CanStartCompaction, CanStartOutput, CanFinishOutput, CanLogCompaction, CanMove, CanDeleteObsolete, CanReopen, LeftByFailedOpens,
      StartCompaction, StartOutput, FinishOutput, LogCompaction, Move, RecordWork, InstallWork, DeleteObsolete, Reopen;
    match ev
    case DoDeleteObsolete => DeleteObsoleteOk(s);
    case DoStartCompaction(level, in0, in1, input) => StartCompactionOk(s, level, in0, in1, input);
    case DoStartOutput => StartOutputOk(s);
    case DoFinishOutput(entries, size) => FinishOutputOk(s, entries, size);
    case DoLogCompaction => LogCompactionOk(s);
    case DoMove(level, f) => MoveOk(s, level, f);
    case DoRecordWork => RecordWorkOk(s);
    case DoInstallWork => InstallWorkOk(s);
    case CrashAndReopen(failedTables, failedLogs, chunks, files, newLog) => ReopenOk(s, failedTables, failedLogs, chunks, files, newLog);
  }

  /** Every step the database can take, and a crash followed by a recovery, keep the invariant. */
  lemma NextKeepsInv(s: State, ev: Event)
    requires Inv(s) && Enabled(s, ev)
    ensures Inv(Next(s, ev))
  {
    hide Inv, Next, Enabled;
    if IsForeground(ev) {
      ForegroundKeepsInv(s, ev);
    } else if IsFlush(ev) {
      FlushKeepsInv(s, ev);
    } else {
      OtherStepsKeepInv(s, ev);
    }
  }

  // ---- runs ----

  /** A database created by NewDB and opened for the first time. */
  function EmptyVersion(): Version {
    seq(NUM_LEVELS, _ => [])
  }

  function Created(): State {
    State(
      Disk(map[3 := []], map[], EmptyVersion(), [], 3, 0, 4),
      map[0 := {}], 0, None, 3, 3, 0, 4,
      EmptyVersion(), [], {}, Idle, NoFlush, NoWork, [],
      {}, {}, 0)
  }

  lemma CreatedOk()
    ensures Inv(Created())
  {
    var s := Created();
    EmptyManifest();
    assert TreeOk(EmptyVersion());
    assert VersionEntries(EmptyVersion()) == {};
    assert JustOpened(s);
    JustOpenedOk(s);
  }

  lemma EmptyManifest()
    ensures
      var v := EmptyVersion();
      && Published(v, []) == {} && ManifestOk(v, [], 4) && MovesDown(v, v, []) && ApplyAll(v, []) == v
  {
    var v := EmptyVersion();
    forall l: nat ensures KnownAt(v, [], l) == {} {
      assert AddedNumbers([], l) == {};
      if l < NUM_LEVELS {
        assert v[l] == [];
      }
    }
  }

  /** `states` is a run: each state follows from the one before by an enabled step. */
  ghost predicate IsRun(states: seq<State>, events: seq<Event>) {
    && |states| == |events| + 1
    && states[0] == Created()
    && forall i :: 0 <= i < |events| ==> Enabled(states[i], events[i]) && states[i + 1] == Next(states[i], events[i])
  }

  lemma {:induction false} RunKeepsInv(states: seq<State>, events: seq<Event>, i: nat)
    requires IsRun(states, events) && i < |states|
    ensures Inv(states[i])
  {
    hide Inv, Next, Enabled;
    if i == 0 {
      CreatedOk();
    } else {
      RunKeepsInv(states, events, i - 1);
      NextKeepsInv(states[i - 1], events[i - 1]);
    }
  }

  /** In every run with any number of crashes, at every moment: if the process died now, what
      recovery reads from disk would answer the latest-value lookup of every key as the batches
      appended to the logs do, and no table file would be missing. */
  lemma EveryRunIsCrashSafe(states: seq<State>, events: seq<Event>, i: nat, user: UserKey, seqno: SequenceNumber)
    requires IsRun(states, events) && i < |states|
    requires UpTo(states[i].logged, seqno)
    ensures Lookup(RecoveredEntries(states[i].disk), user, seqno) == Lookup(states[i].logged, user, seqno)
    ensures forall l, f :: 0 <= l < NUM_LEVELS && f in RecoveredVersion(states[i].disk)[l] ==> OnDisk(f, states[i].disk.tables)
  {
    RunKeepsInv(states, events, i);
    CrashSafe(states[i], user, seqno);
  }

  /** In every run, a reader that took its references some steps ago still finds, in its
      memtables and in its version's tables, all of them on disk, what the history of inserted
      entries shows at its sequence number. */
  lemma EveryReaderSeesItsSnapshot(states: seq<State>, events: seq<Event>, i: nat, r: Reader, user: UserKey)
    requires IsRun(states, events) && i < |states| && r in states[i].readers
    ensures Lookup(ReaderView(states[i].mems, r), user, r.at) == Lookup(states[i].history, user, r.at)
    ensures TreeInv(r.version)
    ensures forall l, f :: 0 <= l < NUM_LEVELS && f in r.version[l] ==> OnDisk(f, states[i].disk.tables)
  {
    RunKeepsInv(states, events, i);
    assert ReaderOk(r, states[i].mems, states[i].history, states[i].lastSeqno, states[i].disk.tables,
                    Published(states[i].disk.base, states[i].disk.changes));
  }

  /** A step adds to the history only what lies above the last sequence number. */
  lemma HistoryStep(s: State, ev: Event)
    requires Inv(s) && Enabled(s, ev) && !ev.CrashAndReopen?
    ensures
      var s' := Next(s, ev);
      s.history <= s'.history && s.lastSeqno <= s'.lastSeqno && forall e :: e in s'.history && e !in s.history ==> e.key.seqno > s.lastSeqno
  {
    hide MemsOk, OrderOk, SnapshotsOk, TreeOk, Stored, SameAnswers, ReadersOk, LogsOk, RecordedOk, CountersOk, FlushOk, WorkOk, EditsOk,
      CanStartCompaction, CanMove, CanFinishOutput, CanLogCompaction, CanBuildTable, CanPickFlushLevel, CanDeleteObsolete, Distinct,
      WorkEdit, FlushEdit;
  }

  lemma HistoryDistinct(s: State)
    requires Inv(s)
    ensures Distinct(s.history)
  {
    DistinctSubset(s.history, s.logged);
  }

  /** What a sequence number shows never changes once it was reached, whatever is written, flushed
      and compacted afterwards. */
  lemma {:induction false} ViewsNeverChange(states: seq<State>, events: seq<Event>, i: nat, j: nat, user: UserKey, at: SequenceNumber)
    requires IsRun(states, events) && i <= j < |states| && at <= states[i].lastSeqno
    requires forall k :: i <= k < j ==> !events[k].CrashAndReopen?
    ensures Lookup(states[j].history, user, at) == Lookup(states[i].history, user, at)
    ensures states[i].lastSeqno <= states[j].lastSeqno
    decreases j
  {
    hide Inv, Next, Enabled;
    if i < j {
      ViewsNeverChange(states, events, i, j - 1, user, at);
      var s, s' := states[j - 1], states[j];
      RunKeepsInv(states, events, j - 1);
      RunKeepsInv(states, events, j);
      HistoryStep(s, events[j - 1]);
      HistoryDistinct(s');
      var more := s'.history - s.history;
      assert s.history + more == s'.history;
      NewerEntriesInvisible(s.history, more, user, at);
    }
  }

  lemma GroupIsAbove(w: Writer, history: set<Entry>, logged: set<Entry>, lastSeqno: SequenceNumber)
    requires WriterOk(w, history, logged, lastSeqno) && w.Inserting?
    ensures forall e :: e in w.batch ==> e in logged && e.key.seqno > lastSeqno
    ensures forall e :: e in history && e.key.seqno > lastSeqno <==> e in w.batch[..w.done]
  {
    var batch, done := w.batch, w.done;
    assert batch == batch[..done] + batch[done..];
    forall e | e in batch ensures e in logged && e.key.seqno > lastSeqno {
      assert e in ToSet(batch[..done]) || e in Todo(w);
    }
  }

  lemma ReadersAreBelow(readers: seq<Reader>, mems: map<nat, set<Entry>>, history: set<Entry>, lastSeqno: SequenceNumber,
                        tables: map<nat, seq<Entry>>, published: set<nat>)
    requires ReadersOk(readers, mems, history, lastSeqno, tables, published)
    ensures forall r :: r in readers ==> r.at <= lastSeqno
  {
    assert forall r :: r in readers ==> ReaderOk(r, mems, history, lastSeqno, tables, published);
  }

  /** A group becomes visible as a whole: until its writer ends, every entry of it, in the memtable
      or not, lies above the last sequence number and above every reader's and every snapshot's, and
      of everything inserted just its first entries do. */
  lemma GroupsAreAtomic(states: seq<State>, events: seq<Event>, i: nat)
    requires IsRun(states, events) && i < |states| && states[i].writer.Inserting?
    ensures
      var s := states[i];
      && s.writer.done <= |s.writer.batch|
      && (forall e :: e in s.writer.batch ==> e in s.logged && e.key.seqno > s.lastSeqno)
      && (forall e, r :: e in s.writer.batch && r in s.readers ==> e.key.seqno > r.at)
      && (forall e, x :: e in s.writer.batch && x in s.snapshots ==> e.key.seqno > x)
      && (forall e :: e in s.history && e.key.seqno > s.lastSeqno <==> e in s.writer.batch[..s.writer.done])
  {
    var s := states[i];
    hide IsRun, TreeOk, Stored, LogsOk, RecordedOk, CountersOk, FlushOk, WorkOk, EditsOk, SameAnswers, OrderOk, MemsOk, ReaderOk, Published;
    RunKeepsInv(states, events, i);
    GroupIsAbove(s.writer, s.history, s.logged, s.lastSeqno);
    ReadersAreBelow(s.readers, s.mems, s.history, s.lastSeqno, s.disk.tables, Published(s.disk.base, s.disk.changes));
  }

  /** In every run, at every moment, and so also right after a deletion of obsolete files: the
      tables of the current version, of the version a compaction reads, and of every output written
      and not yet installed are on disk with the contents they were written with. */
  lemma EveryLiveFileIsOnDisk(states: seq<State>, events: seq<Event>, i: nat)
    requires IsRun(states, events) && i < |states|
    ensures
      var s := states[i];
      && (forall l, f :: 0 <= l < |s.current| && f in s.current[l] ==> OnDisk(f, s.disk.tables))
      && (s.work.Compacting? ==>
            && (forall l, f :: 0 <= l < |s.work.job.base| && f in s.work.job.base[l] ==> OnDisk(f, s.disk.tables))
            && (forall f :: f in s.work.outs ==> OnDisk(f, s.disk.tables)))
      && (s.work.WorkLogging? ==> IsMove(s.work.job, s.work.outs) || forall f :: f in s.work.outs ==> OnDisk(f, s.disk.tables))
      && (s.flush.FlushBuilt? && s.flush.file.Some? ==> OnDisk(s.flush.file.value, s.disk.tables))
      && (s.flush.FlushLogging? && s.flush.file.Some? ==> OnDisk(s.flush.file.value, s.disk.tables))
  {
    RunKeepsInv(states, events, i);
  }
}
