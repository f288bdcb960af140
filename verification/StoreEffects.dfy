/** What the steps of a run achieve: ended writes become visible and stay so across crashes, snapshots
    and readers are up to date when they are taken, what a compaction may forget is forgotten, and
    files that nobody needs go. */
module StoreEffects {
  import opened Keys
  import opened Versions
  import opened Compactions
  import opened CompactionWork
  import opened Tree
  import opened Builders
  import opened Store
  import opened StoreWrites
  import opened StoreFlush
  import opened StoreCompaction
  import opened StoreRecovery
  import opened StoreReopen
  import opened StoreRuns

  // ---- what is visible ----

  /** Everything inserted by writers that have ended. */
  ghost function Ended(s: State): set<Entry> {
    set e | e in s.history && !(s.writer.Inserting? && e in s.writer.batch)
  }

  /** The last sequence number divides the ended groups from the one in progress. */
  lemma EndedIsVisible(s: State)
    requires Inv(s)
    ensures forall e :: e in s.history ==> (e in Ended(s) <==> e.key.seqno <= s.lastSeqno)
    ensures forall e :: e in s.history ==> e.key.seqno < MAX_SEQUENCE
    ensures Distinct(s.history)
  {
    hide MemsOk, OrderOk, SnapshotsOk, TreeOk, Stored, SameAnswers, ReadersOk, LogsOk, RecordedOk, CountersOk, FlushOk, WorkOk, EditsOk;
    HistoryDistinct(s);
    if s.writer.Inserting? {
      GroupIsAbove(s.writer, s.history, s.logged, s.lastSeqno);
    }
    HistoryBelow(s.writer, s.history, s.logged, s.lastSeqno);
  }

  lemma HistoryBelow(w: Writer, history: set<Entry>, logged: set<Entry>, lastSeqno: SequenceNumber)
    requires WriterOk(w, history, logged, lastSeqno)
    ensures forall e :: e in history ==> e.key.seqno < MAX_SEQUENCE
    ensures !w.Inserting? ==> forall e :: e in history ==> e.key.seqno <= lastSeqno
  {
    forall e | e in history ensures e.key.seqno < MAX_SEQUENCE {
      if w.Inserting? && e in w.batch[..w.done] {
        var i :| 0 <= i < w.done && w.batch[..w.done][i] == e;
        assert w.batch[i] == e;
      }
    }
  }

  /** So a reader at the last sequence number sees the newest ended entry of every user key. */
  lemma LastSeesEnded(s: State, user: UserKey)
    requires Inv(s)
    ensures Lookup(s.history, user, s.lastSeqno) == Lookup(Ended(s), user, MAX_SEQUENCE)
  {
    EndedIsVisible(s);
    LookupsMatch(s.history, s.lastSeqno, Ended(s), MAX_SEQUENCE, user);
  }

  lemma LookupsMatch(a: set<Entry>, x: SequenceNumber, b: set<Entry>, y: SequenceNumber, user: UserKey)
    requires Distinct(a) && b <= a && forall e :: e in a ==> (e in b <==> e.key.seqno <= x) && e.key.seqno <= y
    ensures Lookup(a, user, x) == Lookup(b, user, y)
  {
    if e :| IsNewest(b, user, y, e) {
      assert IsNewest(a, user, x, e);
      LookupIsNewest(b, user, y, e);
      LookupIsNewest(a, user, x, e);
    } else {
      forall e | e in a ensures !VisibleAt(e, user, x) {
        if VisibleAt(e, user, x) {
          var n := NewestExists(b, user, y, e);
        }
      }
      LookupOfNothing(a, user, x);
    }
  }

  // ---- writes stay visible ----

  /** What is inserted and at or below the last sequence number stays so, also across a crash: the
      recovered sequence number is at least every logged one. */
  lemma VisibleStep(s: State, ev: Event, e: Entry)
    requires Inv(s) && Enabled(s, ev) && e in s.history && e.key.seqno <= s.lastSeqno
    ensures e in Next(s, ev).history && e.key.seqno <= Next(s, ev).lastSeqno
  {
    hide Inv, Next, Enabled;
    if ev.CrashAndReopen? {
      CrashKeepsVisible(s, ev, e);
    } else {
      HistoryStep(s, ev);
    }
  }

  lemma CrashKeepsVisible(s: State, ev: Event, e: Entry)
    requires Inv(s) && ev.CrashAndReopen? && Enabled(s, ev) && e in s.history
    ensures e in Next(s, ev).history && e.key.seqno <= Next(s, ev).lastSeqno
  {
    hide Inv, LogsFrom, CanReopen;
    AllLogged(s, e);
    var d := AfterFailedOpens(s.disk, ev.failedTables, ev.failedLogs);
    EmptyLogsReplayNothing(s.disk, ev.failedLogs, s.disk.logNumber, ev.newLog);
    SameLogs(s.disk, ev.failedTables, ev.failedLogs);
    LogsBelow(d, ev.chunks, ev.files, ev.newLog);
    RecoveredSequence(s, ev.newLog);
  }

  lemma AllLogged(s: State, e: Entry)
    requires Inv(s) && e in s.history
    ensures e in s.logged
  {
  }

  lemma LogsBelow(d: Disk, chunks: seq<seq<Entry>>, files: seq<File>, newLog: nat)
    requires CanReopen(d, chunks, files, newLog)
    ensures forall n :: n in d.logs ==> n < newLog
  {
  }

  lemma EndShows(s: State, e: Entry)
    requires Inv(s) && CanEndWrite(s) && e in s.writer.batch
    ensures e in EndWrite(s).history && e.key.seqno <= EndWrite(s).lastSeqno
  {
    var batch := s.writer.batch;
    assert batch[..s.writer.done] == batch;
    var i :| 0 <= i < |batch| && batch[i] == e;
  }

  /** A write that has ended is inserted, and at or below the last sequence number, at every later
      moment of the run, whatever crashes come between. */
  lemma {:induction false} EndedWritesStay(states: seq<State>, events: seq<Event>, k: nat, j: nat, e: Entry)
    requires IsRun(states, events) && k < j < |states| && events[k].DoEndWrite? && e in states[k].writer.batch
    ensures e in states[j].history && e.key.seqno <= states[j].lastSeqno
    decreases j
  {
    hide Inv, Next, Enabled, VersionEntries;
    RunKeepsInv(states, events, j - 1);
    if j == k + 1 {
      EndStep(states[k], events[k], e);
    } else {
      EndedWritesStay(states, events, k, j - 1, e);
      VisibleStep(states[j - 1], events[j - 1], e);
    }
  }

  lemma EndStep(s: State, ev: Event, e: Entry)
    requires Inv(s) && Enabled(s, ev) && ev.DoEndWrite? && e in s.writer.batch
    ensures e in Next(s, ev).history && e.key.seqno <= Next(s, ev).lastSeqno
  {
    hide Inv;
    EndShows(s, e);
  }

  // ---- snapshots and readers are up to date ----

  /** A new snapshot comes last, covers every group that has ended, before crashes too, and shows of
      every user key the newest entry that is not of an unfinished group. */
  lemma SnapshotsAreCurrent(states: seq<State>, events: seq<Event>, j: nat)
    requires IsRun(states, events) && j < |events| && events[j].DoTakeSnapshot?
    ensures
      var s, s' := states[j], states[j + 1];
      && |s'.snapshots| == |s.snapshots| + 1 && s.snapshots <= s'.snapshots
      && var x := s'.snapshots[|s.snapshots|];
        && (forall k, e :: 0 <= k < j && events[k].DoEndWrite? && e in states[k].writer.batch ==> e.key.seqno <= x)
        && (forall user: UserKey :: Lookup(s'.history, user, x) == Lookup(Ended(s'), user, MAX_SEQUENCE))
  {
    hide Inv, Lookup;
    var s, s' := states[j], states[j + 1];
    forall k, e | 0 <= k < j && events[k].DoEndWrite? && e in states[k].writer.batch ensures e.key.seqno <= s.lastSeqno {
      EndedWritesStay(states, events, k, j, e);
    }
    RunKeepsInv(states, events, j + 1);
    forall user: UserKey ensures Lookup(s'.history, user, s'.lastSeqno) == Lookup(Ended(s'), user, MAX_SEQUENCE) {
      LastSeesEnded(s', user);
    }
  }

  /** A reader opened without a snapshot sees the same: every write that has ended, or a newer one. */
  lemma ReadersAreCurrent(states: seq<State>, events: seq<Event>, j: nat)
    requires IsRun(states, events) && j < |events| && events[j] == DoOpenReader(None)
    ensures
      var s, s' := states[j], states[j + 1];
      && |s'.readers| == |s.readers| + 1 && s.readers <= s'.readers
      && var r := s'.readers[|s.readers|];
        && (forall k, e :: 0 <= k < j && events[k].DoEndWrite? && e in states[k].writer.batch ==> e.key.seqno <= r.at)
        && (forall user: UserKey :: Lookup(ReaderView(s'.mems, r), user, r.at) == Lookup(Ended(s'), user, MAX_SEQUENCE))
  {
    hide Inv, Lookup, ReaderView;
    var s, s' := states[j], states[j + 1];
    forall k, e | 0 <= k < j && events[k].DoEndWrite? && e in states[k].writer.batch ensures e.key.seqno <= s.lastSeqno {
      EndedWritesStay(states, events, k, j, e);
    }
    RunKeepsInv(states, events, j + 1);
    var r := s'.readers[|s.readers|];
    assert r in s'.readers;
    forall user: UserKey ensures Lookup(ReaderView(s'.mems, r), user, r.at) == Lookup(Ended(s'), user, MAX_SEQUENCE) {
      EveryReaderSeesItsSnapshot(states, events, j + 1, r, user);
      LastSeesEnded(s', user);
    }
  }

  /** With a snapshot, it sees what the snapshot shows. */
  lemma ReadersKeepToSnapshots(states: seq<State>, events: seq<Event>, j: nat, x: SequenceNumber, user: UserKey)
    requires IsRun(states, events) && j < |events| && events[j] == DoOpenReader(Some(x))
    ensures
      var s, s' := states[j], states[j + 1];
      && x in s.snapshots && |s'.readers| == |s.readers| + 1 && s.readers <= s'.readers
      && var r := s'.readers[|s.readers|];
        r.at == x && Lookup(ReaderView(s'.mems, r), user, r.at) == Lookup(s'.history, user, x)
  {
    hide Inv, Lookup, ReaderView;
    var s, s' := states[j], states[j + 1];
    var r := s'.readers[|s.readers|];
    assert r in s'.readers;
    EveryReaderSeesItsSnapshot(states, events, j + 1, r, user);
  }

  /** Releasing takes away that one, and nothing else but a crash takes snapshots away. */
  lemma SnapshotsStay(s: State, ev: Event)
    requires Enabled(s, ev) && !ev.CrashAndReopen?
    ensures
      var s' := Next(s, ev);
      match ev
      case DoReleaseSnapshot(i) => i <= |s'.snapshots| && s.snapshots == s'.snapshots[..i] + [s.snapshots[i]] + s'.snapshots[i..]
      case DoTakeSnapshot => s.snapshots <= s'.snapshots
      case _ => s'.snapshots == s.snapshots
  {
    hide CanStartCompaction, CanMove, CanFinishOutput, CanLogCompaction, CanBuildTable, CanPickFlushLevel, CanDeleteObsolete, WorkEdit, FlushEdit,
      LiveNumbers;
  }

  // ---- obsolete files go ----

  /** The numbers of the table a flush is writing and of the outputs of a compaction not yet installed. */
  function InProgress(flush: Flushing, work: Working): set<nat> {
    (match flush
     case FlushBuilding(n) => {n}
     case FlushBuilt(n, _) => {n}
     case _ => {})
    + match work
      case NoWork => {}
      case Compacting(_, outs, building) => Numbers(outs) + if building.Some? then {building.value} else {}
      case WorkLogging(_, outs, _) => Numbers(outs)
      case WorkInstalling(_, outs) => Numbers(outs)
  }

  lemma PendingStep(s: State, ev: Event)
    requires Enabled(s, ev) && OneThread(s.flush, s.work) && s.pending <= InProgress(s.flush, s.work)
    ensures Next(s, ev).pending <= InProgress(Next(s, ev).flush, Next(s, ev).work)
  {
    hide SafeInputs, FitsAt, KeptEntries, Written, CanReopen, LeftByFailedOpens, AfterFailedOpens, WorkEdit, FlushEdit, LiveNumbers, SmallestSnapshot;
    if ev.DoFinishOutput? {
      var outs, f := s.work.outs, NewFile(s.work.building.value, ev.size, ev.entries);
      assert Numbers(outs + [f]) == Numbers(outs) + {f.number};
    }
  }

  /** A number is pending only while its table is being written or waits to be installed. */
  lemma {:induction false} PendingIsInProgress(states: seq<State>, events: seq<Event>, i: nat)
    requires IsRun(states, events) && i < |states|
    ensures states[i].pending <= InProgress(states[i].flush, states[i].work)
  {
    hide Inv, Next, Enabled, InProgress;
    if i > 0 {
      PendingIsInProgress(states, events, i - 1);
      RunKeepsInv(states, events, i - 1);
      IsOneThread(states[i - 1]);
      PendingStep(states[i - 1], events[i - 1]);
    }
  }

  lemma IsOneThread(s: State)
    requires Inv(s)
    ensures OneThread(s.flush, s.work)
  {
  }

  ghost predicate HasFile(v: Version, n: nat) {
    exists l, f :: 0 <= l < |v| && f in v[l] && f.number == n
  }

  /** Somebody still needs table `n`. */
  ghost predicate IsNeeded(s: State, n: nat) {
    || n in InProgress(s.flush, s.work)
    || HasFile(s.current, n)
    || (exists r :: r in s.readers && HasFile(r.version, n))
    || (s.work.Compacting? && HasFile(s.work.job.base, n))
  }

  lemma LiveIsNeeded(s: State, n: nat)
    requires s.pending <= InProgress(s.flush, s.work) && n in LiveNumbers(s)
    ensures IsNeeded(s, n)
  {
    hide InProgress;
    if n in ReaderNumbers(s.readers) {
      var r :| r in s.readers && n in VersionNumbers(r.version);
      assert HasFile(r.version, n);
    }
  }

  /** After a deletion, every table on disk is one that somebody needs, every log is the current one
      or that of the immutable memtable, and what is there has not changed. */
  lemma ObsoleteFilesGo(states: seq<State>, events: seq<Event>, j: nat)
    requires IsRun(states, events) && j < |events| && events[j].DoDeleteObsolete?
    ensures
      var s, s' := states[j], states[j + 1];
      && (forall n :: n in s'.disk.tables ==> IsNeeded(s', n) && n in s.disk.tables && s'.disk.tables[n] == s.disk.tables[n])
      && (forall n :: n in s'.disk.logs ==>
            && (n == s'.logfileNumber || (s'.imm.Some? && n == s'.logNumber))
            && n in s.disk.logs && s'.disk.logs[n] == s.disk.logs[n])
  {
    hide Inv, IsNeeded, LiveNumbers, InProgress;
    var s, s' := states[j], states[j + 1];
    RunKeepsInv(states, events, j);
    PendingIsInProgress(states, events, j);
    forall n | n in s'.disk.tables ensures IsNeeded(s', n) {
      LiveIsNeeded(s, n);
      SameNeeds(s, s', n);
    }
    forall n | n in s'.disk.logs ensures n == s'.logfileNumber || (s'.imm.Some? && n == s'.logNumber) {
      LogsLeft(s, n);
    }
  }

  lemma SameNeeds(s: State, s': State, n: nat)
    requires IsNeeded(s, n) && s'.flush == s.flush && s'.work == s.work && s'.current == s.current && s'.readers == s.readers
    ensures IsNeeded(s', n)
  {
  }

  lemma LogsLeft(s: State, n: nat)
    requires Inv(s) && n in s.disk.logs && s.logNumber <= n
    ensures n == s.logfileNumber || (s.imm.Some? && n == s.logNumber)
  {
    hide WriterOk, MemsOk, OrderOk, SnapshotsOk, TreeOk, Stored, SameAnswers, ReadersOk, RecordedOk, CountersOk, FlushOk, WorkOk, EditsOk;
  }

  // ---- compactions forget ----

  /** A compaction takes the oldest snapshot as its bound; without snapshots, nothing that has ended
      lies above it. */
  lemma CompactionsMayForget(states: seq<State>, events: seq<Event>, j: nat)
    requires IsRun(states, events) && j < |events| && events[j].DoStartCompaction?
    ensures
      var s, s' := states[j], states[j + 1];
      && s'.work.Compacting?
      && (forall x :: x in s'.snapshots ==> s'.work.job.smallest <= x)
      && (if s'.snapshots != [] then s'.work.job.smallest in s'.snapshots
          else forall e :: e in Ended(s') ==> e.key.seqno <= s'.work.job.smallest)
  {
    hide Inv;
    var s, s' := states[j], states[j + 1];
    RunKeepsInv(states, events, j + 1);
    EndedIsVisible(s');
    SnapshotsInOrder(s');
  }

  lemma SnapshotsInOrder(s: State)
    requires Inv(s)
    ensures SnapshotsOk(s.snapshots, s.lastSeqno, s.floor)
  {
  }

  lemma JobInput(s: State)
    requires Inv(s) && (s.work.Compacting? || s.work.WorkInstalling?)
    ensures
      var job := s.work.job;
      && SortedEntries(job.input) && Distinct(ToSet(job.input)) && job.smallest < MAX_SEQUENCE
      && ToSet(job.input) == InputEntries(job.in0, job.in1)
  {
    hide MemsOk, SnapshotsOk, SameAnswers, ReadersOk, LogsOk, RecordedOk, CountersOk, FlushOk, EditsOk;
    var job := s.work.job;
    EntriesBefore(s.current, job.level, job.in0, job.in1);
    DistinctSubset(ToSet(job.input), s.logged);
  }

  /** And of the entries of a user key at or below the bound, its outputs hold one at most; a tombstone
      only while a deeper level has the key. */
  lemma OneOldEntryIsKept(states: seq<State>, events: seq<Event>, j: nat, d: Entry, e: Entry)
    requires IsRun(states, events) && j < |events| && events[j].DoLogCompaction?
    requires d in Flat(states[j].work.outs) && e in Flat(states[j].work.outs) && d.key.user == e.key.user
    requires d.key.seqno <= states[j].work.job.smallest && e.key.seqno <= states[j].work.job.smallest
    ensures d == e
    ensures e.key.kind.Deletion? ==>
      exists l, f :: states[j].work.job.level + 2 <= l < |states[j].work.job.base| && f in states[j].work.job.base[l] && InRange(f, e.key.user)
  {
    hide Inv;
    var job := states[j].work.job;
    RunKeepsInv(states, events, j);
    JobInput(states[j]);
    KeptIsSurvivors(job.input, job.base, job.level, job.smallest);
    assert d in ToSet(job.input) && e in ToSet(job.input);
  }

  // ---- memtables, flushes and compactions come to an end ----

  /** A switch begins an empty memtable with an empty log under a number of its own; what was there
      becomes the immutable one. */
  lemma MemTablesSwitch(states: seq<State>, events: seq<Event>, j: nat)
    requires IsRun(states, events) && j < |events| && events[j].DoSwitchMemTable?
    ensures
      var s, s' := states[j], states[j + 1];
      && MemEntries(s'.mems, s'.mem) == {} && ImmEntries(s'.mems, s'.imm) == MemEntries(s.mems, s.mem) && s'.imm.Some?
      && s'.logfileNumber !in s.disk.logs && s'.disk.logs == s.disk.logs[s'.logfileNumber := []]
  {
    hide Inv;
    RunKeepsInv(states, events, j);
    NextLogIsNew(states[j]);
  }

  lemma NextLogIsNew(s: State)
    requires Inv(s)
    ensures s.nextFile !in s.disk.logs && s.mem in s.mems
  {
    hide WriterOk, OrderOk, SnapshotsOk, TreeOk, Stored, SameAnswers, ReadersOk, RecordedOk, CountersOk, FlushOk, WorkOk, EditsOk;
  }

  /** A finished flush leaves no immutable memtable, and only the current log to recover; its entries
      have joined the version, all files of which are still there. */
  lemma FlushesEnd(states: seq<State>, events: seq<Event>, j: nat)
    requires IsRun(states, events) && j < |events| && events[j].DoInstallFlush?
    ensures
      var s, s' := states[j], states[j + 1];
      && s'.imm.None? && s'.flush.NoFlush? && s'.logNumber == s'.logfileNumber
      && |s.current| == NUM_LEVELS == |s'.current|
      && (forall l, f :: 0 <= l < NUM_LEVELS && f in s.current[l] ==> f in s'.current[l])
      && VersionEntries(s'.current) == VersionEntries(s.current) + ImmEntries(s.mems, s.imm)
  {
    hide Inv;
    RunKeepsInv(states, events, j);
    FlushEnds(states[j]);
  }

  lemma FlushEnds(s: State)
    requires Inv(s) && s.flush.FlushInstalling?
    ensures
      var v := Apply(s.current, FlushEdit(s.flush.level, s.flush.file));
      && |s.current| == NUM_LEVELS == |v|
      && (forall l, f :: 0 <= l < NUM_LEVELS && f in s.current[l] ==> f in v[l])
      && VersionEntries(v) == VersionEntries(s.current) + ImmEntries(s.mems, s.imm)
  {
    hide WriterOk, MemsOk, OrderOk, SnapshotsOk, Stored, SameAnswers, ReadersOk, LogsOk, RecordedOk, CountersOk, WorkOk, EditsOk;
    FlushEditApplies(s.current, s.flush.level, s.flush.file, ImmEntries(s.mems, s.imm));
  }

  /** A finished compaction has replaced exactly its inputs by its outputs, and those hold the entries
      that no rule drops, unless it only moved one file. */
  lemma CompactionsEnd(states: seq<State>, events: seq<Event>, j: nat)
    requires IsRun(states, events) && j < |events| && events[j].DoInstallWork?
    ensures
      var s, s' := states[j], states[j + 1];
      var job, outs := s.work.job, s.work.outs;
      && s'.work.NoWork? && ReplacedBy(s.current, s'.current, job.level, job.in0, job.in1, outs)
      && (IsMove(job, outs) ||
          forall e :: e in Flat(outs) <==> Survives(InputEntries(job.in0, job.in1), e, job.base, job.level, job.smallest))
  {
    hide Inv, Survives;
    var s, job := states[j], states[j].work.job;
    RunKeepsInv(states, events, j);
    WorkEnds(s);
    if !IsMove(job, s.work.outs) {
      JobInput(s);
      KeptIsSurvivors(job.input, job.base, job.level, job.smallest);
    }
  }

  lemma WorkEnds(s: State)
    requires Inv(s) && s.work.WorkInstalling?
    ensures Finished(s.work.job, s.work.outs)
    ensures ReplacedBy(s.current, Apply(s.current, WorkEdit(s.work.job, s.work.outs)), s.work.job.level, s.work.job.in0, s.work.job.in1, s.work.outs)
  {
    hide WriterOk, MemsOk, OrderOk, SnapshotsOk, TreeOk, Stored, SameAnswers, ReadersOk, LogsOk, RecordedOk, CountersOk, FlushOk, EditsOk, Finished;
  }
}
