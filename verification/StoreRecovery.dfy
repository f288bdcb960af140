/** Obsolete files, crashes and recovery. */
module StoreRecovery {
  import opened Keys
  import opened Versions
  import opened ManifestReplay
  import opened Store
  import opened StoreWrites
  import opened StoreFlush
  import opened StoreCompaction

  // ---- DeleteObsoleteFiles ----

  ghost function VersionNumbers(v: Version): set<nat> {
    set l, f | 0 <= l < |v| && f in v[l] :: f.number
  }

  ghost function ReaderNumbers(readers: seq<Reader>): set<nat> {
    set r, n | r in readers && n in VersionNumbers(r.version) :: n
  }

  /** pending_outputs_ and the files of every version on the live list. */
  ghost function LiveNumbers(s: State): set<nat> {
    s.pending + VersionNumbers(s.current) + ReaderNumbers(s.readers)
    + if s.work.Compacting? then VersionNumbers(s.work.job.base) else {}
  }

  /** Only the background thread deletes, and never between picking a flush's level, or finishing a
      compaction, and installing the version. */
  predicate CanDeleteObsolete(s: State) {
    s.flush.NoFlush? && (s.work.NoWork? || s.work.Compacting?)
  }

  ghost function DeleteObsolete(s: State): State {
    var live := LiveNumbers(s);
    s.(disk := s.disk.(
         tables := map n | n in s.disk.tables && n in live :: s.disk.tables[n],
         logs := map n | n in s.disk.logs && s.logNumber <= n :: s.disk.logs[n]))
  }

  lemma LiveVersionKept(v: Version, tables: map<nat, seq<Entry>>, tables': map<nat, seq<Entry>>, published: set<nat>, live: set<nat>)
    requires Stored(v, tables, published) && VersionNumbers(v) <= live
    requires forall n :: n in tables && n in live ==> n in tables' && tables'[n] == tables[n]
    ensures Stored(v, tables', published)
  {
    forall l, f | 0 <= l < NUM_LEVELS && f in v[l] ensures OnDisk(f, tables') {
      assert f.number in VersionNumbers(v);
    }
  }

  lemma DeleteReaders(s: State)
    requires Inv(s)
    ensures
      var s' := DeleteObsolete(s);
      ReadersOk(s'.readers, s'.mems, s'.history, s'.lastSeqno, s'.disk.tables, Published(s'.disk.base, s'.disk.changes))
  {
    var s' := DeleteObsolete(s);
    var published := Published(s.disk.base, s.disk.changes);
    forall r | r in s.readers ensures ReaderOk(r, s.mems, s.history, s.lastSeqno, s'.disk.tables, published) {
      forall n | n in VersionNumbers(r.version) ensures n in LiveNumbers(s) {
        assert n in ReaderNumbers(s.readers);
      }
      LiveVersionKept(r.version, s.disk.tables, s'.disk.tables, published, LiveNumbers(s));
    }
  }

  lemma DeleteLogs(s: State)
    requires Inv(s) && CanDeleteObsolete(s)
    ensures
      var s' := DeleteObsolete(s);
      && LogsOk(s'.disk.logs, s'.logNumber, s'.logfileNumber, s'.nextFile, MemEntries(s'.mems, s'.mem) + Todo(s'.writer), ImmSet(s'))
      && CountersOk(s'.disk, s'.logNumber, s'.nextFile, s'.lastSeqno, s'.logged)
  {
    var s' := DeleteObsolete(s);
    forall e | e in LogEntries(s.disk.logs, s.logNumber) ensures e in LogEntries(s'.disk.logs, s.logNumber) {
      var n :| n in s.disk.logs && s.logNumber <= n && e in s.disk.logs[n];
      assert n in s'.disk.logs && e in s'.disk.logs[n];
    }
  }

  lemma DeleteWork(s: State)
    requires Inv(s) && CanDeleteObsolete(s)
    ensures
      var s' := DeleteObsolete(s);
      WorkOk(s'.work, s'.current, s'.snapshots, s'.lastSeqno, s'.pending, s'.disk.tables, Published(s'.disk.base, s'.disk.changes), s'.nextFile)
  {
    var s' := DeleteObsolete(s);
    if s.work.Compacting? {
      LiveVersionKept(s.work.job.base, s.disk.tables, s'.disk.tables, Published(s.disk.base, s.disk.changes), LiveNumbers(s));
      forall f | f in s.work.outs ensures OnDisk(f, s'.disk.tables) {
        assert f.number in s.pending;
      }
    }
  }

  /** No table a reader, the current version, the manifest or a compaction still needs is removed. */
  lemma DeleteObsoleteOk(s: State)
    requires Inv(s) && CanDeleteObsolete(s)
    ensures Inv(DeleteObsolete(s))
  {
    var s' := DeleteObsolete(s);
    DeleteReaders(s);
    DeleteLogs(s);
    DeleteWork(s);
    LiveVersionKept(s.current, s.disk.tables, s'.disk.tables, Published(s.disk.base, s.disk.changes), LiveNumbers(s));
  }

  // ---- what a crash leaves ----

  /** VersionSet::Recover: one builder over the manifest's snapshot and all its edits. */
  function RecoveredVersion(d: Disk): Version {
    Recovered([Snapshot(d.base)] + d.changes)
  }

  ghost function RecoveredEntries(d: Disk): set<Entry> {
    VersionEntries(RecoveredVersion(d)) + LogEntries(d.logs, d.logNumber)
  }

  lemma RecoversTarget(d: Disk, target: Version)
    requires RecordedOk(d, target)
    ensures RecoveredVersion(d) == target
  {
    ManifestRecovers(d.base, d.changes);
  }

  /** Everything written since the last flush, whether inserted yet or not. */
  ghost function NewerEntries(s: State): set<Entry> {
    Unflushed(s) + Todo(s.writer)
  }

  /** Which entries the logs that recovery reads hold. */
  lemma RecoveredLogEntries(s: State)
    requires Inv(s)
    ensures LogEntries(s.disk.logs, s.disk.logNumber) ==
      MemEntries(s.mems, s.mem) + Todo(s.writer) + if s.flush.FlushInstalling? then {} else ImmEntries(s.mems, s.imm)
    ensures !s.flush.FlushInstalling? ==> LogEntries(s.disk.logs, s.disk.logNumber) == NewerEntries(s)
  {
    var logs, from := s.disk.logs, s.disk.logNumber;
    var mem := MemEntries(s.mems, s.mem) + Todo(s.writer);
    var imm := if s.flush.FlushInstalling? then {} else ImmEntries(s.mems, s.imm);
    forall e | e in LogEntries(logs, from) ensures e in mem + imm {
      var n :| n in logs && from <= n && e in logs[n];
      assert e in ToSet(logs[n]);
    }
    forall e | e in mem ensures e in LogEntries(logs, from) {
      assert e in ToSet(logs[s.logfileNumber]);
    }
    forall e | e in imm ensures e in LogEntries(logs, from) {
      assert e in ToSet(logs[s.logNumber]);
    }
  }

  lemma TodoIsNewer(w: Writer, history: set<Entry>, logged: set<Entry>, lastSeqno: SequenceNumber)
    requires WriterOk(w, history, logged, lastSeqno)
    ensures AllNewer(Todo(w), history)
  {
    forall e, d | e in Todo(w) && d in history ensures e.key.seqno > d.key.seqno {
      assert d in w.batch[..w.done] || d.key.seqno <= lastSeqno;
    }
  }

  lemma LoggedAnswers(s: State)
    requires Inv(s)
    ensures SameAnswers(AllEntries(s) + Todo(s.writer), s.logged, s.floor)
    ensures AllNewer(Todo(s.writer), s.history)
  {
    hide TreeOk, ReadersOk, LogsOk, RecordedOk, CountersOk, FlushOk, WorkOk, SnapshotsOk, EditsOk;
    TodoIsNewer(s.writer, s.history, s.logged, s.lastSeqno);
    AllInHistory(s);
    DistinctSubset(AllEntries(s) + Todo(s.writer), s.logged);
    NewerOnBothSides(AllEntries(s), s.history, Todo(s.writer), s.floor);
  }

  lemma NewerIsNewer(s: State)
    requires Inv(s)
    ensures AllNewer(NewerEntries(s), VersionEntries(s.current))
    ensures VersionEntries(s.current) + NewerEntries(s) == AllEntries(s) + Todo(s.writer) <= s.logged
    ensures Distinct(VersionEntries(s.current) + NewerEntries(s))
  {
    LoggedAnswers(s);
    DistinctSubset(VersionEntries(s.current) + NewerEntries(s), s.logged);
  }

  lemma DiskWhileInstallingWork(s: State)
    requires Inv(s) && s.work.WorkInstalling?
    ensures
      var target := Target(s.current, s.flush, s.work);
      && VersionEntries(target) <= VersionEntries(s.current)
      && SameAnswers(VersionEntries(target) + NewerEntries(s), s.logged, s.lastSeqno)
  {
    var target := Target(s.current, s.flush, s.work);
    var all := VersionEntries(s.current) + NewerEntries(s);
    LoggedAnswers(s);
    NewerIsNewer(s);
    WorkKeepsAnswers(s.work.job, s.work.outs, s.current, target, NewerEntries(s), s.snapshots, s.lastSeqno,
                     s.disk.tables, Published(s.disk.base, s.disk.changes));
    SameAnswersTrans(VersionEntries(target) + NewerEntries(s), all, s.logged, s.work.job.smallest, s.floor, s.lastSeqno);
  }

  lemma DiskWhileInstallingFlush(s: State)
    requires Inv(s) && s.flush.FlushInstalling?
    ensures
      var target := Target(s.current, s.flush, s.work);
      && VersionEntries(target) == VersionEntries(s.current) + ImmEntries(s.mems, s.imm)
      && AllNewer(MemEntries(s.mems, s.mem) + Todo(s.writer), VersionEntries(target))
  {
    FlushEditApplies(s.current, s.flush.level, s.flush.file, ImmEntries(s.mems, s.imm));
    MemNewerThanImm(s);
    NewerIsNewer(s);
  }

  /** What recovery reads: the manifest's version and, from the logs, what it does not hold yet. */
  lemma DiskEntries(s: State)
    requires Inv(s)
    ensures
      var target := Target(s.current, s.flush, s.work);
      && VersionEntries(target) + LogEntries(s.disk.logs, s.disk.logNumber) ==
           (if s.work.WorkInstalling? then VersionEntries(target) else VersionEntries(s.current)) + NewerEntries(s)
      && AllNewer(LogEntries(s.disk.logs, s.disk.logNumber), VersionEntries(target))
  {
    RecoveredLogEntries(s);
    NewerIsNewer(s);
    if s.flush.FlushInstalling? {
      DiskWhileInstallingFlush(s);
    } else if s.work.WorkInstalling? {
      DiskWhileInstallingWork(s);
    }
  }

  lemma MemNewerThanImm(s: State)
    requires Inv(s)
    ensures AllNewer(MemEntries(s.mems, s.mem) + Todo(s.writer), ImmEntries(s.mems, s.imm))
  {
    LoggedAnswers(s);
    assert ImmEntries(s.mems, s.imm) <= s.history;
  }

  /** At any moment, what is on disk answers readers at the last sequence as the logged history. */
  lemma DiskAnswers(s: State)
    requires Inv(s)
    ensures SameAnswers(RecoveredEntries(s.disk), s.logged, s.lastSeqno)
    ensures RecoveredEntries(s.disk) <= s.logged
    ensures AllNewer(LogEntries(s.disk.logs, s.disk.logNumber), VersionEntries(RecoveredVersion(s.disk)))
  {
    RecoversTarget(s.disk, Target(s.current, s.flush, s.work));
    DiskEntries(s);
    NewerIsNewer(s);
    LoggedAnswers(s);
    if s.work.WorkInstalling? {
      DiskWhileInstallingWork(s);
    }
  }

  lemma AllVisible(es: set<Entry>, user: UserKey, a: SequenceNumber, b: SequenceNumber)
    requires Distinct(es) && UpTo(es, a) && UpTo(es, b)
    ensures Lookup(es, user, a) == Lookup(es, user, b)
  {
    if e :| e in es && e.key.user == user {
      var m := NewestExists(es, user, a, e);
      LookupIsNewest(es, user, a, m);
      LookupIsNewest(es, user, b, m);
    } else {
      LookupOfNothing(es, user, a);
      LookupOfNothing(es, user, b);
    }
  }

  /** Crash safety: after a crash at any moment, the recovered manifest version together with the
      logs numbered from its log number on answers every lookup of the latest value exactly as the
      batches appended to a log do; no table of the recovered version is missing. */
  lemma CrashSafe(s: State, user: UserKey, seqno: SequenceNumber)
    requires Inv(s) && UpTo(s.logged, seqno)
    ensures Lookup(RecoveredEntries(s.disk), user, seqno) == Lookup(s.logged, user, seqno)
    ensures TreeInv(RecoveredVersion(s.disk))
    ensures forall l, f :: 0 <= l < NUM_LEVELS && f in RecoveredVersion(s.disk)[l] ==> OnDisk(f, s.disk.tables)
  {
    DiskAnswers(s);
    RecoversTarget(s.disk, Target(s.current, s.flush, s.work));
    if seqno < s.lastSeqno {
      DistinctSubset(RecoveredEntries(s.disk), s.logged);
      AllVisible(RecoveredEntries(s.disk), user, seqno, s.lastSeqno);
      AllVisible(s.logged, user, seqno, s.lastSeqno);
    }
  }
}
