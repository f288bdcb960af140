/** The steps of writers, snapshots and readers. */
module StoreWrites {
  import opened Keys
  import opened Versions
  import opened Store

  // ---- writers ----

  /** The front writer builds its group and releases the mutex. */
  predicate CanBeginWrite(s: State, batch: seq<Entry>) {
    s.writer.Idle? && s.lastSeqno + |batch| < MAX_SEQUENCE
    && forall i :: 0 <= i < |batch| ==> batch[i].key.seqno == s.lastSeqno + 1 + i
  }

  function BeginWrite(s: State, batch: seq<Entry>): State {
    s.(writer := Grouped(batch))
  }

  /** log_->AddRecord */
  predicate CanAppendLog(s: State) {
    s.writer.Grouped? && s.logfileNumber in s.disk.logs && s.lastSeqno + |s.writer.batch| < MAX_SEQUENCE
  }

  function AppendLog(s: State): State
    requires CanAppendLog(s)
  {
    var batch := s.writer.batch;
    s.(disk := s.disk.(logs := s.disk.logs[s.logfileNumber := s.disk.logs[s.logfileNumber] + batch]),
       writer := Inserting(batch, 0, s.lastSeqno + |batch|),
       logged := s.logged + ToSet(batch))
  }

  /** One MemTable::Add of InsertInto; readers run in between. */
  predicate CanInsertOne(s: State) {
    s.writer.Inserting? && s.writer.done < |s.writer.batch| && s.mem in s.mems
  }

  function InsertOne(s: State): State
    requires CanInsertOne(s)
  {
    var e := s.writer.batch[s.writer.done];
    s.(mems := s.mems[s.mem := s.mems[s.mem] + {e}],
       writer := s.writer.(done := s.writer.done + 1),
       history := s.history + {e})
  }

  /** The mutex is back: the group becomes visible. */
  predicate CanEndWrite(s: State) {
    s.writer.Inserting? && s.writer.done == |s.writer.batch|
  }

  function EndWrite(s: State): State
    requires CanEndWrite(s)
  {
    s.(lastSeqno := s.writer.last, writer := Idle)
  }

  /** MakeRoomForWrite's last branch: a new log and memtable, before a group is built. */
  predicate CanSwitchMemTable(s: State) {
    s.writer.Idle? && s.imm.None? && s.mem in s.mems
  }

  function SwitchMemTable(s: State): State
    requires CanSwitchMemTable(s)
  {
    s.(disk := s.disk.(logs := s.disk.logs[s.nextFile := []]),
       logfileNumber := s.nextFile,
       nextFile := s.nextFile + 1,
       imm := Some(s.mem),
       mem := s.mem + 1,
       mems := s.mems[s.mem + 1 := {}])
  }

  // ---- lemmas about answers ----

  /** Newer entries added to two collections that answer alike leave them answering alike. */
  lemma NewerOnBothSides(a: set<Entry>, b: set<Entry>, xs: set<Entry>, floor: SequenceNumber)
    requires SameAnswers(a, b, floor)
    requires AllNewer(xs, a) && AllNewer(xs, b)
    requires Distinct(a + xs) && Distinct(b + xs)
    ensures SameAnswers(a + xs, b + xs, floor)
  {
    forall user: UserKey, seqno: SequenceNumber | floor <= seqno
      ensures Lookup(a + xs, user, seqno) == Lookup(b + xs, user, seqno)
    {
      if x :| x in xs && VisibleAt(x, user, seqno) {
        var e := NewestExists(xs, user, seqno, x);
        NewestOnTop(a, xs, user, seqno, e);
        NewestOnTop(b, xs, user, seqno, e);
      } else {
        LookupsAgree(a + xs, a, user, seqno);
        LookupsAgree(b + xs, b, user, seqno);
      }
    }
  }

  lemma NewestOnTop(a: set<Entry>, xs: set<Entry>, user: UserKey, seqno: SequenceNumber, e: Entry)
    requires AllNewer(xs, a) && Distinct(a + xs) && IsNewest(xs, user, seqno, e)
    ensures Lookup(a + xs, user, seqno) == Val(e)
  {
    assert IsNewest(a + xs, user, seqno, e);
    LookupIsNewest(a + xs, user, seqno, e);
  }

  lemma SameAnswersTrans(a: set<Entry>, b: set<Entry>, c: set<Entry>, f: SequenceNumber, g: SequenceNumber, h: SequenceNumber)
    requires SameAnswers(a, b, f) && SameAnswers(b, c, g) && f <= h && g <= h
    ensures SameAnswers(a, c, h)
  {
  }

  lemma DistinctSubset(a: set<Entry>, b: set<Entry>)
    requires Distinct(b) && a <= b
    ensures Distinct(a)
  {
  }

  // ---- each step keeps the invariant ----

  lemma BeginWriteOk(s: State, batch: seq<Entry>)
    requires Inv(s) && CanBeginWrite(s, batch)
    ensures Inv(BeginWrite(s, batch))
  {
  }

  lemma AppendLogWriter(s: State)
    requires Inv(s) && CanAppendLog(s)
    ensures var s' := AppendLog(s); WriterOk(s'.writer, s'.history, s'.logged, s'.lastSeqno)
  {
    var batch := s.writer.batch;
    var s' := AppendLog(s);
    forall d, e | d in s'.logged && e in s'.logged && d.key.user == e.key.user && d.key.seqno == e.key.seqno ensures d == e {
      if d in batch && e in batch {
        var i :| 0 <= i < |batch| && batch[i] == d;
        var j :| 0 <= j < |batch| && batch[j] == e;
      }
    }
  }

  lemma IncreasingAppend(log: seq<Entry>, batch: seq<Entry>, after: nat)
    requires Increasing(log) && UpTo(ToSet(log), after) && Consecutive(batch, after)
    ensures Increasing(log + batch) && ToSet(log + batch) == ToSet(log) + ToSet(batch)
  {
    forall i, j | 0 <= i < j < |log + batch| ensures (log + batch)[i].key.seqno < (log + batch)[j].key.seqno {
      if i < |log| && |log| <= j {
        assert log[i] in ToSet(log);
      }
    }
  }

  lemma AppendLogLogs(s: State)
    requires Inv(s) && CanAppendLog(s)
    ensures
      var s' := AppendLog(s);
      LogsOk(s'.disk.logs, s'.logNumber, s'.logfileNumber, s'.nextFile, MemEntries(s'.mems, s'.mem) + Todo(s'.writer), ImmSet(s'))
  {
    IncreasingAppend(s.disk.logs[s.logfileNumber], s.writer.batch, s.lastSeqno);
  }

  /** Entries already in a log that recovery reads stay there when logs only grow. */
  lemma LogsGrow(logs: map<nat, seq<Entry>>, logs': map<nat, seq<Entry>>, from: nat)
    requires forall n :: n in logs ==> n in logs' && logs[n] <= logs'[n]
    ensures LogEntries(logs, from) <= LogEntries(logs', from)
  {
    forall e | e in LogEntries(logs, from) ensures e in LogEntries(logs', from) {
      var n :| n in logs && from <= n && e in logs[n];
      assert e in logs'[n];
    }
  }

  lemma AppendLogCounters(s: State)
    requires Inv(s) && CanAppendLog(s)
    ensures
      var s' := AppendLog(s);
      CountersOk(s'.disk, if s'.flush.FlushInstalling? then s'.logfileNumber else s'.logNumber, s'.nextFile, s'.lastSeqno, s'.logged)
  {
    var s' := AppendLog(s);
    LogsGrow(s.disk.logs, s'.disk.logs, s.disk.logNumber);
    forall e | e in s.writer.batch ensures e in LogEntries(s'.disk.logs, s.disk.logNumber) {
      assert e in s'.disk.logs[s.logfileNumber];
    }
  }

  lemma AppendLogOk(s: State)
    requires Inv(s) && CanAppendLog(s)
    ensures Inv(AppendLog(s))
  {
    AppendLogWriter(s);
    AppendLogLogs(s);
    AppendLogCounters(s);
  }

  lemma InsertOneViews(s: State)
    requires CanInsertOne(s)
    requires WriterOk(s.writer, s.history, s.logged, s.lastSeqno)
    requires s.imm != Some(s.mem)
    ensures
      var s', e := InsertOne(s), s.writer.batch[s.writer.done];
      && MemEntries(s'.mems, s'.mem) == MemEntries(s.mems, s.mem) + {e}
      && ImmEntries(s'.mems, s'.imm) == ImmEntries(s.mems, s.imm)
      && Todo(s.writer) == {e} + Todo(s'.writer)
      && AllNewer({e}, s.history) && s.history + {e} <= s.logged
  {
    var batch, done := s.writer.batch, s.writer.done;
    assert batch[done..] == [batch[done]] + batch[done + 1..];
    assert batch[done] in Todo(s.writer);
  }

  lemma InsertOneWriter(s: State)
    requires CanInsertOne(s) && WriterOk(s.writer, s.history, s.logged, s.lastSeqno) && s.imm != Some(s.mem)
    ensures var s' := InsertOne(s); WriterOk(s'.writer, s'.history, s'.logged, s'.lastSeqno)
  {
    hide MemEntries, ImmEntries;
    InsertOneViews(s);
    var batch, done := s.writer.batch, s.writer.done;
    assert batch[..done + 1] == batch[..done] + [batch[done]];
  }

  lemma InsertOneData(s: State)
    requires CanInsertOne(s)
    requires WriterOk(s.writer, s.history, s.logged, s.lastSeqno)
    requires MemsOk(s.mems, s.mem, s.imm, s.history, s.lastSeqno)
    requires OrderOk(s.current, ImmEntries(s.mems, s.imm), MemEntries(s.mems, s.mem), s.history)
    ensures
      var s' := InsertOne(s);
      && WriterOk(s'.writer, s'.history, s'.logged, s'.lastSeqno)
      && MemsOk(s'.mems, s'.mem, s'.imm, s'.history, s'.lastSeqno)
      && OrderOk(s'.current, ImmEntries(s'.mems, s'.imm), MemEntries(s'.mems, s'.mem), s'.history)
  {
    hide WriterOk, Todo, VersionEntries;
    InsertOneViews(s);
    InsertOneWriter(s);
    assert ImmEntries(s.mems, s.imm) <= s.history;
  }

  lemma AllInHistory(s: State)
    requires MemsOk(s.mems, s.mem, s.imm, s.history, s.lastSeqno) && VersionEntries(s.current) <= s.history
    ensures AllEntries(s) <= s.history
  {
  }

  lemma InsertKeepsAnswers(all: set<Entry>, history: set<Entry>, logged: set<Entry>, e: Entry, floor: SequenceNumber)
    requires SameAnswers(all, history, floor) && all <= history && history + {e} <= logged
    requires Distinct(logged) && AllNewer({e}, history)
    ensures SameAnswers(all + {e}, history + {e}, floor)
  {
    DistinctSubset(history + {e}, logged);
    DistinctSubset(all + {e}, logged);
    NewerOnBothSides(all, history, {e}, floor);
  }

  lemma InsertOneAnswers(s: State)
    requires CanInsertOne(s)
    requires WriterOk(s.writer, s.history, s.logged, s.lastSeqno)
    requires MemsOk(s.mems, s.mem, s.imm, s.history, s.lastSeqno)
    requires OrderOk(s.current, ImmEntries(s.mems, s.imm), MemEntries(s.mems, s.mem), s.history)
    requires SameAnswers(AllEntries(s), s.history, s.floor)
    ensures var s' := InsertOne(s); SameAnswers(AllEntries(s'), s'.history, s'.floor)
  {
    var e := s.writer.batch[s.writer.done];
    InsertOneViews(s);
    AllInHistory(s);
    InsertKeepsAnswers(AllEntries(s), s.history, s.logged, e, s.floor);
    assert AllEntries(InsertOne(s)) == AllEntries(s) + {e};
  }

  /** A reader does not see an entry inserted after it started. */
  lemma ReaderUnmoved(r: Reader, mems: map<nat, set<Entry>>, mems': map<nat, set<Entry>>, mem: nat, e: Entry,
                      history: set<Entry>, lastSeqno: SequenceNumber, tables: map<nat, seq<Entry>>, published: set<nat>)
    requires ReaderOk(r, mems, history, lastSeqno, tables, published)
    requires mem in mems && mems' == mems[mem := mems[mem] + {e}]
    requires forall m :: m in mems ==> m <= mem && mems[m] <= history
    requires Distinct(history + {e}) && e.key.seqno > lastSeqno && AllNewer({e}, history)
    ensures ReaderOk(r, mems', history + {e}, lastSeqno, tables, published)
  {
    ReaderOrder(r, mems, mems', mem, e, history);
    var before, after := ReaderView(mems, r), ReaderView(mems', r);
    assert before <= history;
    assert after == before || after == before + {e};
    DistinctSubset(before + {e}, history + {e});
    forall user: UserKey ensures Lookup(after, user, r.at) == Lookup(history + {e}, user, r.at) {
      NewerEntriesInvisible(before, {e}, user, r.at);
      NewerEntriesInvisible(history, {e}, user, r.at);
    }
  }

  lemma ReaderOrder(r: Reader, mems: map<nat, set<Entry>>, mems': map<nat, set<Entry>>, mem: nat, e: Entry, history: set<Entry>)
    requires r.mem in mems && (r.imm.Some? ==> r.imm.value in mems && r.imm.value < r.mem)
    requires OrderOk(r.version, ImmEntries(mems, r.imm), MemEntries(mems, r.mem), history)
    requires mem in mems && mems' == mems[mem := mems[mem] + {e}]
    requires AllNewer({e}, history) && forall m :: m in mems ==> m <= mem && mems[m] <= history
    ensures OrderOk(r.version, ImmEntries(mems', r.imm), MemEntries(mems', r.mem), history + {e})
  {
    var before, after := MemEntries(mems, r.mem), MemEntries(mems', r.mem);
    assert after == before || after == before + {e};
    assert ImmEntries(mems', r.imm) == ImmEntries(mems, r.imm) <= history;
  }

  lemma InsertOneReaders(s: State)
    requires Inv(s) && CanInsertOne(s)
    ensures
      var s' := InsertOne(s);
      ReadersOk(s'.readers, s'.mems, s'.history, s'.lastSeqno, s'.disk.tables, Published(s'.disk.base, s'.disk.changes))
  {
    var s' := InsertOne(s);
    var e := s.writer.batch[s.writer.done];
    InsertOneViews(s);
    DistinctSubset(s.history + {e}, s.logged);
    forall r | r in s'.readers
      ensures ReaderOk(r, s'.mems, s'.history, s'.lastSeqno, s'.disk.tables, Published(s'.disk.base, s'.disk.changes))
    {
      ReaderUnmoved(r, s.mems, s'.mems, s.mem, e, s.history, s.lastSeqno, s.disk.tables, Published(s.disk.base, s.disk.changes));
    }
  }

  lemma InsertOneOk(s: State)
    requires Inv(s) && CanInsertOne(s)
    ensures Inv(InsertOne(s))
  {
    InsertOneViews(s);
    InsertOneData(s);
    InsertOneAnswers(s);
    InsertOneReaders(s);
    var s' := InsertOne(s);
    assert MemEntries(s'.mems, s'.mem) + Todo(s'.writer) == MemEntries(s.mems, s.mem) + Todo(s.writer);
  }

  lemma EndWriteOk(s: State)
    requires Inv(s) && CanEndWrite(s)
    ensures Inv(EndWrite(s))
  {
    var s' := EndWrite(s);
    assert Todo(s.writer) == {} && Todo(s'.writer) == {};
  }

  lemma SwitchMemTableOk(s: State)
    requires Inv(s) && CanSwitchMemTable(s)
    ensures Inv(SwitchMemTable(s))
  {
    var s' := SwitchMemTable(s);
    assert MemEntries(s'.mems, s'.mem) == {} && ImmEntries(s'.mems, s'.imm) == MemEntries(s.mems, s.mem);
    assert AllEntries(s') == AllEntries(s);
    SwitchReaders(s);
    SwitchCounters(s);
  }

  lemma SwitchReaders(s: State)
    requires Inv(s) && CanSwitchMemTable(s)
    ensures
      var s' := SwitchMemTable(s);
      ReadersOk(s'.readers, s'.mems, s'.history, s'.lastSeqno, s'.disk.tables, Published(s'.disk.base, s'.disk.changes))
  {
    var s' := SwitchMemTable(s);
    forall r | r in s'.readers
      ensures ReaderOk(r, s'.mems, s'.history, s'.lastSeqno, s'.disk.tables, Published(s'.disk.base, s'.disk.changes))
    {
      assert ReaderView(s'.mems, r) == ReaderView(s.mems, r);
    }
  }

  lemma SwitchCounters(s: State)
    requires Inv(s) && CanSwitchMemTable(s)
    ensures
      var s' := SwitchMemTable(s);
      && LogsOk(s'.disk.logs, s'.logNumber, s'.logfileNumber, s'.nextFile, MemEntries(s'.mems, s'.mem) + Todo(s'.writer), ImmSet(s'))
      && CountersOk(s'.disk, if s'.flush.FlushInstalling? then s'.logfileNumber else s'.logNumber, s'.nextFile, s'.lastSeqno, s'.logged)
  {
    var s' := SwitchMemTable(s);
    assert s.logfileNumber < s.nextFile;
    forall n | n in s.disk.logs ensures s.disk.logs[n] <= s'.disk.logs[n] {
      assert n != s.nextFile || n < s.disk.logNumber;
    }
    LogsGrow(s.disk.logs, s'.disk.logs, s.disk.logNumber);
  }

  // ---- snapshots ----

  function TakeSnapshot(s: State): State {
    s.(snapshots := s.snapshots + [s.lastSeqno])
  }

  function ReleaseSnapshot(s: State, i: nat): State
    requires i < |s.snapshots|
  {
    s.(snapshots := s.snapshots[..i] + s.snapshots[i + 1..])
  }

  /** The snapshots a compaction has to respect may be released, and new ones are recent. */
  lemma WorkAcceptsSnapshots(work: Working, current: Version, snapshots: seq<SequenceNumber>, snapshots': seq<SequenceNumber>,
                             lastSeqno: SequenceNumber, pending: set<nat>, tables: map<nat, seq<Entry>>, published: set<nat>, nextFile: nat)
    requires WorkOk(work, current, snapshots, lastSeqno, pending, tables, published, nextFile)
    requires forall i :: 0 <= i < |snapshots'| ==> snapshots'[i] in snapshots || snapshots'[i] == lastSeqno
    ensures WorkOk(work, current, snapshots', lastSeqno, pending, tables, published, nextFile)
  {
    if !work.NoWork? {
      assert forall x :: x in snapshots ==> work.job.smallest <= x;
      assert JobOk(work.job, current, snapshots', lastSeqno, tables, published);
    }
  }

  lemma TakeSnapshotOk(s: State)
    requires Inv(s)
    ensures Inv(TakeSnapshot(s))
  {
    WorkAcceptsSnapshots(s.work, s.current, s.snapshots, s.snapshots + [s.lastSeqno], s.lastSeqno, s.pending,
                         s.disk.tables, Published(s.disk.base, s.disk.changes), s.nextFile);
    assert SnapshotsOk(s.snapshots + [s.lastSeqno], s.lastSeqno, s.floor);
  }

  lemma ReleaseSnapshotOk(s: State, i: nat)
    requires Inv(s) && i < |s.snapshots|
    ensures Inv(ReleaseSnapshot(s, i))
  {
    var rest := s.snapshots[..i] + s.snapshots[i + 1..];
    WorkAcceptsSnapshots(s.work, s.current, s.snapshots, rest, s.lastSeqno, s.pending,
                         s.disk.tables, Published(s.disk.base, s.disk.changes), s.nextFile);
    SnapshotsStayOrdered(s.snapshots, i, s.lastSeqno, s.floor);
  }

  lemma SnapshotsStayOrdered(snapshots: seq<SequenceNumber>, i: nat, lastSeqno: SequenceNumber, floor: SequenceNumber)
    requires i < |snapshots| && SnapshotsOk(snapshots, lastSeqno, floor)
    ensures SnapshotsOk(snapshots[..i] + snapshots[i + 1..], lastSeqno, floor)
  {
  }

  // ---- readers ----

  /** Get or NewIterator may be given a live snapshot. */
  predicate CanOpenReader(s: State, snapshot: Option<SequenceNumber>) {
    snapshot.Some? ==> snapshot.value in s.snapshots
  }

  /** It takes its references, and without a snapshot reads at the last sequence. */
  function OpenReader(s: State, snapshot: Option<SequenceNumber>): State {
    s.(readers := s.readers + [Reader(if snapshot.Some? then snapshot.value else s.lastSeqno, s.mem, s.imm, s.current)])
  }

  function CloseReader(s: State, i: nat): State
    requires i < |s.readers|
  {
    s.(readers := s.readers[..i] + s.readers[i + 1..])
  }

  lemma OpenReaderOk(s: State, snapshot: Option<SequenceNumber>)
    requires Inv(s) && CanOpenReader(s, snapshot)
    ensures Inv(OpenReader(s, snapshot))
  {
    var at := if snapshot.Some? then snapshot.value else s.lastSeqno;
    var r := Reader(at, s.mem, s.imm, s.current);
    assert ReaderView(s.mems, r) == AllEntries(s);
    assert s.floor <= at <= s.lastSeqno;
    assert ReaderOk(r, s.mems, s.history, s.lastSeqno, s.disk.tables, Published(s.disk.base, s.disk.changes));
  }

  lemma CloseReaderOk(s: State, i: nat)
    requires Inv(s) && i < |s.readers|
    ensures Inv(CloseReader(s, i))
  {
  }
}
