/** DB::Open after a crash: Recover, RecoverLogFile and the first LogAndApply. */
module StoreReopen {
  import opened Keys
  import opened Sequences
  import opened Versions
  import opened Builders
  import opened ManifestReplay
  import opened Tree
  import opened Store
  import opened StoreFlush
  import opened StoreCompaction
  import opened StoreRecovery

  /** The records of the logs numbered from `from` up to `upto`, in log order. */
  function LogsFrom(logs: map<nat, seq<Entry>>, from: nat, upto: nat): seq<Entry>
    decreases upto - from
  {
    if from >= upto then []
    else (if from in logs then logs[from] else []) + LogsFrom(logs, from + 1, upto)
  }

  function MaxSeqno(es: seq<Entry>): SequenceNumber {
    if es == [] then 0 else Max(es[|es| - 1].key.seqno, MaxSeqno(es[..|es| - 1]))
  }

  /** The logs are replayed in order; each stretch that fills a memtable becomes a level-0 table.
      `newLog` is the log the reopened database writes to, numbered after everything found. */
  ghost predicate CanReopen(d: Disk, chunks: seq<seq<Entry>>, files: seq<File>, newLog: nat) {
    && (forall n :: n in d.logs ==> n < newLog) && d.nextFile < newLog
    && Concat(chunks) == LogsFrom(d.logs, d.logNumber, newLog)
    && |files| == |chunks|
    && (forall i :: 0 <= i < |files| ==> FileOk(files[i]) && FileEntries(files[i]) == ToSet(chunks[i]))
    && (forall i :: 0 <= i < |files| ==> d.nextFile <= files[i].number < newLog)
    && (forall i, j :: 0 <= i < j < |files| ==> files[i].number < files[j].number)
  }

  function WriteTables(tables: map<nat, seq<Entry>>, files: seq<File>): map<nat, seq<Entry>> {
    if files == [] then tables
    else WriteTables(tables, files[..|files| - 1])[files[|files| - 1].number := files[|files| - 1].entries]
  }

  function ReopenEdit(files: seq<File>): Change {
    Change({}, Tagged(files, 0))
  }

  /** A fresh process: a new manifest with a snapshot of the recovered version and one edit. */
  function Reopen(s: State, files: seq<File>, newLog: nat): State {
    var d := s.disk;
    var v := RecoveredVersion(d);
    var last := Max(d.lastSeqno, MaxSeqno(LogsFrom(d.logs, d.logNumber, newLog)));
    State(
      Disk(d.logs[newLog := []], WriteTables(d.tables, files), v, [ReopenEdit(files)], newLog, last, newLog + 1),
      map[0 := {}], 0, None, newLog, newLog, last, newLog + 1,
      Apply(v, ReopenEdit(files)), [], {}, Idle, NoFlush, NoWork, [],
      s.logged, s.logged, last)
  }

  // ---- the order of the recovered records ----

  lemma {:induction false} LogsFromNothing(logs: map<nat, seq<Entry>>, from: nat, upto: nat)
    requires forall n :: n in logs ==> !(from <= n < upto)
    ensures LogsFrom(logs, from, upto) == []
    decreases upto - from
  {
    if from < upto {
      LogsFromNothing(logs, from + 1, upto);
    }
  }

  /** When the only log from `from` on is `n`, its records are all there is. */
  lemma {:induction false} LogsFromOne(logs: map<nat, seq<Entry>>, from: nat, n: nat, upto: nat)
    requires from <= n < upto && n in logs
    requires forall m :: m in logs && from <= m ==> m == n
    ensures LogsFrom(logs, from, upto) == logs[n]
    decreases n - from
  {
    if from == n {
      LogsFromNothing(logs, n + 1, upto);
      assert logs[n] + [] == logs[n];
    } else {
      LogsFromOne(logs, from + 1, n, upto);
    }
  }

  lemma LogsFromTwo(logs: map<nat, seq<Entry>>, a: nat, b: nat, upto: nat)
    requires a < b < upto && a in logs && b in logs
    requires forall m :: m in logs && a <= m ==> m == a || m == b
    ensures LogsFrom(logs, a, upto) == logs[a] + logs[b]
  {
    LogsFromOne(logs, a + 1, b, upto);
  }

  lemma IncreasingLogs(a: seq<Entry>, b: seq<Entry>)
    requires Increasing(a) && Increasing(b) && AllNewer(ToSet(b), ToSet(a))
    ensures Increasing(a + b)
  {
    forall i, j | 0 <= i < j < |a + b| ensures (a + b)[i].key.seqno < (a + b)[j].key.seqno {
      if i < |a| <= j {
        assert a[i] in ToSet(a) && b[j - |a|] in ToSet(b);
      }
    }
  }

  lemma TwoLogsOrdered(logs: map<nat, seq<Entry>>, a: nat, b: nat, upto: nat)
    requires a < b < upto && a in logs && b in logs
    requires forall m :: m in logs && a <= m ==> m == a || m == b
    requires Increasing(logs[a]) && Increasing(logs[b]) && AllNewer(ToSet(logs[b]), ToSet(logs[a]))
    ensures Increasing(LogsFrom(logs, a, upto))
    ensures ToSet(LogsFrom(logs, a, upto)) == ToSet(logs[a]) + ToSet(logs[b])
  {
    LogsFromTwo(logs, a, b, upto);
    IncreasingLogs(logs[a], logs[b]);
  }

  /** The recovered records come in increasing sequence order and are the log entries. */
  lemma RecoveredLogsOrdered(s: State, newLog: nat)
    requires Inv(s) && forall n :: n in s.disk.logs ==> n < newLog
    ensures
      var es := LogsFrom(s.disk.logs, s.disk.logNumber, newLog);
      Increasing(es) && ToSet(es) == LogEntries(s.disk.logs, s.disk.logNumber)
  {
    var logs := s.disk.logs;
    RecoveredLogEntries(s);
    if s.flush.FlushInstalling? || s.imm.None? {
      LogsFromOne(logs, s.disk.logNumber, s.logfileNumber, newLog);
    } else {
      LoggedAnswers(s);
      assert ImmEntries(s.mems, s.imm) <= s.history;
      TwoLogsOrdered(logs, s.logNumber, s.logfileNumber, newLog);
    }
  }

  lemma {:induction false} MaxSeqnoBounds(es: seq<Entry>)
    ensures UpTo(ToSet(es), MaxSeqno(es))
    ensures es != [] ==> exists e :: e in es && e.key.seqno == MaxSeqno(es)
  {
    if es != [] {
      var rest := es[..|es| - 1];
      MaxSeqnoBounds(rest);
      assert es == rest + [es[|es| - 1]];
      assert es[|es| - 1] in es;
    }
  }

  /** A later chunk holds only newer entries than an earlier one. */
  lemma {:induction false} ChunksNewer(chunks: seq<seq<Entry>>, i: nat, j: nat)
    requires Increasing(Concat(chunks)) && i < j < |chunks|
    ensures AllNewer(ToSet(chunks[j]), ToSet(chunks[i]))
  {
    var last := |chunks| - 1;
    var front := Concat(chunks[..last]);
    var all := front + chunks[last];
    assert Increasing(front) by {
      assert forall k :: 0 <= k < |front| ==> all[k] == front[k];
    }
    if j < last {
      ChunksNewer(chunks[..last], i, j);
    } else {
      forall x, e | x in chunks[last] && e in chunks[i] ensures x.key.seqno > e.key.seqno {
        assert e in chunks[..last][i];
        InConcat(chunks[..last], e);
        var k :| 0 <= k < |front| && front[k] == e;
        var m :| 0 <= m < |chunks[last]| && chunks[last][m] == x;
        assert all[k] == e && all[|front| + m] == x;
      }
    }
  }

  // ---- the reopened version ----

  /** Level-0 files in order of age, newer than everything in `v` and numbered after it. */
  ghost predicate ReopenFiles(v: Version, files: seq<File>) {
    && (forall f :: f in files ==> FileOk(f) && NewerThanAll(f, v) && NewNumber(f.number, v))
    && (forall i, j :: 0 <= i < j < |files| ==> files[i].number < files[j].number && Newer(files[j], files[i]))
  }

  /** `v'` is `v` with the files added to level 0. */
  ghost predicate ReopenedAs(v: Version, v': Version, files: seq<File>) {
    && |v| == NUM_LEVELS && |v'| == NUM_LEVELS
    && (forall l :: 1 <= l < NUM_LEVELS ==> forall f :: f in v'[l] <==> f in v[l])
    && forall f :: f in v'[0] <==> f in v[0] || f in files
  }

  lemma ReopenTree(v: Version, files: seq<File>)
    requires TreeOk(v) && ReopenFiles(v, files)
    ensures
      var v' := Apply(v, ReopenEdit(files));
      TreeOk(v') && ReopenedAs(v, v', files)
  {
    var v' := Apply(v, ReopenEdit(files));
    forall l | 0 <= l < NUM_LEVELS
      ensures Numbered(v'[l]) && forall f :: f in v'[l] <==> f in v[l] || (l == 0 && f in files)
    {
      AddedAtTagged(files, 0, l);
      var added := AddedAt(ReopenEdit(files).added, l);
      assert DeletedAt(ReopenEdit(files), l) == {};
      assert Fresh(added, Numbers(v[l]));
      SavedMembers(v[l], {}, added);
      NumbersStayDistinct(v'[l], v[l], added);
    }
    forall l | 1 <= l < NUM_LEVELS ensures SortedLevel(v'[l]) {
      SortedSameFiles(v'[l], v[l]);
    }
    ReopenLevelZero(v, v', files);
  }

  lemma ReopenLevelZero(v: Version, v': Version, files: seq<File>)
    requires TreeInv(v) && ReopenFiles(v, files) && ReopenedAs(v, v', files)
    ensures LevelZeroOk(v'[0]) && NewerAbove(v')
  {
    forall f, g | f in v'[0] && g in v'[0] && f != g
      ensures f.number != g.number && (f.number > g.number ==> Newer(f, g))
    {
      if f in files && g in files {
        var i :| 0 <= i < |files| && files[i] == f;
        var j :| 0 <= j < |files| && files[j] == g;
      }
    }
  }

  lemma ReopenedEntries(v: Version, v': Version, files: seq<File>)
    requires ReopenedAs(v, v', files)
    ensures VersionEntries(v') == VersionEntries(v) + LevelEntries(files)
  {
    forall e | e in VersionEntries(v') ensures e in VersionEntries(v) + LevelEntries(files) {
      var l :| 0 <= l < |v'| && e in LevelEntries(v'[l]);
      var g :| g in v'[l] && e in g.entries;
      if g in v[l] {
        assert e in LevelEntries(v[l]);
      }
    }
    forall e | e in VersionEntries(v) ensures e in VersionEntries(v') {
      var l :| 0 <= l < |v| && e in LevelEntries(v[l]);
      var g :| g in v[l] && e in g.entries;
      assert g in v'[l];
      assert e in LevelEntries(v'[l]);
    }
    forall e | e in LevelEntries(files) ensures e in VersionEntries(v') {
      var g :| g in files && e in g.entries;
      assert g in v'[0] && e in LevelEntries(v'[0]);
    }
  }

  lemma {:induction false} WriteTablesEffect(tables: map<nat, seq<Entry>>, files: seq<File>)
    requires forall i, j :: 0 <= i < j < |files| ==> files[i].number < files[j].number
    ensures forall f :: f in files ==> OnDisk(f, WriteTables(tables, files))
    ensures forall n :: n in tables && n !in Numbers(files) ==> n in WriteTables(tables, files) && WriteTables(tables, files)[n] == tables[n]
  {
    if files != [] {
      var last := |files| - 1;
      WriteTablesEffect(tables, files[..last]);
      assert files == files[..last] + [files[last]];
    }
  }

  lemma ChunkFilesOk(v: Version, chunks: seq<seq<Entry>>, files: seq<File>)
    requires |files| == |chunks| && Increasing(Concat(chunks))
    requires forall i :: 0 <= i < |files| ==> FileOk(files[i]) && FileEntries(files[i]) == ToSet(chunks[i])
    requires forall i, j :: 0 <= i < j < |files| ==> files[i].number < files[j].number
    requires forall f :: f in files ==> NewNumber(f.number, v)
    requires AllNewer(LevelEntries(files), VersionEntries(v))
    ensures ReopenFiles(v, files)
  {
    forall f | f in files ensures NewerThanAll(f, v) {
      assert FileEntries(f) <= LevelEntries(files);
      FlushedFileIsNewer(f, v, FileEntries(f));
    }
    forall i, j | 0 <= i < j < |files| ensures Newer(files[j], files[i]) {
      ChunksNewer(chunks, i, j);
      forall e, x | e in files[j].entries && x in files[i].entries ensures e.key.seqno > x.key.seqno {
        assert e in FileEntries(files[j]) && x in FileEntries(files[i]);
      }
    }
  }

  lemma NumbersAfterPublished(v: Version, tables: map<nat, seq<Entry>>, published: set<nat>, n: nat)
    requires Stored(v, tables, published) && forall p :: p in published ==> p < n
    ensures NewNumber(n, v)
  {
  }

  lemma ReopenFilesOk(s: State, chunks: seq<seq<Entry>>, files: seq<File>, newLog: nat)
    requires Inv(s) && CanReopen(s.disk, chunks, files, newLog)
    ensures ReopenFiles(RecoveredVersion(s.disk), files)
    ensures LevelEntries(files) == LogEntries(s.disk.logs, s.disk.logNumber)
  {
    var d := s.disk;
    RecoveredLogsOrdered(s, newLog);
    RecoversTarget(d, Target(s.current, s.flush, s.work));
    DiskAnswers(s);
    FilesAreChunks(chunks, files);
    forall f | f in files ensures NewNumber(f.number, RecoveredVersion(d)) {
      NumbersAfterPublished(RecoveredVersion(d), d.tables, Published(d.base, d.changes), f.number);
    }
    ChunkFilesOk(RecoveredVersion(d), chunks, files);
  }

  lemma FilesAreChunks(chunks: seq<seq<Entry>>, files: seq<File>)
    requires |files| == |chunks|
    requires forall i :: 0 <= i < |files| ==> FileEntries(files[i]) == ToSet(chunks[i])
    ensures LevelEntries(files) == ToSet(Concat(chunks))
  {
    forall e | e in LevelEntries(files) ensures e in Concat(chunks) {
      var f :| f in files && e in f.entries;
      var i :| 0 <= i < |files| && files[i] == f;
      assert e in FileEntries(files[i]);
      InConcat(chunks, e);
    }
    forall e | e in Concat(chunks) ensures e in LevelEntries(files) {
      InConcat(chunks, e);
      var i :| 0 <= i < |chunks| && e in chunks[i];
      assert e in ToSet(chunks[i]);
      assert e in FileEntries(files[i]) && files[i] in files;
    }
  }

  // ---- the reopened database ----

  lemma FreshManifest(d: Disk, v: Version, files: seq<File>, nextFile: nat)
    requires RecordedOk(d, v) && ReopenFiles(v, files) && d.nextFile <= nextFile
    requires forall f :: f in files ==> d.nextFile <= f.number < nextFile
    ensures ManifestOk(v, [ReopenEdit(files)], nextFile)
    ensures MovesDown(v, v, []) && Published(v, []) <= Published(d.base, d.changes)
    ensures forall f, m :: f in files && 0 <= m < NUM_LEVELS ==> f.number !in KnownAt(v, [], m)
  {
    forall l | 0 <= l < NUM_LEVELS ensures KnownAt(v, [], l) == Numbers(v[l]) && Numbers(v[l]) <= KnownAt(d.base, d.changes, l) {
      assert AddedNumbers([], l) == {};
    }
    forall n | n in Published(v, []) ensures n in Published(d.base, d.changes) {
      var l: nat :| 0 <= l < NUM_LEVELS && n in KnownAt(v, [], l);
      assert n in KnownAt(d.base, d.changes, l);
    }
    forall f, m: nat | f in files && m < NUM_LEVELS ensures f.number !in KnownAt(v, [], m) {
      KnownIsPublished(v, [], m);
    }
    forall l: nat | l < NUM_LEVELS
      ensures Fresh(AddedAt(ReopenEdit(files).added, l), KnownAt(v, [], l))
      ensures forall f :: f in AddedAt(ReopenEdit(files).added, l) ==> f.number < nextFile
    {
      AddedAtTagged(files, 0, l);
    }
    assert [] + [ReopenEdit(files)] == [ReopenEdit(files)];
    RecordKeepsManifest(v, [], ReopenEdit(files), d.nextFile, nextFile);
  }

  lemma ReopenRecorded(d: Disk, v: Version, files: seq<File>, newLog: nat, d': Disk)
    requires RecordedOk(d, v) && ReopenFiles(v, files) && d.nextFile < newLog
    requires forall f :: f in files ==> d.nextFile <= f.number < newLog
    requires d'.base == v && d'.changes == [ReopenEdit(files)] && d'.nextFile == newLog + 1
    requires d'.tables == WriteTables(d.tables, files)
    ensures RecordedOk(d', Apply(v, ReopenEdit(files)))
  {
    var c := ReopenEdit(files);
    var v' := Apply(v, c);
    ReopenTree(v, files);
    FreshManifest(d, v, files, newLog + 1);
    assert [c][1..] == [] && ApplyAll(v', []) == v';
    assert [] + [c] == [c];
    forall l: nat | l < NUM_LEVELS ensures AddedAt(c.added, l) == if l == 0 then files else [] {
      AddedAtTagged(files, 0, l);
    }
    RecordMovesDown(v, v', v, [], c);
    ReopenStored(d, v, v', files, d'.tables, Published(v, [c]));
  }

  lemma ReopenPublished(v: Version, files: seq<File>, published': set<nat>)
    requires |v| == NUM_LEVELS && published' == Published(v, [ReopenEdit(files)])
    ensures forall l: nat, f :: l < NUM_LEVELS && f in v[l] ==> f.number in published'
    ensures forall f :: f in files ==> f.number in published'
  {
    var c := ReopenEdit(files);
    assert [] + [c] == [c];
    forall l: nat, n | l < NUM_LEVELS && (n in Numbers(v[l]) || (l == 0 && n in Numbers(files))) ensures n in published' {
      AddedAtTagged(files, 0, l);
      KnownAppend(v, [], c, l);
      assert n in KnownAt(v, [c], l);
    }
    assert forall l: nat, f :: l < NUM_LEVELS && f in v[l] ==> f.number in Numbers(v[l]);
    forall f | f in files ensures f.number in published' {
      assert f.number in Numbers(files) && 0 < NUM_LEVELS;
      AddedAtTagged(files, 0, 0);
      KnownAppend(v, [], c, 0);
      assert f.number in KnownAt(v, [c], 0);
    }
  }

  lemma ReopenTables(v: Version, files: seq<File>, tables: map<nat, seq<Entry>>, published: set<nat>, nextFile: nat)
    requires Stored(v, tables, published) && (forall n :: n in published ==> n < nextFile)
    requires forall f :: f in files ==> nextFile <= f.number
    requires forall i, j :: 0 <= i < j < |files| ==> files[i].number < files[j].number
    ensures forall l: nat, f :: l < NUM_LEVELS && f in v[l] ==> OnDisk(f, WriteTables(tables, files))
    ensures forall f :: f in files ==> OnDisk(f, WriteTables(tables, files))
  {
    WriteTablesEffect(tables, files);
    forall l: nat, f | l < NUM_LEVELS && f in v[l] ensures f.number !in Numbers(files) {
      assert f.number < nextFile;
    }
  }

  lemma ReopenStored(d: Disk, v: Version, v': Version, files: seq<File>, tables': map<nat, seq<Entry>>, published': set<nat>)
    requires RecordedOk(d, v) && ReopenFiles(v, files) && ReopenedAs(v, v', files)
    requires forall f :: f in files ==> d.nextFile <= f.number
    requires tables' == WriteTables(d.tables, files) && published' == Published(v, [ReopenEdit(files)])
    ensures Stored(v', tables', published')
  {
    ReopenPublished(v, files, published');
    ReopenTables(v, files, d.tables, Published(d.base, d.changes), d.nextFile);
  }

  lemma LoggedBelowMax(s: State)
    requires WriterOk(s.writer, s.history, s.logged, s.lastSeqno)
    ensures forall e :: e in s.logged ==> e.key.seqno < MAX_SEQUENCE
  {
    forall e | e in Todo(s.writer) ensures e.key.seqno < MAX_SEQUENCE {
      var i :| 0 <= i < |s.writer.batch| && s.writer.batch[i] == e;
    }
  }

  lemma SequenceCovers(logged: set<Entry>, d: Disk, es: seq<Entry>)
    requires forall e :: e in logged ==> e.key.seqno <= d.lastSeqno || e in LogEntries(d.logs, d.logNumber)
    requires ToSet(es) == LogEntries(d.logs, d.logNumber) <= logged
    requires d.lastSeqno < MAX_SEQUENCE && forall e :: e in logged ==> e.key.seqno < MAX_SEQUENCE
    ensures UpTo(logged, Max(d.lastSeqno, MaxSeqno(es))) && Max(d.lastSeqno, MaxSeqno(es)) < MAX_SEQUENCE
  {
    MaxSeqnoBounds(es);
    if es != [] {
      var e :| e in es && e.key.seqno == MaxSeqno(es);
      assert e in ToSet(es);
    }
  }

  /** The recovered last sequence is at least every logged one, so new writes come after it. */
  lemma RecoveredSequence(s: State, newLog: nat)
    requires Inv(s) && forall n :: n in s.disk.logs ==> n < newLog
    ensures
      var last := Max(s.disk.lastSeqno, MaxSeqno(LogsFrom(s.disk.logs, s.disk.logNumber, newLog)));
      UpTo(s.logged, last) && last < MAX_SEQUENCE
  {
    RecoveredLogsOrdered(s, newLog);
    LoggedBelowMax(s);
    DiskAnswers(s);
    SequenceCovers(s.logged, s.disk, LogsFrom(s.disk.logs, s.disk.logNumber, newLog));
  }

  lemma ReopenVersion(s: State, chunks: seq<seq<Entry>>, files: seq<File>, newLog: nat)
    requires Inv(s) && CanReopen(s.disk, chunks, files, newLog)
    ensures
      var s' := Reopen(s, files, newLog);
      && VersionEntries(s'.current) == RecoveredEntries(s.disk)
      && TreeOk(s'.current) && RecordedOk(s'.disk, s'.current)
  {
    hide VersionEntries, TreeOk, Stored, MovesDown, ManifestOk, ReopenFiles, ReadersOk, WorkOk, FlushOk, OrderOk, SameAnswers, LogsOk, WriterOk, SnapshotsOk, CountersOk;
    var s' := Reopen(s, files, newLog);
    var v := RecoveredVersion(s.disk);
    ReopenFilesOk(s, chunks, files, newLog);
    RecoversTarget(s.disk, Target(s.current, s.flush, s.work));
    ReopenTree(v, files);
    ReopenedEntries(v, s'.current, files);
    ReopenRecorded(s.disk, v, files, newLog, s'.disk);
  }

  lemma ReopenAnswers(s: State, chunks: seq<seq<Entry>>, files: seq<File>, newLog: nat)
    requires Inv(s) && CanReopen(s.disk, chunks, files, newLog)
    ensures
      var s' := Reopen(s, files, newLog);
      && AllEntries(s') == RecoveredEntries(s.disk) <= s.logged
      && SameAnswers(AllEntries(s'), s'.history, s'.floor)
  {
    hide Inv, RecoveredEntries, RecordedOk, TreeOk, VersionEntries, Apply, LogsFrom, WriteTables, RecoveredVersion;
    var s' := Reopen(s, files, newLog);
    ReopenVersion(s, chunks, files, newLog);
    assert Unflushed(s') == {};
    RecoveredSequence(s, newLog);
    DiskAnswers(s);
    forall user: UserKey, seqno: SequenceNumber | s'.floor <= seqno
      ensures Lookup(RecoveredEntries(s.disk), user, seqno) == Lookup(s.logged, user, seqno)
    {
      CrashSafe(s, user, seqno);
    }
  }

  /** A process that has just opened the database. */
  ghost predicate JustOpened(s: State) {
    && s.writer == Idle && s.flush == NoFlush && s.work == NoWork && s.readers == [] && s.snapshots == []
    && s.mems == map[0 := {}] && s.mem == 0 && s.imm == None
    && s.floor == s.lastSeqno == s.disk.lastSeqno
    && s.logNumber == s.logfileNumber == s.disk.logNumber && s.nextFile == s.disk.nextFile == s.logNumber + 1
    && s.logNumber in s.disk.logs && s.disk.logs[s.logNumber] == [] && (forall n :: n in s.disk.logs ==> n <= s.logNumber)
    && s.history == s.logged
  }

  lemma JustOpenedOk(s: State)
    requires JustOpened(s)
    requires Distinct(s.logged) && UpTo(s.logged, s.lastSeqno) && s.lastSeqno < MAX_SEQUENCE
    requires RecordedOk(s.disk, s.current) && VersionEntries(s.current) <= s.logged
    requires SameAnswers(AllEntries(s), s.history, s.floor)
    ensures Inv(s)
  {
    assert MemEntries(s.mems, s.mem) == {} && ImmEntries(s.mems, s.imm) == {} && Todo(s.writer) == {};
    assert ToSet([]) == {};
  }

  lemma ReopenIsJustOpened(s: State, files: seq<File>, newLog: nat)
    requires forall n :: n in s.disk.logs ==> n < newLog
    ensures JustOpened(Reopen(s, files, newLog))
  {
  }

  // ---- crashes while opening, and the result ----

  /** What openings that crashed before CURRENT was renamed can leave: tables and empty logs under
      numbers the manifest has not used. */
  ghost predicate LeftByFailedOpens(d: Disk, tables: map<nat, seq<Entry>>, logs: set<nat>) {
    && (forall n :: n in tables ==> d.nextFile <= n)
    && (forall n :: n in logs ==> d.nextFile <= n && n !in d.logs)
  }

  function AfterFailedOpens(d: Disk, tables: map<nat, seq<Entry>>, logs: set<nat>): Disk {
    d.(tables := d.tables + tables, logs := d.logs + map n | n in logs :: [])
  }

  lemma {:induction false} EmptyLogsReplayNothing(d: Disk, logs: set<nat>, from: nat, upto: nat)
    requires forall n :: n in logs ==> n !in d.logs
    ensures LogsFrom(AfterFailedOpens(d, map[], logs).logs, from, upto) == LogsFrom(d.logs, from, upto)
    decreases upto - from
  {
    if from < upto {
      EmptyLogsReplayNothing(d, logs, from + 1, upto);
    }
  }

  /** A crash while opening loses nothing: what the next opening reads is the same. */
  lemma FailedOpensLoseNothing(d: Disk, target: Version, tables: map<nat, seq<Entry>>, logs: set<nat>)
    requires RecordedOk(d, target) && LeftByFailedOpens(d, tables, logs)
    ensures
      var d' := AfterFailedOpens(d, tables, logs);
      RecordedOk(d', target) && RecoveredVersion(d') == RecoveredVersion(d) && RecoveredEntries(d') == RecoveredEntries(d)
  {
    hide LogEntries, AddedOnce, MovesDown, TreeOk, VersionEntries, ApplyAll, Recovered;
    var d' := AfterFailedOpens(d, tables, logs);
    forall l, f | 0 <= l < NUM_LEVELS && f in target[l] ensures OnDisk(f, d'.tables) {
      assert f.number in Published(d.base, d.changes);
    }
    EmptyLogsHoldNothing(d, tables, logs);
  }

  lemma EmptyLogsHoldNothing(d: Disk, tables: map<nat, seq<Entry>>, logs: set<nat>)
    requires forall n :: n in logs ==> n !in d.logs
    ensures LogEntries(AfterFailedOpens(d, tables, logs).logs, d.logNumber) == LogEntries(d.logs, d.logNumber)
  {
    var d' := AfterFailedOpens(d, tables, logs);
    forall n, e | n in d.logs && d.logNumber <= n && e in d.logs[n] ensures e in LogEntries(d'.logs, d.logNumber) {
      assert d'.logs[n] == d.logs[n];
    }
  }

  /** A crash at any moment, any number of openings that crash in turn, and one that succeeds. */
  lemma ReopenOk(s: State, tables: map<nat, seq<Entry>>, logs: set<nat>, chunks: seq<seq<Entry>>, files: seq<File>, newLog: nat)
    requires Inv(s) && LeftByFailedOpens(s.disk, tables, logs)
    requires CanReopen(AfterFailedOpens(s.disk, tables, logs), chunks, files, newLog)
    ensures Inv(Reopen(s.(disk := AfterFailedOpens(s.disk, tables, logs)), files, newLog))
  {
    hide Inv, RecordedOk, RecoveredEntries, RecoveredVersion, LogsFrom, WriteTables, AllEntries, SameAnswers, FileOk, Concat, Apply, JustOpened,
      VersionEntries;
    var d', v := AfterFailedOpens(s.disk, tables, logs), RecoveredVersion(s.disk);
    var s' := Reopen(s.(disk := d'), files, newLog);
    EmptyLogsReplayNothing(s.disk, logs, s.disk.logNumber, newLog);
    SameLogs(s.disk, tables, logs);
    assert CanReopen(s.disk, chunks, files, newLog);
    DiskIsRecorded(s);
    FailedOpensLoseNothing(s.disk, v, tables, logs);
    ReopenFilesOk(s, chunks, files, newLog);
    ReopenRecorded(d', v, files, newLog, s'.disk);
    ReopenIsJustOpened(s.(disk := d'), files, newLog);
    ReopenAnswers(s, chunks, files, newLog);
    RecoveredSequence(s, newLog);
    SameReopened(s, d', files, newLog);
    JustOpenedOk(s');
  }

  lemma SameLogs(d: Disk, tables: map<nat, seq<Entry>>, logs: set<nat>)
    requires LeftByFailedOpens(d, tables, logs)
    ensures AfterFailedOpens(d, tables, logs).logs == AfterFailedOpens(d, map[], logs).logs
    ensures forall n :: n in d.logs ==> n in AfterFailedOpens(d, tables, logs).logs
  {
  }

  lemma DiskIsRecorded(s: State)
    requires Inv(s)
    ensures RecordedOk(s.disk, RecoveredVersion(s.disk)) && Distinct(s.logged)
  {
    RecoversTarget(s.disk, Target(s.current, s.flush, s.work));
  }

  lemma SameReopened(s: State, d: Disk, files: seq<File>, newLog: nat)
    requires RecoveredVersion(d) == RecoveredVersion(s.disk) && d.lastSeqno == s.disk.lastSeqno && d.logNumber == s.disk.logNumber
    requires LogsFrom(d.logs, d.logNumber, newLog) == LogsFrom(s.disk.logs, d.logNumber, newLog)
    ensures
      var s1, s2 := Reopen(s, files, newLog), Reopen(s.(disk := d), files, newLog);
      && AllEntries(s2) == AllEntries(s1) && s2.current == s1.current && s2.history == s1.history && s2.floor == s1.floor
      && s2.lastSeqno == s1.lastSeqno && VersionEntries(s2.current) <= AllEntries(s1)
  {
  }
}
