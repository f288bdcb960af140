/** The running database as a state machine.  Every region the code runs under its mutex is one
    step, a region is split where the mutex is released, and disk writes made without the mutex
    are steps of their own.  A crash can fall between any two steps. */
module Store {
  import opened Keys
  import opened Versions
  import opened Compactions
  import opened CompactionWork
  import opened Builders
  import opened ManifestReplay
  import opened Tree
  import opened CompactionSteps
  import opened CompactionInstall

  /** What survives a crash: the log files, the table files, and the manifest CURRENT points to,
      as its leading snapshot, the changes recorded since, and the last recorded counters. */
  datatype Disk = Disk(
    logs: map<nat, seq<Entry>>,
    tables: map<nat, seq<Entry>>,
    base: Version,
    changes: seq<Change>,
    logNumber: nat,
    lastSeqno: SequenceNumber,
    nextFile: nat)

  /** The front writer: idle, holding a group it has not logged, or inserting a logged group. */
  datatype Writer =
    | Idle
    | Grouped(batch: seq<Entry>)
    | Inserting(batch: seq<Entry>, done: nat, last: SequenceNumber)

  /** What LogAndApply copies into the edit before it releases the mutex. */
  datatype Counters = Counters(lastSeqno: SequenceNumber, nextFile: nat)

  /** CompactMemTable: an empty memtable produces no file. */
  datatype Flushing =
    | NoFlush
    | FlushBuilding(number: nat)
    | FlushBuilt(number: nat, file: Option<File>)
    | FlushLogging(level: nat, file: Option<File>, edit: Counters)
    | FlushInstalling(level: nat, file: Option<File>)

  /** A compaction's inputs, with `input` what the merging iterator over them yields. */
  datatype Job = Job(base: Version, level: nat, in0: seq<File>, in1: seq<File>, input: seq<Entry>, smallest: SequenceNumber)

  datatype Working =
    | NoWork
    | Compacting(job: Job, outs: seq<File>, building: Option<nat>)
    | WorkLogging(job: Job, outs: seq<File>, edit: Counters)
    | WorkInstalling(job: Job, outs: seq<File>)

  /** A Get or an iterator that has taken its references and released the mutex. */
  datatype Reader = Reader(at: SequenceNumber, mem: nat, imm: Option<nat>, version: Version)

  datatype State = State(
    disk: Disk,
    mems: map<nat, set<Entry>>,       // every memtable that has existed, by identity
    mem: nat,
    imm: Option<nat>,
    logfileNumber: nat,
    logNumber: nat,
    lastSeqno: SequenceNumber,
    nextFile: nat,
    current: Version,
    snapshots: seq<SequenceNumber>,   // in the order of the snapshot list
    pending: set<nat>,
    writer: Writer,
    flush: Flushing,
    work: Working,
    readers: seq<Reader>,
    // history variables: no step depends on them
    history: set<Entry>,              // inserted into a memtable
    logged: set<Entry>,               // appended to a log
    floor: SequenceNumber)            // the largest smallest_snapshot of an installed compaction

  // ---- views ----

  ghost function MemEntries(mems: map<nat, set<Entry>>, m: nat): set<Entry> {
    if m in mems then mems[m] else {}
  }

  ghost function ImmEntries(mems: map<nat, set<Entry>>, imm: Option<nat>): set<Entry> {
    match imm
    case Some(m) => MemEntries(mems, m)
    case None => {}
  }

  ghost function Unflushed(s: State): set<Entry> {
    MemEntries(s.mems, s.mem) + ImmEntries(s.mems, s.imm)
  }

  /** What a logged group still has to insert. */
  ghost function Todo(w: Writer): set<Entry> {
    if w.Inserting? && w.done <= |w.batch| then ToSet(w.batch[w.done..]) else {}
  }

  ghost function AllEntries(s: State): set<Entry> {
    VersionEntries(s.current) + Unflushed(s)
  }

  ghost function ReaderView(mems: map<nat, set<Entry>>, r: Reader): set<Entry> {
    VersionEntries(r.version) + (MemEntries(mems, r.mem) + ImmEntries(mems, r.imm))
  }

  ghost function LogEntries(logs: map<nat, seq<Entry>>, from: nat): set<Entry> {
    set n, e | n in logs && from <= n && e in logs[n] :: e
  }

  function DurableVersion(d: Disk): Version {
    ApplyAll(d.base, d.changes)
  }

  function FlushEdit(level: nat, file: Option<File>): Change {
    if file.Some? then FlushChange(level, file.value) else Change({}, [])
  }

  function WorkEdit(job: Job, outs: seq<File>): Change {
    InstallChange(job.level, job.in0, job.in1, outs)
  }

  /** The version the manifest describes: one edit ahead while an edit is being installed. */
  function Target(current: Version, flush: Flushing, work: Working): Version {
    if flush.FlushInstalling? then Apply(current, FlushEdit(flush.level, flush.file))
    else if work.WorkInstalling? then Apply(current, WorkEdit(work.job, work.outs))
    else current
  }

  ghost function ImmSet(s: State): Option<set<Entry>> {
    if s.imm.Some? then Some(ImmEntries(s.mems, s.imm)) else None
  }

  // ---- file numbers ----

  function Published(base: Version, changes: seq<Change>): set<nat> {
    set l: nat, n | 0 <= l < NUM_LEVELS && n in KnownAt(base, changes, l) :: n
  }

  lemma KnownIsPublished(base: Version, changes: seq<Change>, level: nat)
    requires level < NUM_LEVELS
    ensures KnownAt(base, changes, level) <= Published(base, changes)
  {
  }

  // ---- invariants, each over the components it needs ----

  ghost predicate Consecutive(es: seq<Entry>, after: nat) {
    forall i :: 0 <= i < |es| ==> es[i].key.seqno == after + 1 + i
  }

  ghost predicate UpTo(es: set<Entry>, seqno: nat) {
    forall e :: e in es ==> e.key.seqno <= seqno
  }

  /** Sequence numbers are handed out once, in order, group by group. */
  ghost predicate WriterOk(w: Writer, history: set<Entry>, logged: set<Entry>, lastSeqno: SequenceNumber) {
    && Distinct(logged)
    && logged == history + Todo(w)
    && lastSeqno < MAX_SEQUENCE
    && match w
       case Idle => UpTo(logged, lastSeqno)
       case Grouped(batch) => UpTo(logged, lastSeqno) && lastSeqno + |batch| < MAX_SEQUENCE && Consecutive(batch, lastSeqno)
       case Inserting(batch, done, last) =>
         && done <= |batch| && lastSeqno + |batch| == last < MAX_SEQUENCE
         && Consecutive(batch, lastSeqno)
         && ToSet(batch[..done]) <= history && UpTo(history - ToSet(batch[..done]), lastSeqno)
  }

  ghost predicate AllNewer(xs: set<Entry>, es: set<Entry>) {
    forall x, e :: x in xs && e in es ==> x.key.seqno > e.key.seqno
  }

  ghost predicate MemsOk(mems: map<nat, set<Entry>>, mem: nat, imm: Option<nat>, history: set<Entry>, lastSeqno: SequenceNumber) {
    && mem in mems
    && (imm.Some? ==> imm.value in mems && imm.value != mem)
    && (forall m :: m in mems ==> m <= mem && mems[m] <= history)
    && UpTo(ImmEntries(mems, imm), lastSeqno)
  }

  /** Tables hold older entries than the immutable memtable, which holds older ones than mem. */
  ghost predicate OrderOk(current: Version, imm: set<Entry>, mem: set<Entry>, history: set<Entry>) {
    && VersionEntries(current) <= history
    && AllNewer(imm, VersionEntries(current))
    && AllNewer(mem, VersionEntries(current))
    && AllNewer(mem, imm)
  }

  ghost predicate SnapshotsOk(snapshots: seq<SequenceNumber>, lastSeqno: SequenceNumber, floor: SequenceNumber) {
    && floor <= lastSeqno
    && (forall i :: 0 <= i < |snapshots| ==> floor <= snapshots[i] <= lastSeqno)
    && forall i, j :: 0 <= i < j < |snapshots| ==> snapshots[i] <= snapshots[j]
  }

  ghost predicate TreeOk(v: Version) {
    TreeInv(v) && Listed(v)
  }

  ghost predicate OnDisk(f: File, tables: map<nat, seq<Entry>>) {
    f.number in tables && tables[f.number] == f.entries
  }

  /** Every file of the version is published and its table is on disk. */
  ghost predicate Stored(v: Version, tables: map<nat, seq<Entry>>, published: set<nat>) {
    && |v| == NUM_LEVELS
    && forall l, f :: 0 <= l < NUM_LEVELS && f in v[l] ==> f.number in published && OnDisk(f, tables)
  }

  ghost predicate ReaderOk(r: Reader, mems: map<nat, set<Entry>>, history: set<Entry>, lastSeqno: SequenceNumber,
                           tables: map<nat, seq<Entry>>, published: set<nat>) {
    && r.at <= lastSeqno
    && r.mem in mems && (r.imm.Some? ==> r.imm.value in mems && r.imm.value < r.mem)
    && TreeOk(r.version) && Stored(r.version, tables, published)
    && OrderOk(r.version, ImmEntries(mems, r.imm), MemEntries(mems, r.mem), history)
    && forall user: UserKey :: Lookup(ReaderView(mems, r), user, r.at) == Lookup(history, user, r.at)
  }

  ghost predicate ReadersOk(readers: seq<Reader>, mems: map<nat, set<Entry>>, history: set<Entry>, lastSeqno: SequenceNumber,
                            tables: map<nat, seq<Entry>>, published: set<nat>) {
    forall r :: r in readers ==> ReaderOk(r, mems, history, lastSeqno, tables, published)
  }

  ghost predicate Increasing(es: seq<Entry>) {
    forall i, j :: 0 <= i < j < |es| ==> es[i].key.seqno < es[j].key.seqno
  }

  ghost predicate LogsOk(logs: map<nat, seq<Entry>>, logNumber: nat, logfileNumber: nat, nextFile: nat,
                         mem: set<Entry>, imm: Option<set<Entry>>) {
    && logfileNumber in logs && ToSet(logs[logfileNumber]) == mem && Increasing(logs[logfileNumber])
    && logfileNumber < nextFile
    && (imm.None? ==> logNumber == logfileNumber)
    && (imm.Some? ==>
          && logNumber < logfileNumber && logNumber in logs
          && ToSet(logs[logNumber]) == imm.value && Increasing(logs[logNumber]))
    && forall n :: n in logs && logNumber <= n ==> n == logNumber || n == logfileNumber
  }

  ghost predicate ManifestOk(base: Version, changes: seq<Change>, nextFile: nat) {
    && |base| == NUM_LEVELS
    && (forall l :: 0 <= l < NUM_LEVELS ==> Numbered(base[l]) && AddedOnce(Numbers(base[l]), l, changes))
    && (forall n :: n in Published(base, changes) ==> n < nextFile)
  }

  /** A file number never returns to a level it has left: files only move down. */
  ghost predicate MovesDown(v: Version, base: Version, changes: seq<Change>) {
    && |v| == NUM_LEVELS
    && (forall l, f :: 0 <= l < NUM_LEVELS && f in v[l] ==> f.number in KnownAt(base, changes, l))
    && (forall l, m, f :: 0 <= l < m < NUM_LEVELS && f in v[l] ==> f.number !in KnownAt(base, changes, m))
  }

  /** The manifest: well numbered, and describing `target`. */
  ghost predicate RecordedOk(d: Disk, target: Version) {
    && ManifestOk(d.base, d.changes, d.nextFile)
    && DurableVersion(d) == target
    && TreeOk(target) && Stored(target, d.tables, Published(d.base, d.changes)) && MovesDown(target, d.base, d.changes)
  }

  /** The counters a recovery starts from. */
  ghost predicate CountersOk(d: Disk, logNumber: nat, nextFile: nat, lastSeqno: SequenceNumber, logged: set<Entry>) {
    && d.logNumber == logNumber
    && d.nextFile <= nextFile
    && d.lastSeqno <= lastSeqno
    && forall e :: e in logged ==> e.key.seqno <= d.lastSeqno || e in LogEntries(d.logs, d.logNumber)
  }

  ghost predicate Unused(n: nat, published: set<nat>, nextFile: nat) {
    n < nextFile && n !in published
  }

  ghost predicate IsTableOf(file: Option<File>, es: set<Entry>) {
    match file
    case Some(f) => FileOk(f) && FileEntries(f) == es
    case None => es == {}
  }

  ghost predicate NewNumber(n: nat, v: Version) {
    forall l, g :: 0 <= l < |v| && g in v[l] ==> g.number < n
  }

  ghost predicate FlushOk(flush: Flushing, imm: Option<set<Entry>>, pending: set<nat>, current: Version,
                          tables: map<nat, seq<Entry>>, published: set<nat>, nextFile: nat) {
    && (!flush.NoFlush? ==> imm.Some?)
    && match flush
       case NoFlush => true
       case FlushBuilding(n) => n in pending && Unused(n, published, nextFile) && NewNumber(n, current)
       case FlushBuilt(n, file) =>
         && IsTableOf(file, imm.value) && n in pending && Unused(n, published, nextFile) && NewNumber(n, current)
         && (file.Some? ==> file.value.number == n && OnDisk(file.value, tables))
       case FlushLogging(level, file, edit) =>
         && level < NUM_LEVELS && IsTableOf(file, imm.value) && UpTo(imm.value, edit.lastSeqno)
         && (file.Some? ==> Flushable(current, level, file.value) && Unused(file.value.number, published, edit.nextFile) && OnDisk(file.value, tables))
       case FlushInstalling(level, file) =>
         && IsTableOf(file, imm.value)
         && (file.Some? ==> Flushable(current, level, file.value))
  }

  // ---- compactions ----

  function KeptEntries(job: Job): seq<Entry> {
    Kept(job.input, SCAN_START, job.base, job.level, job.smallest)
  }

  ghost predicate JobOk(job: Job, current: Version, snapshots: seq<SequenceNumber>, lastSeqno: SequenceNumber,
                        tables: map<nat, seq<Entry>>, published: set<nat>) {
    && CompactionOk(job.base, current, job.level, job.in0, job.in1, job.smallest)
    && job.in0 != [] && FlushSafe(current, job.level, job.in0, job.in1)
    && FilesOk(job.base) && Stored(job.base, tables, published)
    && SortedEntries(job.input) && ToSet(job.input) == InputEntries(job.in0, job.in1)
    && job.smallest <= lastSeqno
    && forall i :: 0 <= i < |snapshots| ==> job.smallest <= snapshots[i]
  }

  /** Finished outputs: tables on disk under numbers nobody else uses. */
  ghost predicate OutputsStored(outs: seq<File>, pending: set<nat>, tables: map<nat, seq<Entry>>, published: set<nat>, nextFile: nat) {
    && (forall f :: f in outs ==> FileOk(f) && f.number in pending && Unused(f.number, published, nextFile) && OnDisk(f, tables))
    && SortedLevel(outs)
    && forall i, j :: 0 <= i < j < |outs| ==> outs[i].number != outs[j].number
  }

  ghost predicate IsMove(job: Job, outs: seq<File>) {
    |job.in0| == 1 && job.in1 == [] && outs == job.in0
  }

  ghost predicate Finished(job: Job, outs: seq<File>) {
    IsMove(job, outs) || (Flat(outs) == KeptEntries(job) && SortedLevel(outs) && forall f :: f in outs ==> FileOk(f))
  }

  ghost predicate WorkOk(work: Working, current: Version, snapshots: seq<SequenceNumber>, lastSeqno: SequenceNumber, pending: set<nat>,
                         tables: map<nat, seq<Entry>>, published: set<nat>, nextFile: nat) {
    match work
    case NoWork => true
    case Compacting(job, outs, building) =>
      && JobOk(job, current, snapshots, lastSeqno, tables, published)
      && OutputsStored(outs, pending, tables, published, nextFile)
      && Flat(outs) <= KeptEntries(job)
      && (building.Some? ==>
            && building.value in pending && Unused(building.value, published, nextFile)
            && forall f :: f in outs ==> f.number != building.value)
    case WorkLogging(job, outs, edit) =>
      && JobOk(job, current, snapshots, lastSeqno, tables, published)
      && Finished(job, outs)
      && (!IsMove(job, outs) ==> OutputsStored(outs, pending, tables, published, edit.nextFile))
    case WorkInstalling(job, outs) =>
      && JobOk(job, current, snapshots, lastSeqno, tables, published)
      && Finished(job, outs)
      && TreeOk(Apply(current, WorkEdit(job, outs)))
      && ReplacedBy(current, Apply(current, WorkEdit(job, outs)), job.level, job.in0, job.in1, outs)
  }

  /** One background thread: a flush runs alone or inside the loop of a compaction. */
  ghost predicate OneThread(flush: Flushing, work: Working) {
    !flush.NoFlush? ==> work.NoWork? || work.Compacting?
  }

  /** A flush and a compaction in progress write different tables. */
  ghost predicate SeparateNumbers(flush: Flushing, work: Working) {
    work.Compacting? ==>
      match flush
      case FlushBuilding(n) => (forall f :: f in work.outs ==> f.number != n) && work.building != Some(n)
      case FlushBuilt(n, _) => (forall f :: f in work.outs ==> f.number != n) && work.building != Some(n)
      case FlushLogging(_, file, _) => file.Some? ==> (forall f :: f in work.outs ==> f.number != file.value.number) && work.building != Some(file.value.number)
      case _ => true
  }

  /** The counters an unwritten edit carries lie between the recorded and the current ones. */
  ghost predicate EditOk(edit: Counters, d: Disk, lastSeqno: SequenceNumber, nextFile: nat) {
    d.lastSeqno <= edit.lastSeqno <= lastSeqno && d.nextFile <= edit.nextFile <= nextFile
  }

  ghost predicate EditsOk(flush: Flushing, work: Working, d: Disk, lastSeqno: SequenceNumber, nextFile: nat) {
    && (flush.FlushLogging? ==> EditOk(flush.edit, d, lastSeqno, nextFile))
    && (work.WorkLogging? ==> EditOk(work.edit, d, lastSeqno, nextFile))
  }

  ghost predicate Inv(s: State) {
    && WriterOk(s.writer, s.history, s.logged, s.lastSeqno)
    && MemsOk(s.mems, s.mem, s.imm, s.history, s.lastSeqno)
    && OrderOk(s.current, ImmEntries(s.mems, s.imm), MemEntries(s.mems, s.mem), s.history)
    && SnapshotsOk(s.snapshots, s.lastSeqno, s.floor)
    && TreeOk(s.current) && Stored(s.current, s.disk.tables, Published(s.disk.base, s.disk.changes))
    && SameAnswers(AllEntries(s), s.history, s.floor)
    && ReadersOk(s.readers, s.mems, s.history, s.lastSeqno, s.disk.tables, Published(s.disk.base, s.disk.changes))
    && LogsOk(s.disk.logs, s.logNumber, s.logfileNumber, s.nextFile, MemEntries(s.mems, s.mem) + Todo(s.writer), ImmSet(s))
    && RecordedOk(s.disk, Target(s.current, s.flush, s.work))
    && CountersOk(s.disk, if s.flush.FlushInstalling? then s.logfileNumber else s.logNumber, s.nextFile, s.lastSeqno, s.logged)
    && FlushOk(s.flush, ImmSet(s), s.pending, s.current, s.disk.tables, Published(s.disk.base, s.disk.changes), s.nextFile)
    && WorkOk(s.work, s.current, s.snapshots, s.lastSeqno, s.pending, s.disk.tables, Published(s.disk.base, s.disk.changes), s.nextFile)
    && OneThread(s.flush, s.work) && SeparateNumbers(s.flush, s.work)
    && EditsOk(s.flush, s.work, s.disk, s.lastSeqno, s.nextFile)
  }
}
