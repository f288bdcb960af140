/** DBImpl::Write with many writers: the queue, the groups the front writer commits for those
    behind it, and what failures do.  Regions under the mutex are single steps; the log append,
    the sync and each memtable insertion, which run without it, are steps of their own. */
module GroupCommit {
  import opened Keys

  datatype Op = Op(kind: Kind, key: UserKey, value: Value)

  /** A batch with the size of its representation. */
  datatype Batch = Batch(ops: seq<Op>, bytes: nat)

  /** A writer without a batch only waits for the writes before it. */
  datatype Writer = Writer(batch: Option<Batch>, sync: bool)

  // ---- BuildBatchGroup ----

  function OpsOf(w: Writer): seq<Op> {
    if w.batch.Some? then w.batch.value.ops else []
  }

  function BytesOf(w: Writer): nat {
    if w.batch.Some? then w.batch.value.bytes else 0
  }

  function Ops(ws: seq<Writer>): seq<Op> {
    if ws == [] then [] else Ops(ws[..|ws| - 1]) + OpsOf(ws[|ws| - 1])
  }

  function Bytes(ws: seq<Writer>): nat {
    if ws == [] then 0 else Bytes(ws[..|ws| - 1]) + BytesOf(ws[|ws| - 1])
  }

  const SMALL: nat := 0x2_0000
  const LARGE: nat := 0x10_0000

  /** A small leading write is not slowed down much by what joins it. */
  function MaxBytes(first: nat): nat {
    if first <= SMALL then first + SMALL else LARGE
  }

  /** The first `n` writers form the group: no sync write under a leader that does not sync, no
      batch that makes the group too big, and no writer left out that could have joined. */
  ghost predicate IsGroup(queue: seq<Writer>, n: nat) {
    && 1 <= n <= |queue| && queue[0].batch.Some?
    && (forall j :: 1 <= j < n ==> Joins(queue, j))
    && (n < |queue| ==> !Joins(queue, n))
  }

  predicate Joins(queue: seq<Writer>, j: nat)
    requires j < |queue|
  {
    && (queue[j].sync ==> queue[0].sync)
    && (queue[j].batch.Some? ==> Bytes(queue[..j + 1]) <= MaxBytes(BytesOf(queue[0])))
  }

  lemma GroupGrows(queue: seq<Writer>, n: nat)
    requires n < |queue|
    ensures Ops(queue[..n + 1]) == Ops(queue[..n]) + OpsOf(queue[n])
    ensures Bytes(queue[..n + 1]) == Bytes(queue[..n]) + BytesOf(queue[n])
  {
    assert queue[..n + 1][..n] == queue[..n];
  }

  method BuildBatchGroup(queue: seq<Writer>) returns (updates: seq<Op>, n: nat)
    requires queue != [] && queue[0].batch.Some?
    ensures IsGroup(queue, n) && updates == Ops(queue[..n])
  {
    assert Ops([]) == [] && Bytes([]) == 0;
    hide Ops, Bytes;
    var first := queue[0];
    updates := first.batch.value.ops;
    var size := first.batch.value.bytes;
    var maxSize := LARGE;
    if size <= SMALL {
      maxSize := size + SMALL;
    }
    GroupGrows(queue, 0);
    n := 1;
    while n < |queue|
      invariant 1 <= n <= |queue|
      invariant updates == Ops(queue[..n]) && size == Bytes(queue[..n])
      invariant forall j :: 1 <= j < n ==> Joins(queue, j)
    {
      var w := queue[n];
      GroupGrows(queue, n);
      if w.sync && !first.sync {
        break;
      }
      if w.batch.Some? {
        size := size + w.batch.value.bytes;
        if size > maxSize {
          break;
        }
        updates := updates + w.batch.value.ops;
      }
      n := n + 1;
    }
  }

  // ---- the writers together ----

  /** A record of the log: the batches of writers `from` up to `to`, in order of arrival, with
      sequence numbers from `first` on. */
  datatype Record = Record(first: nat, from: nat, to: nat, ops: seq<Op>)

  datatype Phase =
    | NoLeader
    | MakingRoom
    | Built(record: Record)
    | Logged(record: Record)
    | Inserting(record: Record, done: nat)
    | Failing(record: Record, syncError: bool)

  datatype State = State(
    arrivals: seq<Writer>,     // everyone who ever called Write, in the order of the queue
    results: seq<bool>,        // whether Write succeeded, for those no longer in the queue
    phase: Phase,
    log: seq<Record>,          // what was appended to the logs
    fileStart: nat,            // the first record of the current log file
    synced: set<nat>,          // the records a sync has covered
    mem: seq<Entry>,           // insertions into memtables, in order
    lastSeqno: nat,
    broken: bool,              // bg_error_
    committed: seq<Record>)    // history: the records whose writers were told of success

  datatype Event =
    | Arrive(writer: Writer)
    | BecomeLeader
    | SwitchLog
    | RoomFails
    | NothingToWrite
    | BuildGroup(n: nat)
    | AppendRecord
    | AppendFails
    | SyncLog
    | SyncFails
    | StartInserting
    | InsertOne
    | Finish
    | GiveUp
    | BackgroundError

  predicate HasRecord(p: Phase) {
    p.Built? || p.Logged? || p.Inserting? || p.Failing?
  }

  function EntryOf(op: Op, seqno: SequenceNumber): Entry {
    Entry(InternalKey(op.key, seqno, op.kind), op.value)
  }

  predicate InRange(r: Record) {
    r.first + |r.ops| <= MAX_SEQUENCE
  }

  /** WriteBatch::Iterate numbers the operations of the group one after the other. */
  function Entries(r: Record): (es: seq<Entry>)
    requires InRange(r)
    ensures |es| == |r.ops|
  {
    seq(|r.ops|, i requires 0 <= i < |r.ops| => EntryOf(r.ops[i], r.first + i))
  }

  function Copies(b: bool, n: nat): (r: seq<bool>)
    ensures |r| == n
  {
    seq(n, _ => b)
  }

  function Upto(lo: nat, hi: nat): (r: set<nat>)
    ensures forall k :: k in r <==> lo <= k < hi
    decreases hi - lo
  {
    if lo < hi then {lo} + Upto(lo + 1, hi) else {}
  }

  ghost predicate Enabled(s: State, ev: Event) {
    match ev
    case Arrive(_) => true
    case BecomeLeader => s.phase.NoLeader? && |s.results| < |s.arrivals|
    case SwitchLog => s.phase.MakingRoom? && !s.broken
    case RoomFails => s.phase.MakingRoom?
    case NothingToWrite => s.phase.MakingRoom? && !s.broken && |s.results| < |s.arrivals| && s.arrivals[|s.results|].batch.None?
    case BuildGroup(n) =>
      && s.phase.MakingRoom? && !s.broken && |s.results| <= |s.arrivals|
      && IsGroup(s.arrivals[|s.results|..], n)
      && s.lastSeqno + 1 + |Ops(s.arrivals[|s.results|..][..n])| <= MAX_SEQUENCE
    case AppendRecord => s.phase.Built?
    case AppendFails => s.phase.Built?
    case SyncLog => s.phase.Logged? && Syncs(s)
    case SyncFails => s.phase.Logged? && Syncs(s)
    case StartInserting => s.phase.Logged? && InRange(s.phase.record) && (Syncs(s) ==> |s.log| - 1 in s.synced)
    case InsertOne => s.phase.Inserting? && InRange(s.phase.record) && s.phase.done < |s.phase.record.ops|
    case Finish => s.phase.Inserting? && s.phase.done == |s.phase.record.ops| && Covers(s)
    case GiveUp => s.phase.Failing? && Covers(s)
    case BackgroundError => true
  }

  /** options.sync of the leader */
  predicate Syncs(s: State) {
    HasRecord(s.phase) && s.phase.record.from < |s.arrivals| && s.arrivals[s.phase.record.from].sync
  }

  predicate Covers(s: State) {
    HasRecord(s.phase) && s.phase.record.from < s.phase.record.to
  }

  ghost function Next(s: State, ev: Event): State
    requires Enabled(s, ev)
  {
    match ev
    case Arrive(w) => s.(arrivals := s.arrivals + [w])
    case BecomeLeader => s.(phase := MakingRoom)
    case SwitchLog => s.(fileStart := |s.log|)
    case RoomFails => s.(phase := NoLeader, results := s.results + [false])
    case NothingToWrite => s.(phase := NoLeader, results := s.results + [true])
    case BuildGroup(n) =>
      var from := |s.results|;
      s.(phase := Built(Record(s.lastSeqno + 1, from, from + n, Ops(s.arrivals[from..][..n]))))
    case AppendRecord => s.(log := s.log + [s.phase.record], phase := Logged(s.phase.record))
    case AppendFails => s.(phase := Failing(s.phase.record, false))
    case SyncLog => s.(synced := s.synced + Upto(s.fileStart, |s.log|))
    case SyncFails => s.(phase := Failing(s.phase.record, true))
    case StartInserting => s.(phase := Inserting(s.phase.record, 0))
    case InsertOne =>
      var r, k := s.phase.record, s.phase.done;
      s.(mem := s.mem + [Entries(r)[k]], phase := Inserting(r, k + 1))
    case Finish =>
      var r := s.phase.record;
      s.(phase := NoLeader, results := s.results + Copies(true, r.to - r.from),
         lastSeqno := s.lastSeqno + |r.ops|, committed := s.committed + [r])
    case GiveUp =>
      var r := s.phase.record;
      s.(phase := NoLeader, results := s.results + Copies(false, r.to - r.from),
         lastSeqno := s.lastSeqno + |r.ops|, broken := s.broken || s.phase.syncError)
    case BackgroundError => s.(broken := true)
  }

  // ---- the invariant ----

  /** The operations of the writers that were told of success, in order of arrival. */
  function AckedOps(arrivals: seq<Writer>, results: seq<bool>): seq<Op>
    requires |results| <= |arrivals|
  {
    if results == [] then []
    else
      var last := |results| - 1;
      AckedOps(arrivals, results[..last]) + if results[last] then OpsOf(arrivals[last]) else []
  }

  function RecordsOps(rs: seq<Record>): seq<Op> {
    if rs == [] then [] else RecordsOps(rs[..|rs| - 1]) + rs[|rs| - 1].ops
  }

  function RecordsEntries(rs: seq<Record>): seq<Entry>
    requires forall i :: 0 <= i < |rs| ==> InRange(rs[i])
  {
    if rs == [] then [] else RecordsEntries(rs[..|rs| - 1]) + Entries(rs[|rs| - 1])
  }

  /** A record holds what its writers wrote, and only a syncing leader's group has sync writes. */
  ghost predicate RecordOk(r: Record, arrivals: seq<Writer>) {
    && r.from < r.to <= |arrivals| && InRange(r)
    && r.ops == Ops(arrivals[r.from..r.to])
    && forall j :: r.from <= j < r.to && arrivals[j].sync ==> arrivals[r.from].sync
  }

  /** Records follow each other in the queue's order, with sequence numbers that do not overlap. */
  ghost predicate Ordered(rs: seq<Record>) {
    forall i, j :: 0 <= i < j < |rs| ==> rs[i].to <= rs[j].from && rs[i].first + |rs[i].ops| <= rs[j].first
  }

  ghost predicate RecordsOk(rs: seq<Record>, arrivals: seq<Writer>, popped: nat, lastSeqno: nat) {
    && Ordered(rs)
    && forall i :: 0 <= i < |rs| ==> RecordOk(rs[i], arrivals) && rs[i].to <= popped && rs[i].first + |rs[i].ops| <= lastSeqno + 1
  }

  /** The records in the log are the committed ones, then possibly the current one, or one whose
      sync failed, after which nothing is committed any more. */
  ghost predicate LogOk(s: State) {
    match s.phase
    case Logged(r) => s.log == s.committed + [r]
    case Inserting(r, _) => s.log == s.committed + [r]
    case Failing(r, syncError) => if syncError then s.log == s.committed + [r] else s.log == s.committed
    case Built(_) => s.log == s.committed
    case NoLeader => s.log == s.committed || (s.broken && |s.log| == |s.committed| + 1 && s.committed <= s.log)
    case MakingRoom => s.log == s.committed || (s.broken && |s.log| == |s.committed| + 1 && s.committed <= s.log)
  }

  ghost predicate MemOk(s: State)
    requires RecordsOk(s.committed, s.arrivals, |s.results|, s.lastSeqno)
  {
    s.mem == RecordsEntries(s.committed) +
      if s.phase.Inserting? && InRange(s.phase.record) && s.phase.done <= |s.phase.record.ops| then Entries(s.phase.record)[..s.phase.done] else []
  }

  ghost predicate PhaseOk(s: State) {
    && |s.results| <= |s.arrivals|
    && (!s.phase.NoLeader? ==> |s.results| < |s.arrivals|)
    && (HasRecord(s.phase) ==>
          && RecordOk(s.phase.record, s.arrivals)
          && s.phase.record.from == |s.results| && s.phase.record.first == s.lastSeqno + 1)
    && (s.phase.Inserting? ==> s.phase.done <= |s.phase.record.ops| && (Syncs(s) ==> |s.log| - 1 in s.synced))
  }

  ghost predicate SyncOk(s: State) {
    && s.fileStart <= |s.committed|
    && (s.log == s.committed || s.fileStart < |s.log|)
    && forall i :: 0 <= i < |s.committed| && s.committed[i].from < |s.arrivals| && s.arrivals[s.committed[i].from].sync ==> i in s.synced
  }

  ghost predicate Covered(rs: seq<Record>, w: nat) {
    exists k :: 0 <= k < |rs| && rs[k].from <= w < rs[k].to
  }

  /** A writer with a batch that was told of success has its batch in a committed record. */
  ghost predicate AckedCovered(rs: seq<Record>, arrivals: seq<Writer>, results: seq<bool>) {
    forall w :: 0 <= w < |results| && w < |arrivals| && results[w] && arrivals[w].batch.Some? ==> Covered(rs, w)
  }

  ghost predicate Inv(s: State) {
    && PhaseOk(s) && AckedCovered(s.committed, s.arrivals, s.results)
    && RecordsOk(s.committed, s.arrivals, |s.results|, s.lastSeqno)
    && LogOk(s) && MemOk(s) && SyncOk(s)
    && RecordsOps(s.committed) == AckedOps(s.arrivals, s.results)
  }

  function Start(): State {
    State([], [], NoLeader, [], 0, {}, [], 0, false, [])
  }

  // ---- every step keeps the invariant ----

  lemma RecordStays(r: Record, arrivals: seq<Writer>, w: Writer)
    requires RecordOk(r, arrivals)
    ensures RecordOk(r, arrivals + [w])
  {
    assert (arrivals + [w])[r.from..r.to] == arrivals[r.from..r.to];
  }

  lemma {:induction false} AckedStay(arrivals: seq<Writer>, w: Writer, results: seq<bool>)
    requires |results| <= |arrivals|
    ensures AckedOps(arrivals + [w], results) == AckedOps(arrivals, results)
  {
    if results != [] {
      AckedStay(arrivals, w, results[..|results| - 1]);
    }
  }

  lemma OpsLast(ws: seq<Writer>)
    ensures Ops([]) == []
    ensures ws != [] ==> Ops(ws) == Ops(ws[..|ws| - 1]) + OpsOf(ws[|ws| - 1])
  {
  }

  lemma AckedLast(arrivals: seq<Writer>, results: seq<bool>)
    requires 0 < |results| <= |arrivals|
    ensures
      var last := |results| - 1;
      AckedOps(arrivals, results) == AckedOps(arrivals, results[..last]) + if results[last] then OpsOf(arrivals[last]) else []
  {
  }

  lemma {:induction false} AckedMore(arrivals: seq<Writer>, results: seq<bool>, b: bool, n: nat)
    requires |results| + n <= |arrivals|
    ensures AckedOps(arrivals, results + Copies(b, n)) ==
      AckedOps(arrivals, results) + if b then Ops(arrivals[|results|..|results| + n]) else []
  {
    hide Ops, AckedOps, OpsOf;
    var more := results + Copies(b, n);
    var group := arrivals[|results|..|results| + n];
    OpsLast(group);
    if n == 0 {
      assert more == results && group == [];
    } else {
      var last := |more| - 1;
      AckedMore(arrivals, results, b, n - 1);
      AckedLast(arrivals, more);
      assert more[..last] == results + Copies(b, n - 1);
      assert group[..n - 1] == arrivals[|results|..|results| + (n - 1)] && group[n - 1] == arrivals[last];
    }
  }

  lemma ArriveOk(s: State, w: Writer)
    requires Inv(s)
    ensures Inv(Next(s, Arrive(w)))
  {
    var s' := Next(s, Arrive(w));
    AckedStay(s.arrivals, w, s.results);
    forall i | 0 <= i < |s.committed| ensures RecordOk(s.committed[i], s'.arrivals) {
      RecordStays(s.committed[i], s.arrivals, w);
    }
    if HasRecord(s.phase) {
      RecordStays(s.phase.record, s.arrivals, w);
    }
  }

  lemma OneResult(s: State, b: bool)
    requires Inv(s) && s.phase.MakingRoom? && (b ==> s.arrivals[|s.results|].batch.None?)
    ensures RecordsOps(s.committed) == AckedOps(s.arrivals, s.results + [b])
  {
    hide Ops, AckedOps, RecordsOps, RecordsOk, LogOk, MemOk, SyncOk, AckedCovered;
    AckedMore(s.arrivals, s.results, b, 1);
    assert [b] == Copies(b, 1);
    var one := s.arrivals[|s.results|..|s.results| + 1];
    assert one == [s.arrivals[|s.results|]] && one[..0] == [];
    OpsLast(one);
  }

  lemma OneResultOk(s: State, b: bool)
    requires Inv(s) && s.phase.MakingRoom? && (b ==> s.arrivals[|s.results|].batch.None?)
    ensures Inv(s.(phase := NoLeader, results := s.results + [b]))
  {
    hide RecordsOk, AckedOps, RecordsOps, Ops, RecordsEntries;
    OneResult(s, b);
    RecordsKeep(s.committed, s.arrivals, |s.results|, s.lastSeqno, |s.results| + 1, s.lastSeqno);
  }

  lemma BuiltRecord(arrivals: seq<Writer>, from: nat, n: nat, first: nat)
    requires from <= |arrivals| && IsGroup(arrivals[from..], n)
    requires first + |Ops(arrivals[from..][..n])| <= MAX_SEQUENCE
    ensures RecordOk(Record(first, from, from + n, Ops(arrivals[from..][..n])), arrivals)
  {
    hide Ops, Bytes;
    var r := Record(first, from, from + n, Ops(arrivals[from..][..n]));
    assert arrivals[from..][..n] == arrivals[r.from..r.to];
    forall j | r.from <= j < r.to && arrivals[j].sync ensures arrivals[r.from].sync {
      assert arrivals[from..][j - from] == arrivals[j];
      assert j == from || Joins(arrivals[from..], j - from);
    }
  }

  lemma BuildGroupOk(s: State, n: nat)
    requires Inv(s) && Enabled(s, BuildGroup(n))
    ensures Inv(Next(s, BuildGroup(n)))
  {
    hide RecordOk, RecordsOk, Ops, AckedOps, RecordsOps, RecordsEntries, IsGroup;
    BuiltRecord(s.arrivals, |s.results|, n, s.lastSeqno + 1);
    BuiltBounds(Next(s, BuildGroup(n)).phase.record, s.arrivals);
  }

  lemma BuiltBounds(r: Record, arrivals: seq<Writer>)
    requires RecordOk(r, arrivals)
    ensures r.from < r.to <= |arrivals| && InRange(r)
  {
  }

  lemma InsertOneOk(s: State)
    requires Inv(s) && Enabled(s, InsertOne)
    ensures Inv(Next(s, InsertOne))
  {
    hide RecordsOk, AckedOps, RecordsOps, Ops, RecordsEntries, Entries, AckedCovered;
    var es, k := Entries(s.phase.record), s.phase.done;
    assert es[..k + 1] == es[..k] + [es[k]];
    assert Syncs(Next(s, InsertOne)) == Syncs(s);
  }

  lemma CommitRecord(rs: seq<Record>, r: Record, arrivals: seq<Writer>, lastSeqno: nat)
    requires RecordsOk(rs, arrivals, r.from, lastSeqno) && RecordOk(r, arrivals) && r.first == lastSeqno + 1
    ensures RecordsOk(rs + [r], arrivals, r.to, lastSeqno + |r.ops|)
    ensures RecordsOps(rs + [r]) == RecordsOps(rs) + r.ops
    ensures RecordsEntries(rs + [r]) == RecordsEntries(rs) + Entries(r)
  {
    var more := rs + [r];
    assert more[..|more| - 1] == rs;
  }

  lemma RecordsKeep(rs: seq<Record>, arrivals: seq<Writer>, popped: nat, lastSeqno: nat, popped': nat, lastSeqno': nat)
    requires RecordsOk(rs, arrivals, popped, lastSeqno) && popped <= popped' && lastSeqno <= lastSeqno'
    ensures RecordsOk(rs, arrivals, popped', lastSeqno')
  {
  }

  lemma CoveredMore(rs: seq<Record>, r: Record, arrivals: seq<Writer>, results: seq<bool>)
    requires AckedCovered(rs, arrivals, results) && r.from == |results| && r.from <= r.to
    ensures AckedCovered(rs + [r], arrivals, results + Copies(true, r.to - r.from))
  {
    var more := rs + [r];
    forall w | 0 <= w < r.to && w < |arrivals| && (w < |results| ==> results[w] && arrivals[w].batch.Some?) ensures Covered(more, w) {
      if w < |results| {
        var k :| 0 <= k < |rs| && rs[k].from <= w < rs[k].to;
        assert more[k] == rs[k];
      } else {
        assert more[|rs|] == r;
      }
    }
  }

  lemma FinishOk(s: State)
    requires Inv(s) && Enabled(s, Finish)
    ensures Inv(Next(s, Finish))
  {
    hide RecordsOk, AckedOps, RecordsOps, Ops, RecordsEntries, Entries, AckedCovered;
    var s', r := Next(s, Finish), s.phase.record;
    CoveredMore(s.committed, r, s.arrivals, s.results);
    CommitRecord(s.committed, r, s.arrivals, s.lastSeqno);
    AckedMore(s.arrivals, s.results, true, r.to - r.from);
    WholeEntries(r);
    assert MemOk(s');
    assert SyncOk(s');
  }

  lemma WholeEntries(r: Record)
    requires InRange(r)
    ensures |Entries(r)| == |r.ops| && Entries(r)[..|r.ops|] == Entries(r)
  {
  }

  lemma GiveUpOk(s: State)
    requires Inv(s) && Enabled(s, GiveUp)
    ensures Inv(Next(s, GiveUp))
  {
    hide RecordsOk, AckedOps, RecordsOps, Ops, RecordsEntries;
    var r := s.phase.record;
    RecordsKeep(s.committed, s.arrivals, |s.results|, s.lastSeqno, r.to, s.lastSeqno + |r.ops|);
    AckedMore(s.arrivals, s.results, false, r.to - r.from);
  }

  lemma NextKeepsInv(s: State, ev: Event)
    requires Inv(s) && Enabled(s, ev)
    ensures Inv(Next(s, ev))
  {
    hide RecordsOk, AckedOps, RecordsOps, Ops, RecordsEntries, IsGroup;
    match ev
    case Arrive(w) => ArriveOk(s, w);
    case RoomFails => OneResultOk(s, false);
    case NothingToWrite => OneResultOk(s, true);
    case BuildGroup(n) => BuildGroupOk(s, n);
    case InsertOne => InsertOneOk(s);
    case Finish => FinishOk(s);
    case GiveUp => GiveUpOk(s);
    case _ =>
  }

  // ---- runs ----

  ghost predicate IsRun(states: seq<State>, events: seq<Event>) {
    && |states| == |events| + 1
    && states[0] == Start()
    && forall i :: 0 <= i < |events| ==> Enabled(states[i], events[i]) && states[i + 1] == Next(states[i], events[i])
  }

  lemma {:induction false} RunKeepsInv(states: seq<State>, events: seq<Event>, i: nat)
    requires IsRun(states, events) && i < |states|
    ensures Inv(states[i])
  {
    if i > 0 {
      RunKeepsInv(states, events, i - 1);
      hide Inv, Enabled, Next;
      NextKeepsInv(states[i - 1], events[i - 1]);
    }
  }

  function OpOf(e: Entry): Op {
    Op(e.key.kind, e.key.user, e.value)
  }

  function OpsIn(es: seq<Entry>): (r: seq<Op>)
    ensures |r| == |es|
  {
    seq(|es|, i requires 0 <= i < |es| => OpOf(es[i]))
  }

  lemma {:induction false} EntriesHoldOps(rs: seq<Record>)
    requires forall i :: 0 <= i < |rs| ==> InRange(rs[i])
    ensures OpsIn(RecordsEntries(rs)) == RecordsOps(rs)
  {
    if rs != [] {
      var last := |rs| - 1;
      EntriesHoldOps(rs[..last]);
      assert OpsIn(RecordsEntries(rs)) == OpsIn(RecordsEntries(rs[..last])) + OpsIn(Entries(rs[last]));
      assert OpsIn(Entries(rs[last])) == rs[last].ops;
    }
  }

  /** In every run, whenever no group is being written, the memtables have received exactly the
      operations of the writers that were told of success, each once, in the order in which the
      writers joined the queue. */
  lemma CommittedOnceInOrder(states: seq<State>, events: seq<Event>, i: nat)
    requires IsRun(states, events) && i < |states| && states[i].phase.NoLeader?
    ensures |states[i].results| <= |states[i].arrivals|
    ensures OpsIn(states[i].mem) == AckedOps(states[i].arrivals, states[i].results)
  {
    hide IsRun, RecordsEntries, RecordsOps, AckedOps;
    RunKeepsInv(states, events, i);
    EntriesHoldOps(states[i].committed);
    assert states[i].mem == RecordsEntries(states[i].committed);
  }

  // ---- sequence numbers ----

  ghost predicate StrictlyIncreasing(es: seq<Entry>) {
    forall i, j :: 0 <= i < j < |es| ==> es[i].key.seqno < es[j].key.seqno
  }

  lemma {:induction false} EntriesIncrease(rs: seq<Record>, bound: nat)
    requires Ordered(rs) && forall i :: 0 <= i < |rs| ==> InRange(rs[i]) && rs[i].first + |rs[i].ops| <= bound
    ensures StrictlyIncreasing(RecordsEntries(rs))
    ensures forall e :: e in RecordsEntries(rs) ==> e.key.seqno < bound
  {
    if rs != [] {
      var last := |rs| - 1;
      EntriesIncrease(rs[..last], rs[last].first);
      IncreasingConcat(RecordsEntries(rs[..last]), Entries(rs[last]), rs[last].first);
    }
  }

  lemma IncreasingConcat(a: seq<Entry>, b: seq<Entry>, bound: nat)
    requires StrictlyIncreasing(a) && StrictlyIncreasing(b)
    requires forall e :: e in a ==> e.key.seqno < bound
    requires forall e :: e in b ==> e.key.seqno >= bound
    ensures StrictlyIncreasing(a + b)
  {
    var ab: seq<Entry> := a + b;
    forall i, j | 0 <= i < j < |ab| ensures ab[i].key.seqno < ab[j].key.seqno {
      assert i < |a| ==> ab[i] in a;
      assert j >= |a| ==> ab[j] in b;
    }
  }

  /** Committed entries come first in the memtables; a group being inserted follows them. */
  lemma MemInOrder(s: State)
    requires Inv(s)
    ensures
      var a := RecordsEntries(s.committed);
      && a <= s.mem && StrictlyIncreasing(a) && (forall e :: e in a ==> e.key.seqno <= s.lastSeqno)
      && StrictlyIncreasing(s.mem[|a|..]) && (forall e :: e in s.mem[|a|..] ==> e.key.seqno > s.lastSeqno)
  {
    hide RecordsEntries, AckedOps, RecordsOps, Ops;
    EntriesIncrease(s.committed, s.lastSeqno + 1);
    var a := RecordsEntries(s.committed);
    var b := s.mem[|a|..];
    assert s.mem == a + b;
    assert s.phase.Inserting? ==> forall k :: 0 <= k < |b| ==> b[k] == EntryOf(s.phase.record.ops[k], s.lastSeqno + 1 + k);
  }

  /** In every run, memtables receive entries under strictly increasing sequence numbers, so no two
      batches share one, and the operations of one committed group get consecutive ones. */
  lemma SequenceNumbersAreDisjoint(states: seq<State>, events: seq<Event>, i: nat)
    requires IsRun(states, events) && i < |states|
    ensures StrictlyIncreasing(states[i].mem)
    ensures forall r :: r in states[i].committed ==>
      InRange(r) && forall k :: 0 <= k < |r.ops| ==> EntryOf(r.ops[k], r.first + k) in states[i].mem
  {
    hide IsRun, RecordsEntries, AckedOps, RecordsOps, StrictlyIncreasing, Ordered;
    var s := states[i];
    RunKeepsInv(states, events, i);
    MemInOrder(s);
    var a := RecordsEntries(s.committed);
    assert s.mem == a + s.mem[|a|..];
    IncreasingConcat(a, s.mem[|a|..], s.lastSeqno + 1);
    forall r | r in s.committed
      ensures InRange(r) && forall k :: 0 <= k < |r.ops| ==> EntryOf(r.ops[k], r.first + k) in s.mem
    {
      RecordInserted(s.committed, r);
      forall k | 0 <= k < |r.ops| ensures EntryOf(r.ops[k], r.first + k) in s.mem {
        assert Entries(r)[k] in a;
      }
    }
  }

  lemma {:induction false} RecordInserted(rs: seq<Record>, r: Record)
    requires r in rs && forall i :: 0 <= i < |rs| ==> InRange(rs[i])
    ensures InRange(r) && forall k :: 0 <= k < |r.ops| ==> Entries(r)[k] in RecordsEntries(rs)
  {
    var last := |rs| - 1;
    if rs[last] != r {
      assert r in rs[..last];
      RecordInserted(rs[..last], r);
    }
  }

  ghost predicate WhollyVisible(s: State, r: Record)
    requires InRange(r)
  {
    forall d :: d in Entries(r) ==> d in s.mem && d.key.seqno <= s.lastSeqno
  }

  /** In every run, a reader that takes the last sequence number sees every group wholly or not at
      all: everything inserted at or below that number belongs to a committed group, all of which
      is inserted at or below it. */
  lemma ReadersSeeWholeGroups(states: seq<State>, events: seq<Event>, i: nat, e: Entry)
    requires IsRun(states, events) && i < |states|
    requires e in states[i].mem && e.key.seqno <= states[i].lastSeqno
    ensures exists r :: r in states[i].committed && InRange(r) && e in Entries(r) && WhollyVisible(states[i], r)
  {
    hide IsRun, RecordsEntries, AckedOps, RecordsOps, StrictlyIncreasing, Ordered;
    var s := states[i];
    RunKeepsInv(states, events, i);
    MemInOrder(s);
    var a := RecordsEntries(s.committed);
    assert s.mem == a + s.mem[|a|..];
    var r := HolderOf(s.committed, e);
    RecordInserted(s.committed, r);
    forall d | d in Entries(r) ensures d in s.mem && d.key.seqno <= s.lastSeqno {
      var k :| 0 <= k < |r.ops| && Entries(r)[k] == d;
      assert d in a;
    }
  }

  lemma {:induction false} HolderOf(rs: seq<Record>, e: Entry) returns (r: Record)
    requires (forall i :: 0 <= i < |rs| ==> InRange(rs[i])) && e in RecordsEntries(rs)
    ensures r in rs && InRange(r) && e in Entries(r)
  {
    var last := |rs| - 1;
    if e in Entries(rs[last]) {
      r := rs[last];
    } else {
      r := HolderOf(rs[..last], e);
    }
  }

  // ---- syncs and errors ----

  /** In every run, a sync write that was told of success lies in a record that was in the log file
      when that file was synced, whoever led its group. */
  lemma AckedSyncWritesAreSynced(states: seq<State>, events: seq<Event>, i: nat, w: nat)
    requires IsRun(states, events) && i < |states|
    requires w < |states[i].results| && w < |states[i].arrivals| && states[i].results[w]
    requires states[i].arrivals[w].batch.Some? && states[i].arrivals[w].sync
    ensures exists k :: 0 <= k < |states[i].log| && k in states[i].synced && states[i].log[k].from <= w < states[i].log[k].to
  {
    hide IsRun, MemOk, AckedOps;
    var s := states[i];
    RunKeepsInv(states, events, i);
    assert Covered(s.committed, w);
    var k :| 0 <= k < |s.committed| && s.committed[k].from <= w < s.committed[k].to;
    assert RecordOk(s.committed[k], s.arrivals);
    assert s.log[k] == s.committed[k];
  }

  ghost predicate BeforeGroup(s: State) {
    s.phase.NoLeader? || s.phase.MakingRoom?
  }

  lemma BrokenStep(s: State, ev: Event)
    requires Inv(s) && Enabled(s, ev) && s.broken && BeforeGroup(s)
    ensures
      var s' := Next(s, ev);
      && s'.broken && BeforeGroup(s') && s'.committed == s.committed && s'.log == s.log && s'.lastSeqno == s.lastSeqno
      && s.results <= s'.results && forall w :: |s.results| <= w < |s'.results| ==> !s'.results[w]
  {
  }

  /** Once the background error is set and no group is past the check, nothing is logged, committed
      or made visible any more, and everyone who is answered is told of a failure, for the rest of
      the run. */
  lemma {:induction false} NothingCommitsWhenBroken(states: seq<State>, events: seq<Event>, i: nat, j: nat)
    requires IsRun(states, events) && i <= j < |states| && states[i].broken && BeforeGroup(states[i])
    ensures
      var s, s' := states[i], states[j];
      && s'.broken && BeforeGroup(s') && s'.committed == s.committed && s'.log == s.log && s'.lastSeqno == s.lastSeqno
      && s.results <= s'.results && forall w :: |s.results| <= w < |s'.results| ==> !s'.results[w]
    decreases j
  {
    hide Inv, Enabled, Next, BeforeGroup;
    if i < j {
      NothingCommitsWhenBroken(states, events, i, j - 1);
      RunKeepsInv(states, events, j - 1);
      BrokenStep(states[j - 1], events[j - 1]);
    }
  }
}
