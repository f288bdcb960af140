/** DBImpl::RecoverLogFile: from the bytes of a log file to the entries of memtables.  A crash may
    cut the file off anywhere. */
module LogRecovery {
  import opened Keys
  import opened Sequences
  import opened LogFormat
  import opened LogReader
  import opened LogRoundTrip
  import opened WriteBatches
  import LogDamage

  const TWO64: nat := 0x1_0000_0000_0000_0000

  /** An insertion into a memtable. */
  datatype Insertion = Insertion(seqno: nat, update: Update)

  /** MemTableInserter counts the sequence number up, in 64 bits. */
  function Numbered(seqno: nat, us: seq<Update>): (r: seq<Insertion>)
    ensures |r| == |us|
  {
    seq(|us|, i requires 0 <= i < |us| => Insertion((seqno + i) % TWO64, us[i]))
  }

  function InsertionsOf(record: Bytes): seq<Insertion> {
    if |record| < HEADER then [] else Numbered(Sequence(record), Iterated(record).updates)
  }

  function LastSequence(record: Bytes): nat
    requires |record| >= HEADER
  {
    (Sequence(record) + Count(record) + TWO64 - 1) % TWO64
  }

  predicate Good(record: Bytes) {
    |record| >= HEADER && Iterated(record).error.None?
  }

  /** Everything the records insert.  A batch with an error still inserts what came before it. */
  function Inserted(records: seq<Bytes>): seq<Insertion> {
    if records == [] then [] else Inserted(records[..|records| - 1]) + InsertionsOf(records[|records| - 1])
  }

  function Greatest(records: seq<Bytes>, most: nat): nat {
    if records == [] then most
    else
      var before, last := Greatest(records[..|records| - 1], most), records[|records| - 1];
      if |last| >= HEADER && LastSequence(last) > before then LastSequence(last) else before
  }

  ghost predicate AllGood(records: seq<Bytes>) {
    forall i :: 0 <= i < |records| ==> Good(records[i])
  }

  // ---- a torn log ----

  /** A batch as it is logged: never at sequence number 0, which no write has. */
  datatype Logged = Logged(seqno: nat, updates: seq<Update>)

  ghost predicate LoggedOk(b: Logged) {
    BatchOk(b.seqno, b.updates) && 0 < b.seqno && b.seqno + |b.updates| < TWO64
  }

  function Reps(batches: seq<Logged>): (r: seq<Bytes>)
    ensures |r| == |batches|
  {
    seq(|batches|, i requires 0 <= i < |batches| => Rep(batches[i].seqno, batches[i].updates))
  }

  function CountedFrom(seqno: nat, us: seq<Update>): seq<Insertion> {
    seq(|us|, i requires 0 <= i < |us| => Insertion(seqno + i, us[i]))
  }

  /** The updates of the batches, each with its own sequence number. */
  function Entries(batches: seq<Logged>): seq<Insertion> {
    if batches == [] then []
    else
      var b := batches[|batches| - 1];
      Entries(batches[..|batches| - 1]) + CountedFrom(b.seqno, b.updates)
  }

  /** The largest sequence number among `most` and those of the batches. */
  function Highest(batches: seq<Logged>, most: nat): nat {
    if batches == [] then most
    else
      var before, b := Highest(batches[..|batches| - 1], most), batches[|batches| - 1];
      if b.seqno + |b.updates| > before + 1 then b.seqno + |b.updates| - 1 else before
  }

  lemma RepIsGood(b: Logged)
    requires LoggedOk(b)
    ensures
      var rep := Rep(b.seqno, b.updates);
      && Good(rep) && LastSequence(rep) == b.seqno + |b.updates| - 1
      && InsertionsOf(rep) == CountedFrom(b.seqno, b.updates)
  {
    hide Rep, Iterated, Sequence, Count, BatchOk, Numbered, InsertionsOf, LastSequence, Good, CountedFrom;
    var rep := Rep(b.seqno, b.updates);
    BatchRoundTrip(b.seqno, b.updates);
    HeaderBack(b.seqno, b.updates);
    NothingWraps(b.seqno, b.updates);
    ReadBack(rep, b.seqno, b.updates);
  }

  lemma ReadBack(rep: Bytes, seqno: nat, us: seq<Update>)
    requires |rep| >= HEADER && Sequence(rep) == seqno && Count(rep) == |us| && Iterated(rep) == Iteration(us, None)
    ensures Good(rep) && LastSequence(rep) == (seqno + |us| + TWO64 - 1) % TWO64 && InsertionsOf(rep) == Numbered(seqno, us)
  {
    hide Iterated, Sequence, Count, Numbered;
  }

  lemma NothingWraps(seqno: nat, us: seq<Update>)
    requires 0 < seqno && seqno + |us| < TWO64
    ensures (seqno + |us| + TWO64 - 1) % TWO64 == seqno + |us| - 1
    ensures Numbered(seqno, us) == CountedFrom(seqno, us)
  {
  }

  lemma {:induction false} RepsRecover(batches: seq<Logged>, most: nat)
    requires forall i :: 0 <= i < |batches| ==> LoggedOk(batches[i])
    ensures AllGood(Reps(batches))
    ensures Inserted(Reps(batches)) == Entries(batches) && Greatest(Reps(batches), most) == Highest(batches, most)
  {
    hide Rep, Good, InsertionsOf, LastSequence, LoggedOk;
    if batches != [] {
      var last := |batches| - 1;
      RepsRecover(batches[..last], most);
      RepIsGood(batches[last]);
      assert Reps(batches)[..last] == Reps(batches[..last]);
    }
  }

  /** However much of a log a crash leaves, recovery inserts exactly the updates of the batches
      whose records are whole, under their own sequence numbers, and reports nothing. */
  lemma TornLog(crc: Crc, batches: seq<Logged>, n: nat, most: nat)
    requires (forall i :: 0 <= i < |batches| ==> LoggedOk(batches[i])) && n <= |LogFile(crc, Reps(batches))|
    ensures
      var k := Complete(crc, Reps(batches), n);
      var all := ReadAll(crc, true, LogFile(crc, Reps(batches))[..n], START);
      && all.reports == 0 && AllGood(all.records)
      && Inserted(all.records) == Entries(batches[..k]) && Greatest(all.records, most) == Highest(batches[..k], most)
  {
    hide ReadAll, LogFile, Complete, LoggedOk, Inserted, Greatest, Entries, Highest, Boundary, Rep;
    var k := Complete(crc, Reps(batches), n);
    TornTail(crc, true, Reps(batches), n);
    RepsRecover(batches[..k], most);
    assert Reps(batches)[..k] == Reps(batches[..k]);
  }

  /** A payload with other bytes is never recovered: what is inserted are the updates of the batches in
      front of the damaged one and of those that begin in a later block, and corruption is reported,
      so that recovery with paranoid checks fails. */
  lemma DamagedLog(crc: Crc, batches: seq<Logged>, i: nat, q: nat, payload: Bytes, altered: Bytes, most: nat) returns (file: Bytes, j: nat)
    requires (forall i :: 0 <= i < |batches| ==> LoggedOk(batches[i])) && i < |batches| && |altered| == |payload|
    requires LogDamage.HeaderAt(Boundary(crc, Reps(batches), i), Reps(batches)[i], q, payload)
    requires q + HEADER_SIZE + |payload| <= |LogFile(crc, Reps(batches))|
    requires
      var kind := LogFile(crc, Reps(batches))[q + 6];
      crc([kind] + altered) != crc([kind] + payload)
    ensures
      var whole := LogFile(crc, Reps(batches));
      file == whole[..q + HEADER_SIZE] + altered + whole[q + HEADER_SIZE + |payload|..]
    ensures
      var all := ReadAll(crc, true, file, START);
      && i < j <= |batches| && all.reports > 0
      && Inserted(all.records) == Entries(batches[..i] + batches[j..])
  {
    hide ReadAll, LogFile, LogDamage.HeaderAt, LoggedOk, Inserted, Greatest, Entries, Highest, Rep;
    var records := Reps(batches);
    file, j := LogDamage.AlteredPayload(crc, records, i, q, payload, altered);
    var left := batches[..i] + batches[j..];
    RepsRecover(left, most);
    assert Reps(left) == records[..i] + records[j..];
  }

  // ---- RecoverLogFile ----

  lemma OneMoreTable(tables: seq<seq<Insertion>>, mem: seq<Insertion>)
    ensures Concat(tables + [mem]) == Concat(tables) + mem
  {
    assert (tables + [mem])[..|tables|] == tables;
  }

  lemma OneMoreRecord(records: seq<Bytes>, record: Bytes, most: nat)
    ensures Inserted(records + [record]) == Inserted(records) + InsertionsOf(record)
    ensures Greatest(records + [record], most) ==
      if |record| >= HEADER && LastSequence(record) > Greatest(records, most) then LastSequence(record) else Greatest(records, most)
    ensures AllGood(records + [record]) <==> AllGood(records) && Good(record)
    ensures |record| < HEADER ==> !Good(record) && InsertionsOf(record) == []
  {
    hide Sequence, Count, Iterated;
    assert (records + [record])[..|records|] == records;
    assert (records + [record])[|records|] == record;
    if AllGood(records + [record]) {
      forall i | 0 <= i < |records| ensures Good(records[i]) {
        assert (records + [record])[i] == records[i];
      }
    }
  }

  /** WriteBatchInternal::InsertInto */
  method InsertInto(record: Bytes, mem: seq<Insertion>) returns (r: seq<Insertion>, ok: bool)
    requires |record| >= HEADER
    ensures r == mem + InsertionsOf(record) && ok == Good(record)
  {
    hide Iterated, Sequence;
    var handled, error := Iterate(record);
    r := mem + Numbered(Sequence(record), handled);
    ok := error.None?;
  }

  /** What the loop has when it goes on from `s`. */
  ghost predicate Going(crc: Crc, file: Bytes, s: Source, records: seq<Bytes>, reports: nat, tables: seq<seq<Insertion>>, mem: seq<Insertion>,
                        most: nat, maxSequence: nat) {
    && SoFar(crc, true, file, s, records, reports)
    && Concat(tables) + mem == Inserted(records) && maxSequence == Greatest(records, most)
  }

  /** Without paranoid checks every record is used for what it is worth; with them, any corruption
      is an error.  The memtable is written out whenever it is `full`, and at the end. */
  method RecoverLogFile(crc: Crc, file: Bytes, paranoid: bool, full: seq<Insertion> -> bool, most: nat)
      returns (ok: bool, tables: seq<seq<Insertion>>, maxSequence: nat)
    ensures
      var all := ReadAll(crc, true, file, START);
      && ok == (!paranoid || (all.reports == 0 && AllGood(all.records)))
      && (ok ==> Concat(tables) == Inserted(all.records) && maxSequence == Greatest(all.records, most))
  {
    hide ReadLogical, ReadAll, Within, Reader.Ok, Reader.At, Going, Inserted, Greatest, AllGood, Good, InsertionsOf, Concat, Sequence, Count, LastSequence;
    var reader := new Reader(crc, true, file);
    ok, tables, maxSequence := true, [], most;
    var mem: seq<Insertion> := [];
    ghost var records: seq<Bytes> := [];
    Begins(crc, file, most);
    while true
      invariant reader.Ok() && reader.crc == crc && reader.checksum && reader.file == file
      invariant reader.At().pos <= |file| && Within(reader.At(), file)
      invariant Going(crc, file, reader.At(), records, reader.reports, tables, mem, most, maxSequence)
      invariant paranoid ==> reader.reports == 0 && AllGood(records)
      decreases |file| - reader.At().pos
    {
      ghost var s, reports := reader.At(), reader.reports;
      ghost var read := ReadLogical(crc, true, file, s, false, []);
      var record := reader.ReadRecord();
      assert record == read.record && reader.At() == read.source && reader.reports == reports + read.reports;
      if paranoid && reader.reports > 0 {
        ReportsAdd(crc, file, s, records, reports, tables, mem, most, maxSequence);
        return false, tables, maxSequence;
      }
      if record.None? {
        Ends(crc, file, s, records, reports, tables, mem, most, maxSequence);
        break;
      }
      GoesOn(crc, file, s, records, reports, tables, mem, most, maxSequence);
      ghost var before := records;
      records := records + [record.value];
      OneMoreRecord(before, record.value, most);
      ghost var larger := if |record.value| >= HEADER && LastSequence(record.value) > maxSequence then LastSequence(record.value) else maxSequence;
      if |record.value| < HEADER {
        // The reporter is told; with paranoid checks this ends the loop.
        if paranoid {
          BadRecord(crc, file, reader.At(), records, reader.reports, tables, mem + InsertionsOf(record.value), most, larger);
          return false, tables, maxSequence;
        }
        assert mem + [] == mem;
        continue;
      }
      var good;
      mem, good := InsertInto(record.value, mem);
      if paranoid && !good {
        BadRecord(crc, file, reader.At(), records, reader.reports, tables, mem, most, larger);
        return false, tables, maxSequence;
      }
      var lastSequence := LastSequence(record.value);
      if lastSequence > maxSequence {
        maxSequence := lastSequence;
      }
      if full(mem) {
        WritesOut(crc, file, reader.At(), records, reader.reports, tables, mem, most, maxSequence);
        tables, mem := tables + [mem], [];
      }
    }
    OneMoreTable(tables, mem);
    tables := tables + [mem];
  }

  lemma Begins(crc: Crc, file: Bytes, most: nat)
    ensures Within(START, file) && Going(crc, file, START, [], 0, [], [], most, most) && AllGood([])
  {
    var all := ReadAll(crc, true, file, START);
    assert Contents([] + all.records, all.reports) == all;
  }

  lemma GoesOn(crc: Crc, file: Bytes, s: Source, records: seq<Bytes>, reports: nat, tables: seq<seq<Insertion>>, mem: seq<Insertion>,
               most: nat, maxSequence: nat)
    requires Going(crc, file, s, records, reports, tables, mem, most, maxSequence) && Within(s, file)
    requires ReadLogical(crc, true, file, s, false, []).record.Some?
    ensures
      var r := ReadLogical(crc, true, file, s, false, []);
      var record, records' := r.record.value, records + [r.record.value];
      var larger := if |record| >= HEADER && LastSequence(record) > maxSequence then LastSequence(record) else maxSequence;
      && Within(r.source, file) && r.source.pos <= |file|
      && Going(crc, file, r.source, records', reports + r.reports, tables, mem + InsertionsOf(record), most, larger)
  {
    hide ReadLogical, ReadAll, InsertionsOf, LastSequence, Inserted, Greatest, SoFar, Concat;
    ReadsOn(crc, true, file, s, records, reports);
    var record := ReadLogical(crc, true, file, s, false, []).record.value;
    OneMoreRecord(records, record, most);
    assert Concat(tables) + (mem + InsertionsOf(record)) == Concat(tables) + mem + InsertionsOf(record);
  }

  lemma Ends(crc: Crc, file: Bytes, s: Source, records: seq<Bytes>, reports: nat, tables: seq<seq<Insertion>>, mem: seq<Insertion>,
             most: nat, maxSequence: nat)
    requires Going(crc, file, s, records, reports, tables, mem, most, maxSequence) && Within(s, file)
    requires ReadLogical(crc, true, file, s, false, []).record.None?
    ensures
      var all := ReadAll(crc, true, file, START);
      && all == Contents(records, reports + ReadLogical(crc, true, file, s, false, []).reports)
      && Concat(tables) + mem == Inserted(all.records) && maxSequence == Greatest(all.records, most)
  {
    hide ReadLogical, ReadAll, Inserted, Greatest, SoFar, Concat;
    ReadsOn(crc, true, file, s, records, reports);
  }

  lemma ReportsAdd(crc: Crc, file: Bytes, s: Source, records: seq<Bytes>, reports: nat, tables: seq<seq<Insertion>>, mem: seq<Insertion>,
                   most: nat, maxSequence: nat)
    requires Going(crc, file, s, records, reports, tables, mem, most, maxSequence) && Within(s, file)
    ensures ReadAll(crc, true, file, START).reports >= reports + ReadLogical(crc, true, file, s, false, []).reports
  {
    hide ReadLogical, Inserted, Greatest, Concat;
    ReadsOn(crc, true, file, s, records, reports);
  }

  lemma BadRecord(crc: Crc, file: Bytes, s: Source, records: seq<Bytes>, reports: nat, tables: seq<seq<Insertion>>, mem: seq<Insertion>,
                  most: nat, maxSequence: nat)
    requires Going(crc, file, s, records, reports, tables, mem, most, maxSequence) && !AllGood(records)
    ensures !AllGood(ReadAll(crc, true, file, START).records)
  {
    hide Good, ReadAll, Inserted, Greatest, Concat;
    var rest := ReadAll(crc, true, file, s).records;
    var i :| 0 <= i < |records| && !Good(records[i]);
    assert (records + rest)[i] == records[i];
  }

  lemma WritesOut(crc: Crc, file: Bytes, s: Source, records: seq<Bytes>, reports: nat, tables: seq<seq<Insertion>>, mem: seq<Insertion>,
                  most: nat, maxSequence: nat)
    requires Going(crc, file, s, records, reports, tables, mem, most, maxSequence)
    ensures Going(crc, file, s, records, reports, tables + [mem], [], most, maxSequence)
  {
    hide SoFar, Inserted, Greatest, Concat;
    OneMoreTable(tables, mem);
    assert Concat(tables + [mem]) + [] == Concat(tables + [mem]);
  }
}
