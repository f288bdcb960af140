/** Recovering from the bytes of a manifest: the log's records, the edits they encode, and the
    version and counters the edits lead to.  A crash may cut the file off anywhere. */
module ManifestFiles {
  import opened Keys
  import opened Coding
  import opened LogFormat
  import opened LogReader
  import opened LogRoundTrip
  import LogDamage
  import opened Versions
  import opened Builders
  import opened ManifestReplay
  import opened VersionEdits

  /** Finds the table that a record of the manifest names. */
  type Opener = FileMeta -> File

  function PairSet(pairs: seq<(nat, nat)>): set<(nat, nat)> {
    set p | p in pairs
  }

  function OpenAll(files: seq<(nat, FileMeta)>, open: Opener): (r: seq<(nat, File)>)
    ensures |r| == |files|
  {
    seq(|files|, i requires 0 <= i < |files| => (files[i].0, open(files[i].1)))
  }

  function ChangeOf(e: Edit, open: Opener): Change {
    Change(PairSet(e.deletedFiles), OpenAll(e.newFiles, open))
  }

  function Changes(edits: seq<Edit>, open: Opener): (r: seq<Change>)
    ensures |r| == |edits|
  {
    seq(|edits|, i requires 0 <= i < |edits| => ChangeOf(edits[i], open))
  }

  /** What the loop over the records has put together; later counters replace earlier ones. */
  datatype Manifest = Manifest(changes: seq<Change>, logNumber: Option<nat>, prevLogNumber: Option<nat>, nextFile: Option<nat>, lastSequence: Option<nat>)

  function Later(old_: Option<nat>, now: Option<nat>): Option<nat> {
    if now.Some? then now else old_
  }

  function More(m: Manifest, e: Edit, open: Opener): Manifest {
    Manifest(m.changes + [ChangeOf(e, open)], Later(m.logNumber, e.logNumber), Later(m.prevLogNumber, e.prevLogNumber),
             Later(m.nextFile, e.nextFileNumber), Later(m.lastSequence, e.lastSequence))
  }

  predicate Readable(record: Bytes, name: Bytes) {
    Decode(record).Ok? && (Decode(record).edit.comparator == None || Decode(record).edit.comparator == Some(name))
  }

  function Noted(records: seq<Bytes>, name: Bytes, open: Opener): Option<Manifest> {
    if records == [] then Some(Manifest([], None, None, None, None))
    else
      var last := records[|records| - 1];
      match Noted(records[..|records| - 1], name, open)
      case None => None
      case Some(m) => if Readable(last, name) then Some(More(m, Decode(last).edit, open)) else None
  }

  datatype Outcome =
    | Corrupt
    | Lacking(what: string)
    | Opened(version: Version, logNumber: nat, prevLogNumber: nat, manifestNumber: nat, nextFileNumber: nat, lastSequence: nat)

  /** The end of VersionSet::Recover. */
  function Concluded(m: Manifest): Outcome {
    if m.nextFile == None then Lacking("no meta-nextfile entry in descriptor")
    else if m.logNumber == None then Lacking("no meta-lognumber entry in descriptor")
    else if m.lastSequence == None then Lacking("no last-sequence-number entry in descriptor")
    else Opened(Recovered(m.changes), m.logNumber.value, if m.prevLogNumber.Some? then m.prevLogNumber.value else 0,
                m.nextFile.value, m.nextFile.value + 1, m.lastSequence.value)
  }

  function Outcomes(contents: Contents, name: Bytes, open: Opener): Outcome {
    if contents.reports > 0 then Corrupt
    else
      match Noted(contents.records, name, open)
      case None => Corrupt
      case Some(m) => Concluded(m)
  }

  // ---- a torn manifest ----

  function Encoded(edits: seq<Edit>): (r: seq<Bytes>)
    ensures |r| == |edits|
  {
    seq(|edits|, i requires 0 <= i < |edits| => EditBytes(edits[i]))
  }

  /** The first edit is WriteSnapshot's, which has no counters; LogAndApply fills them in for all
      edits after it. */
  ghost predicate ManifestEdits(v: Version, edits: seq<Edit>, name: Bytes, open: Opener) {
    && edits != [] && |v| == NUM_LEVELS
    && (forall i :: 0 <= i < |edits| ==> EditOk(edits[i]) && (edits[i].comparator == None || edits[i].comparator == Some(name)))
    && ChangeOf(edits[0], open) == Snapshot(v)
    && edits[0].logNumber == edits[0].prevLogNumber == edits[0].nextFileNumber == edits[0].lastSequence == None
    && (forall i :: 1 <= i < |edits| ==>
          edits[i].logNumber.Some? && edits[i].prevLogNumber.Some? && edits[i].nextFileNumber.Some? && edits[i].lastSequence.Some?)
    && forall l :: 0 <= l < NUM_LEVELS ==> Numbered(v[l]) && AddedOnce(Numbers(v[l]), l, Changes(edits[1..], open))
  }

  /** The counters after the first `k` edits: those of the last. */
  function Counters(edits: seq<Edit>, k: nat, open: Opener): Manifest
    requires k <= |edits|
  {
    var changes := Changes(edits[..k], open);
    if k < 2 then Manifest(changes, None, None, None, None)
    else
      var e := edits[k - 1];
      Manifest(changes, e.logNumber, e.prevLogNumber, e.nextFileNumber, e.lastSequence)
  }

  lemma {:induction false} NotesPrefix(v: Version, edits: seq<Edit>, name: Bytes, open: Opener, k: nat)
    requires ManifestEdits(v, edits, name, open) && k <= |edits|
    ensures Noted(Encoded(edits)[..k], name, open) == Some(Counters(edits, k, open))
  {
    hide EditOk, Snapshot, AddedOnce, Decode, EditBytes;
    var records := Encoded(edits)[..k];
    if k > 0 {
      NotesPrefix(v, edits, name, open, k - 1);
      assert records[..k - 1] == Encoded(edits)[..k - 1] && records[k - 1] == EditBytes(edits[k - 1]);
      EditRoundTrip(edits[k - 1]);
      assert Changes(edits[..k], open) == Changes(edits[..k - 1], open) + [ChangeOf(edits[k - 1], open)];
    }
  }

  lemma {:induction false} AddedOncePrefix(known: set<nat>, level: nat, changes: seq<Change>, k: nat)
    requires AddedOnce(known, level, changes) && k <= |changes|
    ensures AddedOnce(known, level, changes[..k])
    decreases k
  {
    if k > 0 {
      AddedOncePrefix(known + Numbers(AddedAt(changes[0].added, level)), level, changes[1..], k - 1);
      assert changes[..k][1..] == changes[1..][..k - 1] && changes[..k][0] == changes[0];
    }
  }

  /** However much of a manifest a crash leaves, recovery opens the version that the edits whose
      records are whole had led to, with the counters of the last of them; and it opens nothing
      when there is no edit behind the snapshot. */
  lemma TornManifest(crc: Crc, v: Version, edits: seq<Edit>, name: Bytes, open: Opener, n: nat)
    requires ManifestEdits(v, edits, name, open) && n <= |LogFile(crc, Encoded(edits))|
    ensures
      var k := Complete(crc, Encoded(edits), n);
      Outcomes(ReadAll(crc, true, LogFile(crc, Encoded(edits))[..n], START), name, open) ==
      if k < 2 then Lacking("no meta-nextfile entry in descriptor")
      else
        var e := edits[k - 1];
        Opened(ApplyAll(v, Changes(edits[1..k], open)), e.logNumber.value, e.prevLogNumber.value,
               e.nextFileNumber.value, e.nextFileNumber.value + 1, e.lastSequence.value)
  {
    hide ManifestEdits, ReadAll, LogFile, Complete, Noted, Recovered, ApplyAll, Counters, Concluded, Changes, Encoded, Boundary;
    var records := Encoded(edits);
    var k := Complete(crc, records, n);
    TornTail(crc, true, records, n);
    NotesPrefix(v, edits, name, open, k);
    PrefixConcludes(v, edits, name, open, k);
  }

  lemma PrefixConcludes(v: Version, edits: seq<Edit>, name: Bytes, open: Opener, k: nat)
    requires ManifestEdits(v, edits, name, open) && k <= |edits|
    ensures
      Concluded(Counters(edits, k, open)) ==
      if k < 2 then Lacking("no meta-nextfile entry in descriptor")
      else
        var e := edits[k - 1];
        Opened(ApplyAll(v, Changes(edits[1..k], open)), e.logNumber.value, e.prevLogNumber.value,
               e.nextFileNumber.value, e.nextFileNumber.value + 1, e.lastSequence.value)
  {
    hide Recovered, ApplyAll, Changes, EditOk, AddedOnce, Numbered, ChangeOf, Snapshot;
    if k >= 2 {
      PrefixRecovers(v, edits, name, open, k);
    }
  }

  lemma PrefixRecovers(v: Version, edits: seq<Edit>, name: Bytes, open: Opener, k: nat)
    requires ManifestEdits(v, edits, name, open) && 2 <= k <= |edits|
    ensures Recovered(Changes(edits[..k], open)) == ApplyAll(v, Changes(edits[1..k], open))
  {
    hide AddedOnce, Recovered, ApplyAll, Snapshot, ChangeOf;
    var changes := Changes(edits[1..k], open);
    assert changes == Changes(edits[1..], open)[..k - 1];
    forall l | 0 <= l < NUM_LEVELS ensures AddedOnce(Numbers(v[l]), l, changes) {
      AddedOncePrefix(Numbers(v[l]), l, Changes(edits[1..], open), k - 1);
    }
    ManifestRecovers(v, changes);
    assert Changes(edits[..k], open) == [Snapshot(v)] + changes;
  }

  /** A manifest with the name of another comparator in it is refused, whatever else it says. */
  lemma ForeignComparator(crc: Crc, edits: seq<Edit>, i: nat, other: Bytes, name: Bytes, open: Opener)
    requires (forall k :: 0 <= k < |edits| ==> EditOk(edits[k])) && i < |edits|
    requires edits[i].comparator == Some(other) && other != name
    ensures Outcomes(ReadAll(crc, true, LogFile(crc, Encoded(edits)), START), name, open) == Corrupt
  {
    hide ReadAll, LogFile, EditOk, Decode, EditBytes;
    var records := Encoded(edits);
    RoundTrip(crc, true, records);
    EditRoundTrip(edits[i]);
    assert records[..i + 1][i] == EditBytes(edits[i]) && records[..i + 1][..i] == records[..i];
    assert Noted(records[..i + 1], name, open) == None;
    UnreadableStays(records[..i + 1], records, name, open);
  }

  /** So is one whose bytes were altered, under a checksum that tells. */
  lemma AlteredManifest(crc: Crc, edits: seq<Edit>, i: nat, q: nat, payload: Bytes, altered: Bytes, name: Bytes, open: Opener) returns (file: Bytes)
    requires i < |edits| && |altered| == |payload|
    requires LogDamage.HeaderAt(Boundary(crc, Encoded(edits), i), Encoded(edits)[i], q, payload)
    requires q + HEADER_SIZE + |payload| <= |LogFile(crc, Encoded(edits))|
    requires
      var kind := LogFile(crc, Encoded(edits))[q + 6];
      crc([kind] + altered) != crc([kind] + payload)
    ensures
      var whole := LogFile(crc, Encoded(edits));
      file == whole[..q + HEADER_SIZE] + altered + whole[q + HEADER_SIZE + |payload|..]
    ensures Outcomes(ReadAll(crc, true, file, START), name, open) == Corrupt
  {
    hide ReadAll, LogFile, LogDamage.HeaderAt, EditBytes, Noted;
    var j: nat;
    file, j := LogDamage.AlteredPayload(crc, Encoded(edits), i, q, payload, altered);
  }

  // ---- VersionSet::Recover ----

  lemma {:induction false} UnreadableStays(records: seq<Bytes>, all: seq<Bytes>, name: Bytes, open: Opener)
    requires records <= all && Noted(records, name, open) == None
    ensures Noted(all, name, open) == None
    decreases |all|
  {
    if |records| < |all| {
      assert records <= all[..|all| - 1];
      UnreadableStays(records, all[..|all| - 1], name, open);
    } else {
      assert records == all;
    }
  }

  lemma {:induction false} ReplayMore(st: LevelState, level: nat, changes: seq<Change>, c: Change)
    ensures Replay(st, level, changes + [c]) == ApplyLevel(Replay(st, level, changes), DeletedAt(c, level), AddedAt(c.added, level))
    decreases changes
  {
    hide ApplyLevel;
    if changes == [] {
      assert [] + [c] == [c] && [c][1..] == [];
    } else {
      ReplayMore(ApplyLevel(st, DeletedAt(changes[0], level), AddedAt(changes[0].added, level)), level, changes[1..], c);
      assert (changes + [c])[1..] == changes[1..] + [c];
    }
  }

  ghost predicate LevelsIn(e: Edit) {
    && (forall p :: p in e.deletedFiles ==> p.0 < NUM_LEVELS)
    && forall p :: p in e.newFiles ==> p.0 < NUM_LEVELS
  }

  lemma PayloadLevels(tag: nat, b: Bytes, e: Edit)
    requires LevelsIn(e) && TakePayload(tag, b).Taken?
    ensures LevelsIn(Note(e, TakePayload(tag, b).item))
  {
  }

  lemma {:induction false} DecodedLevels(b: Bytes, e: Edit)
    requires LevelsIn(e) && DecodeRest(b, e).Ok?
    ensures LevelsIn(DecodeRest(b, e).edit)
    decreases |b|
  {
    hide TakePayload, LevelsIn, Varint32Of, Note;
    if Varint32Of(b).Some? {
      var tag := Varint32Of(b).value;
      var left := b[tag.length..];
      TakesSome(tag.value, left);
      PayloadLevels(tag.value, left, e);
      var t := TakePayload(tag.value, left);
      DecodedLevels(t.rest, Note(e, t.item));
    }
  }

  const NO_FILES: Version := seq(NUM_LEVELS, _ => [])

  ghost predicate Replayed(builder: Builder, changes: seq<Change>)
    reads builder
  {
    && builder.Valid() && builder.base == NO_FILES
    && forall l :: 0 <= l < NUM_LEVELS ==> builder.levels[l] == Replay(UNTOUCHED, l, changes)
  }

  method ApplyEdit(builder: Builder, edit: VersionEdit, open: Opener, ghost changes: seq<Change>)
    requires Replayed(builder, changes) && LevelsIn(edit.Says())
    modifies builder
    ensures Replayed(builder, changes + [ChangeOf(edit.Says(), open)])
  {
    hide ApplyLevel, Replay;
    var change := Change(PairSet(edit.deletedFiles), OpenAll(edit.newFiles, open));
    forall p | p in change.added ensures p.0 < NUM_LEVELS {
      var i :| 0 <= i < |change.added| && change.added[i] == p;
      assert edit.newFiles[i] in edit.newFiles;
    }
    builder.Apply(change);
    forall l: nat | l < NUM_LEVELS ensures builder.levels[l] == Replay(UNTOUCHED, l, changes + [change]) {
      ReplayMore(UNTOUCHED, l, changes, change);
    }
  }

  /** Reads a record; what is left to know is whether it is readable and where its edit leads. */
  method ReadEdit(record: Bytes, name: Bytes) returns (edit: VersionEdit, ok: bool)
    ensures fresh(edit) && ok == Readable(record, name)
    ensures ok ==> edit.Says() == Decode(record).edit && LevelsIn(edit.Says())
  {
    hide DecodeRest;
    edit := new VersionEdit();
    var error := edit.DecodeFrom(record);
    assert LevelsIn(EMPTY);
    if error.None? {
      DecodedLevels(record, EMPTY);
    }
    ok := error.None? && (edit.comparator == None || edit.comparator == Some(name));
  }

  lemma Begins(crc: Crc, file: Bytes, name: Bytes, open: Opener)
    ensures Within(START, file) && SoFar(crc, true, file, START, [], 0)
    ensures Noted([], name, open) == Some(Manifest([], None, None, None, None))
    ensures forall l :: Replay(UNTOUCHED, l, []) == UNTOUCHED
  {
    var all := ReadAll(crc, true, file, START);
    assert Contents([] + all.records, all.reports) == all;
  }

  lemma CannotRead(crc: Crc, file: Bytes, s: Source, records: seq<Bytes>, name: Bytes, open: Opener)
    requires Within(s, file) && SoFar(crc, true, file, s, records, 0)
    requires Noted(records, name, open) == None || ReadLogical(crc, true, file, s, false, []).reports > 0
    ensures Outcomes(ReadAll(crc, true, file, START), name, open) == Corrupt
  {
    hide Noted, ReadLogical;
    var all := ReadAll(crc, true, file, START);
    ReadsOn(crc, true, file, s, records, 0);
    if Noted(records, name, open) == None {
      UnreadableStays(records, all.records, name, open);
    }
  }

  lemma Ends(crc: Crc, file: Bytes, s: Source, records: seq<Bytes>, name: Bytes, open: Opener)
    requires Within(s, file) && SoFar(crc, true, file, s, records, 0) && Noted(records, name, open).Some?
    requires var r := ReadLogical(crc, true, file, s, false, []); r.record.None? && r.reports == 0
    ensures Outcomes(ReadAll(crc, true, file, START), name, open) == Concluded(Noted(records, name, open).value)
  {
    hide Noted, ReadLogical, Concluded;
    ReadsOn(crc, true, file, s, records, 0);
  }

  lemma OneMoreRecord(records: seq<Bytes>, record: Bytes, name: Bytes, open: Opener)
    requires Noted(records, name, open).Some?
    ensures Noted(records + [record], name, open) ==
      if Readable(record, name) then Some(More(Noted(records, name, open).value, Decode(record).edit, open)) else None
  {
    assert (records + [record])[..|records|] == records;
  }

  method Recover(crc: Crc, file: Bytes, name: Bytes, open: Opener) returns (r: Outcome)
    ensures r == Outcomes(ReadAll(crc, true, file, START), name, open)
  {
    hide ReadLogical, ReadAll, Within, Reader.Ok, Reader.At, SoFar, Replay, Noted, Decode, Readable, ChangeOf, Outcomes, Concluded;
    var reader := new Reader(crc, true, file);
    var builder := new Builder(NO_FILES);
    ghost var records: seq<Bytes>, m := [], Manifest([], None, None, None, None);
    Begins(crc, file, name, open);
    var logNumber, prevLogNumber, nextFile, lastSequence: Option<nat> := None, None, None, None;
    while true
      invariant reader.Ok() && reader.crc == crc && reader.checksum && reader.file == file && reader.reports == 0
      invariant reader.At().pos <= |file| && Within(reader.At(), file) && SoFar(crc, true, file, reader.At(), records, 0)
      invariant Replayed(builder, m.changes) && fresh(builder) && fresh(reader)
      invariant Noted(records, name, open) == Some(m) && m == Manifest(m.changes, logNumber, prevLogNumber, nextFile, lastSequence)
      decreases |file| - reader.At().pos
    {
      ghost var s := reader.At();
      ghost var read := ReadLogical(crc, true, file, s, false, []);
      ReadsOn(crc, true, file, s, records, 0);
      var record := reader.ReadRecord();
      assert record == read.record && reader.At() == read.source && reader.reports == read.reports;
      if reader.reports > 0 {
        CannotRead(crc, file, s, records, name, open);
        return Corrupt;
      }
      if record.None? {
        Ends(crc, file, s, records, name, open);
        break;
      }
      OneMoreRecord(records, record.value, name, open);
      records := records + [record.value];
      var edit, ok := ReadEdit(record.value, name);
      if !ok {
        CannotRead(crc, file, reader.At(), records, name, open);
        return Corrupt;
      }
      ApplyEdit(builder, edit, open, m.changes);
      m := More(m, edit.Says(), open);
      logNumber := Later(logNumber, edit.logNumber);
      prevLogNumber := Later(prevLogNumber, edit.prevLogNumber);
      nextFile := Later(nextFile, edit.nextFileNumber);
      lastSequence := Later(lastSequence, edit.lastSequence);
    }
    r := Conclude(builder, logNumber, prevLogNumber, nextFile, lastSequence, m);
  }

  method Conclude(builder: Builder, logNumber: Option<nat>, prevLogNumber: Option<nat>, nextFile: Option<nat>, lastSequence: Option<nat>, ghost m: Manifest)
      returns (r: Outcome)
    requires Replayed(builder, m.changes) && m == Manifest(m.changes, logNumber, prevLogNumber, nextFile, lastSequence)
    ensures r == Concluded(m)
  {
    hide Replay;
    if nextFile.None? {
      r := Lacking("no meta-nextfile entry in descriptor");
    } else if logNumber.None? {
      r := Lacking("no meta-lognumber entry in descriptor");
    } else if lastSequence.None? {
      r := Lacking("no last-sequence-number entry in descriptor");
    } else {
      var v := builder.SaveTo();
      assert v == Recovered(m.changes);
      r := Opened(v, logNumber.value, if prevLogNumber.Some? then prevLogNumber.value else 0,
                  nextFile.value, nextFile.value + 1, lastSequence.value);
    }
  }
}
