/** Writing a manifest: VersionSet::LogAndApply and WriteSnapshot, and what a crash in the middle of
    a record leaves. */
module ManifestWriters {
  import opened Keys
  import opened LogFormat
  import opened Versions
  import opened Builders
  import opened ManifestReplay
  import opened VersionEdits
  import opened ManifestFiles
  import LogWriter
  import LogReader
  import LogRoundTrip

  // ---- WriteSnapshot's record ----

  function LevelMetas(files: seq<File>, level: nat, metaOf: File -> FileMeta): (r: seq<(nat, FileMeta)>)
    ensures |r| == |files|
  {
    seq(|files|, i requires 0 <= i < |files| => (level, metaOf(files[i])))
  }

  function Metas(v: Version, levels: nat, metaOf: File -> FileMeta): seq<(nat, FileMeta)>
    requires levels <= |v|
  {
    if levels == 0 then [] else Metas(v, levels - 1, metaOf) + LevelMetas(v[levels - 1], levels - 1, metaOf)
  }

  /** An empty pointer is none. */
  function Pointers(compactPointer: seq<Bytes>, levels: nat): seq<(nat, Bytes)>
    requires levels <= |compactPointer|
  {
    if levels == 0 then []
    else Pointers(compactPointer, levels - 1) + if compactPointer[levels - 1] == [] then [] else [(levels - 1, compactPointer[levels - 1])]
  }

  function SnapshotEdit(v: Version, compactPointer: seq<Bytes>, name: Bytes, metaOf: File -> FileMeta): Edit {
    EMPTY.(comparator := Some(name), compactPointers := Pointers(compactPointer, |compactPointer|), newFiles := Metas(v, |v|, metaOf))
  }

  /** Each file of the version is found again by what its record says. */
  ghost predicate Findable(v: Version, open: Opener, metaOf: File -> FileMeta) {
    forall l, f :: 0 <= l < |v| && f in v[l] ==> open(metaOf(f)) == f
  }

  lemma {:induction false} TaggedAt(files: seq<File>, level: nat)
    ensures |Tagged(files, level)| == |files| && forall i :: 0 <= i < |files| ==> Tagged(files, level)[i] == (level, files[i])
  {
    if files != [] {
      TaggedAt(files[1..], level);
    }
  }

  lemma {:induction false} MetasOpen(v: Version, levels: nat, open: Opener, metaOf: File -> FileMeta)
    requires levels <= |v| && Findable(v, open, metaOf)
    ensures OpenAll(Metas(v, levels, metaOf), open) + SnapshotFiles(v, levels) == SnapshotFiles(v, 0)
  {
    hide OpenAll, LevelMetas, Tagged;
    if levels == 0 {
      NothingOpens(open);
    } else {
      var l := levels - 1;
      MetasOpen(v, l, open, metaOf);
      LevelOpens(v, l, open, metaOf);
      OpenAllConcat(Metas(v, l, metaOf), LevelMetas(v[l], l, metaOf), open);
      var a, b, c := OpenAll(Metas(v, l, metaOf), open), Tagged(v[l], l), SnapshotFiles(v, levels);
      assert SnapshotFiles(v, l) == b + c;
      assert (a + b) + c == a + (b + c);
    }
  }

  lemma NothingOpens(open: Opener)
    ensures OpenAll([], open) == []
  {
  }

  lemma LevelOpens(v: Version, l: nat, open: Opener, metaOf: File -> FileMeta)
    requires l < |v| && Findable(v, open, metaOf)
    ensures OpenAll(LevelMetas(v[l], l, metaOf), open) == Tagged(v[l], l)
  {
    TaggedAt(v[l], l);
  }

  lemma OpenAllConcat(a: seq<(nat, FileMeta)>, b: seq<(nat, FileMeta)>, open: Opener)
    ensures OpenAll(a + b, open) == OpenAll(a, open) + OpenAll(b, open)
  {
  }

  /** The record of a snapshot says what the version is. */
  lemma SnapshotSays(v: Version, compactPointer: seq<Bytes>, name: Bytes, open: Opener, metaOf: File -> FileMeta)
    requires Findable(v, open, metaOf)
    ensures ChangeOf(SnapshotEdit(v, compactPointer, name, metaOf), open) == Snapshot(v)
  {
    MetasOpen(v, |v|, open, metaOf);
    assert SnapshotFiles(v, |v|) == [];
  }

  /** Its pointers are those of the levels that have one. */
  lemma {:induction false} PointersSay(compactPointer: seq<Bytes>, levels: nat, l: nat, key: Bytes)
    requires levels <= |compactPointer|
    ensures (l, key) in Pointers(compactPointer, levels) <==> l < levels && compactPointer[l] == key && key != []
  {
    if levels > 0 {
      PointersSay(compactPointer, levels - 1, l, key);
    }
  }

  // ---- appending an edit ----

  lemma ChangesAppend(edits: seq<Edit>, e: Edit, open: Opener)
    ensures Changes(edits + [e], open) == Changes(edits, open) + [ChangeOf(e, open)]
    ensures Encoded(edits + [e]) == Encoded(edits) + [EditBytes(e)]
  {
  }

  ghost predicate HasCounters(e: Edit) {
    e.logNumber.Some? && e.prevLogNumber.Some? && e.nextFileNumber.Some? && e.lastSequence.Some?
  }

  /** No file of the change was at its level before. */
  ghost predicate AddsNewFiles(base: Version, changes: seq<Change>, c: Change) {
    forall l :: 0 <= l < NUM_LEVELS ==> Fresh(AddedAt(c.added, l), KnownAt(base, changes, l))
  }

  lemma StartsManifest(v: Version, e: Edit, name: Bytes, open: Opener)
    requires |v| == NUM_LEVELS && (forall l :: 0 <= l < NUM_LEVELS ==> Numbered(v[l])) && EditOk(e) && ChangeOf(e, open) == Snapshot(v)
    requires e.comparator == Some(name) && e.logNumber == e.prevLogNumber == e.nextFileNumber == e.lastSequence == None
    ensures ManifestEdits(v, [e], name, open)
  {
  }

  lemma GoesOn(base: Version, edits: seq<Edit>, e: Edit, name: Bytes, open: Opener)
    requires ManifestEdits(base, edits, name, open) && EditOk(e) && HasCounters(e) && (e.comparator == None || e.comparator == Some(name))
    requires AddsNewFiles(base, Changes(edits[1..], open), ChangeOf(e, open))
    ensures ManifestEdits(base, edits + [e], name, open) && Changes((edits + [e])[1..], open) == Changes(edits[1..], open) + [ChangeOf(e, open)]
  {
    hide EditOk, AddedOnce, ChangeOf, Snapshot;
    assert (edits + [e])[1..] == edits[1..] + [e];
    ChangesAppend(edits[1..], e, open);
    forall l: nat | l < NUM_LEVELS ensures AddedOnce(Numbers(base[l]), l, Changes(edits[1..], open) + [ChangeOf(e, open)]) {
      AddedOnceAppend(Numbers(base[l]), l, Changes(edits[1..], open), ChangeOf(e, open));
    }
  }

  // ---- a crash in the middle of a record ----

  /** What recovery makes of a manifest with these edits. */
  ghost function Described(base: Version, edits: seq<Edit>, name: Bytes, open: Opener): Outcome
    requires ManifestEdits(base, edits, name, open)
  {
    if |edits| < 2 then Lacking("no meta-nextfile entry in descriptor")
    else
      var e := edits[|edits| - 1];
      Opened(ApplyAll(base, Changes(edits[1..], open)), e.logNumber.value, e.prevLogNumber.value,
             e.nextFileNumber.value, e.nextFileNumber.value + 1, e.lastSequence.value)
  }

  /** An edit is recorded as a whole or not at all: with part of its record in the file, recovery
      opens what the manifest described before, and with all of it, what it describes now. */
  lemma EditsAreAtomic(crc: Crc, base: Version, edits: seq<Edit>, e: Edit, name: Bytes, open: Opener, n: nat)
    requires ManifestEdits(base, edits, name, open) && ManifestEdits(base, edits + [e], name, open)
    requires |LogFile(crc, Encoded(edits))| <= n <= |LogFile(crc, Encoded(edits + [e]))|
    ensures
      var file := LogFile(crc, Encoded(edits + [e]));
      Outcomes(LogReader.ReadAll(crc, true, file[..n], LogReader.START), name, open) ==
      if n < |file| then Described(base, edits, name, open) else Described(base, edits + [e], name, open)
  {
    hide ManifestEdits, LogFile, LogReader.ReadAll, Outcomes, ApplyAll;
    TornManifest(crc, base, edits + [e], name, open, n);
    ChangesAppend(edits, e, open);
    var records := Encoded(edits + [e]);
    assert records[..|records| - 1] == Encoded(edits);
    assert (edits + [e])[..|edits| + 1] == edits + [e];
    assert (edits + [e])[1..|edits| + 1] == (edits + [e])[1..];
    assert edits != [] ==> (edits + [e])[1..|edits|] == edits[1..];
    CompleteNear(crc, edits, e, n);
  }

  lemma CompleteNear(crc: Crc, edits: seq<Edit>, e: Edit, n: nat)
    requires |LogFile(crc, Encoded(edits))| <= n <= |LogFile(crc, Encoded(edits + [e]))|
    ensures LogRoundTrip.Complete(crc, Encoded(edits + [e]), n) == if n < |LogFile(crc, Encoded(edits + [e]))| then |edits| else |edits| + 1
  {
    hide LogFile;
    var records := Encoded(edits + [e]);
    assert records[..|records| - 1] == Encoded(edits);
  }

  class VersionSet {
    const crc: Crc
    const name: Bytes
    const open: Opener
    const metaOf: File -> FileMeta
    var logNumber: nat
    var prevLogNumber: nat
    var nextFileNumber: nat
    var lastSequence: nat
    var current: Version
    var compactPointer: seq<Bytes>
    var descriptorLog: Option<LogWriter.Writer>
    ghost var base: Version
    ghost var edits: seq<Edit>

    /** The manifest holds the edits, and the current version is where they lead. */
    ghost predicate Ok()
      reads this, if descriptorLog.Some? then {descriptorLog.value} else {}
    {
      && |current| == NUM_LEVELS && |compactPointer| == NUM_LEVELS
      && (descriptorLog.Some? ==>
            && descriptorLog.value.Ok() && descriptorLog.value.crc == crc && descriptorLog.value.dest == LogFile(crc, Encoded(edits))
            && ManifestEdits(base, edits, name, open) && current == ApplyAll(base, Changes(edits[1..], open)))
    }

    /** The edit with the numbers LogAndApply fills in. */
    function Prepared(e: Edit): Edit
      reads this
    {
      e.(logNumber := if e.logNumber.Some? then e.logNumber else Some(logNumber),
         prevLogNumber := if e.prevLogNumber.Some? then e.prevLogNumber else Some(prevLogNumber),
         nextFileNumber := Some(nextFileNumber), lastSequence := Some(lastSequence))
    }

    method WriteSnapshot(log: LogWriter.Writer)
      requires log.Ok() && |current| == NUM_LEVELS == |compactPointer|
      modifies log
      ensures log.Ok()
      ensures log.dest == old(log.dest) + Fragments(log.crc, |old(log.dest)| % BLOCK_SIZE, EditBytes(SnapshotEdit(current, compactPointer, name, metaOf)), true)
    {
      hide Fragments, EditBytes;
      var edit := EMPTY.(comparator := Some(name));
      for level := 0 to NUM_LEVELS
        invariant edit == EMPTY.(comparator := Some(name), compactPointers := Pointers(compactPointer, level))
      {
        if compactPointer[level] != [] {
          edit := edit.(compactPointers := edit.compactPointers + [(level, compactPointer[level])]);
        }
      }
      for level := 0 to NUM_LEVELS
        invariant edit == SnapshotEdit(current, compactPointer, name, metaOf).(newFiles := Metas(current, level, metaOf))
      {
        var files := current[level];
        for i := 0 to |files|
          invariant edit == SnapshotEdit(current, compactPointer, name, metaOf).(newFiles := Metas(current, level, metaOf) + LevelMetas(files, level, metaOf)[..i])
        {
          edit := edit.(newFiles := edit.newFiles + [(level, metaOf(files[i]))]);
        }
      }
      log.AddRecord(EditBytes(edit));
    }

    /** What the manifest goes on from. */
    ghost function Base(): Version
      reads this
    {
      if descriptorLog.Some? then base else current
    }

    ghost function Recorded(): seq<Edit>
      reads this
    {
      if descriptorLog.Some? then edits else [SnapshotEdit(current, compactPointer, name, metaOf)]
    }

    /** Begins a manifest where there is none, appends the edit and installs its version. */
    method LogAndApply(edit: Edit)
      requires Ok() && Findable(current, open, metaOf)
      requires edit.comparator == None && EditOk(Prepared(edit))
      requires descriptorLog.None? ==>
        (forall l :: 0 <= l < NUM_LEVELS ==> Numbered(current[l])) && EditOk(SnapshotEdit(current, compactPointer, name, metaOf))
      requires AddsNewFiles(Base(), Changes(Recorded()[1..], open), ChangeOf(edit, open))
      modifies this, if descriptorLog.Some? then {descriptorLog.value} else {}
      ensures Ok() && descriptorLog.Some?
      ensures base == old(Base()) && edits == old(Recorded()) + [old(Prepared(edit))]
      ensures ManifestEdits(base, old(Recorded()), name, open)
      ensures current == Apply(old(current), ChangeOf(edit, open))
      ensures Some(logNumber) == old(Prepared(edit)).logNumber && Some(prevLogNumber) == old(Prepared(edit)).prevLogNumber
      ensures nextFileNumber == old(nextFileNumber) && lastSequence == old(lastSequence) && compactPointer == old(compactPointer)
      ensures Described(base, edits, name, open) ==
        Opened(current, logNumber, prevLogNumber, nextFileNumber, nextFileNumber + 1, lastSequence)
    {
      hide LogFile, Fragments, ManifestEdits, EditOk, EditBytes, ApplyAll, Apply, ChangeOf, Snapshot, Findable, AddsNewFiles, SnapshotEdit;
      var e := Prepared(edit);
      var v := Apply(current, ChangeOf(edit, open));
      if descriptorLog.None? {
        StartManifest();
      }
      SaysTheSame(edit, e, open);
      GoesOn(base, edits, e, name, open);
      ApplyAllAppend(base, Changes(edits[1..], open), ChangeOf(e, open));
      NextRecord(crc, edits, e);
      descriptorLog.value.AddRecord(EditBytes(e));
      edits := edits + [e];
      current := v;
      logNumber := e.logNumber.value;
      prevLogNumber := e.prevLogNumber.value;
    }

    method StartManifest()
      requires Ok() && descriptorLog.None? && Findable(current, open, metaOf)
      requires (forall l :: 0 <= l < NUM_LEVELS ==> Numbered(current[l])) && EditOk(SnapshotEdit(current, compactPointer, name, metaOf))
      modifies this`descriptorLog, this`base, this`edits
      ensures Ok() && descriptorLog.Some? && fresh(descriptorLog.value)
      ensures base == current && edits == [SnapshotEdit(current, compactPointer, name, metaOf)]
    {
      hide Fragments, ManifestEdits, EditOk, EditBytes, Findable, Snapshot;
      var log := new LogWriter.Writer(crc);
      WriteSnapshot(log);
      SnapshotSays(current, compactPointer, name, open, metaOf);
      StartsManifest(current, SnapshotEdit(current, compactPointer, name, metaOf), name, open);
      base, edits := current, [SnapshotEdit(current, compactPointer, name, metaOf)];
      FirstRecord(crc, edits[0]);
      descriptorLog := Some(log);
      assert edits[1..] == [] && Changes([], open) == [];
    }
  }

  /** Counters are not part of the change. */
  lemma SaysTheSame(e: Edit, e': Edit, open: Opener)
    requires e'.deletedFiles == e.deletedFiles && e'.newFiles == e.newFiles
    ensures ChangeOf(e', open) == ChangeOf(e, open)
  {
  }

  lemma FirstRecord(crc: Crc, e: Edit)
    ensures LogFile(crc, Encoded([e])) == [] + Fragments(crc, 0, EditBytes(e), true)
  {
    hide Fragments, EditBytes;
    assert Encoded([e]) == [EditBytes(e)];
    assert [EditBytes(e)][..0] == [] && LogFile(crc, []) == [];
  }

  lemma NextRecord(crc: Crc, edits: seq<Edit>, e: Edit)
    ensures
      var before := LogFile(crc, Encoded(edits));
      LogFile(crc, Encoded(edits + [e])) == before + Fragments(crc, |before| % BLOCK_SIZE, EditBytes(e), true)
  {
    hide Fragments, EditBytes;
    assert Encoded(edits + [e]) == Encoded(edits) + [EditBytes(e)];
    assert (Encoded(edits) + [EditBytes(e)])[..|edits|] == Encoded(edits);
  }
}
