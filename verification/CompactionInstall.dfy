/** Installing a compaction's results: every reader's answers survive. */
module CompactionInstall {
  import opened Keys
  import opened Versions
  import opened Compactions
  import opened CompactionWork
  import opened Builders
  import opened ManifestReplay
  import opened Tree

  /** The edit InstallCompactionResults logs; a trivial move is the case outs == in0. */
  function InstallChange(level: nat, in0: seq<File>, in1: seq<File>, outs: seq<File>): Change {
    Change((set f | f in in0 :: (level, f.number)) + (set f | f in in1 :: (level + 1, f.number)), Tagged(outs, level + 1))
  }

  lemma InstallApplies(v: Version, level: nat, in0: seq<File>, in1: seq<File>, outs: seq<File>)
    requires Listed(v) && level + 1 < NUM_LEVELS
    requires (forall f :: f in in0 ==> f in v[level]) && (forall f :: f in in1 ==> f in v[level + 1])
    requires Fresh(outs, Numbers(v[level + 1]))
    ensures
      var v' := Apply(v, InstallChange(level, in0, in1, outs));
      Listed(v') && ReplacedBy(v, v', level, in0, in1, outs)
  {
    forall l | 0 <= l < NUM_LEVELS
      ensures Numbered(Apply(v, InstallChange(level, in0, in1, outs))[l])
      ensures forall g :: g in Apply(v, InstallChange(level, in0, in1, outs))[l] <==>
        (l == level + 1 && g in outs) ||
        (g in v[l] && !(l == level && g in in0) && !(l == level + 1 && g in in1))
    {
      InstallAppliesAt(v, level, in0, in1, outs, l);
    }
  }

  lemma InstallAppliesAt(v: Version, level: nat, in0: seq<File>, in1: seq<File>, outs: seq<File>, l: nat)
    requires Listed(v) && level + 1 < NUM_LEVELS && l < NUM_LEVELS
    requires (forall f :: f in in0 ==> f in v[level]) && (forall f :: f in in1 ==> f in v[level + 1])
    requires Fresh(outs, Numbers(v[level + 1]))
    ensures
      var saved := Apply(v, InstallChange(level, in0, in1, outs))[l];
      Numbered(saved) && forall g :: g in saved <==>
        (l == level + 1 && g in outs) ||
        (g in v[l] && !(l == level && g in in0) && !(l == level + 1 && g in in1))
  {
    hide SaveLevel, ApplyLevel, AddedAt, DeletedAt, Tagged;
    var change := InstallChange(level, in0, in1, outs);
    AddedAtTagged(outs, level + 1, l);
    var added := AddedAt(change.added, l);
    DeletedNumbers(level, in0, in1, outs, l);
    SavedMembers(v[l], DeletedAt(change, l), added);
    NumbersStayDistinct(Apply(v, change)[l], v[l], added);
    forall g | g in v[l] && l == level ensures g.number in Numbers(in0) <==> g in in0 {
      NumberedUnique(v[l], in0, g);
    }
    forall g | g in v[l] && l == level + 1 ensures g.number in Numbers(in1) <==> g in in1 {
      NumberedUnique(v[l], in1, g);
    }
  }

  lemma DeletedNumbers(level: nat, in0: seq<File>, in1: seq<File>, outs: seq<File>, l: nat)
    ensures DeletedAt(InstallChange(level, in0, in1, outs), l) ==
      if l == level then Numbers(in0) else if l == level + 1 then Numbers(in1) else {}
  {
    var deleted := InstallChange(level, in0, in1, outs).deleted;
    forall f | f in in0 ensures (level, f.number) in deleted {}
    forall f | f in in1 ensures (level + 1, f.number) in deleted {}
  }

  lemma NumberedUnique(files: seq<File>, inputs: seq<File>, g: File)
    requires Numbered(files) && (forall f :: f in inputs ==> f in files) && g in files
    ensures g.number in Numbers(inputs) <==> g in inputs
  {
    if g.number in Numbers(inputs) {
      var f :| f in inputs && f.number == g.number;
      var i :| 0 <= i < |files| && files[i] == f;
      var j :| 0 <= j < |files| && files[j] == g;
    }
  }

  // ---- the entries afterwards ----

  lemma EntriesAfter(v: Version, v': Version, level: nat, in0: seq<File>, in1: seq<File>, outs: seq<File>)
    requires ReplacedBy(v, v', level, in0, in1, outs)
    ensures VersionEntries(v') == RestEntries(v, level, in0, in1) + LevelEntries(outs)
  {
    forall e | e in VersionEntries(v') ensures e in RestEntries(v, level, in0, in1) + LevelEntries(outs) {
      var l :| 0 <= l < |v'| && e in LevelEntries(v'[l]);
      var f :| f in v'[l] && e in f.entries;
      if !(l == level + 1 && f in outs) {
        assert LeftBehind(v, level, in0, in1, l, f);
      }
    }
    forall e | e in RestEntries(v, level, in0, in1) ensures e in VersionEntries(v') {
      var l: nat, f :| 0 <= l < |v| && f in v[l] && LeftBehind(v, level, in0, in1, l, f) && e in f.entries;
      assert f in v'[l] && e in LevelEntries(v'[l]);
    }
    forall e | e in LevelEntries(outs) ensures e in VersionEntries(v') {
      var f :| f in outs && e in f.entries;
      assert f in v'[level + 1] && e in LevelEntries(v'[level + 1]);
    }
  }

  // ---- answers ----

  /** The heart of DoCompactionWork: replacing the inputs by what the loop kept changes no answer
      of a reader at or above smallest_snapshot, whatever newer entries the memtables hold. */
  lemma CompactionKeepsAnswers(base: Version, v: Version, v': Version, level: nat, in0: seq<File>, in1: seq<File>,
                               input: seq<Entry>, outs: seq<File>, newer: set<Entry>, smallest: SequenceNumber)
    requires TreeInv(v) && CompactionOk(base, v, level, in0, in1, smallest)
    requires Distinct(VersionEntries(v) + newer) && smallest < MAX_SEQUENCE
    requires forall x, e :: x in newer && e in VersionEntries(v) ==> x.key.seqno > e.key.seqno
    requires SortedEntries(input) && ToSet(input) == InputEntries(in0, in1)
    requires Flat(outs) == Kept(input, SCAN_START, base, level, smallest)
    requires ReplacedBy(v, v', level, in0, in1, outs)
    ensures SameAnswers(VersionEntries(v) + newer, VersionEntries(v') + newer, smallest)
  {
    var inputs, outputs := InputEntries(in0, in1), LevelEntries(outs);
    var rest := RestEntries(v, level, in0, in1) + newer;
    EntriesBefore(v, level, in0, in1);
    EntriesAfter(v, v', level, in0, in1, outs);
    assert VersionEntries(v) + newer == rest + inputs;
    assert VersionEntries(v') + newer == rest + outputs;
    FlatIsLevelEntries(outs);
    KeptIsSurvivors(input, base, level, smallest);
    assert forall e :: e in outputs <==> Survives(inputs, e, base, level, smallest) by {
      assert forall e :: e in outputs <==> e in Flat(outs);
    }
    NewerUncoverNothing(inputs, RestEntries(v, level, in0, in1), rest, base, level, smallest);
    CompactionPreservesAnswers(inputs, outputs, rest, base, level, smallest);
  }
}
