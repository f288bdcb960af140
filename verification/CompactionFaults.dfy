/** Three conditions the compaction code does not check, each with a tree and the reads that fail
    without it.  For the first two, what survives exactly if they hold; CompactionSteps has the third. */
module CompactionFaults {
  import opened Keys
  import opened Versions
  import opened Compactions
  import opened CompactionWork
  import opened InputSelection
  import opened Builders
  import opened ManifestReplay
  import opened Tree
  import opened CompactionSteps
  import opened CompactionInstall

  /** Moving or merging whole inputs above level 0 keeps the tree invariant exactly when no file
      left behind begins with the user key an input ends with. */
  lemma KeepsTreeInvIffBoundaryClear(v: Version, v': Version, level: nat, in0: seq<File>, in1: seq<File>, outs: seq<File>)
    requires TreeInv(v) && Distinct(VersionEntries(v)) && level > 0 && InputsOk(v, level, in0, in1)
    requires OutputsFromInputs(in0, in1, outs) && ReplacedBy(v, v', level, in0, in1, outs) && Listed(v')
    requires forall e :: IsInput(in0, in1, e) ==> e in LevelEntries(outs)
    ensures TreeInv(v') <==> BoundaryClear(v[level], in0)
  {
    if BoundaryClear(v[level], in0) {
      StartPlaced(v, level, in0, in1);
      InstallKeepsTreeInv(v, v', level, in0, in1, outs);
    }
    if TreeInv(v') {
      forall f, g | f in in0 && g in v[level] && g !in in0 ensures Newer(g, f) {
        forall e, d | e in g.entries && d in f.entries && e.key.user == d.key.user ensures e.key.seqno > d.key.seqno {
          assert IsInput(in0, in1, d);
          var o :| o in outs && d in o.entries;
          assert g in v'[level] && o in v'[level + 1] && Newer(g, o);
        }
      }
      LevelDistinct(v, level);
      BoundaryClearIsNewer(v[level], in0);
    }
  }

  /** Compacting inputs with a clear boundary at their level keeps every answer at or above the
      smallest snapshot exactly when no dropped tombstone uncovers a value at the boundary of the
      next level. */
  lemma KeepsAnswersIffNothingUncovered(v: Version, v': Version, level: nat, in0: seq<File>, in1: seq<File>, input: seq<Entry>,
                                        outs: seq<File>, smallest: SequenceNumber)
    requires TreeInv(v) && Distinct(VersionEntries(v)) && InputsOk(v, level, in0, in1) && smallest < MAX_SEQUENCE
    requires level > 0 ==> BoundaryClear(v[level], in0)
    requires SortedEntries(input) && ToSet(input) == InputEntries(in0, in1)
    requires Flat(outs) == Kept(input, SCAN_START, v, level, smallest) && ReplacedBy(v, v', level, in0, in1, outs)
    ensures SameAnswers(VersionEntries(v), VersionEntries(v'), smallest) <==> !UncoversAtBoundary(v, level, in0, in1, smallest)
  {
    var rest, inputs, outputs := RestEntries(v, level, in0, in1), InputEntries(in0, in1), LevelEntries(outs);
    EntriesBefore(v, level, in0, in1);
    EntriesAfter(v, v', level, in0, in1, outs);
    FlatIsLevelEntries(outs);
    hide TreeInv, InputsOk, ReplacedBy, UncoversAtBoundary, RestEntries, TombstonesUncoverNothing, SameAnswers;
    KeptIsSurvivors(input, v, level, smallest);
    assert forall e :: e in outputs <==> e in Flat(outs);
    CompactionPreservesAnswers(inputs, outputs, rest, v, level, smallest);
    UncoversIffAtBoundary(v, level, in0, in1, smallest);
  }

  function OneEntryFile(number: nat, e: Entry): (f: File)
    ensures FileOk(f)
  {
    File(number, 1, e.key, e.key, [e])
  }

  function OnlyLevels(one: seq<File>, two: seq<File>): Version {
    seq(NUM_LEVELS, l => if l == 1 then one else if l == 2 then two else [])
  }

  lemma OnlyLevelsIs(v: Version, one: seq<File>, two: seq<File>)
    requires Listed(v) && Numbered(one) && Numbered(two)
    requires forall l, f :: 0 <= l < NUM_LEVELS ==> (f in v[l] <==> f in OnlyLevels(one, two)[l])
    ensures v == OnlyLevels(one, two)
  {
    forall l | 0 <= l < NUM_LEVELS ensures v[l] == OnlyLevels(one, two)[l] {
      SortedSameFiles(v[l], OnlyLevels(one, two)[l]);
    }
  }

  lemma OnlyLevelsEntries(one: seq<File>, two: seq<File>)
    ensures VersionEntries(OnlyLevels(one, two)) == LevelEntries(one) + LevelEntries(two)
  {
    var v := OnlyLevels(one, two);
    assert v[1] == one && v[2] == two;
  }

  lemma OnlyLevelsTreeInv(one: seq<File>, two: seq<File>)
    requires Numbered(one) && Numbered(two) && SortedLevel(one) && SortedLevel(two)
    requires forall f :: f in one || f in two ==> FileOk(f)
    requires forall f, g :: f in one && g in two ==> Newer(f, g)
    ensures TreeInv(OnlyLevels(one, two)) && Listed(OnlyLevels(one, two))
  {
  }

  lemma OneEntryLevel(number: nat, e: Entry)
    ensures LevelEntries([OneEntryFile(number, e)]) == {e}
    ensures Numbered([OneEntryFile(number, e)]) && SortedLevel([OneEntryFile(number, e)])
  {
    var f := OneEntryFile(number, e);
    assert f in [f] && e in f.entries;
  }

  lemma TwoEntryLevel(m: nat, d: Entry, n: nat, e: Entry)
    requires Before(d.key, e.key) && m != n
    ensures
      var files := [OneEntryFile(m, d), OneEntryFile(n, e)];
      LevelEntries(files) == {d, e} && Numbered(files) && SortedLevel(files)
  {
    var f, g := OneEntryFile(m, d), OneEntryFile(n, e);
    assert f in [f, g] && g in [f, g] && d in f.entries && e in g.entries;
  }

  lemma SearchOnlyLevels(one: seq<File>, two: seq<File>, user: UserKey, seqno: SequenceNumber)
    ensures
      var v := OnlyLevels(one, two);
      var p := FirstHit(Candidates(one, 1, user, seqno), user, seqno);
      SearchFrom(v, 0, user, seqno) == if p.Some? then p else
        FirstHit(Candidates(two, 2, user, seqno), user, seqno)
  {
    var v := OnlyLevels(one, two);
    forall l: nat | 3 <= l <= NUM_LEVELS ensures SearchFrom(v, l, user, seqno) == None {
      NothingBelow(v, l, user, seqno);
    }
    assert v[0] == [] && v[1] == one && v[2] == two;
    assert Candidates(v[0], 0, user, seqno) == [];
    assert SearchFrom(v, 0, user, seqno) == SearchFrom(v, 1, user, seqno);
    assert SearchFrom(v, 2, user, seqno) == FirstHit(Candidates(two, 2, user, seqno), user, seqno);
  }

  lemma {:induction false} NothingBelow(v: Version, l: nat, user: UserKey, seqno: SequenceNumber)
    requires forall m :: l <= m < |v| ==> v[m] == []
    ensures SearchFrom(v, l, user, seqno) == None
    decreases |v| - l
  {
    if l < |v| {
      NothingBelow(v, l + 1, user, seqno);
    }
  }

  /** A level holding one one-entry file is searched by probing that file. */
  lemma SearchOneFile(level: nat, number: nat, e: Entry, user: UserKey, seqno: SequenceNumber)
    requires level > 0 && VisibleAt(e, user, seqno)
    ensures FirstHit(Candidates([OneEntryFile(number, e)], level, user, seqno), user, seqno) == Some(e)
  {
    var f := OneEntryFile(number, e);
    assert FirstNotBefore([f], SeekKey(user, seqno)) == 0;
  }

  /** The version before and after f moves from level 1, beside g, to level 2. */
  lemma SplitMove(f: File, g: File)
    requires f.number != g.number && FileOk(f) && FileOk(g) && Before(f.largest, g.smallest)
    requires f.smallest == f.largest && g.smallest == g.largest
    ensures
      var v := OnlyLevels([f, g], []);
      TreeInv(v) && Listed(v) && InputsOk(v, 1, [f], [])
      && Apply(v, InstallChange(1, [f], [], [f])) == OnlyLevels([g], [f])
  {
    var v := OnlyLevels([f, g], []);
    OnlyLevelsTreeInv([f, g], []);
    assert NextLevelInputs(v, 1, [f]) == [];
    SplitApply(f, g);
  }

  lemma SplitApply(f: File, g: File)
    requires Listed(OnlyLevels([f, g], []))
    ensures Apply(OnlyLevels([f, g], []), InstallChange(1, [f], [], [f])) == OnlyLevels([g], [f])
  {
    var v := OnlyLevels([f, g], []);
    assert v[1] == [f, g] && v[2] == [];
    assert Numbered(v[1]);
    InstallApplies(v, 1, [f], [], [f]);
    OnlyLevelsIs(Apply(v, InstallChange(1, [f], [], [f])), [g], [f]);
  }

  /** A user key split over two adjacent files of level 1: a compaction that takes only the first
      file down leaves the older entry above the newer one, and Get returns the old value. */
  lemma SplitKeyReadsOldValue(e: Entry, d: Entry)
    requires e.key.user == d.key.user && d.key.seqno < e.key.seqno
    ensures
      var f, g := OneEntryFile(4, e), OneEntryFile(5, d);
      var v := OnlyLevels([f, g], []);
      var v' := Apply(v, InstallChange(1, [f], [], [f]));
      && TreeInv(v) && Distinct(VersionEntries(v)) && InputsOk(v, 1, [f], [])
      && Lookup(VersionEntries(v'), e.key.user, e.key.seqno) == Val(e)
      && ValueOf(SearchFrom(v', 0, e.key.user, e.key.seqno)) == Val(d)
  {
    var f, g := OneEntryFile(4, e), OneEntryFile(5, d);
    SplitMove(f, g);
    SplitReads(f, g, e, d);
  }

  lemma SplitReads(f: File, g: File, e: Entry, d: Entry)
    requires e.key.user == d.key.user && d.key.seqno < e.key.seqno
    requires f == OneEntryFile(4, e) && g == OneEntryFile(5, d)
    ensures Distinct(VersionEntries(OnlyLevels([f, g], [])))
    ensures Lookup(VersionEntries(OnlyLevels([g], [f])), e.key.user, e.key.seqno) == Val(e)
    ensures SearchFrom(OnlyLevels([g], [f]), 0, e.key.user, e.key.seqno) == Some(d)
  {
    TwoEntryLevel(4, e, 5, d);
    OneEntryLevel(4, e);
    OneEntryLevel(5, d);
    OnlyLevelsEntries([f, g], []);
    OnlyLevelsEntries([g], [f]);
    SearchOnlyLevels([g], [f], e.key.user, e.key.seqno);
    SearchOneFile(1, 5, d, e.key.user, e.key.seqno);
    LookupIsNewest(VersionEntries(OnlyLevels([g], [f])), e.key.user, e.key.seqno, e);
  }

  /** A user key split over two adjacent files of level 2, with a tombstone in the first: a
      compaction from level 1 that takes only the first file drops the tombstone, and the deleted
      value in the second file is back. */
  lemma DroppedTombstoneBringsBack(a: Entry, b: Entry, t: Entry, d: Entry)
    requires a.key.user == b.key.user < t.key.user == d.key.user
    requires b.key.seqno < a.key.seqno && d.key.seqno < t.key.seqno && a.key.seqno <= t.key.seqno < MAX_SEQUENCE
    requires a.key.kind.Put? && t.key.kind.Deletion? && d.key.kind.Put?
    ensures
      var f, g, h := OneEntryFile(4, a), File(5, 2, b.key, t.key, [b, t]), OneEntryFile(6, d);
      var v := OnlyLevels([f], [g, h]);
      var o := OneEntryFile(7, a);
      var v' := Apply(v, InstallChange(1, [f], [g], [o]));
      && TreeInv(v) && Distinct(VersionEntries(v)) && InputsOk(v, 1, [f], [g]) && BoundaryClear(v[1], [f])
      && Kept([a, b, t], SCAN_START, v, 1, t.key.seqno) == [a] && OutputsFromInputs([f], [g], [o])
      && ValueOf(SearchFrom(v, 0, d.key.user, t.key.seqno)) == None
      && ValueOf(SearchFrom(v', 0, d.key.user, t.key.seqno)) == Val(d)
  {
    var f, g, h, o := OneEntryFile(4, a), File(5, 2, b.key, t.key, [b, t]), OneEntryFile(6, d), OneEntryFile(7, a);
    BroughtBackStart(f, g, h, a, b, t, d);
    BroughtBackKept(f, g, h, a, b, t);
    BroughtBackInstall(f, g, h, o);
    BroughtBackReads(f, g, h, o, a, b, t, d);
    assert f in [f] && a in f.entries && IsInput([f], [g], a);
  }

  lemma BroughtBackStart(f: File, g: File, h: File, a: Entry, b: Entry, t: Entry, d: Entry)
    requires a.key.user == b.key.user < t.key.user == d.key.user && b.key.seqno < a.key.seqno && d.key.seqno < t.key.seqno
    requires f == OneEntryFile(4, a) && g == File(5, 2, b.key, t.key, [b, t]) && h == OneEntryFile(6, d)
    ensures
      var v := OnlyLevels([f], [g, h]);
      TreeInv(v) && Listed(v) && Distinct(VersionEntries(v)) && InputsOk(v, 1, [f], [g]) && BoundaryClear(v[1], [f])
  {
    hide OnlyLevels, TreeInv, Listed, InputsOk, VersionEntries, FileOk, BoundaryClear;
    BroughtBackFiles(f, g, h, a, b, t, d);
    OnlyLevelsTreeInv([f], [g, h]);
    OnlyLevelsEntries([f], [g, h]);
    assert VersionEntries(OnlyLevels([f], [g, h])) <= {a, b, t, d};
    BroughtBackInputs(f, g, h);
  }

  lemma BroughtBackFiles(f: File, g: File, h: File, a: Entry, b: Entry, t: Entry, d: Entry)
    requires a.key.user == b.key.user < t.key.user == d.key.user && b.key.seqno < a.key.seqno && d.key.seqno < t.key.seqno
    requires f == OneEntryFile(4, a) && g == File(5, 2, b.key, t.key, [b, t]) && h == OneEntryFile(6, d)
    ensures Numbered([f]) && Numbered([g, h]) && SortedLevel([f]) && SortedLevel([g, h])
    ensures FileOk(f) && FileOk(g) && FileOk(h) && Newer(f, g) && Newer(f, h)
    ensures LevelEntries([f]) <= {a} && LevelEntries([g, h]) <= {b, t, d}
  {
  }

  lemma BroughtBackInputs(f: File, g: File, h: File)
    requires f.smallest.user == f.largest.user == g.smallest.user < g.largest.user == h.smallest.user <= h.largest.user
    ensures
      var v := OnlyLevels([f], [g, h]);
      v[1] == [f] && v[2] == [g, h] && InputsOk(v, 1, [f], [g]) && BoundaryClear(v[1], [f])
  {
    assert [g, h][..1] == [g] && [g][..0] == [];
    var lo, hi := Some(LoUser([f])), Some(HiUser([f]));
    assert Filter([g], lo, hi) == Filter([], lo, hi) + [g];
    assert Filter([g, h], lo, hi) == [g];
  }

  lemma BroughtBackKept(f: File, g: File, h: File, a: Entry, b: Entry, t: Entry)
    requires a.key.user == b.key.user < t.key.user && b.key.seqno < a.key.seqno <= t.key.seqno < MAX_SEQUENCE
    requires a.key.kind.Put? && t.key.kind.Deletion?
    ensures Kept([a, b, t], SCAN_START, OnlyLevels([f], [g, h]), 1, t.key.seqno) == [a]
  {
    var v := OnlyLevels([f], [g, h]);
    forall l | 3 <= l < |v| ensures v[l] == [] {}
    assert IsBaseLevel(v, 1, t.key.user);
    var s1, s2 := Scan(Some(a.key.user), a.key.seqno), Scan(Some(b.key.user), b.key.seqno);
    assert [a, b, t][1..] == [b, t] && [b, t][1..] == [t];
    assert Kept([t], s2, v, 1, t.key.seqno) == [];
    assert Kept([b, t], s1, v, 1, t.key.seqno) == [];
  }

  lemma BroughtBackInstall(f: File, g: File, h: File, o: File)
    requires FileOk(f) && FileOk(g) && FileOk(h) && f.number < g.number < h.number < o.number
    requires Before(g.smallest, h.smallest) && Before(o.smallest, h.smallest)
    ensures Apply(OnlyLevels([f], [g, h]), InstallChange(1, [f], [g], [o])) == OnlyLevels([], [o, h])
  {
    var v := OnlyLevels([f], [g, h]);
    assert v[1] == [f] && v[2] == [g, h];
    assert Numbered([f]) && Numbered([g, h]) && Listed(v);
    InstallApplies(v, 1, [f], [g], [o]);
    BroughtBackReplaced(f, g, h, o, Apply(v, InstallChange(1, [f], [g], [o])));
  }

  lemma BroughtBackReplaced(f: File, g: File, h: File, o: File, v': Version)
    requires f.number < g.number < h.number < o.number && Before(o.smallest, h.smallest)
    requires Listed(v') && ReplacedBy(OnlyLevels([f], [g, h]), v', 1, [f], [g], [o])
    ensures v' == OnlyLevels([], [o, h])
  {
    var v := OnlyLevels([f], [g, h]);
    assert v[1] == [f] && v[2] == [g, h] && Numbered([o, h]);
    hide Listed, Numbered;
    forall l, k | 0 <= l < NUM_LEVELS ensures k in v'[l] <==> k in OnlyLevels([], [o, h])[l] {
      assert k in v[l] <==> (l == 1 && k == f) || (l == 2 && (k == g || k == h));
      assert k in [f] <==> k == f;
      assert k in [g] <==> k == g;
      assert k in OnlyLevels([], [o, h])[l] <==> l == 2 && (k == o || k == h);
    }
    OnlyLevelsIs(v', [], [o, h]);
  }

  lemma BroughtBackReads(f: File, g: File, h: File, o: File, a: Entry, b: Entry, t: Entry, d: Entry)
    requires a.key.user == b.key.user < t.key.user == d.key.user && d.key.seqno < t.key.seqno
    requires f == OneEntryFile(4, a) && g == File(5, 2, b.key, t.key, [b, t]) && h == OneEntryFile(6, d) && o == OneEntryFile(7, a)
    ensures SearchFrom(OnlyLevels([f], [g, h]), 0, d.key.user, t.key.seqno) == Some(t)
    ensures SearchFrom(OnlyLevels([], [o, h]), 0, d.key.user, t.key.seqno) == Some(d)
  {
    var user, seqno := d.key.user, t.key.seqno;
    var target := SeekKey(user, seqno);
    SearchOnlyLevels([f], [g, h], user, seqno);
    SearchOnlyLevels([], [o, h], user, seqno);
    assert FirstHit(Candidates([f], 1, user, seqno), user, seqno) == None by {
      assert FirstNotBefore([f], target) == 1;
    }
    assert Before(target, t.key) || target == SeekKey(user, seqno);
    assert FirstNotBefore([g, h], target) == 0;
    assert [b, t][1..] == [t];
    assert TableGet(g, target) == Some(t);
    assert FirstNotBefore([o, h], target) == 1;
    assert TableGet(h, target) == Some(d);
  }

  /** Manual compactions can choose inputs with a gap.  A memtable flushed into the gap at the
      output level while such a compaction runs ends up inside the range of an output file, and
      Get no longer finds its key. */
  lemma GapLosesFlushedKey(a: Entry, b: Entry, x: Entry)
    requires a.key.user < x.key.user < b.key.user
    requires x.key.seqno > a.key.seqno && x.key.seqno > b.key.seqno
    ensures
      var f, g, h := OneEntryFile(4, a), OneEntryFile(5, b), OneEntryFile(7, x);
      var o := File(6, 2, a.key, b.key, [a, b]);
      var v := OnlyLevels([f, g], []);
      var flushed := Apply(v, FlushChange(2, h));
      var v' := Apply(flushed, InstallChange(1, [f, g], [], [o]));
      && TreeInv(v) && Filter(v[1], None, None) == [f, g] && InputsOk(v, 1, [f, g], []) && BoundaryClear(v[1], [f, g])
      && Flushable(v, 2, h) && OutputsFromInputs([f, g], [], [o])
      && Lookup(VersionEntries(v'), x.key.user, x.key.seqno) == Val(x)
      && SearchFrom(v', 0, x.key.user, x.key.seqno) == None
  {
    var f, g, h := OneEntryFile(4, a), OneEntryFile(5, b), OneEntryFile(7, x);
    var o := File(6, 2, a.key, b.key, [a, b]);
    GapStart(f, g, h);
    GapEnd(f, g, h, o);
    GapOutputs(f, g, o, a, b);
    OnlyLevelsEntries([], [o, h]);
    SearchOnlyLevels([], [o, h], x.key.user, x.key.seqno);
    GapSearch(a, b, x, o, h);
    GapLookup(a, b, x, o, h);
  }

  lemma GapStart(f: File, g: File, h: File)
    requires FileOk(f) && FileOk(g) && FileOk(h) && f.number < g.number < h.number
    requires f.smallest == f.largest && g.smallest == g.largest && h.smallest == h.largest
    requires f.largest.user < h.smallest.user < g.smallest.user
    requires Newer(h, f) && Newer(h, g)
    ensures
      var v := OnlyLevels([f, g], []);
      && TreeInv(v) && Listed(v) && Filter(v[1], None, None) == [f, g] && InputsOk(v, 1, [f, g], []) && BoundaryClear(v[1], [f, g])
      && Flushable(v, 2, h)
      && Apply(v, FlushChange(2, h)) == OnlyLevels([f, g], [h])
  {
    var v := OnlyLevels([f, g], []);
    OnlyLevelsTreeInv([f, g], []);
    GapInputs(f, g);
    GapFlushable(f, g, h);
    GapFlush(f, g, h);
  }

  lemma GapFlushable(f: File, g: File, h: File)
    requires FileOk(h) && f.number < g.number < h.number
    requires f.smallest == f.largest && g.smallest == g.largest && h.smallest == h.largest
    requires f.largest.user < h.smallest.user < g.smallest.user
    requires Newer(h, f) && Newer(h, g)
    ensures Flushable(OnlyLevels([f, g], []), 2, h)
  {
    var v := OnlyLevels([f, g], []);
    forall l, k | 0 <= l < NUM_LEVELS && k in v[l] ensures k == f || k == g {}
    assert v[2] == [];
  }

  lemma GapFlush(f: File, g: File, h: File)
    requires Listed(OnlyLevels([f, g], []))
    ensures Apply(OnlyLevels([f, g], []), FlushChange(2, h)) == OnlyLevels([f, g], [h])
  {
    var v := OnlyLevels([f, g], []);
    assert v[1] == [f, g] && v[2] == [];
    assert Numbered(v[1]);
    FlushApplies(v, 2, h);
    OnlyLevelsIs(Apply(v, FlushChange(2, h)), [f, g], [h]);
  }

  lemma GapEnd(f: File, g: File, h: File, o: File)
    requires FileOk(f) && FileOk(g) && FileOk(h) && f.number < g.number < o.number < h.number
    requires Before(f.smallest, g.smallest) && Before(o.smallest, h.smallest)
    ensures Apply(OnlyLevels([f, g], [h]), InstallChange(1, [f, g], [], [o])) == OnlyLevels([], [o, h])
  {
    hide Apply, FileOk, Before, VersionEntries;
    var v := OnlyLevels([f, g], [h]);
    assert v[1] == [f, g] && v[2] == [h];
    assert Numbered([f, g]) && Numbered([h]) && Listed(v);
    InstallApplies(v, 1, [f, g], [], [o]);
    assert Numbered([o, h]);
    OnlyLevelsIs(Apply(v, InstallChange(1, [f, g], [], [o])), [], [o, h]);
  }

  lemma GapOutputs(f: File, g: File, o: File, a: Entry, b: Entry)
    requires f.entries == [a] && g.entries == [b] && o == File(6, 2, a.key, b.key, [a, b]) && a.key.user < b.key.user
    ensures OutputsFromInputs([f, g], [], [o])
  {
    assert f in [f, g] && g in [f, g] && a in f.entries && b in g.entries;
    assert IsInput([f, g], [], a) && IsInput([f, g], [], b);
  }

  lemma GapInputs(f: File, g: File)
    requires f.smallest.user <= f.largest.user && g.smallest.user <= g.largest.user
    ensures Filter([f, g], None, None) == [f, g]
    ensures InputsOk(OnlyLevels([f, g], []), 1, [f, g], [])
  {
    assert [f, g][..1] == [f] && [f][..0] == [];
    assert Filter([f], None, None) == Filter([], None, None) + [f];
    assert NextLevelInputs(OnlyLevels([f, g], []), 1, [f, g]) == [];
  }

  lemma GapSearch(a: Entry, b: Entry, x: Entry, o: File, h: File)
    requires a.key.user < x.key.user < b.key.user && o == File(6, 2, a.key, b.key, [a, b])
    ensures FirstHit(Candidates([o, h], 2, x.key.user, x.key.seqno), x.key.user, x.key.seqno) == None
    ensures FirstHit(Candidates([], 1, x.key.user, x.key.seqno), x.key.user, x.key.seqno) == None
  {
    var target := SeekKey(x.key.user, x.key.seqno);
    assert FirstNotBefore([o, h], target) == 0;
    assert o.entries[1..] == [b];
    assert TableGet(o, target) == Some(b);
  }

  lemma GapLookup(a: Entry, b: Entry, x: Entry, o: File, h: File)
    requires a.key.user < x.key.user < b.key.user
    requires o.entries == [a, b] && h.entries == [x]
    ensures Lookup(LevelEntries([]) + LevelEntries([o, h]), x.key.user, x.key.seqno) == Val(x)
  {
    var all := LevelEntries([]) + LevelEntries([o, h]);
    assert all == {a, b, x} by {
      assert o in [o, h] && h in [o, h] && a in o.entries && b in o.entries && x in h.entries;
    }
    LookupIsNewest(all, x.key.user, x.key.seqno, x);
  }
}
