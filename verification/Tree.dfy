/** What a flush and an installed compaction do to the tree invariant, and exactly when a
    compaction keeps it. */
module Tree {
  import opened Keys
  import opened Versions
  import opened Compactions
  import opened InputSelection
  import opened Builders
  import opened ManifestReplay

  ghost predicate Listed(v: Version) {
    |v| == NUM_LEVELS && forall l :: 0 <= l < NUM_LEVELS ==> Numbered(v[l])
  }

  ghost predicate Disjoint(f: File, g: File) {
    Before(f.largest, g.smallest) || Before(g.largest, f.smallest)
  }

  lemma SortedFromDisjoint(files: seq<File>)
    requires FileSorted(files) && (forall f :: f in files ==> FileOk(f))
    requires forall f, g :: f in files && g in files && f != g ==> Disjoint(f, g)
    ensures SortedLevel(files)
  {
    forall i, j | 0 <= i < j < |files| ensures Before(files[i].largest, files[j].smallest) {
      var f, g := files[i], files[j];
      assert FileLess(f, g);
      assert Disjoint(f, g);
      EntriesWithinFile(g);
      assert g.entries[0] in g.entries;
    }
  }

  lemma DisjointInLevel(files: seq<File>, f: File, g: File)
    requires SortedLevel(files) && f in files && g in files && f != g
    ensures Disjoint(f, g)
  {
    var i :| 0 <= i < |files| && files[i] == f;
    var j :| 0 <= j < |files| && files[j] == g;
  }

  // ---- flushing a memtable ----

  ghost predicate NewerThanAll(f: File, v: Version) {
    forall l, g :: 0 <= l < |v| && g in v[l] ==> Newer(f, g)
  }

  ghost predicate FitsAt(v: Version, level: nat, f: File) {
    level == 0 || forall l :: 0 <= l <= level ==> !OverlapInLevel(v, l, f.smallest.user, f.largest.user)
  }

  ghost predicate Flushable(v: Version, level: nat, f: File) {
    && level <= MAX_MEM_COMPACT_LEVEL && level < |v|
    && FileOk(f)
    && NewerThanAll(f, v)
    && FitsAt(v, level, f)
    && forall g :: g in v[level] ==> g.number < f.number
  }

  function FlushChange(level: nat, f: File): Change {
    Change({}, [(level, f)])
  }

  /** `v'` is `v` with `f` added to one level. */
  ghost predicate FlushedInto(v: Version, v': Version, level: nat, f: File) {
    && |v| == NUM_LEVELS && |v'| == NUM_LEVELS && level < NUM_LEVELS
    && forall l, g :: 0 <= l < NUM_LEVELS ==> (g in v'[l] <==> g in v[l] || (l == level && g == f))
  }

  lemma FlushApplies(v: Version, level: nat, f: File)
    requires Listed(v) && level < NUM_LEVELS && forall g :: g in v[level] ==> g.number != f.number
    ensures Listed(Apply(v, FlushChange(level, f)))
    ensures FlushedInto(v, Apply(v, FlushChange(level, f)), level, f)
  {
    var change := FlushChange(level, f);
    var v' := Apply(v, change);
    forall l | 0 <= l < NUM_LEVELS
      ensures Numbered(v'[l]) && forall g :: g in v'[l] <==> g in v[l] || (l == level && g == f)
    {
      var added := AddedAt(change.added, l);
      assert added == if l == level then [f] else [] by {
        AddedAtTagged([f], level, l);
        assert Tagged([f], level) == change.added;
      }
      assert DeletedAt(change, l) == {};
      SavedMembers(v[l], {}, added);
      NumbersStayDistinct(v'[l], v[l], added);
    }
  }

  lemma NumbersStayDistinct(saved: seq<File>, base: seq<File>, added: seq<File>)
    requires FileSorted(saved) && Numbered(base) && Fresh(added, Numbers(base))
    requires forall f :: f in saved ==> f in base || f in added
    ensures Numbered(saved)
  {
    SortedFresh(saved);
    forall i, j | 0 <= i < j < |saved| ensures saved[i].number != saved[j].number {
      var f, g := saved[i], saved[j];
      assert f != g;
      if f in base {
        assert f.number in Numbers(base);
      }
      if g in base {
        assert g.number in Numbers(base);
      }
    }
  }

  lemma FlushKeepsTreeInv(v: Version, v': Version, level: nat, f: File)
    requires TreeInv(v) && Flushable(v, level, f) && FlushedInto(v, v', level, f) && Listed(v')
    ensures TreeInv(v')
  {
    EndsInOrder(f);
    forall l | 1 <= l < NUM_LEVELS ensures SortedLevel(v'[l]) {
      forall g, h | g in v'[l] && h in v'[l] && g != h ensures Disjoint(g, h) {
        if g in v[l] && h in v[l] {
          DisjointInLevel(v[l], g, h);
        } else {
          assert l == level && !OverlapInLevel(v, l, f.smallest.user, f.largest.user);
        }
      }
      SortedFromDisjoint(v'[l]);
    }
    forall l, m, g, h | 0 <= l < m < NUM_LEVELS && g in v'[l] && h in v'[m] ensures Newer(g, h) {
      if g in v[l] && h in v[m] {
      } else if l == level && g == f && h in v[m] {
      } else {
        assert !OverlapInLevel(v, l, f.smallest.user, f.largest.user);
        ApartInUserKeys(g, f);
      }
    }
    assert LevelZeroOk(v'[0]);
  }

  lemma ApartInUserKeys(g: File, f: File)
    requires FileOk(f) && FileOk(g) && !Overlaps(g, Some(f.smallest.user), Some(f.largest.user))
    ensures Newer(g, f) && Newer(f, g)
  {
    EntriesWithinFile(f);
    EntriesWithinFile(g);
  }

  lemma FlushEntries(v: Version, v': Version, level: nat, f: File)
    requires FlushedInto(v, v', level, f)
    ensures VersionEntries(v') == VersionEntries(v) + FileEntries(f)
  {
    forall e | e in VersionEntries(v') ensures e in VersionEntries(v) + FileEntries(f) {
      var l :| 0 <= l < |v'| && e in LevelEntries(v'[l]);
      var g :| g in v'[l] && e in g.entries;
      if g in v[l] {
        assert e in LevelEntries(v[l]);
      }
    }
    forall e | e in VersionEntries(v) ensures e in VersionEntries(v') {
      var l :| 0 <= l < |v| && e in LevelEntries(v[l]);
      var g :| g in v[l] && e in g.entries;
      assert g in v'[l] && e in LevelEntries(v'[l]);
    }
    forall e | e in f.entries ensures e in VersionEntries(v') {
      assert f in v'[level] && e in LevelEntries(v'[level]);
    }
  }

  // ---- installing a compaction ----

  ghost predicate IsInput(in0: seq<File>, in1: seq<File>, e: Entry) {
    exists f :: (f in in0 || f in in1) && e in f.entries
  }

  /** Every input entry lies on one side of `g`. */
  ghost predicate Aside(g: File, in0: seq<File>, in1: seq<File>) {
    || (forall e :: IsInput(in0, in1, e) ==> Before(g.largest, e.key))
    || (forall e :: IsInput(in0, in1, e) ==> Before(e.key, g.smallest))
  }

  /** The files left behind at the two levels lie aside of the inputs below and hold only newer
      entries beside them: what the tree invariant needs. */
  ghost predicate InputsPlaced(v: Version, level: nat, in0: seq<File>, in1: seq<File>) {
    && level + 1 < NUM_LEVELS && |v| == NUM_LEVELS
    && (forall f :: f in in0 ==> f in v[level])
    && (forall f :: f in in1 ==> f in v[level + 1])
    && (forall g :: g in v[level + 1] && g !in in1 ==> Aside(g, in0, in1))
    && (forall f, g :: f in in0 && g in v[level] && g !in in0 ==> Newer(g, f))
  }

  // ---- the entries of the inputs, and those left behind ----

  ghost function InputEntries(in0: seq<File>, in1: seq<File>): set<Entry> {
    LevelEntries(in0) + LevelEntries(in1)
  }

  ghost predicate LeftBehind(v: Version, level: nat, in0: seq<File>, in1: seq<File>, l: nat, f: File) {
    l < |v| && f in v[l] && !(l == level && f in in0) && !(l == level + 1 && f in in1)
  }

  ghost function RestEntries(v: Version, level: nat, in0: seq<File>, in1: seq<File>): set<Entry> {
    set l: nat, f, e | 0 <= l < |v| && f in v[l] && LeftBehind(v, level, in0, in1, l, f) && e in f.entries :: e
  }

  lemma EntriesBefore(v: Version, level: nat, in0: seq<File>, in1: seq<File>)
    requires level + 1 < |v|
    requires (forall f :: f in in0 ==> f in v[level]) && (forall f :: f in in1 ==> f in v[level + 1])
    ensures VersionEntries(v) == RestEntries(v, level, in0, in1) + InputEntries(in0, in1)
  {
    forall e | e in VersionEntries(v) ensures e in RestEntries(v, level, in0, in1) + InputEntries(in0, in1) {
      var l :| 0 <= l < |v| && e in LevelEntries(v[l]);
      var f :| f in v[l] && e in f.entries;
      assert LeftBehind(v, level, in0, in1, l, f) || f in in0 || f in in1;
    }
    forall e | e in InputEntries(in0, in1) ensures e in VersionEntries(v) {
      if e in LevelEntries(in0) {
        assert e in LevelEntries(v[level]);
      } else {
        assert e in LevelEntries(v[level + 1]);
      }
    }
    forall e | e in RestEntries(v, level, in0, in1) ensures e in VersionEntries(v) {
      RestIn(v, level, in0, in1, e);
    }
  }

  lemma RestIn(v: Version, level: nat, in0: seq<File>, in1: seq<File>, e: Entry)
    requires e in RestEntries(v, level, in0, in1)
    ensures e in VersionEntries(v)
  {
    var l: nat, f :| 0 <= l < |v| && f in v[l] && LeftBehind(v, level, in0, in1, l, f) && e in f.entries;
    assert e in LevelEntries(v[l]);
  }

  /** What holds from the choice of the inputs until the results are installed.  `base` is the
      version the inputs were chosen from, `v` the current one. */
  ghost predicate CompactionOk(base: Version, v: Version, level: nat, in0: seq<File>, in1: seq<File>, smallest: SequenceNumber) {
    && InputsPlaced(v, level, in0, in1)
    && TombstonesUncoverNothing(InputEntries(in0, in1), RestEntries(v, level, in0, in1), base, level, smallest)
  }

  ghost predicate OutputsFromInputs(in0: seq<File>, in1: seq<File>, outs: seq<File>) {
    && SortedLevel(outs)
    && (forall o :: o in outs ==> FileOk(o))
    && forall o, e :: o in outs && e in o.entries ==> IsInput(in0, in1, e)
  }

  /** `v'` is `v` with the inputs replaced by `outs`. */
  ghost predicate ReplacedBy(v: Version, v': Version, level: nat, in0: seq<File>, in1: seq<File>, outs: seq<File>) {
    && |v| == NUM_LEVELS && |v'| == NUM_LEVELS && level + 1 < NUM_LEVELS
    && (forall l, g :: 0 <= l < NUM_LEVELS && l != level && l != level + 1 ==> (g in v'[l] <==> g in v[l]))
    && (forall g :: g in v'[level] <==> g in v[level] && g !in in0)
    && (forall g :: g in v'[level + 1] <==> g in outs || (g in v[level + 1] && g !in in1))
  }

  lemma InstallKeepsTreeInv(v: Version, v': Version, level: nat, in0: seq<File>, in1: seq<File>, outs: seq<File>)
    requires TreeInv(v) && InputsPlaced(v, level, in0, in1) && OutputsFromInputs(in0, in1, outs)
    requires ReplacedBy(v, v', level, in0, in1, outs) && Listed(v')
    ensures TreeInv(v')
  {
    InstallSorted(v, v', level, in0, in1, outs);
    InstallNewerAbove(v, v', level, in0, in1, outs);
    assert FilesOk(v');
    assert LevelZeroOk(v'[0]);
  }

  lemma InstallSorted(v: Version, v': Version, level: nat, in0: seq<File>, in1: seq<File>, outs: seq<File>)
    requires TreeInv(v) && InputsPlaced(v, level, in0, in1) && OutputsFromInputs(in0, in1, outs)
    requires ReplacedBy(v, v', level, in0, in1, outs) && Listed(v')
    ensures forall l :: 1 <= l < NUM_LEVELS ==> SortedLevel(v'[l])
  {
    forall l | 1 <= l < NUM_LEVELS ensures SortedLevel(v'[l]) {
      forall g, h | g in v'[l] && h in v'[l] && g != h ensures Disjoint(g, h) {
        if g in v[l] && h in v[l] {
          DisjointInLevel(v[l], g, h);
        } else if g in outs && h in outs {
          DisjointInLevel(outs, g, h);
        } else if g in outs {
          AsideDisjoint(h, g, in0, in1, outs);
        } else {
          AsideDisjoint(g, h, in0, in1, outs);
        }
      }
      SortedFromDisjoint(v'[l]);
    }
  }

  lemma AsideDisjoint(g: File, o: File, in0: seq<File>, in1: seq<File>, outs: seq<File>)
    requires Aside(g, in0, in1) && OutputsFromInputs(in0, in1, outs) && o in outs
    ensures Disjoint(g, o)
  {
    assert o.entries[0] in o.entries && o.entries[|o.entries| - 1] in o.entries;
  }

  lemma InstallNewerAbove(v: Version, v': Version, level: nat, in0: seq<File>, in1: seq<File>, outs: seq<File>)
    requires TreeInv(v) && InputsPlaced(v, level, in0, in1) && OutputsFromInputs(in0, in1, outs)
    requires ReplacedBy(v, v', level, in0, in1, outs)
    ensures NewerAbove(v')
  {
    forall l, m, g, h | 0 <= l < m < NUM_LEVELS && g in v'[l] && h in v'[m] ensures Newer(g, h) {
      if g in v[l] && h in v[m] {
      } else if h in outs && m == level + 1 && g in v[l] {
        OutputBelow(v, level, in0, in1, outs, l, g, h);
      } else {
        forall e, d | e in g.entries && d in h.entries && e.key.user == d.key.user ensures e.key.seqno > d.key.seqno {
          assert IsInput(in0, in1, e);
          var f :| (f in in0 || f in in1) && e in f.entries;
          assert Newer(f, h);
        }
      }
    }
  }

  lemma OutputBelow(v: Version, level: nat, in0: seq<File>, in1: seq<File>, outs: seq<File>, l: nat, g: File, o: File)
    requires TreeInv(v) && level + 1 < NUM_LEVELS && OutputsFromInputs(in0, in1, outs) && o in outs
    requires (forall f :: f in in0 ==> f in v[level]) && (forall f :: f in in1 ==> f in v[level + 1])
    requires l <= level && g in v[l] && (l == level ==> forall f :: f in in0 ==> Newer(g, f))
    ensures Newer(g, o)
  {
    forall e, d | e in g.entries && d in o.entries && e.key.user == d.key.user ensures e.key.seqno > d.key.seqno {
      assert IsInput(in0, in1, d);
      var f :| (f in in0 || f in in1) && d in f.entries;
      assert Newer(g, f);
    }
  }
}
