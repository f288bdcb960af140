/** Recovery applies every edit of the manifest to one Builder over an empty version; the
    running database applied each edit to the version it had.  Both end with the same files. */
module ManifestReplay {
  import opened Versions
  import opened Builders

  function Replay(st: LevelState, level: nat, changes: seq<Change>): LevelState
    decreases changes
  {
    if changes == [] then st
    else Replay(ApplyLevel(st, DeletedAt(changes[0], level), AddedAt(changes[0].added, level)), level, changes[1..])
  }

  function SaveChange(files: seq<File>, level: nat, change: Change): seq<File> {
    SaveLevel(files, ApplyLevel(UNTOUCHED, DeletedAt(change, level), AddedAt(change.added, level)))
  }

  function OneByOne(files: seq<File>, level: nat, changes: seq<Change>): seq<File>
    decreases changes
  {
    if changes == [] then files
    else OneByOne(SaveChange(files, level, changes[0]), level, changes[1..])
  }

  /** Each (level, file number) is added at most once, and never when already `known`. */
  ghost predicate AddedOnce(known: set<nat>, level: nat, changes: seq<Change>)
    decreases changes
  {
    changes == [] ||
    (var added := AddedAt(changes[0].added, level);
     Fresh(added, known) && AddedOnce(known + Numbers(added), level, changes[1..]))
  }

  lemma {:induction false} SortedSameFiles(a: seq<File>, b: seq<File>)
    requires FileSorted(a) && FileSorted(b) && forall f :: f in a <==> f in b
    ensures a == b
  {
    assert a != [] ==> a[0] in b;
    assert b != [] ==> b[0] in a;
    if a != [] {
      SameHead(a, b);
      TailMembers(a);
      TailMembers(b);
      SortedSameFiles(a[1..], b[1..]);
    }
  }

  lemma TailMembers(a: seq<File>)
    requires FileSorted(a) && a != []
    ensures FileSorted(a[1..])
    ensures forall f :: f in a[1..] <==> f in a && f != a[0]
  {
    assert a == [a[0]] + a[1..];
  }

  lemma SameHead(a: seq<File>, b: seq<File>)
    requires FileSorted(a) && FileSorted(b) && a != [] && b != []
    requires forall f :: f in a <==> f in b
    ensures a[0] == b[0]
  {
    assert a[0] in b && b[0] in a;
    var i :| 0 <= i < |b| && b[i] == a[0];
    var j :| 0 <= j < |a| && a[j] == b[0];
    assert i > 0 ==> FileLess(b[0], a[0]);
    assert j > 0 ==> FileLess(a[0], b[0]);
  }

  /** Recording one more edit in the builder and applying it to the version agree. */
  lemma ReplayStep(base: seq<File>, st: LevelState, files: seq<File>, known: set<nat>, deleted: set<nat>, added: seq<File>)
    requires Represents(base, st, files, known) && Fresh(added, known)
    ensures
      var next := ApplyLevel(st, deleted, added);
      Represents(base, next, SaveLevel(files, ApplyLevel(UNTOUCHED, deleted, added)), known + Numbers(added))
  {
    RepresentsSorted(base, st, files, known);
    StepMembers(base, st, deleted, added);
    SavedMembers(files, deleted, added);
    var next := ApplyLevel(st, deleted, added);
    SortedSameFiles(SaveLevel(base, next), SaveLevel(files, ApplyLevel(UNTOUCHED, deleted, added)));
  }

  lemma {:induction false} ReplayIsOneByOne(base: seq<File>, st: LevelState, files: seq<File>, known: set<nat>, level: nat, changes: seq<Change>)
    requires Represents(base, st, files, known) && AddedOnce(known, level, changes)
    ensures SaveLevel(base, Replay(st, level, changes)) == OneByOne(files, level, changes)
    decreases changes
  {
    if changes != [] {
      var deleted, added := DeletedAt(changes[0], level), AddedAt(changes[0].added, level);
      ReplayStep(base, st, files, known, deleted, added);
      ReplayIsOneByOne(base, ApplyLevel(st, deleted, added), SaveChange(files, level, changes[0]),
                       known + Numbers(added), level, changes[1..]);
    }
  }

  // ---- WriteSnapshot ----

  function Tagged(files: seq<File>, level: nat): seq<(nat, File)> {
    if files == [] then [] else [(level, files[0])] + Tagged(files[1..], level)
  }

  /** The new-file records of WriteSnapshot, from `level` on. */
  function SnapshotFiles(v: Version, level: nat): seq<(nat, File)>
    decreases |v| - level
  {
    if level >= |v| then [] else Tagged(v[level], level) + SnapshotFiles(v, level + 1)
  }

  function Snapshot(v: Version): Change {
    Change({}, SnapshotFiles(v, 0))
  }

  lemma {:induction false} AddedAtConcat(a: seq<(nat, File)>, b: seq<(nat, File)>, level: nat)
    ensures AddedAt(a + b, level) == AddedAt(a, level) + AddedAt(b, level)
  {
    if a == [] {
      assert a + b == b;
    } else {
      assert (a + b)[1..] == a[1..] + b;
      AddedAtConcat(a[1..], b, level);
    }
  }

  lemma {:induction false} AddedAtTagged(files: seq<File>, at: nat, level: nat)
    ensures AddedAt(Tagged(files, at), level) == if at == level then files else []
  {
    if files != [] {
      AddedAtTagged(files[1..], at, level);
    }
  }

  lemma {:induction false} AddedAtSnapshot(v: Version, from: nat, level: nat)
    ensures AddedAt(SnapshotFiles(v, from), level) == if from <= level < |v| then v[level] else []
    decreases |v| - from
  {
    if from < |v| {
      AddedAtConcat(Tagged(v[from], from), SnapshotFiles(v, from + 1), level);
      AddedAtTagged(v[from], from, level);
      AddedAtSnapshot(v, from + 1, level);
    }
  }

  function ApplyAll(v: Version, changes: seq<Change>): Version
    decreases changes
  {
    if changes == [] then v else ApplyAll(Apply(v, changes[0]), changes[1..])
  }

  /** What VersionSet::Recover builds from the file changes of the manifest's records. */
  function Recovered(changes: seq<Change>): Version {
    seq(NUM_LEVELS, l requires 0 <= l < NUM_LEVELS => SaveLevel([], Replay(UNTOUCHED, l, changes)))
  }

  lemma {:induction false} ApplyAllIsOneByOne(v: Version, changes: seq<Change>, level: nat)
    requires level < |v|
    ensures |ApplyAll(v, changes)| == |v|
    ensures ApplyAll(v, changes)[level] == OneByOne(v[level], level, changes)
    decreases changes
  {
    if changes != [] {
      ApplyAllIsOneByOne(Apply(v, changes[0]), changes[1..], level);
    }
  }

  ghost predicate Numbered(files: seq<File>) {
    FileSorted(files) && forall i, j :: 0 <= i < j < |files| ==> files[i].number != files[j].number
  }

  /** A manifest that begins with a snapshot of `v` and goes on with `changes` recovers exactly
      the version the running database reached. */
  lemma ManifestRecovers(v: Version, changes: seq<Change>)
    requires |v| == NUM_LEVELS
    requires forall l :: 0 <= l < NUM_LEVELS ==> Numbered(v[l]) && AddedOnce(Numbers(v[l]), l, changes)
    ensures Recovered([Snapshot(v)] + changes) == ApplyAll(v, changes)
  {
    var r := Recovered([Snapshot(v)] + changes);
    forall l | 0 <= l < NUM_LEVELS
      ensures r[l] == OneByOne(v[l], l, changes)
    {
      LevelRecovers(v, changes, l);
    }
    forall l | 0 <= l < NUM_LEVELS
      ensures |ApplyAll(v, changes)| == NUM_LEVELS && ApplyAll(v, changes)[l] == OneByOne(v[l], l, changes)
    {
      ApplyAllIsOneByOne(v, changes, l);
    }
    ApplyAllIsOneByOne(v, changes, 0);
  }

  lemma LevelRecovers(v: Version, changes: seq<Change>, l: nat)
    requires |v| == NUM_LEVELS && l < NUM_LEVELS
    requires Numbered(v[l]) && AddedOnce(Numbers(v[l]), l, changes)
    ensures SaveLevel([], Replay(UNTOUCHED, l, [Snapshot(v)] + changes)) == OneByOne(v[l], l, changes)
  {
    var all := [Snapshot(v)] + changes;
    assert all[1..] == changes;
    AddedAtSnapshot(v, 0, l);
    assert DeletedAt(Snapshot(v), l) == {};
    assert Represents([], UNTOUCHED, [], {});
    ReplayStep([], UNTOUCHED, [], {}, {}, v[l]);
    SavedMembers([], {}, v[l]);
    SortedSameFiles(SaveLevel([], ApplyLevel(UNTOUCHED, {}, v[l])), v[l]);
    ReplayIsOneByOne([], ApplyLevel(UNTOUCHED, {}, v[l]), v[l], Numbers(v[l]), l, changes);
  }

  /** Without the condition the two differ: a number that is deleted and added again brings the
      deleted file back when the whole manifest is replayed at once. */
  lemma ReusedNumberBringsFileBack(first: File, second: File)
    requires first.number == second.number && FileLess(first, second)
    ensures
      var changes := [Change({}, [(1, first)]), Change({(1, first.number)}, []), Change({}, [(1, second)])];
      && OneByOne([], 1, changes) == [second]
      && SaveLevel([], Replay(UNTOUCHED, 1, changes)) == [first, second]
  {
    var n := first.number;
    var c0, c1, c2 := Change({}, [(1, first)]), Change({(1, n)}, []), Change({}, [(1, second)]);
    ReplayThree([c0, c1, c2]);
    AddOneFile(UNTOUCHED, first);
    AddOneFile(UNTOUCHED, second);
    DeleteOneFile(LevelState({}, [first]), n);
    DeleteOneFile(UNTOUCHED, n);
    AddOneFile(LevelState({n}, [first]), second);
    var none: set<nat> := {};
    assert none - {n} == none && none + {n} == {n} && {n} - {n} == none;
    assert Insert([], first) == [first] && Insert([], second) == [second];
    assert Insert([first], second) == [first] + Insert([], second) == [first, second];
    LiveAll([first, second]);
    LiveAll([first]);
    LiveAll([second]);
    assert SaveChange([], 1, c0) == [first];
    assert Live([first], {n}) == Live([], {n});
    assert SaveChange([first], 1, c1) == [];
    assert SaveChange([], 1, c2) == [second];
  }

  lemma AddOneFile(st: LevelState, f: File)
    ensures
      var c := Change({}, [(1, f)]);
      ApplyLevel(st, DeletedAt(c, 1), AddedAt(c.added, 1)) == LevelState(st.deleted - {f.number}, Insert(st.added, f))
  {
    var c := Change({}, [(1, f)]);
    assert DeletedAt(c, 1) == {};
    assert st.deleted + {} == st.deleted;
    assert AddedAt(c.added, 1) == [f] + AddedAt(c.added[1..], 1) == [f];
    assert AddAll(st, [f]) == AddAll(LevelState(st.deleted - {f.number}, Insert(st.added, f)), [f][1..]);
  }

  lemma DeleteOneFile(st: LevelState, n: nat)
    ensures
      var c := Change({(1, n)}, []);
      ApplyLevel(st, DeletedAt(c, 1), AddedAt(c.added, 1)) == LevelState(st.deleted + {n}, st.added)
  {
    var c := Change({(1, n)}, []);
    assert (1, n) in c.deleted;
    assert DeletedAt(c, 1) == {n};
  }

  lemma ReplayThree(changes: seq<Change>)
    requires |changes| == 3
    ensures
      var step := (st: LevelState, c: Change) => ApplyLevel(st, DeletedAt(c, 1), AddedAt(c.added, 1));
      && Replay(UNTOUCHED, 1, changes) == step(step(step(UNTOUCHED, changes[0]), changes[1]), changes[2])
      && OneByOne([], 1, changes) == SaveChange(SaveChange(SaveChange([], 1, changes[0]), 1, changes[1]), 1, changes[2])
  {
    var rest := changes[1..];
    var last := rest[1..];
    assert rest[0] == changes[1] && last[0] == changes[2] && last[1..] == [];
    var st0 := ApplyLevel(UNTOUCHED, DeletedAt(changes[0], 1), AddedAt(changes[0].added, 1));
    var st1 := ApplyLevel(st0, DeletedAt(rest[0], 1), AddedAt(rest[0].added, 1));
    assert Replay(st0, 1, rest) == Replay(st1, 1, last);
    var f0 := SaveChange([], 1, changes[0]);
    assert OneByOne(f0, 1, rest) == OneByOne(SaveChange(f0, 1, rest[0]), 1, last);
  }

  // ---- one more change ----

  function AddedNumbers(changes: seq<Change>, level: nat): set<nat> {
    if changes == [] then {}
    else AddedNumbers(changes[..|changes| - 1], level) + Numbers(AddedAt(changes[|changes| - 1].added, level))
  }

  /** Numbers that were ever at a level since the manifest began. */
  function KnownAt(base: Version, changes: seq<Change>, level: nat): set<nat> {
    (if level < |base| then Numbers(base[level]) else {}) + AddedNumbers(changes, level)
  }

  lemma {:induction false} ApplyAllAppend(v: Version, changes: seq<Change>, c: Change)
    ensures ApplyAll(v, changes + [c]) == Apply(ApplyAll(v, changes), c)
    decreases changes
  {
    if changes == [] {
      assert changes + [c] == [c];
      assert ApplyAll(Apply(v, c), []) == Apply(v, c);
    } else {
      assert (changes + [c])[1..] == changes[1..] + [c];
      ApplyAllAppend(Apply(v, changes[0]), changes[1..], c);
    }
  }

  lemma {:induction false} AddedNumbersFront(changes: seq<Change>, level: nat)
    requires changes != []
    ensures AddedNumbers(changes, level) == Numbers(AddedAt(changes[0].added, level)) + AddedNumbers(changes[1..], level)
  {
    var last := |changes| - 1;
    if last > 0 {
      AddedNumbersFront(changes[..last], level);
      assert changes[..last][1..] == changes[1..][..last - 1];
      assert changes[1..][last - 1] == changes[last];
    } else {
      assert changes[..last] == [] && changes[1..] == [];
    }
  }

  lemma {:induction false} AddedOnceAppend(known: set<nat>, level: nat, changes: seq<Change>, c: Change)
    requires AddedOnce(known, level, changes)
    requires Fresh(AddedAt(c.added, level), known + AddedNumbers(changes, level))
    ensures AddedOnce(known, level, changes + [c])
    decreases changes
  {
    if changes == [] {
      assert changes + [c] == [c];
      assert AddedOnce(known + Numbers(AddedAt(c.added, level)), level, [c][1..]);
    } else {
      var added := Numbers(AddedAt(changes[0].added, level));
      AddedNumbersFront(changes, level);
      assert known + AddedNumbers(changes, level) == (known + added) + AddedNumbers(changes[1..], level);
      assert (changes + [c])[1..] == changes[1..] + [c];
      AddedOnceAppend(known + added, level, changes[1..], c);
    }
  }

  lemma KnownAppend(base: Version, changes: seq<Change>, c: Change, level: nat)
    ensures KnownAt(base, changes + [c], level) == KnownAt(base, changes, level) + Numbers(AddedAt(c.added, level))
  {
    assert (changes + [c])[..|changes|] == changes;
  }
}
