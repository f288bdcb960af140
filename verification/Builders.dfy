/** VersionSet::Builder: applying version edits to a base version. */
module Builders {
  import opened Keys
  import opened Versions

  /** The file changes of one VersionEdit, each with its level. */
  datatype Change = Change(deleted: set<(nat, nat)>, added: seq<(nat, File)>)

  /** BySmallestKey: ties are broken by file number. */
  predicate FileLess(f: File, g: File) {
    Before(f.smallest, g.smallest) || (f.smallest == g.smallest && f.number < g.number)
  }

  ghost predicate FileSorted(files: seq<File>) {
    forall i, j :: 0 <= i < j < |files| ==> FileLess(files[i], files[j])
  }

  /** std::set keeps the element it has when an equivalent one is inserted. */
  function Insert(files: seq<File>, f: File): (r: seq<File>)
    ensures forall g :: g in r ==> g == f || g in files
    ensures forall g :: g in files ==> g in r
    ensures (forall g :: g in files ==> g.number != f.number) ==> f in r
  {
    if files == [] || FileLess(f, files[0]) then [f] + files
    else if FileLess(files[0], f) then [files[0]] + Insert(files[1..], f)
    else files
  }

  lemma {:induction false} InsertSorted(files: seq<File>, f: File)
    requires FileSorted(files)
    ensures FileSorted(Insert(files, f))
  {
    if files != [] && !FileLess(f, files[0]) && FileLess(files[0], f) {
      InsertSorted(files[1..], f);
      var rest := Insert(files[1..], f);
      assert forall k :: 0 <= k < |rest| ==> rest[k] == f || rest[k] in files[1..];
      assert forall g :: g in files[1..] ==> FileLess(files[0], g);
    }
  }

  datatype LevelState = LevelState(deleted: set<nat>, added: seq<File>)

  const UNTOUCHED := LevelState({}, [])

  function AddAll(st: LevelState, files: seq<File>): LevelState
    decreases files
  {
    if files == [] then st
    else AddAll(LevelState(st.deleted - {files[0].number}, Insert(st.added, files[0])), files[1..])
  }

  /** Deletions first, then additions, as Builder::Apply does for one level. */
  function ApplyLevel(st: LevelState, deleted: set<nat>, added: seq<File>): LevelState {
    AddAll(st.(deleted := st.deleted + deleted), added)
  }

  function DeletedAt(change: Change, level: nat): set<nat> {
    set p | p in change.deleted && p.0 == level :: p.1
  }

  function AddedAt(added: seq<(nat, File)>, level: nat): (r: seq<File>)
    ensures forall f :: f in r <==> (level, f) in added
  {
    if added == [] then []
    else if added[0].0 == level then [added[0].1] + AddedAt(added[1..], level)
    else AddedAt(added[1..], level)
  }

  // ---- SaveTo ----

  function Merge(base: seq<File>, added: seq<File>): (r: seq<File>)
    ensures forall f :: f in r <==> f in base || f in added
  {
    if base == [] then added
    else if added == [] then base
    else if FileLess(added[0], base[0]) then [added[0]] + Merge(base, added[1..])
    else [base[0]] + Merge(base[1..], added)
  }

  function Live(files: seq<File>, deleted: set<nat>): (r: seq<File>)
    ensures forall f :: f in r <==> f in files && f.number !in deleted
  {
    if files == [] then []
    else if files[0].number in deleted then Live(files[1..], deleted)
    else [files[0]] + Live(files[1..], deleted)
  }

  function SaveLevel(base: seq<File>, st: LevelState): seq<File> {
    Live(Merge(base, st.added), st.deleted)
  }

  function Apply(v: Version, change: Change): (r: Version)
    ensures |r| == |v|
  {
    seq(|v|, l requires 0 <= l < |v| => SaveLevel(v[l], ApplyLevel(UNTOUCHED, DeletedAt(change, l), AddedAt(change.added, l))))
  }

  class Builder {
    const base: Version
    var levels: seq<LevelState>

    ghost predicate Valid()
      reads this
    {
      |base| == NUM_LEVELS && |levels| == NUM_LEVELS
    }

    constructor (base: Version)
      requires |base| == NUM_LEVELS
      ensures Valid() && this.base == base
      ensures forall l :: 0 <= l < NUM_LEVELS ==> levels[l] == UNTOUCHED
    {
      this.base := base;
      levels := seq(NUM_LEVELS, _ => UNTOUCHED);
    }

    /** Records one edit's changes on top of the ones already recorded. */
    method Apply(change: Change)
      requires Valid()
      requires forall p :: p in change.deleted ==> p.0 < NUM_LEVELS
      requires forall p :: p in change.added ==> p.0 < NUM_LEVELS
      modifies this
      ensures Valid()
      ensures forall l :: 0 <= l < NUM_LEVELS ==>
        levels[l] == ApplyLevel(old(levels[l]), DeletedAt(change, l), AddedAt(change.added, l))
    {
      ghost var start := levels;
      var toDelete := change.deleted;
      ghost var done: set<(nat, nat)> := {};
      while toDelete != {}
        invariant Valid()
        invariant done + toDelete == change.deleted
        invariant forall l :: 0 <= l < NUM_LEVELS ==>
          levels[l] == start[l].(deleted := start[l].deleted + DeletedAt(Change(done, []), l))
      {
        var p :| p in toDelete;
        var (level, number) := p;
        forall l ensures DeletedAt(Change(done + {p}, []), l) == DeletedAt(Change(done, []), l) + if l == level then {number} else {} {
          assert (level, number) in Change(done + {p}, []).deleted;
        }
        levels := levels[level := levels[level].(deleted := levels[level].deleted + {number})];
        done, toDelete := done + {p}, toDelete - {p};
      }
      ghost var removed := levels;
      var added := change.added;
      for i := 0 to |added|
        invariant Valid()
        invariant forall l :: 0 <= l < NUM_LEVELS ==>
          AddAll(levels[l], AddedAt(added[i..], l)) == AddAll(removed[l], AddedAt(added, l))
      {
        var (level, f) := added[i];
        assert added[i..][1..] == added[i + 1..];
        var st := levels[level];
        levels := levels[level := LevelState(st.deleted - {f.number}, Insert(st.added, f))];
      }
      forall l | 0 <= l < NUM_LEVELS
        ensures levels[l] == ApplyLevel(start[l], DeletedAt(change, l), AddedAt(added, l))
      {
        assert DeletedAt(change, l) == DeletedAt(Change(done, []), l);
      }
    }

    /** Merges the added files into the base, dropping deleted files. */
    method SaveTo() returns (v: Version)
      requires Valid()
      ensures |v| == NUM_LEVELS
      ensures forall l :: 0 <= l < NUM_LEVELS ==> v[l] == SaveLevel(base[l], levels[l])
    {
      v := [];
      for l := 0 to NUM_LEVELS
        invariant |v| == l
        invariant forall m :: 0 <= m < l ==> v[m] == SaveLevel(base[m], levels[m])
      {
        var files := SaveOneLevel(base[l], levels[l]);
        v := v + [files];
      }
    }
  }

  /** std::upper_bound from position `from`: the first file the added one sorts before. */
  function UpperBound(base: seq<File>, from: nat, a: File): (i: nat)
    requires from <= |base|
    ensures from <= i <= |base|
    ensures forall k :: from <= k < i ==> !FileLess(a, base[k])
    ensures i < |base| ==> FileLess(a, base[i])
    decreases |base| - from
  {
    if from == |base| || FileLess(a, base[from]) then from else UpperBound(base, from + 1, a)
  }

  /** MaybeAddFile */
  function MaybeAdd(files: seq<File>, f: File, deleted: set<nat>): seq<File> {
    if f.number in deleted then files else files + [f]
  }

  lemma LiveUnfolds(out: seq<File>, f: File, rest: seq<File>, deleted: set<nat>)
    ensures out + Live([f] + rest, deleted) == MaybeAdd(out, f, deleted) + Live(rest, deleted)
  {
    assert ([f] + rest)[1..] == rest;
  }

  /** What SaveTo has produced together with what it will still produce. */
  function Saving(out: seq<File>, base: seq<File>, b: nat, added: seq<File>, a: nat, deleted: set<nat>): seq<File>
    requires b <= |base| && a <= |added|
  {
    out + Live(Merge(base[b..], added[a..]), deleted)
  }

  lemma TakeBase(out: seq<File>, base: seq<File>, b: nat, added: seq<File>, a: nat, deleted: set<nat>)
    requires b < |base| && a <= |added|
    requires a < |added| ==> !FileLess(added[a], base[b])
    ensures Saving(out, base, b, added, a, deleted) == Saving(MaybeAdd(out, base[b], deleted), base, b + 1, added, a, deleted)
  {
    assert base[b..][1..] == base[b + 1..];
    if a == |added| {
      assert added[a..] == [];
      assert base[b..] == [base[b]] + base[b + 1..];
    }
    LiveUnfolds(out, base[b], Merge(base[b + 1..], added[a..]), deleted);
  }

  lemma TakeAdded(out: seq<File>, base: seq<File>, b: nat, added: seq<File>, a: nat, deleted: set<nat>)
    requires b <= |base| && a < |added|
    requires b < |base| ==> FileLess(added[a], base[b])
    ensures Saving(out, base, b, added, a, deleted) == Saving(MaybeAdd(out, added[a], deleted), base, b, added, a + 1, deleted)
  {
    assert added[a..][1..] == added[a + 1..];
    if b == |base| {
      assert base[b..] == [];
      assert added[a..] == [added[a]] + added[a + 1..];
    }
    LiveUnfolds(out, added[a], Merge(base[b..], added[a + 1..]), deleted);
  }

  /** Copies the base files from `b` up to `bpos`, none of which sorts after the next added file. */
  method CopyBase(out: seq<File>, base: seq<File>, b: nat, bpos: nat, ghost added: seq<File>, ghost a: nat, deleted: set<nat>)
      returns (r: seq<File>)
    requires b <= bpos <= |base| && a <= |added|
    requires a < |added| ==> forall k :: b <= k < bpos ==> !FileLess(added[a], base[k])
    ensures Saving(r, base, bpos, added, a, deleted) == Saving(out, base, b, added, a, deleted)
  {
    r := out;
    var i := b;
    while i < bpos
      invariant b <= i <= bpos
      invariant Saving(r, base, i, added, a, deleted) == Saving(out, base, b, added, a, deleted)
    {
      TakeBase(r, base, i, added, a, deleted);
      r := MaybeAdd(r, base[i], deleted);
      i := i + 1;
    }
  }

  /** One round of SaveTo: the base files up to the next added file, then that file. */
  method SaveNext(out: seq<File>, base: seq<File>, b: nat, added: seq<File>, a: nat, deleted: set<nat>)
      returns (r: seq<File>, bpos: nat)
    requires b <= |base| && a < |added|
    ensures b <= bpos <= |base|
    ensures Saving(r, base, bpos, added, a + 1, deleted) == Saving(out, base, b, added, a, deleted)
  {
    bpos := UpperBound(base, b, added[a]);
    r := CopyBase(out, base, b, bpos, added, a, deleted);
    TakeAdded(r, base, bpos, added, a, deleted);
    r := MaybeAdd(r, added[a], deleted);
  }

  lemma SavingEnds(base: seq<File>, st: LevelState, out: seq<File>)
    ensures Saving([], base, 0, st.added, 0, st.deleted) == SaveLevel(base, st)
    ensures Saving(out, base, |base|, st.added, |st.added|, st.deleted) == out
  {
    assert base[0..] == base && st.added[0..] == st.added;
    assert base[|base|..] == [] && st.added[|st.added|..] == [];
  }

  method SaveOneLevel(base: seq<File>, st: LevelState) returns (out: seq<File>)
    ensures out == SaveLevel(base, st)
  {
    out := [];
    var b: nat, a: nat := 0, 0;
    SavingEnds(base, st, []);
    while a < |st.added|
      invariant b <= |base| && a <= |st.added|
      invariant Saving(out, base, b, st.added, a, st.deleted) == SaveLevel(base, st)
    {
      out, b := SaveNext(out, base, b, st.added, a, st.deleted);
      a := a + 1;
    }
    out := CopyBase(out, base, b, |base|, st.added, a, st.deleted);
    SavingEnds(base, st, out);
  }

  // ---- what a saved level contains ----

  ghost predicate Leads(f: File, files: seq<File>) {
    forall g :: g in files ==> FileLess(f, g)
  }

  lemma FileLessTotal(f: File, g: File)
    ensures FileLess(f, g) || FileLess(g, f) || (f.smallest == g.smallest && f.number == g.number)
  {
    BeforeTrichotomy(f.smallest, g.smallest);
  }

  lemma LeadsSorted(f: File, files: seq<File>)
    requires FileSorted(files) && files != []
    ensures Leads(files[0], files[1..])
    ensures FileLess(f, files[0]) ==> Leads(f, files)
  {
  }

  lemma {:induction false} MergeSorted(base: seq<File>, added: seq<File>)
    requires FileSorted(base) && FileSorted(added)
    requires forall f, g :: f in base && g in added ==> f.number != g.number
    ensures FileSorted(Merge(base, added))
  {
    if base != [] && added != [] {
      LeadsSorted(added[0], base);
      LeadsSorted(base[0], added);
      FileLessTotal(added[0], base[0]);
      if FileLess(added[0], base[0]) {
        MergeSorted(base, added[1..]);
        assert Leads(added[0], Merge(base, added[1..]));
      } else {
        MergeSorted(base[1..], added);
        assert Leads(base[0], Merge(base[1..], added));
      }
    }
  }

  lemma {:induction false} LiveSorted(files: seq<File>, deleted: set<nat>)
    requires FileSorted(files)
    ensures FileSorted(Live(files, deleted))
  {
    if files != [] {
      LiveSorted(files[1..], deleted);
      assert forall g :: g in files[1..] ==> FileLess(files[0], g);
    }
  }

  function Numbers(files: seq<File>): set<nat> {
    set f | f in files :: f.number
  }

  /** New files carry numbers of their own. */
  ghost predicate Fresh(files: seq<File>, known: set<nat>) {
    && (forall f :: f in files ==> f.number !in known)
    && forall i, j :: 0 <= i < j < |files| ==> files[i].number != files[j].number
  }

  lemma {:induction false} AddAllEffect(st: LevelState, files: seq<File>)
    requires FileSorted(st.added) && Fresh(files, Numbers(st.added))
    ensures FileSorted(AddAll(st, files).added)
    ensures forall g :: g in AddAll(st, files).added <==> g in st.added || g in files
    ensures AddAll(st, files).deleted == st.deleted - Numbers(files)
    decreases files
  {
    if files != [] {
      var f := files[0];
      InsertSorted(st.added, f);
      forall g | g in st.added ensures g.number != f.number {
        assert g.number in Numbers(st.added);
      }
      var next := LevelState(st.deleted - {f.number}, Insert(st.added, f));
      assert forall g :: g in next.added <==> g == f || g in st.added;
      assert Fresh(files[1..], Numbers(next.added));
      AddAllEffect(next, files[1..]);
      assert Numbers(files) == {f.number} + Numbers(files[1..]) by {
        assert files == [f] + files[1..];
      }
    }
  }

  /** One edit on one level: its additions, and the old files it does not delete, in order. */
  lemma SavedMembers(base: seq<File>, deleted: set<nat>, added: seq<File>)
    requires FileSorted(base) && Fresh(added, Numbers(base))
    ensures
      var saved := SaveLevel(base, ApplyLevel(UNTOUCHED, deleted, added));
      && FileSorted(saved)
      && forall f :: f in saved <==> f in added || (f in base && f.number !in deleted)
  {
    StepMembers(base, UNTOUCHED, deleted, added);
    MergeNothing(base);
  }

  lemma {:induction false} MergeNothing(base: seq<File>)
    ensures SaveLevel(base, UNTOUCHED) == base
  {
    assert Merge(base, []) == base;
    LiveAll(base);
  }

  lemma {:induction false} LiveAll(files: seq<File>)
    ensures Live(files, {}) == files
  {
    if files != [] {
      LiveAll(files[1..]);
    }
  }

  // ---- replaying many edits ----

  /** A builder state that stands for `files` over `base`. */
  ghost predicate Represents(base: seq<File>, st: LevelState, files: seq<File>, known: set<nat>) {
    && FileSorted(base) && FileSorted(st.added)
    && Fresh(st.added, Numbers(base))
    && Numbers(base) <= known && Numbers(st.added) <= known
    && files == SaveLevel(base, st)
  }

  lemma RepresentsSorted(base: seq<File>, st: LevelState, files: seq<File>, known: set<nat>)
    requires Represents(base, st, files, known)
    ensures FileSorted(files)
    ensures Numbers(files) <= known
  {
    forall f, g | f in base && g in st.added ensures f.number != g.number {
      assert f.number in Numbers(base);
    }
    MergeSorted(base, st.added);
    LiveSorted(Merge(base, st.added), st.deleted);
    forall f | f in files ensures f.number in known {
      assert f.number in Numbers(base) || f.number in Numbers(st.added);
    }
  }

  lemma StepMembers(base: seq<File>, st: LevelState, deleted: set<nat>, added: seq<File>)
    requires FileSorted(base) && FileSorted(st.added) && Fresh(st.added, Numbers(base))
    requires Fresh(added, Numbers(base) + Numbers(st.added))
    ensures
      var saved := SaveLevel(base, ApplyLevel(st, deleted, added));
      && FileSorted(saved)
      && forall f :: f in saved <==> f in added || (f in SaveLevel(base, st) && f.number !in deleted)
    ensures
      var next := ApplyLevel(st, deleted, added);
      && FileSorted(next.added) && Fresh(next.added, Numbers(base))
      && (forall g :: g in next.added <==> g in st.added || g in added)
  {
    var marked := st.(deleted := st.deleted + deleted);
    AddAllEffect(marked, added);
    var next := ApplyLevel(st, deleted, added);
    forall f, g | f in base && g in next.added ensures f.number != g.number {
      assert f.number in Numbers(base);
    }
    SortedFresh(next.added);
    MergeSorted(base, next.added);
    LiveSorted(Merge(base, next.added), next.deleted);
    forall f ensures f in SaveLevel(base, next) <==> f in added || (f in SaveLevel(base, st) && f.number !in deleted) {
      if f in added {
        assert f.number in Numbers(added);
      } else if f in base || f in st.added {
        assert f.number in Numbers(base) + Numbers(st.added);
        assert f.number !in Numbers(added);
      }
    }
    NextNumbersDistinct(st, added, next);
  }

  lemma SortedFresh(files: seq<File>)
    requires FileSorted(files)
    ensures forall i, j :: 0 <= i < j < |files| ==> files[i] != files[j]
  {
  }

  lemma NextNumbersDistinct(st: LevelState, added: seq<File>, next: LevelState)
    requires FileSorted(next.added) && (forall g :: g in next.added <==> g in st.added || g in added)
    requires Fresh(added, Numbers(st.added))
    requires forall i, j :: 0 <= i < j < |st.added| ==> st.added[i].number != st.added[j].number
    ensures forall i, j :: 0 <= i < j < |next.added| ==> next.added[i].number != next.added[j].number
  {
    SortedFresh(next.added);
    forall i, j | 0 <= i < j < |next.added| ensures next.added[i].number != next.added[j].number {
      var f, g := next.added[i], next.added[j];
      assert f != g;
      if f in st.added && g !in st.added {
        assert f.number in Numbers(st.added);
      } else if g in st.added && f !in st.added {
        assert g.number in Numbers(st.added);
      }
    }
  }
}
