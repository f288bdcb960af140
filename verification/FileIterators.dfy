/** The lists of entries that merging iterators are opened over: a list for each file that may
    overlap others, and one concatenated list for the files of a sorted level. */
module FileIterators {
  import opened Keys
  import opened Versions
  import opened CompactionWork
  import opened ManifestReplay
  import opened Tree
  import opened MergingIterators
  import Sequences
  import TwoLevelIterators

  ghost function Union(lists: seq<seq<Entry>>): set<Entry> {
    set i, e | 0 <= i < |lists| && e in lists[i] :: e
  }

  ghost predicate KeysApart(a: set<Entry>, b: set<Entry>) {
    forall d, e :: d in a && e in b ==> d.key != e.key
  }

  ghost predicate Mergeable(lists: seq<seq<Entry>>) {
    KeysDiffer(lists) && forall i :: 0 <= i < |lists| ==> SortedEntries(lists[i])
  }

  lemma MergeableAppend(a: seq<seq<Entry>>, b: seq<seq<Entry>>)
    requires Mergeable(a) && Mergeable(b) && KeysApart(Union(a), Union(b))
    ensures Mergeable(a + b) && Union(a + b) == Union(a) + Union(b)
  {
    var ab := a + b;
    forall i: nat, j: nat, d: Entry, e: Entry | 0 <= i < j < |ab| && d in ab[i] && e in ab[j] ensures d.key != e.key {
      if j < |a| {
        assert d in a[i] && e in a[j];
      } else if i >= |a| {
        assert d in b[i - |a|] && e in b[j - |a|];
      } else {
        assert d in Union(a) && e in b[j - |a|];
      }
    }
    UnionAppend(a, b);
  }

  lemma UnionAppend(a: seq<seq<Entry>>, b: seq<seq<Entry>>)
    ensures Union(a + b) == Union(a) + Union(b)
  {
    forall e | e in Union(b) ensures e in Union(a + b) {
      var i :| 0 <= i < |b| && e in b[i];
      assert (a + b)[|a| + i] == b[i];
    }
    forall e | e in Union(a) ensures e in Union(a + b) {
      var i :| 0 <= i < |a| && e in a[i];
      assert (a + b)[i] == a[i];
    }
  }

  lemma OneListOk(list: seq<Entry>)
    requires SortedEntries(list)
    ensures Mergeable([list]) && Union([list]) == ToSet(list)
  {
    forall e | e in ToSet(list) ensures e in Union([list]) {
      assert [list][0] == list;
    }
  }

  /** Level 0 contributes one list a file. */
  function FileLists(files: seq<File>): seq<seq<Entry>> {
    if files == [] then [] else FileLists(files[..|files| - 1]) + [files[|files| - 1].entries]
  }

  /** A level above 0 contributes one concatenating iterator, unless it is empty. */
  function OneLevel(files: seq<File>): seq<seq<Entry>> {
    if files == [] then [] else [Flat(files)]
  }

  /** The last file of level 0 shares no key with those before it. */
  lemma LastFileApart(files: seq<File>)
    requires files != [] && Numbered(files) && LevelZeroOk(files)
    ensures
      var last := |files| - 1;
      KeysApart(LevelEntries(files[..last]), FileEntries(files[last]))
  {
    var last := |files| - 1;
    var f := files[last];
    forall d, e | d in LevelEntries(files[..last]) && e in FileEntries(f) ensures d.key != e.key {
      var g :| g in files[..last] && d in g.entries;
      var k :| 0 <= k < last && files[k] == g;
      assert f in files && g in files && f.number != g.number;
      assert Newer(f, g) || Newer(g, f);
    }
  }

  lemma InitialFiles(files: seq<File>)
    requires files != [] && Numbered(files) && LevelZeroOk(files) && forall f :: f in files ==> FileOk(f)
    ensures
      var init, f := files[..|files| - 1], files[|files| - 1];
      && Numbered(init) && LevelZeroOk(init) && (forall g :: g in init ==> FileOk(g)) && FileOk(f)
      && LevelEntries(files) == LevelEntries(init) + FileEntries(f)
  {
    var init, f := files[..|files| - 1], files[|files| - 1];
    assert files == init + [f];
    assert forall g :: g in init ==> g in files;
    assert f in files;
  }

  lemma {:induction false} FileListsOk(files: seq<File>)
    requires Numbered(files) && LevelZeroOk(files) && forall f :: f in files ==> FileOk(f)
    ensures Mergeable(FileLists(files)) && Union(FileLists(files)) == LevelEntries(files)
  {
    if files != [] {
      hide Numbered, LevelZeroOk, Mergeable;
      var init, f := files[..|files| - 1], files[|files| - 1];
      InitialFiles(files);
      LastFileApart(files);
      FileListsOk(init);
      OneListOk(f.entries);
      MergeableAppend(FileLists(init), [f.entries]);
    }
  }

  lemma SortedConcat(a: seq<Entry>, b: seq<Entry>)
    requires SortedEntries(a) && SortedEntries(b)
    requires forall d, e :: d in a && e in b ==> Before(d.key, e.key)
    ensures SortedEntries(a + b)
  {
  }

  lemma {:induction false} FlatSorted(files: seq<File>)
    requires SortedLevel(files) && forall f :: f in files ==> FileOk(f)
    ensures SortedEntries(Flat(files))
  {
    if files != [] {
      var last := |files| - 1;
      var f, init := files[last], files[..last];
      assert f in files && forall g :: g in init ==> g in files;
      FlatSorted(init);
      FlatIsLevelEntries(init);
      forall d, e | d in Flat(init) && e in f.entries ensures Before(d.key, e.key) {
        assert d in ToSet(Flat(init));
        var g :| g in init && d in g.entries;
        var k :| 0 <= k < last && init[k] == g;
        assert Before(files[k].largest, files[last].smallest);
        EntriesWithinFile(g);
        EntriesWithinFile(f);
      }
      SortedConcat(Flat(init), f.entries);
    }
  }

  /** LevelFileNumIterator: a file's largest key leads to the file. */
  function FileIndex(files: seq<File>): (r: seq<Entry>)
    ensures |r| == |files|
  {
    seq(|files|, i requires 0 <= i < |files| => Entry(files[i].largest, []))
  }

  lemma {:induction false} FlatIsConcat(files: seq<File>)
    ensures Sequences.Concat(FileLists(files)) == Flat(files) && |FileLists(files)| == |files|
    ensures forall i :: 0 <= i < |files| ==> FileLists(files)[i] == files[i].entries
  {
    if files != [] {
      FlatIsConcat(files[..|files| - 1]);
      assert FileLists(files)[..|files| - 1] == FileLists(files[..|files| - 1]);
    }
  }

  /** A two-level iterator over the files of a sorted level goes through all their entries in order. */
  lemma LevelIsIndexed(files: seq<File>)
    requires SortedLevel(files) && forall f :: f in files ==> FileOk(f)
    ensures TwoLevelIterators.IndexOk(FileIndex(files), FileLists(files))
    ensures Sequences.Concat(FileLists(files)) == Flat(files)
  {
    FlatIsConcat(files);
    forall i: nat, e | i < |files| && e in files[i].entries
      ensures !Before(files[i].largest, e.key) && !Before(e.key, files[i].smallest)
    {
      EntriesWithinFile(files[i]);
    }
  }

  lemma OneLevelOk(files: seq<File>)
    requires SortedLevel(files) && forall f :: f in files ==> FileOk(f)
    ensures Mergeable(OneLevel(files)) && Union(OneLevel(files)) == LevelEntries(files)
  {
    if files != [] {
      FlatSorted(files);
      OneListOk(Flat(files));
      FlatIsLevelEntries(files);
    }
  }

  lemma MergedIsUnion(merged: seq<Entry>, lists: seq<seq<Entry>>)
    requires IsMerge(merged, lists)
    ensures SortedEntries(merged) && ToSet(merged) == Union(lists)
  {
    forall e | e in Union(lists) ensures e in merged {
      var i :| 0 <= i < |lists| && e in lists[i];
    }
  }

  // ---- a compaction's input ----

  /** MakeInputIterator: level-0 files one by one, other levels concatenated, empty inputs left out. */
  function InputLists(level: nat, in0: seq<File>, in1: seq<File>): seq<seq<Entry>> {
    (if level == 0 then FileLists(in0) else OneLevel(in0)) + OneLevel(in1)
  }

  /** The iterator MakeInputIterator opens can be merged, and what it yields, every entry of the
      inputs once and in order, is the one sequence a compaction works through. */
  lemma InputIsMerge(v: Version, level: nat, in0: seq<File>, in1: seq<File>, input: seq<Entry>)
    requires TreeInv(v) && level + 1 < NUM_LEVELS
    requires (forall f :: f in in0 ==> f in v[level]) && (forall f :: f in in1 ==> f in v[level + 1])
    requires if level == 0 then Numbered(in0) else SortedLevel(in0)
    requires SortedLevel(in1)
    ensures Mergeable(InputLists(level, in0, in1))
    ensures IsMerge(input, InputLists(level, in0, in1)) <==> SortedEntries(input) && ToSet(input) == InputEntries(in0, in1)
  {
    var first := if level == 0 then FileLists(in0) else OneLevel(in0);
    assert forall f :: f in in0 + in1 ==> FileOk(f);
    FirstInputOk(v, level, in0);
    assert forall f :: f in in1 ==> FileOk(f);
    OneLevelOk(in1);
    forall d, e | d in LevelEntries(in0) && e in LevelEntries(in1) ensures d.key != e.key {
      var f :| f in in0 && d in f.entries;
      var g :| g in in1 && e in g.entries;
      assert Newer(f, g);
    }
    MergeableAppend(first, OneLevel(in1));
    UnionIsMerge(input, InputLists(level, in0, in1));
  }

  lemma FirstInputOk(v: Version, level: nat, in0: seq<File>)
    requires TreeInv(v) && level < NUM_LEVELS && forall f :: f in in0 ==> f in v[level]
    requires if level == 0 then Numbered(in0) else SortedLevel(in0)
    ensures
      var first := if level == 0 then FileLists(in0) else OneLevel(in0);
      Mergeable(first) && Union(first) == LevelEntries(in0)
  {
    assert forall f :: f in in0 ==> FileOk(f);
    if level == 0 {
      FileListsOk(in0);
    } else {
      OneLevelOk(in0);
    }
  }

  lemma UnionIsMerge(merged: seq<Entry>, lists: seq<seq<Entry>>)
    requires Mergeable(lists)
    ensures IsMerge(merged, lists) <==> SortedEntries(merged) && ToSet(merged) == Union(lists)
  {
    if SortedEntries(merged) && ToSet(merged) == Union(lists) {
      forall e ensures e in merged <==> exists i :: 0 <= i < |lists| && e in lists[i] {
        assert e in merged <==> e in ToSet(merged);
      }
    }
    if IsMerge(merged, lists) {
      MergedIsUnion(merged, lists);
    }
  }
}
