/** What a compaction needs of the version it starts from, said so that a caller can check it, and
    exactly which inputs keep that while memtables are flushed. */
module CompactionSteps {
  import opened Keys
  import opened Versions
  import opened Compactions
  import opened InputSelection
  import opened Tree

  // ---- the boundary condition ----

  /** No file outside the inputs starts with the user key that an input file ends with.  A caller
      can read this off the files' smallest and largest keys. */
  ghost predicate BoundaryClear(files: seq<File>, inputs: seq<File>) {
    forall f, g :: f in inputs && g in files && g !in inputs && Before(f.largest, g.smallest) ==>
      f.largest.user != g.smallest.user
  }

  /** In a sorted level the condition says precisely that no file left behind holds an older entry
      of an input's user key. */
  lemma BoundaryClearIsNewer(files: seq<File>, inputs: seq<File>)
    requires SortedLevel(files) && (forall f :: f in files ==> FileOk(f)) && (forall f :: f in inputs ==> f in files)
    requires Distinct(LevelEntries(files))
    ensures BoundaryClear(files, inputs) <==> forall f, g :: f in inputs && g in files && g !in inputs ==> Newer(g, f)
  {
    forall f, g | f in inputs && g in files && g !in inputs
      ensures Newer(g, f) <==> !(Before(f.largest, g.smallest) && f.largest.user == g.smallest.user)
    {
      BoundaryPair(files, f, g);
    }
  }

  lemma BoundaryPair(files: seq<File>, f: File, g: File)
    requires SortedLevel(files) && f in files && g in files && f != g && FileOk(f) && FileOk(g)
    requires Distinct(LevelEntries(files))
    ensures Newer(g, f) <==> !(Before(f.largest, g.smallest) && f.largest.user == g.smallest.user)
  {
    DisjointInLevel(files, f, g);
    EntriesWithinFile(f);
    EntriesWithinFile(g);
    var last, first := f.entries[|f.entries| - 1], g.entries[0];
    assert last in f.entries && first in g.entries;
    assert last in LevelEntries(files) && first in LevelEntries(files);
    if Before(g.largest, f.smallest) {
      forall e, d | e in g.entries && d in f.entries && e.key.user == d.key.user ensures e.key.seqno > d.key.seqno {
        assert e in LevelEntries(files) && d in LevelEntries(files);
        assert Before(e.key, d.key);
      }
      assert !Before(f.largest, g.smallest) by {
        BeforeTrichotomy(f.smallest, f.largest);
        BeforeTrichotomy(g.smallest, g.largest);
        assert f.entries[0] in f.entries;
      }
    }
  }

  lemma ApartFromRange(g: File, files: seq<File>, f: File)
    requires files != [] && f in files && FileOk(f) && FileOk(g)
    requires !Overlaps(g, Some(LoUser(files)), Some(HiUser(files)))
    ensures Newer(g, f) && Newer(f, g)
  {
    EntriesWithinFile(f);
    EntriesWithinFile(g);
  }

  // ---- tombstones at the boundary ----

  /** Input file `i` of the next level shares its last user key with the file after it, which stays
      and begins with a value; and what a reader at `smallest` finds of that key is a tombstone
      among the inputs that the compaction drops. */
  ghost predicate UncoversAt(v: Version, level: nat, in0: seq<File>, in1: seq<File>, smallest: SequenceNumber, i: int)
    requires level + 1 < |v|
  {
    var files := v[level + 1];
    && 0 <= i && i + 1 < |files| && files[i] in in1 && files[i + 1] !in in1
    && files[i].largest.user == files[i + 1].smallest.user
    && files[i + 1].entries != [] && files[i + 1].entries[0].key.kind.Put?
    && exists e :: e in InputEntries(in0, in1) && IsNewest(VersionEntries(v), files[i].largest.user, smallest, e) && Obsolete(e, v, level, smallest)
  }

  ghost predicate UncoversAtBoundary(v: Version, level: nat, in0: seq<File>, in1: seq<File>, smallest: SequenceNumber)
    requires level + 1 < |v|
  {
    exists i :: UncoversAt(v, level, in0, in1, smallest, i)
  }

  /** Earlier files of a sorted level hold the newer entries of a user key they share. */
  lemma EarlierIsNewer(v: Version, level: nat, i: nat, j: nat, e: Entry, d: Entry)
    requires TreeInv(v) && Distinct(VersionEntries(v)) && 0 < level < |v| && i < j < |v[level]|
    requires e in v[level][i].entries && d in v[level][j].entries && e.key.user == d.key.user
    ensures d.key.seqno < e.key.seqno && v[level][i].largest.user == e.key.user == v[level][j].smallest.user
  {
    var f, g := v[level][i], v[level][j];
    EntriesWithinFile(f);
    EntriesWithinFile(g);
    assert Before(f.largest, g.smallest);
    assert e in LevelEntries(v[level]) && d in LevelEntries(v[level]);
    assert e in VersionEntries(v) && d in VersionEntries(v);
    assert Before(e.key, d.key);
  }

  /** The files of the next level that are inputs stand next to each other. */
  lemma InputsAreContiguous(v: Version, level: nat, in0: seq<File>, in1: seq<File>, a: nat, b: nat, c: nat)
    requires TreeInv(v) && InputsOk(v, level, in0, in1) && a < b < c < |v[level + 1]|
    requires v[level + 1][a] in in1 && v[level + 1][c] in in1
    ensures v[level + 1][b] in in1
  {
    var files := v[level + 1];
    EndsInOrder(files[b]);
    assert Before(files[a].largest, files[b].smallest) && Before(files[b].largest, files[c].smallest);
  }

  /** An entry left behind that is not newer than a droppable tombstone of its key stands behind
      the tombstone in the next level. */
  lemma OlderIsInNextLevel(v: Version, level: nat, in0: seq<File>, in1: seq<File>, smallest: SequenceNumber,
                           f: File, e: Entry, l: nat, g: File, d: Entry)
    requires TreeInv(v) && Distinct(VersionEntries(v)) && InputsOk(v, level, in0, in1)
    requires level > 0 ==> BoundaryClear(v[level], in0)
    requires (f in in0 || f in in1) && e in f.entries && IsBaseLevel(v, level, e.key.user)
    requires LeftBehind(v, level, in0, in1, l, g) && d in g.entries && d.key.user == e.key.user && d.key.seqno <= e.key.seqno
    ensures l == level + 1 && f in in1 && g !in in1
  {
    EntriesWithinFile(g);
    assert InRange(g, e.key.user);
    assert l < level ==> Newer(g, f);
    if f in in0 {
      if l == level {
        LeftBehindIsNewer(v, level, in0, in1, f, g);
      } else if l == level + 1 {
        ApartFromRange(g, in0, f);
      }
    } else {
      assert l == level ==> Newer(g, f);
    }
  }

  lemma LeftBehindIsNewer(v: Version, level: nat, in0: seq<File>, in1: seq<File>, f: File, g: File)
    requires TreeInv(v) && Distinct(VersionEntries(v)) && InputsOk(v, level, in0, in1)
    requires level > 0 ==> BoundaryClear(v[level], in0)
    requires f in in0 && g in v[level] && g !in in0
    ensures Newer(g, f)
  {
    if level > 0 {
      LevelDistinct(v, level);
      BoundaryClearIsNewer(v[level], in0);
    } else {
      ApartFromRange(g, in0, f);
    }
  }

  lemma FirstOfKey(g: File, d: Entry)
    requires FileOk(g) && d in g.entries && g.smallest.user == d.key.user
    ensures g.entries[0].key.user == d.key.user && d.key.seqno <= g.entries[0].key.seqno
  {
    var k :| 0 <= k < |g.entries| && g.entries[k] == d;
    assert k > 0 ==> Before(g.entries[0].key, d.key);
  }

  lemma RestHolder(v: Version, level: nat, in0: seq<File>, in1: seq<File>, y: Entry) returns (l: nat, h: File)
    requires y in RestEntries(v, level, in0, in1)
    ensures l < |v| && LeftBehind(v, level, in0, in1, l, h) && y in h.entries && y in VersionEntries(v)
  {
    l, h :| l < |v| && h in v[l] && LeftBehind(v, level, in0, in1, l, h) && y in h.entries;
    InRest(v, level, in0, in1, l, h, y);
  }

  lemma OkInTree(v: Version, l: nat, g: File)
    requires TreeInv(v) && l < |v| && g in v[l]
    ensures FileOk(g)
  {
  }

  lemma InRest(v: Version, level: nat, in0: seq<File>, in1: seq<File>, l: nat, g: File, e: Entry)
    requires LeftBehind(v, level, in0, in1, l, g) && e in g.entries
    ensures e in RestEntries(v, level, in0, in1) && e in VersionEntries(v)
  {
    assert e in LevelEntries(v[l]);
  }

  /** The files on both sides of the boundary: file `i` is an input, and `d` comes first in the file
      after it. */
  lemma BoundaryIndex(v: Version, level: nat, in0: seq<File>, in1: seq<File>, smallest: SequenceNumber,
                      f: File, e: Entry, g: File, d: Entry) returns (i: nat)
    requires TreeInv(v) && Distinct(VersionEntries(v)) && InputsOk(v, level, in0, in1)
    requires f in in1 && e in f.entries && e.key.seqno <= smallest
    requires g in v[level + 1] && g !in in1 && d in g.entries && d.key.seqno <= e.key.seqno
    requires d.key.user == e.key.user && IsNewest(RestEntries(v, level, in0, in1), e.key.user, smallest, d)
    ensures
      var files := v[level + 1];
      && i + 1 < |files| && files[i] in in1 && files[i + 1] == g && files[i].largest.user == e.key.user == g.smallest.user
      && g.entries != [] && g.entries[0] == d && d.key.seqno < e.key.seqno
  {
    hide TreeInv, Distinct, InputsOk, RestEntries, VersionEntries, FileOk, IsNewest;
    InputsInLevel(v, level, in0, in1);
    OkInTree(v, level + 1, g);
    var files := v[level + 1];
    var k: nat :| k < |files| && files[k] == f;
    var j: nat :| j < |files| && files[j] == g;
    if j < k {
      EarlierIsNewer(v, level + 1, j, k, d, e);
    }
    i := j - 1;
    EarlierIsNewer(v, level + 1, k, j, e, d);
    forall b | b in g.entries && b.key.user == e.key.user ensures b.key.seqno < e.key.seqno {
      EarlierIsNewer(v, level + 1, k, j, e, b);
    }
    FirstIsNewest(v, level, in0, in1, smallest, g, e, d);
    if k < i {
      BetweenIsInput(v, level, in0, in1, smallest, k, j, e, d);
    }
  }

  lemma FirstIsNewest(v: Version, level: nat, in0: seq<File>, in1: seq<File>, smallest: SequenceNumber, g: File, e: Entry, d: Entry)
    requires Distinct(VersionEntries(v)) && level + 1 < |v|
    requires FileOk(g) && LeftBehind(v, level, in0, in1, level + 1, g) && d in g.entries && d.key.user == e.key.user == g.smallest.user
    requires IsNewest(RestEntries(v, level, in0, in1), e.key.user, smallest, d) && e.key.seqno <= smallest
    requires forall b :: b in g.entries && b.key.user == e.key.user ==> b.key.seqno < e.key.seqno
    ensures g.entries != [] && g.entries[0] == d
  {
    hide RestEntries, VersionEntries;
    FirstOfKey(g, d);
    InRest(v, level, in0, in1, level + 1, g, g.entries[0]);
    InRest(v, level, in0, in1, level + 1, g, d);
  }

  /** A file between `k` and `j` that stayed would hold a newer value than `d`. */
  lemma BetweenIsInput(v: Version, level: nat, in0: seq<File>, in1: seq<File>, smallest: SequenceNumber, k: nat, j: nat, e: Entry, d: Entry)
    requires TreeInv(v) && Distinct(VersionEntries(v)) && level + 1 < |v| && k + 1 < j < |v[level + 1]|
    requires e in v[level + 1][k].entries && d in v[level + 1][j].entries && e.key.user == d.key.user && e.key.seqno <= smallest
    requires IsNewest(RestEntries(v, level, in0, in1), e.key.user, smallest, d)
    ensures v[level + 1][j - 1] in in1 && v[level + 1][j - 1].largest.user == e.key.user
  {
    var files, i := v[level + 1], j - 1;
    assert FileOk(files[i]);
    var before := files[i].entries[0];
    EarlierIsNewer(v, level + 1, k, j, e, d);
    EndsInOrder(files[i]);
    assert Before(files[k].largest, files[i].smallest) && Before(files[i].largest, files[j].smallest);
    assert before in files[i].entries;
    EarlierIsNewer(v, level + 1, k, i, e, before);
    EarlierIsNewer(v, level + 1, i, j, before, d);
    if files[i] !in in1 {
      InRest(v, level, in0, in1, level + 1, files[i], before);
    }
  }

  /** A value that a dropped tombstone uncovers is the first entry behind the inputs of its level. */
  lemma UncoveredIsAtBoundary(v: Version, level: nat, in0: seq<File>, in1: seq<File>, smallest: SequenceNumber, e: Entry, d: Entry)
    requires TreeInv(v) && Distinct(VersionEntries(v)) && InputsOk(v, level, in0, in1)
    requires level > 0 ==> BoundaryClear(v[level], in0)
    requires e in InputEntries(in0, in1) && !Hidden(InputEntries(in0, in1), e, smallest) && Obsolete(e, v, level, smallest)
    requires IsNewest(RestEntries(v, level, in0, in1), e.key.user, smallest, d) && d.key.kind.Put? && d.key.seqno <= e.key.seqno
    ensures UncoversAtBoundary(v, level, in0, in1, smallest)
  {
    hide TreeInv, Distinct, InputsOk, BoundaryClear, RestEntries, Hidden, VersionEntries, IsBaseLevel;
    NewestIsInput(v, level, in0, in1, smallest, e, d);
    var l: nat, g: File := RestHolder(v, level, in0, in1, d);
    var f :| (f in in0 || f in in1) && e in f.entries;
    OlderIsInNextLevel(v, level, in0, in1, smallest, f, e, l, g, d);
    var i := BoundaryIndex(v, level, in0, in1, smallest, f, e, g, d);
    assert UncoversAt(v, level, in0, in1, smallest, i);
  }

  lemma NewestIsInput(v: Version, level: nat, in0: seq<File>, in1: seq<File>, smallest: SequenceNumber, e: Entry, d: Entry)
    requires InputsOk(v, level, in0, in1) && e in InputEntries(in0, in1) && !Hidden(InputEntries(in0, in1), e, smallest) && e.key.seqno <= smallest
    requires IsNewest(RestEntries(v, level, in0, in1), e.key.user, smallest, d) && d.key.seqno <= e.key.seqno
    ensures IsNewest(VersionEntries(v), e.key.user, smallest, e)
  {
    EntriesBefore(v, level, in0, in1);
  }

  /** And what stands there is uncovered. */
  lemma BoundaryIsUncovered(v: Version, level: nat, in0: seq<File>, in1: seq<File>, smallest: SequenceNumber, i: nat)
    requires TreeInv(v) && Distinct(VersionEntries(v)) && InputsOk(v, level, in0, in1)
    requires level > 0 ==> BoundaryClear(v[level], in0)
    requires UncoversAt(v, level, in0, in1, smallest, i)
    ensures !TombstonesUncoverNothing(InputEntries(in0, in1), RestEntries(v, level, in0, in1), v, level, smallest)
  {
    var files := v[level + 1];
    var g, d := files[i + 1], files[i + 1].entries[0];
    var e :| e in InputEntries(in0, in1) && IsNewest(VersionEntries(v), files[i].largest.user, smallest, e) && Obsolete(e, v, level, smallest);
    var f :| (f in in0 || f in in1) && e in f.entries;
    EntriesBefore(v, level, in0, in1);
    assert FileOk(g) && d in g.entries;
    InRest(v, level, in0, in1, level + 1, g, d);
    BehindInput(v, level, in0, in1, i, f, e, d);
    forall y | y in RestEntries(v, level, in0, in1) && VisibleAt(y, e.key.user, smallest) ensures y.key.seqno <= d.key.seqno {
      FirstBehind(v, level, in0, in1, smallest, i, f, e, d, y);
    }
    assert IsNewest(RestEntries(v, level, in0, in1), e.key.user, smallest, d);
  }

  lemma BehindInput(v: Version, level: nat, in0: seq<File>, in1: seq<File>, i: nat, f: File, e: Entry, d: Entry)
    requires TreeInv(v) && Distinct(VersionEntries(v)) && InputsOk(v, level, in0, in1)
    requires i + 1 < |v[level + 1]| && v[level + 1][i] in in1 && v[level + 1][i + 1] !in in1
    requires (f in in0 || f in in1) && e in f.entries && d in v[level + 1][i + 1].entries && d.key.user == e.key.user
    ensures d.key.seqno < e.key.seqno
    ensures f in in1 ==> f in v[level + 1][..i + 1]
  {
    var files := v[level + 1];
    if f in in1 {
      var k: nat :| k < |files| && files[k] == f;
      if k > i + 1 {
        InputsAreContiguous(v, level, in0, in1, i, i + 1, k);
      }
      EarlierIsNewer(v, level + 1, k, i + 1, e, d);
    }
    if f in in0 {
      assert Newer(f, files[i + 1]);
    }
  }

  /** No other entry left behind comes between. */
  lemma FirstBehind(v: Version, level: nat, in0: seq<File>, in1: seq<File>, smallest: SequenceNumber, i: nat, f: File, e: Entry, d: Entry, y: Entry)
    requires TreeInv(v) && Distinct(VersionEntries(v)) && InputsOk(v, level, in0, in1)
    requires level > 0 ==> BoundaryClear(v[level], in0)
    requires i + 1 < |v[level + 1]| && v[level + 1][i] in in1 && v[level + 1][i + 1] !in in1
    requires v[level + 1][i].largest.user == e.key.user == v[level + 1][i + 1].smallest.user
    requires (f in in0 || f in in1) && e in f.entries && IsNewest(VersionEntries(v), e.key.user, smallest, e) && Obsolete(e, v, level, smallest)
    requires v[level + 1][i + 1].entries != [] && d == v[level + 1][i + 1].entries[0] && d.key.user == e.key.user
    requires y in RestEntries(v, level, in0, in1) && VisibleAt(y, e.key.user, smallest)
    ensures y.key.seqno <= d.key.seqno
  {
    hide TreeInv, Distinct, InputsOk, BoundaryClear, RestEntries, VersionEntries, IsBaseLevel, FileOk;
    InputsInLevel(v, level, in0, in1);
    var files := v[level + 1];
    var l: nat, h: File := RestHolder(v, level, in0, in1, y);
    OlderIsInNextLevel(v, level, in0, in1, smallest, f, e, l, h, y);
    var m: nat :| m < |files| && files[m] == h;
    BehindInput(v, level, in0, in1, i, f, e, d);
    var k: nat :| k <= i && files[..i + 1][k] == f;
    if m < k {
      EarlierIsNewer(v, level + 1, m, k, y, e);
    } else if m < i {
      InputsAreContiguous(v, level, in0, in1, k, m, i);
    } else if m == i + 1 {
      OkInTree(v, l, h);
      FirstOfKey(h, y);
    } else {
      EarlierIsNewer(v, level + 1, i + 1, m, d, y);
    }
  }

  /** So the drop rule uncovers a value exactly at the boundary of the next level's inputs. */
  lemma UncoversIffAtBoundary(v: Version, level: nat, in0: seq<File>, in1: seq<File>, smallest: SequenceNumber)
    requires TreeInv(v) && Distinct(VersionEntries(v)) && InputsOk(v, level, in0, in1)
    requires level > 0 ==> BoundaryClear(v[level], in0)
    ensures TombstonesUncoverNothing(InputEntries(in0, in1), RestEntries(v, level, in0, in1), v, level, smallest) <==>
      !UncoversAtBoundary(v, level, in0, in1, smallest)
  {
    if i: nat :| UncoversAt(v, level, in0, in1, smallest, i) {
      BoundaryIsUncovered(v, level, in0, in1, smallest, i);
    }
    forall e, d |
      && e in InputEntries(in0, in1) && !Hidden(InputEntries(in0, in1), e, smallest) && Obsolete(e, v, level, smallest)
      && IsNewest(RestEntries(v, level, in0, in1), e.key.user, smallest, d) && d.key.kind.Put? && d.key.seqno <= e.key.seqno
      ensures UncoversAtBoundary(v, level, in0, in1, smallest)
    {
      UncoveredIsAtBoundary(v, level, in0, in1, smallest, e, d);
    }
  }

  // ---- choosing the inputs ----

  /** Inputs as PickCompaction and CompactRange choose them start a safe compaction, if the boundary
      at their level is clear and nothing is uncovered at the boundary of the next. */
  lemma CompactionStarts(v: Version, level: nat, in0: seq<File>, in1: seq<File>, smallest: SequenceNumber)
    requires TreeInv(v) && Distinct(VersionEntries(v)) && InputsOk(v, level, in0, in1)
    requires level > 0 ==> BoundaryClear(v[level], in0)
    requires !UncoversAtBoundary(v, level, in0, in1, smallest)
    ensures CompactionOk(v, v, level, in0, in1, smallest)
  {
    StartPlaced(v, level, in0, in1);
    UncoversIffAtBoundary(v, level, in0, in1, smallest);
  }

  lemma LevelDistinct(v: Version, level: nat)
    requires level < |v| && Distinct(VersionEntries(v))
    ensures Distinct(LevelEntries(v[level]))
  {
    assert forall e :: e in LevelEntries(v[level]) ==> e in VersionEntries(v);
  }

  lemma StartPlaced(v: Version, level: nat, in0: seq<File>, in1: seq<File>)
    requires TreeInv(v) && Distinct(VersionEntries(v)) && InputsOk(v, level, in0, in1)
    requires level > 0 ==> BoundaryClear(v[level], in0)
    ensures InputsPlaced(v, level, in0, in1)
  {
    forall g | g in v[level + 1] && g !in in1 ensures Aside(g, in0, in1) {
      LeftBehindAside(v, level, in0, in1, g);
    }
    if level > 0 {
      LevelDistinct(v, level);
      BoundaryClearIsNewer(v[level], in0);
    } else {
      forall f, g | f in in0 && g in v[0] && g !in in0 ensures Newer(g, f) {
        ApartFromRange(g, in0, f);
      }
    }
  }

  lemma LeftBehindAside(v: Version, level: nat, in0: seq<File>, in1: seq<File>, g: File)
    requires TreeInv(v) && InputsOk(v, level, in0, in1)
    requires g in v[level + 1] && g !in in1
    ensures Aside(g, in0, in1)
  {
    EntriesWithinFile(g);
    EndsInOrder(g);
    var lo, hi := LoUser(in0), HiUser(in0);
    assert g.largest.user < lo || hi < g.smallest.user;
    forall f, e | (f in in0 || f in in1) && e in f.entries
      ensures if g.largest.user < lo then Before(g.largest, e.key) else Before(e.key, g.smallest)
    {
      EntriesWithinFile(f);
      if f in in1 {
        DisjointInLevel(v[level + 1], f, g);
      }
    }
  }

  // ---- a flush in the middle ----

  ghost predicate CoveredDownTo(v: Version, level: nat, user: UserKey) {
    exists l :: 0 <= l <= level && l < |v| && Covers(v[l], user)
  }

  /** Every user key between the ends of the inputs lies in the range of a file at the output level
      or above. */
  ghost predicate Sheltered(v: Version, level: nat, inputs: seq<File>) {
    forall user: UserKey, f, g :: f in inputs && g in inputs && f.smallest.user <= user <= g.largest.user ==> CoveredDownTo(v, level, user)
  }

  /** No flush reaches the output level, or none falls into a gap there. */
  ghost predicate FlushSafe(v: Version, level: nat, in0: seq<File>, in1: seq<File>) {
    level + 1 > MAX_MEM_COMPACT_LEVEL || Sheltered(v, level + 1, in0 + in1)
  }

  /** PickCompaction's inputs have no gap, so that flushes are safe. */
  lemma GapFreeIsFlushSafe(v: Version, level: nat, in0: seq<File>, in1: seq<File>)
    requires InputsOk(v, level, in0, in1) && GapFree(in0 + in1)
    ensures FlushSafe(v, level, in0, in1)
  {
    var out := level + 1;
    forall user: UserKey, f, g | f in in0 + in1 && g in in0 + in1 && f.smallest.user <= user <= g.largest.user
      ensures CoveredDownTo(v, out, user)
    {
      assert Covers(in0 + in1, user);
      var h :| h in in0 + in1 && InRange(h, user);
      assert h in v[level] ==> Covers(v[level], user);
      assert h in v[out] ==> Covers(v[out], user);
    }
  }

  /** The flushes that leave the inputs placed as the tree invariant needs: all of them, exactly if
      the inputs leave no gap that a flush can fall into. */
  lemma FlushKeepsPlacedIffSafe(v: Version, level: nat, in0: seq<File>, in1: seq<File>)
    requires TreeInv(v) && InputsOk(v, level, in0, in1) && InputsPlaced(v, level, in0, in1)
    requires forall e :: e in VersionEntries(v) ==> e.key.seqno < MAX_SEQUENCE
    ensures (forall at: nat, f, v' :: Flushable(v, at, f) && FlushedInto(v, v', at, f) ==> InputsPlaced(v', level, in0, in1)) <==>
      FlushSafe(v, level, in0, in1)
  {
    hide Flushable, FlushedInto, TreeInv, InputsPlaced;
    if FlushSafe(v, level, in0, in1) {
      forall at: nat, f, v' | Flushable(v, at, f) && FlushedInto(v, v', at, f) ensures InputsPlaced(v', level, in0, in1) {
        FlushKeepsPlaced(v, v', level, in0, in1, at, f);
      }
    } else {
      var user: UserKey, x, y :| x in in0 + in1 && y in in0 + in1 && x.smallest.user <= user <= y.largest.user && !CoveredDownTo(v, level + 1, user);
      var at, f, v' := HoleDisplaces(v, level, in0, in1, user, x, y);
      assert Flushable(v, at, f) && FlushedInto(v, v', at, f);
    }
  }

  lemma HoleDisplaces(v: Version, level: nat, in0: seq<File>, in1: seq<File>, user: UserKey, x: File, y: File) returns (at: nat, f: File, v': Version)
    requires TreeInv(v) && InputsOk(v, level, in0, in1) && level + 1 <= MAX_MEM_COMPACT_LEVEL && !CoveredDownTo(v, level + 1, user)
    requires forall e :: e in VersionEntries(v) ==> e.key.seqno < MAX_SEQUENCE
    requires x in in0 + in1 && y in in0 + in1 && x.smallest.user <= user <= y.largest.user
    ensures Flushable(v, at, f) && FlushedInto(v, v', at, f) && !InputsPlaced(v', level, in0, in1)
  {
    hide TreeInv, Flushable, InputsOk, Aside, InputsPlaced, FlushedInto, CoveredDownTo, HoleFile;
    InputsInLevel(v, level, in0, in1);
    at, f := level + 1, HoleFile(v, level + 1, user);
    v' := v[at := v[at] + [f]];
    HoleFileFits(v, at, user);
    NotAside(v, level, in0, in1, user, x, y, f);
    Displaced(v, v', level, in0, in1, f);
  }

  lemma Displaced(v: Version, v': Version, level: nat, in0: seq<File>, in1: seq<File>, f: File)
    requires |v| == NUM_LEVELS && level + 1 < NUM_LEVELS && v' == v[level + 1 := v[level + 1] + [f]]
    requires (forall g :: g in in1 ==> g in v[level + 1]) && f !in v[level + 1] && !Aside(f, in0, in1)
    ensures FlushedInto(v, v', level + 1, f) && !InputsPlaced(v', level, in0, in1)
  {
    hide Aside;
    assert f in v'[level + 1];
  }

  lemma InputsInLevel(v: Version, level: nat, in0: seq<File>, in1: seq<File>)
    requires TreeInv(v) && InputsOk(v, level, in0, in1)
    ensures |v| == NUM_LEVELS && level + 1 < NUM_LEVELS && forall g :: g in in1 ==> g in v[level + 1]
  {
  }

  function NumberAfter(files: seq<File>): (n: nat)
    ensures forall f :: f in files ==> f.number < n
  {
    if files == [] then 0
    else
      var n, last := NumberAfter(files[..|files| - 1]), files[|files| - 1];
      assert files == files[..|files| - 1] + [last];
      if last.number < n then n else last.number + 1
  }

  /** A memtable with one entry, for a user key nobody covers down to `level`. */
  function HoleFile(v: Version, level: nat, user: UserKey): File
    requires level < |v|
  {
    var e := Entry(InternalKey(user, MAX_SEQUENCE, Put), []);
    File(NumberAfter(v[level]), 1, e.key, e.key, [e])
  }

  lemma HoleFileFits(v: Version, level: nat, user: UserKey)
    requires |v| == NUM_LEVELS && level <= MAX_MEM_COMPACT_LEVEL && !CoveredDownTo(v, level, user)
    requires forall e :: e in VersionEntries(v) ==> e.key.seqno < MAX_SEQUENCE
    ensures Flushable(v, level, HoleFile(v, level, user)) && HoleFile(v, level, user) !in v[level]
    ensures HoleFile(v, level, user).smallest.user == user == HoleFile(v, level, user).largest.user
  {
    var f := HoleFile(v, level, user);
    forall l, g | 0 <= l < |v| && g in v[l] ensures Newer(f, g) {
      forall d | d in g.entries ensures d.key.seqno < MAX_SEQUENCE {
        assert d in LevelEntries(v[l]) && d in VersionEntries(v);
      }
    }
    forall l | 0 <= l <= level ensures !OverlapInLevel(v, l, user, user) {
      if g :| g in v[l] && Overlaps(g, Some(user), Some(user)) {
        assert Covers(v[l], user);
      }
    }
  }

  lemma NotCovering(v: Version, level: nat, in0: seq<File>, in1: seq<File>, user: UserKey, g: File)
    requires TreeInv(v) && InputsOk(v, level, in0, in1) && !CoveredDownTo(v, level + 1, user) && g in in0 + in1
    ensures FileOk(g) && !InRange(g, user)
  {
    assert g in v[level] ==> Covers(v[level], user) || !InRange(g, user);
    assert g in v[level + 1] ==> Covers(v[level + 1], user) || !InRange(g, user);
  }

  lemma NotAside(v: Version, level: nat, in0: seq<File>, in1: seq<File>, user: UserKey, x: File, y: File, f: File)
    requires TreeInv(v) && InputsOk(v, level, in0, in1) && !CoveredDownTo(v, level + 1, user)
    requires x in in0 + in1 && y in in0 + in1 && x.smallest.user <= user <= y.largest.user
    requires f.smallest.user == user == f.largest.user
    ensures !Aside(f, in0, in1)
  {
    NotCovering(v, level, in0, in1, user, x);
    NotCovering(v, level, in0, in1, user, y);
    hide TreeInv, InputsOk, CoveredDownTo;
    var a, b := x.entries[0], y.entries[0];
    EntriesWithinFile(x);
    EntriesWithinFile(y);
    assert a in x.entries && b in y.entries;
    assert IsInput(in0, in1, a) && IsInput(in0, in1, b);
  }

  lemma FlushKeepsPlaced(v: Version, v': Version, level: nat, in0: seq<File>, in1: seq<File>, at: nat, f: File)
    requires TreeInv(v) && InputsPlaced(v, level, in0, in1) && in0 != [] && FlushSafe(v, level, in0, in1)
    requires Flushable(v, at, f) && FlushedInto(v, v', at, f)
    ensures InputsPlaced(v', level, in0, in1) && FlushSafe(v', level, in0, in1)
  {
    forall g | g in v'[level + 1] && g !in in1 ensures Aside(g, in0, in1) {
      if g !in v[level + 1] {
        FlushedAside(v, level, in0, in1, f);
      }
    }
    forall l: nat, user: UserKey | l < NUM_LEVELS && Covers(v[l], user) ensures Covers(v'[l], user) {
      var h :| h in v[l] && InRange(h, user);
      assert h in v'[l];
    }
    var out := level + 1;
    forall user: UserKey | CoveredDownTo(v, out, user) ensures CoveredDownTo(v', out, user) {
      var l :| 0 <= l <= out && l < |v| && Covers(v[l], user);
      assert Covers(v'[l], user);
    }
  }

  /** A memtable flushed while the compaction runs does not disturb it, provided the inputs leave no
      gap it could fall into. */
  lemma FlushDuringCompaction(base: Version, v: Version, v': Version, level: nat, in0: seq<File>, in1: seq<File>, smallest: SequenceNumber,
                              at: nat, f: File)
    requires TreeInv(v) && CompactionOk(base, v, level, in0, in1, smallest) && in0 != [] && FlushSafe(v, level, in0, in1)
    requires Flushable(v, at, f) && FlushedInto(v, v', at, f)
    ensures CompactionOk(base, v', level, in0, in1, smallest) && FlushSafe(v', level, in0, in1)
  {
    FlushKeepsPlaced(v, v', level, in0, in1, at, f);
    var rest, rest' := RestEntries(v, level, in0, in1), RestEntries(v', level, in0, in1);
    forall y | y in rest ensures y in rest' {
      var l: nat, g :| l < |v| && g in v[l] && LeftBehind(v, level, in0, in1, l, g) && y in g.entries;
      assert g in v'[l] && LeftBehind(v', level, in0, in1, l, g);
    }
    forall y, e | y in rest' && y !in rest && e in InputEntries(in0, in1) && y.key.user == e.key.user ensures y.key.seqno > e.key.seqno {
      var l: nat, g :| l < |v'| && g in v'[l] && LeftBehind(v', level, in0, in1, l, g) && y in g.entries;
      assert g in v[l] ==> LeftBehind(v, level, in0, in1, l, g);
      var h :| (h in in0 || h in in1) && e in h.entries;
      assert Newer(f, h);
    }
    NewerUncoverNothing(InputEntries(in0, in1), rest, rest', base, level, smallest);
  }

  lemma FlushedAside(v: Version, level: nat, in0: seq<File>, in1: seq<File>, f: File)
    requires TreeInv(v) && level + 1 < NUM_LEVELS && in0 != [] && Sheltered(v, level + 1, in0 + in1)
    requires (forall g :: g in in0 ==> g in v[level]) && (forall g :: g in in1 ==> g in v[level + 1])
    requires FileOk(f) && FitsAt(v, level + 1, f)
    ensures Aside(f, in0, in1)
  {
    var inputs := in0 + in1;
    EndsInOrder(f);
    var x, y := EndFiles(inputs);
    EndsInOrder(x);
    if x.smallest.user <= f.smallest.user <= y.largest.user {
      assert CoveredDownTo(v, level + 1, f.smallest.user);
      var l: nat :| l <= level + 1 && l < |v| && Covers(v[l], f.smallest.user);
      assert OverlapInLevel(v, l, f.smallest.user, f.largest.user);
    }
    assert !OverlapInLevel(v, level, f.smallest.user, f.largest.user) && !OverlapInLevel(v, level + 1, f.smallest.user, f.largest.user);
    assert !Overlaps(x, Some(f.smallest.user), Some(f.largest.user));
    assert f.largest.user < x.smallest.user || y.largest.user < f.smallest.user;
    forall g, e | (g in in0 || g in in1) && e in g.entries
      ensures x.smallest.user <= e.key.user <= y.largest.user
    {
      assert g in inputs;
      EntriesWithinFile(g);
    }
  }
}
