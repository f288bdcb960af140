/** A version: seven levels of immutable table files, the invariant of the tree, and
    Version::Get with the searches it rests on.  A `File` carries the table's contents with
    its FileMetaData, because a table never changes once it has been written; the searches
    below look at `entries` only through TableGet. */
module Versions {
  import opened Keys

  const NUM_LEVELS: nat := 7

  datatype File = File(number: nat, size: nat, smallest: InternalKey, largest: InternalKey, entries: seq<Entry>)

  type Version = seq<seq<File>>

  ghost predicate FileOk(f: File) {
    && f.entries != []
    && SortedEntries(f.entries)
    && f.smallest == f.entries[0].key
    && f.largest == f.entries[|f.entries| - 1].key
  }

  /** `f` holds only newer entries than `g` for every user key they share. */
  ghost predicate Newer(f: File, g: File) {
    forall e, d :: e in f.entries && d in g.entries && e.key.user == d.key.user ==> e.key.seqno > d.key.seqno
  }

  /** Levels above 0: ordered, and disjoint by internal key. */
  ghost predicate SortedLevel(files: seq<File>) {
    forall i, j :: 0 <= i < j < |files| ==> Before(files[i].largest, files[j].smallest)
  }

  /** Level 0: a higher file number means newer entries. */
  ghost predicate LevelZeroOk(files: seq<File>) {
    forall f, g :: f in files && g in files && f != g ==>
      f.number != g.number && (f.number > g.number ==> Newer(f, g))
  }

  ghost predicate FilesOk(v: Version) {
    forall l, f :: 0 <= l < |v| && f in v[l] ==> FileOk(f)
  }

  ghost predicate NewerAbove(v: Version) {
    forall l, m, f, g :: 0 <= l < m < |v| && f in v[l] && g in v[m] ==> Newer(f, g)
  }

  ghost predicate TreeInv(v: Version) {
    && |v| == NUM_LEVELS
    && FilesOk(v)
    && LevelZeroOk(v[0])
    && (forall l :: 1 <= l < NUM_LEVELS ==> SortedLevel(v[l]))
    && NewerAbove(v)
  }

  ghost function FileEntries(f: File): set<Entry> {
    set e | e in f.entries
  }

  ghost function LevelEntries(files: seq<File>): set<Entry> {
    set f, e | f in files && e in f.entries :: e
  }

  ghost function VersionEntries(v: Version): set<Entry> {
    set l, e | 0 <= l < |v| && e in LevelEntries(v[l]) :: e
  }

  // ---- one table ----

  /** Table::InternalGet: the first entry at or after the target, if there is one. */
  function TableGet(f: File, target: InternalKey): (r: Option<Entry>)
    ensures r.Some? ==> r.value in f.entries && !Before(r.value.key, target)
  {
    FirstAtOrAfter(f.entries, target)
  }

  function FirstAtOrAfter(es: seq<Entry>, target: InternalKey): (r: Option<Entry>)
    ensures r.Some? ==> r.value in es && !Before(r.value.key, target)
    ensures r.None? ==> forall e :: e in es ==> Before(e.key, target)
    ensures SortedEntries(es) && r.Some? ==> forall e :: e in es && !Before(e.key, target) ==> e == r.value || Before(r.value.key, e.key)
  {
    if es == [] then None
    else if Before(es[0].key, target) then FirstAtOrAfter(es[1..], target)
    else Some(es[0])
  }

  /** SaveValue keeps the entry it is shown only when the user key matches. */
  function Probe(f: File, user: UserKey, seqno: SequenceNumber): Option<Entry> {
    match TableGet(f, SeekKey(user, seqno))
    case Some(e) => if e.key.user == user then Some(e) else None
    case None => None
  }

  lemma ProbeFindsNewest(f: File, user: UserKey, seqno: SequenceNumber)
    requires FileOk(f)
    ensures Probe(f, user, seqno).Some? ==>
      var e := Probe(f, user, seqno).value;
      e in f.entries && VisibleAt(e, user, seqno)
      && forall d :: d in f.entries && VisibleAt(d, user, seqno) ==> d == e || d.key.seqno <= e.key.seqno
    ensures Probe(f, user, seqno).None? ==> forall d :: d in f.entries ==> !VisibleAt(d, user, seqno)
  {
  }

  lemma EntriesWithinFile(f: File)
    requires FileOk(f)
    ensures forall e :: e in f.entries ==>
      && f.smallest.user <= e.key.user <= f.largest.user
      && !Before(e.key, f.smallest)
      && !Before(f.largest, e.key)
  {
    forall e | e in f.entries
      ensures f.smallest.user <= e.key.user <= f.largest.user && !Before(e.key, f.smallest) && !Before(f.largest, e.key)
    {
      var i :| 0 <= i < |f.entries| && f.entries[i] == e;
      assert i > 0 ==> Before(f.entries[0].key, e.key);
      assert i < |f.entries| - 1 ==> Before(e.key, f.entries[|f.entries| - 1].key);
    }
  }

  // ---- one level ----

  /** FindFile: the earliest index whose largest key is at or after the target. */
  method FindFile(files: seq<File>, target: InternalKey) returns (right: nat)
    requires forall f :: f in files ==> FileOk(f)
    requires SortedLevel(files)
    ensures right <= |files|
    ensures forall i :: 0 <= i < right ==> Before(files[i].largest, target)
    ensures forall i :: right <= i < |files| ==> !Before(files[i].largest, target)
  {
    var left := 0;
    right := |files|;
    while left < right
      invariant 0 <= left <= right <= |files|
      invariant forall i :: 0 <= i < left ==> Before(files[i].largest, target)
      invariant forall i :: right <= i < |files| ==> !Before(files[i].largest, target)
    {
      var mid := (left + right) / 2;
      if Before(files[mid].largest, target) {
        forall i | 0 <= i <= mid ensures Before(files[i].largest, target) {
          if i < mid { LargestIncreasing(files, i, mid); }
        }
        left := mid + 1;
      } else {
        forall i | mid <= i < |files| ensures !Before(files[i].largest, target) {
          if mid < i { LargestIncreasing(files, mid, i); }
        }
        right := mid;
      }
    }
  }

  lemma LargestIncreasing(files: seq<File>, i: nat, j: nat)
    requires forall f :: f in files ==> FileOk(f)
    requires SortedLevel(files)
    requires i < j < |files|
    ensures Before(files[i].largest, files[j].largest)
  {
    EntriesWithinFile(files[j]);
    assert files[j].entries[0] in files[j].entries;
  }

  /** The files of level 0 that could hold `user`, newest first; std::sort by NewestFirst. */
  function NewestFirst(files: seq<File>): (r: seq<File>)
    ensures forall f :: f in r <==> f in files
    ensures forall i, j :: 0 <= i < j < |r| ==> r[i].number >= r[j].number
    ensures |r| == |files|
  {
    if files == [] then []
    else InsertByNumber(files[0], NewestFirst(files[1..]))
  }

  function InsertByNumber(f: File, files: seq<File>): (r: seq<File>)
    requires forall i, j :: 0 <= i < j < |files| ==> files[i].number >= files[j].number
    ensures forall g :: g in r <==> g == f || g in files
    ensures forall i, j :: 0 <= i < j < |r| ==> r[i].number >= r[j].number
    ensures |r| == |files| + 1
  {
    if files == [] || f.number >= files[0].number then [f] + files
    else
      var rest := InsertByNumber(f, files[1..]);
      assert forall j :: 0 <= j < |rest| ==> rest[j] == f || rest[j] in files[1..];
      [files[0]] + rest
  }

  /** The level-0 files whose range of user keys contains `user`, in list order. */
  function Overlapping(files: seq<File>, user: UserKey): (r: seq<File>)
    ensures forall f :: f in r <==> f in files && f.smallest.user <= user <= f.largest.user
  {
    if files == [] then []
    else
      var rest := Overlapping(files[..|files| - 1], user);
      var f := files[|files| - 1];
      assert files == files[..|files| - 1] + [f];
      if f.smallest.user <= user <= f.largest.user then rest + [f] else rest
  }

  /** The first file of a sorted level that does not end before the target. */
  function FirstNotBefore(files: seq<File>, target: InternalKey): (i: nat)
    ensures i <= |files|
    ensures i < |files| ==> !Before(files[i].largest, target)
    ensures forall j :: 0 <= j < i ==> Before(files[j].largest, target)
  {
    if files == [] || !Before(files[0].largest, target) then 0
    else 1 + FirstNotBefore(files[1..], target)
  }

  /** The files of one level that a lookup opens, in the order it opens them. */
  function Candidates(files: seq<File>, level: nat, user: UserKey, seqno: SequenceNumber): seq<File> {
    if level == 0 then NewestFirst(Overlapping(files, user))
    else
      var i := FirstNotBefore(files, SeekKey(user, seqno));
      if i < |files| && files[i].smallest.user <= user then [files[i]] else []
  }

  method FilesToSearch(files: seq<File>, level: nat, user: UserKey, seqno: SequenceNumber) returns (search: seq<File>)
    requires forall f :: f in files ==> FileOk(f)
    requires level > 0 ==> SortedLevel(files)
    ensures search == Candidates(files, level, user, seqno)
  {
    if level == 0 {
      var tmp: seq<File> := [];
      for i := 0 to |files|
        invariant tmp == Overlapping(files[..i], user)
      {
        var f := files[i];
        assert files[..i + 1] == files[..i] + [f];
        if f.smallest.user <= user && user <= f.largest.user {
          tmp := tmp + [f];
        }
      }
      assert files[..|files|] == files;
      search := NewestFirst(tmp);
    } else {
      var index := FindFile(files, SeekKey(user, seqno));
      if index >= |files| {
        search := [];
      } else if user < files[index].smallest.user {
        search := [];
      } else {
        search := [files[index]];
      }
    }
  }

  // ---- the whole version ----

  function FirstHit(search: seq<File>, user: UserKey, seqno: SequenceNumber): Option<Entry> {
    if search == [] then None
    else
      var p := Probe(search[0], user, seqno);
      if p.Some? then p else FirstHit(search[1..], user, seqno)
  }

  /** The entry a lookup stops at when it has already passed the levels below `level`. */
  function SearchFrom(v: Version, level: nat, user: UserKey, seqno: SequenceNumber): Option<Entry>
    decreases |v| - level
  {
    if level >= |v| then None
    else
      var p := FirstHit(Candidates(v[level], level, user, seqno), user, seqno);
      if p.Some? then p else SearchFrom(v, level + 1, user, seqno)
  }

  function ValueOf(p: Option<Entry>): Option<Value> {
    if p.Some? then Val(p.value) else None
  }

  /** Version::Get: level by level, stopping at the first file that knows the key. */
  method Get(v: Version, user: UserKey, seqno: SequenceNumber) returns (r: Option<Value>)
    requires |v| == NUM_LEVELS && FilesOk(v)
    requires forall l :: 1 <= l < NUM_LEVELS ==> SortedLevel(v[l])
    ensures r == ValueOf(SearchFrom(v, 0, user, seqno))
  {
    for level := 0 to NUM_LEVELS
      invariant SearchFrom(v, 0, user, seqno) == SearchFrom(v, level, user, seqno)
    {
      var search := FilesToSearch(v[level], level, user, seqno);
      for i := 0 to |search|
        invariant FirstHit(search, user, seqno) == FirstHit(search[i..], user, seqno)
      {
        match Probe(search[i], user, seqno) {
          case Some(e) => return if e.key.kind.Put? then Some(e.value) else None;
          case None =>
        }
      }
    }
    return None;
  }

  /** In a version that keeps the tree invariant, the entry the search stops at is the newest
      visible entry of the whole version, and there is none when the search finds nothing. */
  lemma SearchFindsNewest(v: Version, user: UserKey, seqno: SequenceNumber)
    requires TreeInv(v)
    ensures IsHit(VersionEntries(v), user, seqno, SearchFrom(v, 0, user, seqno))
  {
    SearchFromFindsNewest(v, 0, user, seqno);
  }

  lemma GetIsLookup(v: Version, user: UserKey, seqno: SequenceNumber)
    requires TreeInv(v) && Distinct(VersionEntries(v))
    ensures ValueOf(SearchFrom(v, 0, user, seqno)) == Lookup(VersionEntries(v), user, seqno)
  {
    SearchFindsNewest(v, user, seqno);
    match SearchFrom(v, 0, user, seqno)
    case Some(e) => LookupIsNewest(VersionEntries(v), user, seqno, e);
    case None => LookupOfNothing(VersionEntries(v), user, seqno);
  }

  /** `hit` is the newest visible entry of `es`, or there is none. */
  ghost predicate IsHit(es: set<Entry>, user: UserKey, seqno: SequenceNumber, hit: Option<Entry>) {
    match hit
    case Some(e) => IsNewest(es, user, seqno, e)
    case None => forall e :: e in es ==> !VisibleAt(e, user, seqno)
  }

  lemma {:induction false} SearchFromFindsNewest(v: Version, level: nat, user: UserKey, seqno: SequenceNumber)
    requires TreeInv(v) && level <= NUM_LEVELS
    requires forall l, e :: 0 <= l < level && e in LevelEntries(v[l]) ==> !VisibleAt(e, user, seqno)
    ensures IsHit(VersionEntries(v), user, seqno, SearchFrom(v, level, user, seqno))
    decreases |v| - level
  {
    if level < NUM_LEVELS {
      var hit := FirstHit(Candidates(v[level], level, user, seqno), user, seqno);
      LevelHit(v[level], level, user, seqno);
      match hit {
        case Some(e) => HitIsNewest(v, level, user, seqno, e);
        case None => SearchFromFindsNewest(v, level + 1, user, seqno);
      }
    }
  }

  lemma HitIsNewest(v: Version, level: nat, user: UserKey, seqno: SequenceNumber, e: Entry)
    requires TreeInv(v) && level < NUM_LEVELS
    requires forall l, e :: 0 <= l < level && e in LevelEntries(v[l]) ==> !VisibleAt(e, user, seqno)
    requires IsNewest(LevelEntries(v[level]), user, seqno, e)
    ensures IsNewest(VersionEntries(v), user, seqno, e)
  {
    var f :| f in v[level] && e in f.entries;
    forall d | d in VersionEntries(v) && VisibleAt(d, user, seqno) ensures d.key.seqno <= e.key.seqno {
      var l :| 0 <= l < |v| && d in LevelEntries(v[l]);
      if l > level {
        var g :| g in v[l] && d in g.entries;
        assert Newer(f, g);
      }
    }
  }

  /** Within one level, the search finds the newest visible entry of that level. */
  lemma LevelHit(files: seq<File>, level: nat, user: UserKey, seqno: SequenceNumber)
    requires forall f :: f in files ==> FileOk(f)
    requires if level == 0 then LevelZeroOk(files) else SortedLevel(files)
    ensures IsHit(LevelEntries(files), user, seqno, FirstHit(Candidates(files, level, user, seqno), user, seqno))
  {
    if level == 0 {
      LevelZeroHit(files, user, seqno);
    } else {
      SortedLevelHit(files, level, user, seqno);
    }
  }

  lemma LevelZeroHit(files: seq<File>, user: UserKey, seqno: SequenceNumber)
    requires forall f :: f in files ==> FileOk(f)
    requires LevelZeroOk(files)
    ensures IsHit(LevelEntries(files), user, seqno, FirstHit(Candidates(files, 0, user, seqno), user, seqno))
  {
    var search := NewestFirst(Overlapping(files, user));
    LevelZeroOrder(files, search);
    FirstHitOfNewestFirst(search, user, seqno);
    assert LevelEntries(search) <= LevelEntries(files);
    forall e | e in LevelEntries(files) && VisibleAt(e, user, seqno) ensures e in LevelEntries(search) {
      var f :| f in files && e in f.entries;
      EntriesWithinFile(f);
    }
  }

  lemma LevelZeroOrder(files: seq<File>, search: seq<File>)
    requires LevelZeroOk(files)
    requires forall f :: f in search ==> f in files
    requires forall i, j :: 0 <= i < j < |search| ==> search[i].number >= search[j].number
    ensures NewestFirstOrder(search)
  {
    forall i, j | 0 <= i < j < |search| && search[i] != search[j] ensures Newer(search[i], search[j]) {
      assert search[i] in search && search[j] in search;
    }
  }

  lemma SortedLevelHit(files: seq<File>, level: nat, user: UserKey, seqno: SequenceNumber)
    requires forall f :: f in files ==> FileOk(f)
    requires SortedLevel(files) && level > 0
    ensures IsHit(LevelEntries(files), user, seqno, FirstHit(Candidates(files, level, user, seqno), user, seqno))
  {
    var i := FirstNotBefore(files, SeekKey(user, seqno));
    forall e | e in LevelEntries(files) && VisibleAt(e, user, seqno)
      ensures i < |files| && files[i].smallest.user <= user && Probe(files[i], user, seqno).Some?
      ensures e.key.seqno <= Probe(files[i], user, seqno).value.key.seqno
    {
      var f :| f in files && e in f.entries;
      OneFilePerLevelSuffices(files, user, seqno, f, e);
    }
    if i < |files| {
      ProbeFindsNewest(files[i], user, seqno);
    }
  }

  ghost predicate NewestFirstOrder(search: seq<File>) {
    forall i, j :: 0 <= i < j < |search| ==> search[i] == search[j] || Newer(search[i], search[j])
  }

  lemma {:induction false} FirstHitOfNewestFirst(search: seq<File>, user: UserKey, seqno: SequenceNumber)
    requires forall f :: f in search ==> FileOk(f)
    requires NewestFirstOrder(search)
    ensures IsHit(LevelEntries(search), user, seqno, FirstHit(search, user, seqno))
  {
    if search != [] {
      var f, rest := search[0], search[1..];
      ProbeFindsNewest(f, user, seqno);
      assert forall g :: g in rest ==> g in search;
      FirstHitOfNewestFirst(rest, user, seqno);
      HeadAndTail(search);
      if Probe(f, user, seqno).Some? {
        HeadHidesTail(search, user, seqno, Probe(f, user, seqno).value);
      }
    }
  }

  lemma HeadAndTail(search: seq<File>)
    requires search != []
    ensures LevelEntries(search) == FileEntries(search[0]) + LevelEntries(search[1..])
  {
    assert search == [search[0]] + search[1..];
  }

  lemma HeadHidesTail(search: seq<File>, user: UserKey, seqno: SequenceNumber, e: Entry)
    requires search != [] && NewestFirstOrder(search)
    requires IsNewest(FileEntries(search[0]), user, seqno, e)
    ensures forall d :: d in LevelEntries(search[1..]) && VisibleAt(d, user, seqno) ==> d.key.seqno <= e.key.seqno
  {
    forall d | d in LevelEntries(search[1..]) && VisibleAt(d, user, seqno) ensures d.key.seqno <= e.key.seqno {
      var g :| g in search[1..] && d in g.entries;
      var k :| 0 <= k < |search[1..]| && search[1..][k] == g;
      assert search[k + 1] == g;
    }
  }

  /** A visible entry anywhere in a sorted level is hidden by, or is, what the one file that the
      binary search picks reports. */
  lemma OneFilePerLevelSuffices(files: seq<File>, user: UserKey, seqno: SequenceNumber, f: File, e: Entry)
    requires forall f :: f in files ==> FileOk(f)
    requires SortedLevel(files)
    requires f in files && e in f.entries && VisibleAt(e, user, seqno)
    ensures
      var i := FirstNotBefore(files, SeekKey(user, seqno));
      && i < |files|
      && files[i].smallest.user <= user
      && Probe(files[i], user, seqno).Some?
      && e.key.seqno <= Probe(files[i], user, seqno).value.key.seqno
  {
    var i := FirstNotBefore(files, SeekKey(user, seqno));
    var j :| 0 <= j < |files| && files[j] == f;
    EntriesWithinFile(f);
    assert i <= j;
    var g := files[i];
    EntriesWithinFile(g);
    assert g.entries[0] in g.entries && g.entries[|g.entries| - 1] in g.entries;
    if i < j {
      assert Before(g.largest, f.smallest);
    }
  }
}
