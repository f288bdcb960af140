/** Which files a compaction reads, and which level a flushed memtable may go to: the range
    searches of Version and the input selection of VersionSet.  A bound of None is the NULL
    pointer of the source, an open end. */
module InputSelection {
  import opened Keys
  import opened Versions
  import opened Compactions
  import opened CompactionWork

  const MAX_MEM_COMPACT_LEVEL: nat := 2

  type Bound = Option<UserKey>

  predicate AfterFile(user: Bound, f: File) {
    user.Some? && user.value > f.largest.user
  }

  predicate BeforeFile(user: Bound, f: File) {
    user.Some? && user.value < f.smallest.user
  }

  predicate Overlaps(f: File, lo: Bound, hi: Bound) {
    !AfterFile(lo, f) && !BeforeFile(hi, f)
  }

  method SomeFileOverlapsRange(disjointSorted: bool, files: seq<File>, lo: Bound, hi: Bound) returns (b: bool)
    requires forall f :: f in files ==> FileOk(f)
    requires disjointSorted ==> SortedLevel(files)
    ensures b <==> exists f :: f in files && Overlaps(f, lo, hi)
  {
    if !disjointSorted {
      for i := 0 to |files|
        invariant forall j :: 0 <= j < i ==> !Overlaps(files[j], lo, hi)
      {
        var f := files[i];
        if AfterFile(lo, f) || BeforeFile(hi, f) {
        } else {
          assert f in files && Overlaps(f, lo, hi);
          return true;
        }
      }
      return false;
    }
    var index := 0;
    if lo.Some? {
      index := FindFile(files, SeekKey(lo.value, MAX_SEQUENCE));
    }
    forall f | f in files && Overlaps(f, lo, hi)
      ensures index < |files| && files[index].smallest.user <= f.smallest.user && Overlaps(files[index], lo, hi)
    {
      var j :| 0 <= j < |files| && files[j] == f;
      assert index <= j;
      if index < j {
        var g := files[index];
        EntriesWithinFile(g);
        assert g.entries[0] in g.entries && Before(g.largest, f.smallest);
      }
    }
    if index >= |files| {
      return false;
    }
    return !BeforeFile(hi, files[index]);
  }

  // ---- GetOverlappingInputs ----

  function Filter(files: seq<File>, lo: Bound, hi: Bound): (r: seq<File>)
    ensures forall f :: f in r <==> f in files && Overlaps(f, lo, hi)
  {
    if files == [] then []
    else
      var last := files[|files| - 1];
      assert files == files[..|files| - 1] + [last];
      var rest := Filter(files[..|files| - 1], lo, hi);
      if Overlaps(last, lo, hi) then rest + [last] else rest
  }

  predicate Within(f: File, lo: Bound, hi: Bound) {
    (lo.Some? ==> lo.value <= f.smallest.user) && (hi.Some? ==> f.largest.user <= hi.value)
  }

  /** No file straddles an end of the range. */
  ghost predicate ClosedRange(files: seq<File>, lo: Bound, hi: Bound) {
    forall f :: f in files && Overlaps(f, lo, hi) ==> Within(f, lo, hi)
  }

  predicate Wider(lo: Bound, hi: Bound, lo': Bound, hi': Bound) {
    && (lo.Some? ==> lo'.Some? && lo.value <= lo'.value)
    && (hi.Some? ==> hi'.Some? && hi'.value <= hi.value)
  }

  ghost predicate Covers(files: seq<File>, user: UserKey) {
    exists f :: f in files && InRange(f, user)
  }

  ghost predicate RangeCovered(files: seq<File>, lo: Bound, hi: Bound) {
    forall user: UserKey :: lo.Some? && hi.Some? && lo.value <= user <= hi.value ==> Covers(files, user)
  }

  /** How many files stick out on the left and on the right; each restart lowers the sum. */
  function SticksOut(files: seq<File>, lo: Bound, hi: Bound): nat {
    if files == [] then 0
    else
      (if lo.Some? && files[0].smallest.user < lo.value then 1 else 0)
      + (if hi.Some? && files[0].largest.user > hi.value then 1 else 0)
      + SticksOut(files[1..], lo, hi)
  }

  lemma {:induction false} RestartProgresses(files: seq<File>, lo: Bound, hi: Bound, lo': Bound, hi': Bound, f: File)
    requires Wider(lo', hi', lo, hi) && (lo.Some? ==> lo'.Some?) && (hi.Some? ==> hi'.Some?)
    ensures SticksOut(files, lo', hi') <= SticksOut(files, lo, hi)
    ensures f in files && lo.Some? && f.smallest.user < lo.value && lo' == Some(f.smallest.user) ==>
      SticksOut(files, lo', hi') < SticksOut(files, lo, hi)
    ensures f in files && hi.Some? && f.largest.user > hi.value && hi' == Some(f.largest.user) ==>
      SticksOut(files, lo', hi') < SticksOut(files, lo, hi)
  {
    if files != [] {
      RestartProgresses(files[1..], lo, hi, lo', hi', f);
    }
  }

  ghost predicate LeastRange(files: seq<File>, level: nat, begin: Bound, end: Bound, lo: Bound, hi: Bound) {
    && (level > 0 ==> lo == begin && hi == end)
    && (begin.Some? <==> lo.Some?) && (end.Some? <==> hi.Some?)
    && Wider(lo, hi, begin, end)
    && (forall l, h :: ClosedRange(files, l, h) && Wider(l, h, begin, end) ==> Wider(l, h, lo, hi))
  }

  /** The files that overlap the range; at level 0 the least closed range around it. */
  ghost predicate AreOverlapping(files: seq<File>, level: nat, begin: Bound, end: Bound, inputs: seq<File>) {
    exists lo, hi :: inputs == Filter(files, lo, hi) && (level == 0 ==> ClosedRange(files, lo, hi)) && LeastRange(files, level, begin, end, lo, hi)
  }

  /** What the search range may become: wider than [begin, end] only at level 0, never wider
      than any range around [begin, end] that no file straddles, and without new gaps. */
  ghost predicate Reached(files: seq<File>, others: seq<File>, level: nat, begin: Bound, end: Bound, lo: Bound, hi: Bound) {
    && LeastRange(files, level, begin, end, lo, hi)
    && (RangeCovered(files + others, begin, end) ==> RangeCovered(files + others, lo, hi))
  }

  /** The files of a level that overlap the range; at level 0 of the least range around
      [begin, end] that no file straddles.  `others` are files of other levels whose ranges
      may help to cover [begin, end]. */
  method GetOverlappingInputs(files: seq<File>, level: nat, begin: Bound, end: Bound, ghost others: seq<File>)
      returns (inputs: seq<File>, ghost lo: Bound, ghost hi: Bound)
    requires forall f :: f in files ==> FileOk(f)
    ensures inputs == Filter(files, lo, hi)
    ensures level == 0 ==> ClosedRange(files, lo, hi)
    ensures Reached(files, others, level, begin, end, lo, hi)
    ensures AreOverlapping(files, level, begin, end, inputs) && (level > 0 ==> inputs == Filter(files, begin, end))
  {
    var userBegin, userEnd := begin, end;
    inputs := [];
    var i := 0;
    while i < |files|
      invariant 0 <= i <= |files|
      invariant inputs == Filter(files[..i], userBegin, userEnd)
      invariant level == 0 ==> ClosedRange(files[..i], userBegin, userEnd)
      invariant Reached(files, others, level, begin, end, userBegin, userEnd)
      decreases SticksOut(files, userBegin, userEnd), |files| - i
    {
      var f := files[i];
      assert files[..i + 1] == files[..i] + [f];
      i := i + 1;
      if userBegin.Some? && f.largest.user < userBegin.value {
      } else if userEnd.Some? && f.smallest.user > userEnd.value {
      } else {
        inputs := inputs + [f];
        if level == 0 {
          EndsInOrder(f);
          if userBegin.Some? && f.smallest.user < userBegin.value {
            Stretch(files, others, begin, end, userBegin, userEnd, Some(f.smallest.user), userEnd, f);
            userBegin := Some(f.smallest.user);
            inputs := [];
            i := 0;
          } else if userEnd.Some? && f.largest.user > userEnd.value {
            Stretch(files, others, begin, end, userBegin, userEnd, userBegin, Some(f.largest.user), f);
            userEnd := Some(f.largest.user);
            inputs := [];
            i := 0;
          }
        }
      }
    }
    assert files[..i] == files;
    lo, hi := userBegin, userEnd;
  }

  lemma EndsInOrder(f: File)
    requires FileOk(f)
    ensures f.smallest.user <= f.largest.user
  {
    assert |f.entries| > 1 ==> Before(f.entries[0].key, f.entries[|f.entries| - 1].key);
  }

  /** A restart: the range grows to one end of a file that overlaps it. */
  lemma Stretch(files: seq<File>, others: seq<File>, begin: Bound, end: Bound, lo: Bound, hi: Bound, lo': Bound, hi': Bound, f: File)
    requires Reached(files, others, 0, begin, end, lo, hi)
    requires f in files && Overlaps(f, lo, hi)
    requires
      || (hi' == hi && lo.Some? && f.smallest.user < lo.value && lo' == Some(f.smallest.user))
      || (lo' == lo && hi.Some? && f.largest.user > hi.value && hi' == Some(f.largest.user))
    ensures Reached(files, others, 0, begin, end, lo', hi')
    ensures SticksOut(files, lo', hi') < SticksOut(files, lo, hi)
  {
    RestartProgresses(files, lo, hi, lo', hi', f);
    StretchCovered(files + others, lo, hi, lo', hi', f);
    forall l, h | ClosedRange(files, l, h) && Wider(l, h, begin, end) ensures Wider(l, h, lo', hi') {
      assert Wider(l, h, lo, hi);
      assert Overlaps(f, l, h);
    }
  }

  /** Stretching a covered range to the end of a file that overlaps it leaves no gap. */
  lemma StretchCovered(files: seq<File>, lo: Bound, hi: Bound, lo': Bound, hi': Bound, f: File)
    requires f in files && Overlaps(f, lo, hi)
    requires lo' == lo || (lo.Some? && lo' == Some(f.smallest.user))
    requires hi' == hi || (hi.Some? && hi' == Some(f.largest.user))
    ensures RangeCovered(files, lo, hi) ==> RangeCovered(files, lo', hi')
  {
    forall user: UserKey | RangeCovered(files, lo, hi) && lo'.Some? && hi'.Some? && lo'.value <= user <= hi'.value
      ensures Covers(files, user)
    {
      if lo.value <= user <= hi.value {
      } else {
        assert InRange(f, user);
      }
    }
  }

  // ---- ranges of input sets ----

  function LoUser(files: seq<File>): (u: UserKey)
    requires files != []
    ensures forall f :: f in files ==> u <= f.smallest.user
    ensures exists f :: f in files && f.smallest.user == u
  {
    if |files| == 1 then files[0].smallest.user
    else
      var rest := LoUser(files[1..]);
      assert files == [files[0]] + files[1..];
      if files[0].smallest.user < rest then files[0].smallest.user else rest
  }

  function HiUser(files: seq<File>): (u: UserKey)
    requires files != []
    ensures forall f :: f in files ==> f.largest.user <= u
    ensures exists f :: f in files && f.largest.user == u
  {
    if |files| == 1 then files[0].largest.user
    else
      var rest := HiUser(files[1..]);
      assert files == [files[0]] + files[1..];
      if files[0].largest.user > rest then files[0].largest.user else rest
  }

  /** The files that reach furthest to the left and to the right. */
  lemma EndFiles(files: seq<File>) returns (first: File, last: File)
    requires files != []
    ensures first in files && first.smallest.user == LoUser(files)
    ensures last in files && last.largest.user == HiUser(files)
    ensures forall f :: f in files ==> first.smallest.user <= f.smallest.user && f.largest.user <= last.largest.user
  {
    var lo, hi := LoUser(files), HiUser(files);
    assert exists f :: f in files && f.smallest.user == lo;
    first :| first in files && first.smallest.user == lo;
    assert exists f :: f in files && f.largest.user == hi;
    last :| last in files && last.largest.user == hi;
  }

  method GetRange(inputs: seq<File>) returns (smallest: InternalKey, largest: InternalKey)
    requires inputs != []
    ensures (exists f :: f in inputs && f.smallest == smallest) && forall f :: f in inputs ==> !Before(f.smallest, smallest)
    ensures (exists f :: f in inputs && f.largest == largest) && forall f :: f in inputs ==> !Before(largest, f.largest)
    ensures smallest.user == LoUser(inputs) && largest.user == HiUser(inputs)
  {
    smallest, largest := inputs[0].smallest, inputs[0].largest;
    for i := 1 to |inputs|
      invariant exists f :: f in inputs && f.smallest == smallest
      invariant exists f :: f in inputs && f.largest == largest
      invariant forall j :: 0 <= j < i ==> !Before(inputs[j].smallest, smallest)
      invariant forall j :: 0 <= j < i ==> !Before(largest, inputs[j].largest)
    {
      if Before(inputs[i].smallest, smallest) {
        smallest := inputs[i].smallest;
      }
      if Before(largest, inputs[i].largest) {
        largest := inputs[i].largest;
      }
    }
  }

  /** Between any two user keys the files reach, every user key lies in some file's range. */
  ghost predicate GapFree(files: seq<File>) {
    forall user: UserKey, f, g :: f in files && g in files && f.smallest.user <= user <= g.largest.user ==> Covers(files, user)
  }

  lemma GapFreeExtend(base: seq<File>, more: seq<File>)
    requires base != [] && GapFree(base)
    requires forall f :: f in more ==> Overlaps(f, Some(LoUser(base)), Some(HiUser(base)))
    ensures GapFree(base + more)
  {
    var all := base + more;
    var x, y := EndFiles(base);
    forall user: UserKey, f, g | f in all && g in all && f.smallest.user <= user <= g.largest.user
      ensures Covers(all, user)
    {
      if user < x.smallest.user {
        assert InRange(f, user);
      } else if user > y.largest.user {
        assert InRange(g, user);
      } else {
        assert Covers(base, user);
        var h :| h in base && InRange(h, user);
        assert h in all;
      }
    }
  }

  lemma GapFreeSameFiles(a: seq<File>, b: seq<File>)
    requires GapFree(a) && forall f :: f in a <==> f in b
    ensures GapFree(b)
  {
    forall user: UserKey, f, g | f in b && g in b && f.smallest.user <= user <= g.largest.user ensures Covers(b, user) {
      assert f in a && g in a && Covers(a, user);
      var h :| h in a && InRange(h, user);
      assert h in b;
    }
  }

  // ---- choosing compaction inputs ----

  ghost predicate VersionShape(v: Version) {
    && |v| == NUM_LEVELS && FilesOk(v)
    && forall l :: 1 <= l < NUM_LEVELS ==> SortedLevel(v[l])
  }

  /** At level 0 the inputs share no user key range with the files left behind. */
  ghost predicate LevelZeroClosed(v: Version, level: nat, in0: seq<File>)
    requires level < |v| && in0 != []
  {
    level == 0 ==> forall g :: g in v[0] && g !in in0 ==> !Overlaps(g, Some(LoUser(in0)), Some(HiUser(in0)))
  }

  function NextLevelInputs(v: Version, level: nat, in0: seq<File>): seq<File>
    requires level + 1 < |v| && in0 != []
  {
    Filter(v[level + 1], Some(LoUser(in0)), Some(HiUser(in0)))
  }

  /** Every compaction's inputs: files of `level`, closed at level 0, and exactly the files of
      the next level that overlap them. */
  ghost predicate InputsOk(v: Version, level: nat, in0: seq<File>, in1: seq<File>) {
    && level + 1 < |v|
    && in0 != [] && (forall f :: f in in0 ==> f in v[level])
    && LevelZeroClosed(v, level, in0)
    && in1 == NextLevelInputs(v, level, in0)
  }

  lemma {:induction false} FilterGrows(files: seq<File>, lo: Bound, hi: Bound, lo': Bound, hi': Bound)
    requires Wider(lo', hi', lo, hi)
    ensures |Filter(files, lo, hi)| <= |Filter(files, lo', hi')|
    ensures |Filter(files, lo, hi)| == |Filter(files, lo', hi')| ==> Filter(files, lo, hi) == Filter(files, lo', hi')
  {
    if files != [] {
      FilterGrows(files[..|files| - 1], lo, hi, lo', hi');
    }
  }

  lemma RangeGrows(a: seq<File>, b: seq<File>)
    requires a != [] && forall f :: f in a ==> f in b
    ensures b != [] && LoUser(b) <= LoUser(a) && HiUser(a) <= HiUser(b)
  {
    var x, y := EndFiles(a);
  }

  lemma ClosedFilter(v: Version, in0: seq<File>, lo: Bound, hi: Bound)
    requires |v| > 0 && ClosedRange(v[0], lo, hi) && in0 == Filter(v[0], lo, hi) && in0 != []
    ensures LevelZeroClosed(v, 0, in0)
  {
    assert lo.Some? ==> lo.value <= LoUser(in0);
    assert hi.Some? ==> HiUser(in0) <= hi.value;
  }

  /** A level-0 input set found inside a covered range has no gap. */
  lemma CoveredFilterGapFree(files: seq<File>, others: seq<File>, lo: UserKey, hi: UserKey)
    requires ClosedRange(files, Some(lo), Some(hi)) && RangeCovered(files + others, Some(lo), Some(hi))
    requires forall f :: f in others ==> Within(f, Some(lo), Some(hi))
    ensures GapFree(Filter(files, Some(lo), Some(hi)) + others)
  {
    var all := Filter(files, Some(lo), Some(hi)) + others;
    forall user: UserKey, f, g | f in all && g in all && f.smallest.user <= user <= g.largest.user ensures Covers(all, user) {
      assert Covers(files + others, user);
      var h :| h in files + others && InRange(h, user);
      assert h in all;
    }
  }

  lemma NextLevelGapFree(v: Version, level: nat, in0: seq<File>)
    requires level + 1 < |v| && in0 != [] && GapFree(in0)
    ensures GapFree(in0 + NextLevelInputs(v, level, in0))
  {
    GapFreeExtend(in0, NextLevelInputs(v, level, in0));
  }

  datatype Picked = Picked(level: nat, in0: seq<File>, in1: seq<File>, grandparents: seq<File>, pointer: InternalKey)

  /** More files of `level` can be taken without taking more of the next level, and the whole stays
      small enough. */
  predicate CanExpand(v: Version, level: nat, in0: seq<File>, in1: seq<File>, all: seq<File>, limit: nat)
    requires level + 1 < |v|
  {
    && in1 != [] && |all| > |in0| && TotalSize(in1) + TotalSize(all) < limit
    && |NextLevelInputs(v, level, all)| == |in1|
  }

  /** The part of SetupOtherInputs that takes more files of `level`: all that overlap the range of
      the inputs, if they can be taken. */
  method Expand(v: Version, level: nat, in0: seq<File>, in1: seq<File>, limit: nat) returns (r: seq<File>, ghost all: seq<File>)
    requires VersionShape(v) && InputsOk(v, level, in0, in1)
    ensures in1 != [] ==> AreOverlapping(v[level], level, Some(LoUser(in0 + in1)), Some(HiUser(in0 + in1)), all)
    ensures r == if CanExpand(v, level, in0, in1, all, limit) then all else in0
    ensures InputsOk(v, level, r, in1)
    ensures forall f :: f in in0 ==> f in r
    ensures GapFree(in0 + in1) ==> GapFree(r + in1)
  {
    hide Reached, LeastRange, AreOverlapping, GapFree, LevelZeroClosed, TotalSize, FileOk, ClosedRange;
    r, all := in0, [];
    if in1 == [] {
      return;
    }
    var allStart, allLimit := GetRange(in0 + in1);
    ghost var lo, hi;
    var expanded0;
    expanded0, lo, hi := GetOverlappingInputs(v[level], level, Some(allStart.user), Some(allLimit.user), in1);
    all := expanded0;
    ExpandOk(v, level, in0, in1, expanded0, lo, hi);
    if |expanded0| > |in0| && TotalSize(in1) + TotalSize(expanded0) < limit {
      var newStart, newLimit := GetRange(expanded0);
      ghost var lo1, hi1;
      var expanded1;
      expanded1, lo1, hi1 := GetOverlappingInputs(v[level + 1], level + 1, Some(newStart.user), Some(newLimit.user), []);
      if |expanded1| == |in1| {
        r := expanded0;
      }
    }
  }

  lemma ExpandOk(v: Version, level: nat, in0: seq<File>, in1: seq<File>, expanded: seq<File>, lo: Bound, hi: Bound)
    requires VersionShape(v) && InputsOk(v, level, in0, in1)
    requires Reached(v[level], in1, level, Some(LoUser(in0 + in1)), Some(HiUser(in0 + in1)), lo, hi)
    requires expanded == Filter(v[level], lo, hi) && (level == 0 ==> ClosedRange(v[0], lo, hi))
    ensures expanded != [] && forall f :: f in in0 ==> f in expanded
    ensures GapFree(in0 + in1) ==> GapFree(expanded + in1)
    ensures |NextLevelInputs(v, level, expanded)| == |in1| ==> InputsOk(v, level, expanded, in1)
  {
    hide GapFree, FileOk;
    InputsStayIn(v, level, in0, in1, expanded, lo, hi);
    NextLevelUnchanged(v, level, in0, in1, expanded);
    ExpandedInputsOk(v, level, in0, in1, expanded, lo.value, hi.value);
  }

  lemma InputsStayIn(v: Version, level: nat, in0: seq<File>, in1: seq<File>, expanded: seq<File>, lo: Bound, hi: Bound)
    requires VersionShape(v) && InputsOk(v, level, in0, in1)
    requires Wider(lo, hi, Some(LoUser(in0 + in1)), Some(HiUser(in0 + in1)))
    requires expanded == Filter(v[level], lo, hi)
    ensures forall f :: f in in0 ==> f in expanded
  {
    forall f | f in in0 ensures f in expanded {
      EndsInOrder(f);
      assert f in in0 + in1;
    }
  }

  /** The next level's files of a larger input set, when there are equally many, are the same. */
  lemma NextLevelUnchanged(v: Version, level: nat, in0: seq<File>, in1: seq<File>, expanded: seq<File>)
    requires InputsOk(v, level, in0, in1)
    requires forall f :: f in in0 ==> f in expanded
    ensures expanded != []
    ensures |NextLevelInputs(v, level, expanded)| == |in1| ==> NextLevelInputs(v, level, expanded) == in1
  {
    RangeGrows(in0, expanded);
    FilterGrows(v[level + 1], Some(LoUser(in0)), Some(HiUser(in0)), Some(LoUser(expanded)), Some(HiUser(expanded)));
  }

  lemma ExpandedInputsOk(v: Version, level: nat, in0: seq<File>, in1: seq<File>, expanded: seq<File>, lo: UserKey, hi: UserKey)
    requires VersionShape(v) && InputsOk(v, level, in0, in1)
    requires Reached(v[level], in1, level, Some(LoUser(in0 + in1)), Some(HiUser(in0 + in1)), Some(lo), Some(hi))
    requires expanded == Filter(v[level], Some(lo), Some(hi))
    requires level == 0 ==> ClosedRange(v[0], Some(lo), Some(hi))
    requires forall f :: f in in0 ==> f in expanded
    ensures LevelZeroClosed(v, level, expanded)
    ensures GapFree(in0 + in1) ==> GapFree(expanded + in1)
  {
    var all := in0 + in1;
    if level == 0 {
      ClosedFilter(v, expanded, Some(lo), Some(hi));
    }
    if GapFree(all) {
      if level == 0 {
        GapFreeCovers(all, v[0] + in1);
        assert forall f :: f in in1 ==> f in all;
        CoveredFilterGapFree(v[0], in1, lo, hi);
      } else {
        GapFreeExtend(all, expanded);
        GapFreeSameFiles(all + expanded, expanded + in1);
      }
    }
  }

  lemma GapFreeCovers(files: seq<File>, more: seq<File>)
    requires files != [] && GapFree(files) && forall f :: f in files ==> f in more
    ensures RangeCovered(more, Some(LoUser(files)), Some(HiUser(files)))
  {
    var x, y := EndFiles(files);
    forall user: UserKey | x.smallest.user <= user <= y.largest.user ensures Covers(more, user) {
      assert Covers(files, user);
      var h :| h in files && InRange(h, user);
      assert h in more;
    }
  }

  method SetupOtherInputs(v: Version, level: nat, inputs0: seq<File>, limit: nat) returns (p: Picked)
    requires VersionShape(v) && level + 1 < NUM_LEVELS
    requires inputs0 != [] && (forall f :: f in inputs0 ==> f in v[level]) && LevelZeroClosed(v, level, inputs0)
    ensures p.level == level && InputsOk(v, level, p.in0, p.in1)
    ensures forall f :: f in inputs0 ==> f in p.in0
    ensures p.in1 == NextLevelInputs(v, level, inputs0)
    ensures p.in0 == inputs0 ||
      (AreOverlapping(v[level], level, Some(LoUser(inputs0 + p.in1)), Some(HiUser(inputs0 + p.in1)), p.in0) && CanExpand(v, level, inputs0, p.in1, p.in0, limit))
    ensures GapFree(inputs0) ==> GapFree(p.in0 + p.in1)
    ensures p.grandparents == if level + 2 < NUM_LEVELS
      then Filter(v[level + 2], Some(LoUser(p.in0 + p.in1)), Some(HiUser(p.in0 + p.in1))) else []
    ensures (exists f :: f in p.in0 && f.largest == p.pointer) && forall f :: f in p.in0 ==> !Before(p.pointer, f.largest)
  {
    hide LeastRange, GapFree, FileOk, TotalSize, AreOverlapping, Reached;
    var smallest, largest := GetRange(inputs0);
    ghost var lo, hi;
    var inputs1;
    inputs1, lo, hi := GetOverlappingInputs(v[level + 1], level + 1, Some(smallest.user), Some(largest.user), []);
    if GapFree(inputs0) {
      NextLevelGapFree(v, level, inputs0);
    }
    var in0, all := Expand(v, level, inputs0, inputs1, limit);
    smallest, largest := GetRange(in0);
    var allStart, allLimit := GetRange(in0 + inputs1);
    var grandparents: seq<File> := [];
    if level + 2 < NUM_LEVELS {
      grandparents, lo, hi := GetOverlappingInputs(v[level + 2], level + 2, Some(allStart.user), Some(allLimit.user), []);
    }
    p := Picked(level, in0, inputs1, grandparents, largest);
  }

  /** The size-triggered choice: the first file past the level's compaction pointer, wrapping
      around to the first file. */
  method FileAfterPointer(files: seq<File>, pointer: Option<InternalKey>) returns (f: File)
    requires files != []
    ensures f in files
    ensures pointer.None? ==> f == files[0]
    ensures pointer.Some? && (exists g :: g in files && Before(pointer.value, g.largest)) ==>
      Before(pointer.value, f.largest) && exists i :: 0 <= i < |files| && files[i] == f && forall j :: 0 <= j < i ==> !Before(pointer.value, files[j].largest)
    ensures pointer.Some? && (forall g :: g in files ==> !Before(pointer.value, g.largest)) ==> f == files[0]
  {
    for i := 0 to |files|
      invariant i > 0 ==> pointer.Some?
      invariant forall j :: 0 <= j < i ==> !Before(pointer.value, files[j].largest)
    {
      if pointer.None? || Before(pointer.value, files[i].largest) {
        return files[i];
      }
    }
    return files[0];
  }

  /** PickCompaction once the level and the first file are chosen. */
  method PickCompaction(v: Version, level: nat, first: File, limit: nat) returns (p: Picked)
    requires VersionShape(v) && level + 1 < NUM_LEVELS && first in v[level]
    ensures p.level == level && InputsOk(v, level, p.in0, p.in1)
    ensures first in p.in0 && (level > 0 ==> p.in0 == [first] || CanExpand(v, level, [first], p.in1, p.in0, limit))
    ensures GapFree(p.in0 + p.in1)
  {
    var inputs0 := [first];
    EndsInOrder(first);
    if level == 0 {
      var smallest, largest := GetRange(inputs0);
      ghost var lo, hi;
      assert InRange(first, smallest.user) && first in v[0] + [];
      assert RangeCovered(v[0] + [], Some(smallest.user), Some(largest.user)) by {
        forall user: UserKey | smallest.user <= user <= largest.user ensures Covers(v[0] + [], user) {
          assert InRange(first, user);
        }
      }
      inputs0, lo, hi := GetOverlappingInputs(v[0], 0, Some(smallest.user), Some(largest.user), []);
      CoveredFilterGapFree(v[0], [], lo.value, hi.value);
      assert inputs0 + [] == inputs0;
      ClosedFilter(v, inputs0, lo, hi);
    } else {
      assert GapFree(inputs0) by {
        forall user: UserKey, f, g | f in inputs0 && g in inputs0 && f.smallest.user <= user <= g.largest.user
          ensures Covers(inputs0, user)
        {
          assert InRange(first, user);
        }
      }
    }
    p := SetupOtherInputs(v, level, inputs0, limit);
  }

  /** The shortest part at the front that is big enough, or everything. */
  ghost predicate IsCut(all: seq<File>, sizeLimit: nat, inputs: seq<File>) {
    && inputs != [] && inputs <= all
    && (|inputs| < |all| ==> TotalSize(inputs) >= sizeLimit)
    && (|inputs| > 1 ==> TotalSize(inputs[..|inputs| - 1]) < sizeLimit)
  }

  /** A manual compaction: cut short at levels above 0 once the inputs are big enough.  `chosen` are
      the files of the level it starts from. */
  method CompactRange(v: Version, level: nat, begin: Bound, end: Bound, sizeLimit: nat, limit: nat)
    returns (p: Option<Picked>, ghost chosen: seq<File>)
    requires VersionShape(v) && level + 1 < NUM_LEVELS
    ensures p.Some? ==> p.value.level == level && InputsOk(v, level, p.value.in0, p.value.in1)
    ensures p.Some? && level == 0 ==> AreOverlapping(v[0], 0, begin, end, chosen)
    ensures p.Some? && level > 0 ==> IsCut(Filter(v[level], begin, end), sizeLimit, chosen)
    ensures p.Some? ==> chosen != [] && p.value.in1 == NextLevelInputs(v, level, chosen) && forall f :: f in chosen ==> f in p.value.in0
    ensures p.Some? ==> p.value.in0 == chosen || CanExpand(v, level, chosen, p.value.in1, p.value.in0, limit)
    ensures p.None? ==> forall f :: f in v[level] ==> !Overlaps(f, begin, end)
  {
    var inputs;
    ghost var lo, hi;
    inputs, lo, hi := GetOverlappingInputs(v[level], level, begin, end, []);
    if inputs == [] {
      assert forall f :: f in v[level] ==> f !in Filter(v[level], lo, hi);
      return None, [];
    }
    if level > 0 {
      inputs := CutShort(inputs, sizeLimit);
    } else {
      ClosedFilter(v, inputs, lo, hi);
    }
    var r := SetupOtherInputs(v, level, inputs, limit);
    return Some(r), inputs;
  }

  method CutShort(all: seq<File>, sizeLimit: nat) returns (inputs: seq<File>)
    requires all != []
    ensures IsCut(all, sizeLimit, inputs)
  {
    inputs := all;
    var total := 0;
    for i := 0 to |inputs|
      invariant inputs == all && total == TotalSize(all[..i]) && (i > 0 ==> total < sizeLimit)
    {
      assert all[..i + 1][..i] == all[..i];
      total := total + inputs[i].size;
      if total >= sizeLimit {
        inputs := inputs[..i + 1];
        assert inputs[..i] == all[..i];
        return;
      }
    }
    assert all[..|all|] == all;
    CutBefore(all);
  }

  lemma CutBefore(all: seq<File>)
    requires all != []
    ensures TotalSize(all[..|all| - 1]) <= TotalSize(all)
  {
  }

  // ---- where a flushed memtable goes ----

  ghost predicate OverlapInLevel(v: Version, level: nat, lo: UserKey, hi: UserKey) {
    level < |v| && exists f :: f in v[level] && Overlaps(f, Some(lo), Some(hi))
  }

  method PickLevelForMemTableOutput(v: Version, lo: UserKey, hi: UserKey, maxGrandparentOverlap: nat) returns (level: nat)
    requires VersionShape(v)
    ensures level <= MAX_MEM_COMPACT_LEVEL
    ensures level > 0 ==> forall l :: 0 <= l <= level ==> !OverlapInLevel(v, l, lo, hi)
    ensures level < MAX_MEM_COMPACT_LEVEL ==>
      || (level == 0 && OverlapInLevel(v, 0, lo, hi))
      || OverlapInLevel(v, level + 1, lo, hi)
      || TotalSize(Filter(v[level + 2], Some(lo), Some(hi))) > maxGrandparentOverlap
  {
    level := 0;
    var overlap := SomeFileOverlapsRange(false, v[0], Some(lo), Some(hi));
    if !overlap {
      while level < MAX_MEM_COMPACT_LEVEL
        invariant level <= MAX_MEM_COMPACT_LEVEL
        invariant forall l :: 0 <= l <= level ==> !OverlapInLevel(v, l, lo, hi)
      {
        overlap := SomeFileOverlapsRange(true, v[level + 1], Some(lo), Some(hi));
        if overlap {
          break;
        }
        ghost var b, e;
        var overlaps;
        overlaps, b, e := GetOverlappingInputs(v[level + 2], level + 2, Some(lo), Some(hi), []);
        if TotalSize(overlaps) > maxGrandparentOverlap {
          break;
        }
        level := level + 1;
      }
    }
  }
}
