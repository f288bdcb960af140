/** The Compaction object with its advancing pointers, and the loop of DoCompactionWork. */
module CompactionWork {
  import opened Keys
  import opened Versions
  import opened Compactions

  class Compaction {
    const level: nat
    const version: Version            // input_version_
    const grandparents: seq<File>
    const maxOutputFileSize: nat
    const maxGrandparentOverlap: nat

    var grandparentIndex: nat
    var seenKey: bool
    var overlappedBytes: nat
    const levelPtrs: array<nat>

    /** The largest user key asked about so far; keys are asked about in increasing order. */
    ghost var lastUser: Option<UserKey>

    ghost predicate Valid()
      reads this, levelPtrs
    {
      && level + 1 < NUM_LEVELS
      && |version| == NUM_LEVELS
      && FilesOk(version)
      && (forall l :: 1 <= l < NUM_LEVELS ==> SortedLevel(version[l]))
      && levelPtrs.Length == NUM_LEVELS
      && (forall l :: level + 2 <= l < NUM_LEVELS ==> PassedOnly(version[l], levelPtrs[l], lastUser))
      && grandparentIndex <= |grandparents|
    }

    constructor (level: nat, version: Version, grandparents: seq<File>, maxOutputFileSize: nat, maxGrandparentOverlap: nat)
      requires level + 1 < NUM_LEVELS && |version| == NUM_LEVELS && FilesOk(version)
      requires forall l :: 1 <= l < NUM_LEVELS ==> SortedLevel(version[l])
      ensures Valid() && lastUser == None && fresh(levelPtrs)
      ensures this.level == level && this.version == version && this.grandparents == grandparents
      ensures this.maxOutputFileSize == maxOutputFileSize && this.maxGrandparentOverlap == maxGrandparentOverlap
      ensures grandparentIndex == 0 && !seenKey && overlappedBytes == 0
    {
      this.level, this.version, this.grandparents := level, version, grandparents;
      this.maxOutputFileSize, this.maxGrandparentOverlap := maxOutputFileSize, maxGrandparentOverlap;
      grandparentIndex, seenKey, overlappedBytes := 0, false, 0;
      levelPtrs := new nat[NUM_LEVELS](_ => 0);
      lastUser := None;
    }

    /** Amortised form of IsBaseLevel: the pointers only ever move forward. */
    method IsBaseLevelForKey(user: UserKey) returns (base: bool)
      requires Valid() && (lastUser.Some? ==> lastUser.value <= user)
      modifies `lastUser, levelPtrs
      ensures Valid() && lastUser == Some(user)
      ensures base == IsBaseLevel(version, level, user)
    {
      lastUser := Some(user);
      for l := level + 2 to NUM_LEVELS
        invariant Valid() && lastUser == Some(user)
        invariant forall m, f :: level + 2 <= m < l && f in version[m] ==> !InRange(f, user)
      {
        var files := version[l];
        while levelPtrs[l] < |files|
          invariant Valid() && lastUser == Some(user)
          decreases |files| - levelPtrs[l]
        {
          var f := files[levelPtrs[l]];
          if user <= f.largest.user {
            if user >= f.smallest.user {
              assert f in version[l] && InRange(f, user);
              return false;
            }
            break;
          }
          levelPtrs[l] := levelPtrs[l] + 1;
        }
        NotInLevel(files, levelPtrs[l], user);
      }
      return true;
    }

    /** Scans the grandparents up to the key; true when the current output already spans too
        many of their bytes. */
    method ShouldStopBefore(key: InternalKey) returns (stop: bool)
      requires Valid()
      modifies `grandparentIndex, `seenKey, `overlappedBytes
      ensures Valid() && seenKey
      ensures old(grandparentIndex) <= grandparentIndex
      ensures forall i :: old(grandparentIndex) <= i < grandparentIndex ==> Before(grandparents[i].largest, key)
      ensures grandparentIndex < |grandparents| ==> !Before(grandparents[grandparentIndex].largest, key)
      ensures
        var spanned := old(overlappedBytes) +
          if old(seenKey) then TotalSize(grandparents[old(grandparentIndex)..grandparentIndex]) else 0;
        && stop == (spanned > maxGrandparentOverlap)
        && overlappedBytes == if stop then 0 else spanned
    {
      ghost var start := grandparentIndex;
      while grandparentIndex < |grandparents| && Before(grandparents[grandparentIndex].largest, key)
        invariant Valid() && start <= grandparentIndex
        invariant forall i :: start <= i < grandparentIndex ==> Before(grandparents[i].largest, key)
        invariant overlappedBytes == old(overlappedBytes) +
          if seenKey then TotalSize(grandparents[start..grandparentIndex]) else 0
        invariant seenKey == old(seenKey)
        decreases |grandparents| - grandparentIndex
      {
        if seenKey {
          overlappedBytes := overlappedBytes + grandparents[grandparentIndex].size;
        }
        assert grandparents[start..grandparentIndex + 1] ==
          grandparents[start..grandparentIndex] + [grandparents[grandparentIndex]];
        grandparentIndex := grandparentIndex + 1;
      }
      seenKey := true;
      if overlappedBytes > maxGrandparentOverlap {
        overlappedBytes := 0;
        return true;
      } else {
        return false;
      }
    }
  }

  function TotalSize(files: seq<File>): nat {
    if files == [] then 0 else TotalSize(files[..|files| - 1]) + files[|files| - 1].size
  }

  ghost predicate PassedOnly(files: seq<File>, ptr: nat, lastUser: Option<UserKey>) {
    && ptr <= |files|
    && forall i :: 0 <= i < ptr ==> lastUser.Some? && files[i].largest.user < lastUser.value
  }

  lemma NotInLevel(files: seq<File>, ptr: nat, user: UserKey)
    requires forall f :: f in files ==> FileOk(f)
    requires SortedLevel(files)
    requires PassedOnly(files, ptr, Some(user))
    requires ptr < |files| ==> user < files[ptr].smallest.user
    ensures forall f :: f in files ==> !InRange(f, user)
  {
    forall f | f in files ensures !InRange(f, user) {
      var i :| 0 <= i < |files| && files[i] == f;
      if ptr < i {
        EntriesWithinFile(files[ptr]);
        assert files[ptr].entries[0] in files[ptr].entries;
        assert Before(files[ptr].largest, f.smallest);
      }
    }
  }

  // ---- the outputs ----

  function Flat(files: seq<File>): seq<Entry> {
    if files == [] then [] else Flat(files[..|files| - 1]) + files[|files| - 1].entries
  }

  lemma {:induction false} InFlat(files: seq<File>, f: File, e: Entry)
    requires f in files && e in f.entries
    ensures e in Flat(files)
  {
    var last := |files| - 1;
    if f != files[last] {
      assert f in files[..last];
      InFlat(files[..last], f, e);
    }
  }

  lemma {:induction false} FlatIsLevelEntries(files: seq<File>)
    ensures ToSet(Flat(files)) == LevelEntries(files)
  {
    if files != [] {
      var last := |files| - 1;
      FlatIsLevelEntries(files[..last]);
      assert files == files[..last] + [files[last]];
      assert LevelEntries(files) == LevelEntries(files[..last]) + FileEntries(files[last]);
    }
  }

  ghost predicate OutputsOk(files: seq<File>, number: nat -> nat) {
    && (forall f :: f in files ==> FileOk(f))
    && SortedLevel(files)
    && forall i :: 0 <= i < |files| ==> files[i].number == number(i)
  }

  function NewFile(number: nat, size: nat, entries: seq<Entry>): (f: File)
    requires entries != []
    ensures SortedEntries(entries) ==> FileOk(f)
  {
    File(number, size, entries[0].key, entries[|entries| - 1].key, entries)
  }

  /** Everything added so far: finished outputs, then the table being built. */
  function Written(files: seq<File>, builder: seq<Entry>): seq<Entry> {
    Flat(files) + builder
  }

  /** FinishCompactionOutputFile */
  method Finish(files: seq<File>, builder: seq<Entry>, sizeOf: seq<Entry> -> nat, number: nat -> nat) returns (r: seq<File>)
    requires builder != [] && SortedEntries(Written(files, builder)) && OutputsOk(files, number)
    ensures OutputsOk(r, number) && Written(r, []) == Written(files, builder)
    ensures |r| == |files| + 1 && files <= r && r[|files|].entries == builder
  {
    var f := NewFile(number(|files|), sizeOf(builder), builder);
    r := files + [f];
    assert r[..|files|] == files;
    assert Flat(r) == Flat(files) + builder;
    FinishedFileFits(files, builder, f);
  }

  lemma FinishedFileFits(files: seq<File>, builder: seq<Entry>, f: File)
    requires builder != [] && SortedEntries(Written(files, builder))
    requires forall g :: g in files ==> FileOk(g)
    requires SortedLevel(files)
    requires f.entries == builder && f.smallest == builder[0].key && f.largest == builder[|builder| - 1].key
    ensures FileOk(f) && SortedLevel(files + [f])
  {
    var all := Written(files, builder);
    forall i, j | 0 <= i < j < |builder| ensures Before(builder[i].key, builder[j].key) {
      assert all[|Flat(files)| + i] == builder[i] && all[|Flat(files)| + j] == builder[j];
    }
    forall g | g in files ensures Before(g.largest, f.smallest) {
      var last := g.entries[|g.entries| - 1];
      InFlat(files, g, last);
      var k :| 0 <= k < |Flat(files)| && Flat(files)[k] == last;
      assert all[k] == last && all[|Flat(files)|] == builder[0];
    }
  }

  /** The drop decision of one iteration, and the scan state it leaves. */
  method Decide(c: Compaction, scan: Scan, key: InternalKey, smallest: SequenceNumber, ghost e: Entry) returns (drop: bool, next: Scan)
    requires c.Valid() && (c.lastUser.Some? ==> c.lastUser.value <= key.user)
    requires e.key == key
    modifies c`lastUser, c.levelPtrs
    ensures c.Valid() && (c.lastUser.Some? ==> c.lastUser.value <= key.user)
    ensures drop == (LastFor(scan, key.user) <= smallest || Obsolete(e, c.version, c.level, smallest))
    ensures next == Scan(Some(key.user), key.seqno)
  {
    var current := scan;
    if current.user != Some(key.user) {
      current := Scan(Some(key.user), MAX_SEQUENCE);
    }
    drop := false;
    if current.lastSeqno <= smallest {
      drop := true;
    } else if key.kind.Deletion? && key.seqno <= smallest {
      drop := c.IsBaseLevelForKey(key.user);
    }
    next := Scan(current.user, key.seqno);
  }

  lemma PrefixSorted(prefix: seq<Entry>, rest: seq<Entry>)
    requires SortedEntries(prefix + rest)
    ensures SortedEntries(prefix)
  {
    forall i, j | 0 <= i < j < |prefix| ensures Before(prefix[i].key, prefix[j].key) {
      assert (prefix + rest)[i] == prefix[i] && (prefix + rest)[j] == prefix[j];
    }
  }

  // ---- the size of the outputs ----

  /** The first `i` grandparents end before the key, and the next does not. */
  ghost predicate PassedBy(gs: seq<File>, key: InternalKey, i: nat) {
    && i <= |gs|
    && (forall j :: 0 <= j < i ==> Before(gs[j].largest, key))
    && (i < |gs| ==> !Before(gs[i].largest, key))
  }

  /** From one key to the other, grandparents of no more than `limit` bytes are passed, counted from
      `cut` on. */
  ghost predicate SpansFrom(gs: seq<File>, first: InternalKey, last: InternalKey, cut: nat, upTo: nat, limit: nat) {
    exists a: nat, b: nat :: cut <= a <= b <= upTo <= |gs| && PassedBy(gs, first, a) && PassedBy(gs, last, b) && TotalSize(gs[cut..b]) <= limit
  }

  ghost predicate SpansAtMost(gs: seq<File>, first: InternalKey, last: InternalKey, limit: nat) {
    exists a: nat, b: nat :: a <= b <= |gs| && PassedBy(gs, first, a) && PassedBy(gs, last, b) && TotalSize(gs[a..b]) <= limit
  }

  /** With fewer than `n` of these entries a table is not big enough yet. */
  ghost predicate TooSmall(es: seq<Entry>, n: nat, sizeOf: seq<Entry> -> nat, maxSize: nat) {
    forall k :: 0 < k < n && k <= |es| ==> sizeOf(es[..k]) < maxSize
  }

  /** An output ends with the entry that makes it big enough, or before, and overlaps only so much of
      the grandparents. */
  ghost predicate Limited(f: File, c: Compaction, sizeOf: seq<Entry> -> nat) {
    && f.entries != [] && TooSmall(f.entries, |f.entries|, sizeOf, c.maxOutputFileSize)
    && SpansAtMost(c.grandparents, f.entries[0].key, f.entries[|f.entries| - 1].key, c.maxGrandparentOverlap)
  }

  ghost predicate AllLimited(files: seq<File>, c: Compaction, sizeOf: seq<Entry> -> nat) {
    forall f :: f in files ==> Limited(f, c, sizeOf)
  }

  /** `last` is the key asked about last; the bytes counted are those of the grandparents from `cut` on. */
  ghost predicate Counts(c: Compaction, last: Option<InternalKey>, cut: nat)
    reads c`grandparentIndex, c`seenKey, c`overlappedBytes
  {
    && (c.seenKey <==> last.Some?)
    && c.grandparentIndex <= |c.grandparents| && cut <= c.grandparentIndex
    && (if last.Some? then PassedBy(c.grandparents, last.value, c.grandparentIndex) else c.grandparentIndex == 0)
    && c.overlappedBytes == TotalSize(c.grandparents[cut..c.grandparentIndex]) <= c.maxGrandparentOverlap
  }

  /** The table being built lies behind the cut and is within the limits. */
  ghost predicate BuilderOk(c: Compaction, builder: seq<Entry>, cut: nat, upTo: nat, sizeOf: seq<Entry> -> nat) {
    && TooSmall(builder, |builder| + 1, sizeOf, c.maxOutputFileSize)
    && (builder != [] ==>
          SpansFrom(c.grandparents, builder[0].key, builder[|builder| - 1].key, cut, upTo, c.maxGrandparentOverlap))
  }

  lemma {:induction false} TotalSizeSplits(gs: seq<File>, a: nat, b: nat, c: nat)
    requires a <= b <= c <= |gs|
    ensures TotalSize(gs[a..c]) == TotalSize(gs[a..b]) + TotalSize(gs[b..c])
    decreases c
  {
    if b < c {
      TotalSizeSplits(gs, a, b, c - 1);
      assert gs[a..c][..c - 1 - a] == gs[a..c - 1] && gs[b..c][..c - 1 - b] == gs[b..c - 1];
    } else {
      assert gs[b..c] == [];
    }
  }

  /** Asking about a later key goes on counting, or cuts and begins again. */
  method CheckStop(c: Compaction, key: InternalKey, ghost last: Option<InternalKey>, ghost cut: nat) returns (stop: bool, ghost cut': nat)
    requires c.Valid() && Counts(c, last, cut) && (last.Some? ==> Before(last.value, key))
    modifies c`grandparentIndex, c`seenKey, c`overlappedBytes
    ensures c.Valid() && Counts(c, Some(key), cut')
    ensures !stop && last.Some? ==> cut' == cut
    ensures c.grandparentIndex >= old(c.grandparentIndex)
  {
    ghost var start := c.grandparentIndex;
    stop := c.ShouldStopBefore(key);
    TotalSizeSplits(c.grandparents, cut, start, c.grandparentIndex);
    cut' := if stop || last.None? then c.grandparentIndex else cut;
    assert c.grandparents[c.grandparentIndex..c.grandparentIndex] == [];
  }

  lemma SpanShrinks(gs: seq<File>, first: InternalKey, last: InternalKey, cut: nat, upTo: nat, limit: nat)
    requires SpansFrom(gs, first, last, cut, upTo, limit)
    ensures SpansAtMost(gs, first, last, limit)
  {
    var a: nat, b: nat :| cut <= a <= b <= upTo <= |gs| && PassedBy(gs, first, a) && PassedBy(gs, last, b) && TotalSize(gs[cut..b]) <= limit;
    TotalSizeSplits(gs, cut, a, b);
  }

  lemma FinishedIsLimited(c: Compaction, builder: seq<Entry>, cut: nat, upTo: nat, sizeOf: seq<Entry> -> nat, f: File)
    requires BuilderOk(c, builder, cut, upTo, sizeOf) && builder != [] && f.entries == builder
    ensures Limited(f, c, sizeOf)
  {
    SpanShrinks(c.grandparents, builder[0].key, builder[|builder| - 1].key, cut, upTo, c.maxGrandparentOverlap);
  }

  lemma NothingBuilt(c: Compaction, cut: nat, upTo: nat, sizeOf: seq<Entry> -> nat)
    ensures BuilderOk(c, [], cut, upTo, sizeOf)
  {
  }

  lemma BuilderWaits(c: Compaction, builder: seq<Entry>, cut: nat, upTo: nat, sizeOf: seq<Entry> -> nat)
    requires BuilderOk(c, builder, cut, upTo, sizeOf) && upTo <= c.grandparentIndex <= |c.grandparents|
    ensures BuilderOk(c, builder, cut, c.grandparentIndex, sizeOf)
  {
    hide TotalSize, PassedBy;
  }

  /** One more entry in the table being built, up to the decision to close it. */
  lemma BuilderGrows(c: Compaction, builder: seq<Entry>, cut: nat, upTo: nat, sizeOf: seq<Entry> -> nat, e: Entry)
    requires BuilderOk(c, builder, cut, upTo, sizeOf) && Counts(c, Some(e.key), cut) && upTo <= c.grandparentIndex
    ensures
      var b := builder + [e];
      && (sizeOf(b) < c.maxOutputFileSize ==> BuilderOk(c, b, cut, c.grandparentIndex, sizeOf))
      && forall f: File :: f.entries == b ==> Limited(f, c, sizeOf)
  {
    hide TotalSize, PassedBy;
    var b, gs, now := builder + [e], c.grandparents, c.grandparentIndex;
    forall k | 0 < k < |b| ensures sizeOf(b[..k]) < c.maxOutputFileSize {
      assert b[..k] == builder[..k];
    }
    assert b[..|b|] == b;
    var first := b[0].key;
    if builder == [] {
      assert SpansFrom(gs, first, e.key, cut, now, c.maxGrandparentOverlap);
    } else {
      var a: nat, z: nat :| cut <= a <= z <= upTo <= |gs| && PassedBy(gs, first, a) && PassedBy(gs, builder[|builder| - 1].key, z)
        && TotalSize(gs[cut..z]) <= c.maxGrandparentOverlap;
      assert SpansFrom(gs, first, e.key, cut, now, c.maxGrandparentOverlap);
    }
    SpanShrinks(gs, first, e.key, cut, now, c.maxGrandparentOverlap);
  }

  /** builder->Add, closing the output when it has become big enough. */
  method AddEntry(files: seq<File>, builder: seq<Entry>, e: Entry, maxSize: nat, sizeOf: seq<Entry> -> nat, number: nat -> nat)
      returns (r: seq<File>, b: seq<Entry>)
    requires SortedEntries(Written(files, builder) + [e]) && OutputsOk(files, number)
    ensures OutputsOk(r, number) && Written(r, b) == Written(files, builder) + [e]
    ensures if sizeOf(builder + [e]) < maxSize then r == files && b == builder + [e]
            else b == [] && |r| == |files| + 1 && files <= r && r[|files|].entries == builder + [e]
  {
    r, b := files, builder + [e];
    assert Written(r, b) == Written(files, builder) + [e];
    if sizeOf(b) >= maxSize {
      r := Finish(r, b, sizeOf, number);
      b := [];
    }
  }

  predicate Drops(c: Compaction, scan: Scan, e: Entry, smallest: SequenceNumber) {
    LastFor(scan, e.key.user) <= smallest || Obsolete(e, c.version, c.level, smallest)
  }

  /** The body of the loop for one input entry. */
  method Consume(c: Compaction, files: seq<File>, builder: seq<Entry>, scan: Scan, e: Entry, smallest: SequenceNumber,
                 sizeOf: seq<Entry> -> nat, number: nat -> nat, ghost last: Option<InternalKey>, ghost cut: nat)
      returns (r: seq<File>, b: seq<Entry>, next: Scan, ghost cut': nat)
    requires c.Valid() && (c.lastUser.Some? ==> c.lastUser.value <= e.key.user)
    requires OutputsOk(files, number)
    requires SortedEntries(Written(files, builder))
    requires !Drops(c, scan, e, smallest) ==> SortedEntries(Written(files, builder) + [e])
    requires Counts(c, last, cut) && (last.Some? ==> Before(last.value, e.key)) && (last.None? ==> builder == [])
    requires BuilderOk(c, builder, cut, c.grandparentIndex, sizeOf) && AllLimited(files, c, sizeOf)
    modifies c, c.levelPtrs
    ensures c.Valid() && (c.lastUser.Some? ==> c.lastUser.value <= e.key.user)
    ensures OutputsOk(r, number)
    ensures Written(r, b) == Written(files, builder) + if Drops(c, scan, e, smallest) then [] else [e]
    ensures next == Scan(Some(e.key.user), e.key.seqno)
    ensures Counts(c, Some(e.key), cut') && BuilderOk(c, b, cut', c.grandparentIndex, sizeOf) && AllLimited(r, c, sizeOf)
  {
    hide PassedBy, TotalSize, BuilderOk, Limited, SortedEntries, OutputsOk, Written, IsBaseLevel;
    r, b := files, builder;
    ghost var upTo := c.grandparentIndex;
    var stop;
    stop, cut' := CheckStop(c, e.key, last, cut);
    if stop && b != [] {
      r := Finish(r, b, sizeOf, number);
      FinishedIsLimited(c, b, cut, upTo, sizeOf, r[|files|]);
      b := [];
      NothingBuilt(c, cut', upTo, sizeOf);
    } else if b == [] {
      NothingBuilt(c, cut', upTo, sizeOf);
    }
    var drop;
    drop, next := Decide(c, scan, e.key, smallest, e);
    if !drop {
      BuilderGrows(c, b, cut', upTo, sizeOf, e);
      r, b := AddEntry(r, b, e, c.maxOutputFileSize, sizeOf, number);
      NothingBuilt(c, cut', c.grandparentIndex, sizeOf);
    } else {
      BuilderWaits(c, b, cut', upTo, sizeOf);
    }
  }

  /** One step of the scan: what is written plus what is still to be kept stays the same. */
  lemma KeptUnfolds(input: seq<Entry>, i: nat, written: seq<Entry>, scan: Scan, c: Compaction, smallest: SequenceNumber)
    requires i < |input|
    requires SortedEntries(written + Kept(input[i..], scan, c.version, c.level, smallest))
    ensures
      var e := input[i];
      var next := Kept(input[i + 1..], Scan(Some(e.key.user), e.key.seqno), c.version, c.level, smallest);
      var wrote := written + if Drops(c, scan, e, smallest) then [] else [e];
      && written + Kept(input[i..], scan, c.version, c.level, smallest) == wrote + next
      && SortedEntries(written) && SortedEntries(wrote)
  {
    assert input[i..][1..] == input[i + 1..];
    var e := input[i];
    var next := Kept(input[i + 1..], Scan(Some(e.key.user), e.key.seqno), c.version, c.level, smallest);
    var wrote := written + if Drops(c, scan, e, smallest) then [] else [e];
    assert written + Kept(input[i..], scan, c.version, c.level, smallest) == wrote + next;
    PrefixSorted(written, Kept(input[i..], scan, c.version, c.level, smallest));
    PrefixSorted(wrote, next);
  }

  lemma NothingSeen(c: Compaction, number: nat -> nat)
    requires c.grandparentIndex == 0 && !c.seenKey && c.overlappedBytes == 0
    ensures Counts(c, None, 0) && OutputsOk([], number)
  {
  }

  /** DoCompactionWork between its two mutex regions: `input` is what the merging iterator
      yields, `sizeOf` the encoded size of a table with the given entries, `number(i)` the
      file number the i-th NewFileNumber call returns. */
  method DoCompactionWork(c: Compaction, input: seq<Entry>, smallest: SequenceNumber, sizeOf: seq<Entry> -> nat, number: nat -> nat)
      returns (outputs: seq<File>)
    requires c.Valid() && c.lastUser == None && c.grandparentIndex == 0 && !c.seenKey && c.overlappedBytes == 0
    requires SortedEntries(input)
    modifies c, c.levelPtrs
    ensures Flat(outputs) == Kept(input, SCAN_START, c.version, c.level, smallest)
    ensures OutputsOk(outputs, number) && AllLimited(outputs, c, sizeOf)
  {
    hide PassedBy, TotalSize, BuilderOk, Limited, IsBaseLevel, PassedOnly, SortedLevel, FilesOk, Drops;
    outputs := [];
    var builder: seq<Entry> := [];
    var scan := SCAN_START;
    KeptIsSorted(input, SCAN_START, c.version, c.level, smallest);
    ghost var all := Kept(input, SCAN_START, c.version, c.level, smallest);
    ghost var cut: nat, last: Option<InternalKey> := 0, None;
    NothingBuilt(c, 0, 0, sizeOf);
    NothingSeen(c, number);
    var i := 0;
    while i < |input|
      invariant 0 <= i <= |input| && last == if i > 0 then Some(input[i - 1].key) else None
      invariant c.Valid() && Counts(c, last, cut) && BuilderOk(c, builder, cut, c.grandparentIndex, sizeOf)
      invariant (last.None? ==> builder == []) && AllLimited(outputs, c, sizeOf)
      invariant c.lastUser.Some? ==> i > 0 && c.lastUser.value <= input[i - 1].key.user
      invariant OutputsOk(outputs, number)
      invariant Written(outputs, builder) + Kept(input[i..], scan, c.version, c.level, smallest) == all
    {
      KeptUnfolds(input, i, Written(outputs, builder), scan, c, smallest);
      assert i > 0 ==> Before(input[i - 1].key, input[i].key);
      outputs, builder, scan, cut := Consume(c, outputs, builder, scan, input[i], smallest, sizeOf, number, last, cut);
      last := Some(input[i].key);
      i := i + 1;
    }
    assert Written(outputs, builder) + [] == Written(outputs, builder);
    if builder != [] {
      ghost var n := |outputs|;
      outputs := Finish(outputs, builder, sizeOf, number);
      FinishedIsLimited(c, builder, cut, c.grandparentIndex, sizeOf, outputs[n]);
    }
  }
}
