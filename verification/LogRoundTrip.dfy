/** What the log's reader makes of what its writer wrote: all of it, and of a torn file every
    record that is there as a whole, without a report of corruption. */
module LogRoundTrip {
  import opened Coding
  import opened Keys
  import opened Sequences
  import opened LogFormat
  import opened LogWriter
  import opened LogReader

  // ---- where the reader stands ----

  function Min(a: nat, b: nat): nat {
    if a < b then a else b
  }

  function RoundUp(p: nat): (r: nat)
    ensures p <= r < p + BLOCK_SIZE && r % BLOCK_SIZE == 0
  {
    (p + BLOCK_SIZE - 1) / BLOCK_SIZE * BLOCK_SIZE
  }

  function BlockEnd(q: nat): (r: nat)
    ensures q < r && r % BLOCK_SIZE == 0
  {
    q - q % BLOCK_SIZE + BLOCK_SIZE
  }

  /** Having consumed exactly the first `p` bytes. */
  function SettledAt(p: nat, file: seq<Byte>): (s: Source)
    requires p <= |file|
    ensures Within(s, file)
  {
    Source(p, Min(RoundUp(p), |file|), |file| < RoundUp(p))
  }

  /** With the rest of the block of `q`, or of the file, in the buffer. */
  function LoadedAt(q: nat, file: seq<Byte>): (s: Source)
    requires q <= |file|
    ensures Within(s, file)
  {
    Source(q, Min(BlockEnd(q), |file|), |file| < BlockEnd(q))
  }

  lemma SameBlock(p: nat)
    ensures if p % BLOCK_SIZE == 0 then RoundUp(p) == p else RoundUp(p) == BlockEnd(p)
  {
  }

  /** A trailer ends at the end of its block. */
  lemma TrailerEndsBlock(p: nat)
    requires BLOCK_SIZE - p % BLOCK_SIZE < HEADER_SIZE
    ensures
      var q := p + |Trailer(p % BLOCK_SIZE)|;
      q == RoundUp(p) && q % BLOCK_SIZE == 0 && q - p < HEADER_SIZE
  {
    SameBlock(p);
  }

  lemma HeaderIsAtOffset(p: nat)
    ensures (p + |Trailer(p % BLOCK_SIZE)|) % BLOCK_SIZE == HeaderOffset(p % BLOCK_SIZE)
  {
    if BLOCK_SIZE - p % BLOCK_SIZE < HEADER_SIZE {
      TrailerEndsBlock(p);
    }
  }

  /** The reader gets past a trailer, and past the end of a block, to the next header. */
  lemma ReachesHeader(crc: Crc, checksum: bool, file: seq<Byte>, p: nat)
    requires p <= |file|
    ensures
      var q := p + |Trailer(p % BLOCK_SIZE)|;
      var r := ReadPhysical(crc, checksum, file, SettledAt(p, file));
      if q + HEADER_SIZE <= |file| then r == ReadPhysical(crc, checksum, file, LoadedAt(q, file))
      else r.fragment.Eof? && r.reports == 0
  {
    hide Parse, RoundUp;
    var s := SettledAt(p, file);
    SameBlock(p);
    if p % BLOCK_SIZE == 0 {
      assert s.end == p;
      if !s.eof {
        assert Refill(file, s) == LoadedAt(p, file);
      }
    } else if BLOCK_SIZE - p % BLOCK_SIZE < HEADER_SIZE {
      TrailerEndsBlock(p);
      if !s.eof {
        assert Refill(file, s) == LoadedAt(RoundUp(p), file);
      }
    } else {
      assert s == LoadedAt(p, file);
    }
  }

  // ---- one physical record ----

  lemma HeaderFields(crc: Crc, kind: Byte, data: seq<Byte>, rest: seq<Byte>)
    requires |data| < 0x1_0000
    ensures
      var buffer := Physical(crc, kind, data) + rest;
      && buffer[4] + buffer[5] as int * 0x100 == |data| && buffer[6] == kind
      && Unmask(DecodeFixed32(buffer)) == crc([kind] + data)
      && buffer[6..7 + |data|] == [kind] + data && buffer[7..7 + |data|] == data
  {
    hide Mask, Unmask, EncodeFixed32, DecodeFixed32;
    var sum := EncodeFixed32(Mask(crc([kind] + data)));
    var fields := [|data| % 0x100, |data| / 0x100, kind];
    var buffer := Physical(crc, kind, data) + rest;
    assert buffer == sum + (fields + data + rest);
    Fixed32RoundTrip(Mask(crc([kind] + data)), fields + data + rest);
    UnmaskUndoesMask(crc([kind] + data));
  }

  /** The first bytes of a record, up to its payload, are enough to know its length and kind. */
  lemma HeaderPrefix(crc: Crc, kind: Byte, data: seq<Byte>, buffer: seq<Byte>)
    requires |data| < 0x1_0000 && HEADER_SIZE <= |buffer| <= HEADER_SIZE + |data|
    requires buffer == Physical(crc, kind, data)[..|buffer|]
    ensures buffer[4] + buffer[5] as int * 0x100 == |data|
  {
    HeaderFields(crc, kind, data, []);
    assert Physical(crc, kind, data) + [] == Physical(crc, kind, data);
  }

  lemma ParsesWhole(crc: Crc, checksum: bool, kind: Byte, data: seq<Byte>, buffer: seq<Byte>, eof: bool)
    requires |data| < 0x1_0000 && kind != ZERO
    requires Physical(crc, kind, data) <= buffer
    ensures Parse(crc, checksum, buffer, eof) == Parsed(Fragment(kind, data), HEADER_SIZE + |data|, 0)
  {
    hide Physical, Unmask, DecodeFixed32;
    var rest := buffer[HEADER_SIZE + |data|..];
    assert buffer == Physical(crc, kind, data) + rest;
    HeaderFields(crc, kind, data, rest);
  }

  lemma ParsesTorn(crc: Crc, checksum: bool, kind: Byte, data: seq<Byte>, buffer: seq<Byte>)
    requires |data| < 0x1_0000 && HEADER_SIZE <= |buffer| < HEADER_SIZE + |data|
    requires buffer == Physical(crc, kind, data)[..|buffer|]
    ensures Parse(crc, checksum, buffer, true) == Parsed(Eof, |buffer|, 0)
  {
    HeaderPrefix(crc, kind, data, buffer);
  }

  /** `whole` is the file as written; `n` bytes of it are left. */
  lemma ReadsPhysical(crc: Crc, checksum: bool, whole: seq<Byte>, n: nat, q: nat, kind: Byte, data: seq<Byte>)
    requires n <= |whole| && q + HEADER_SIZE <= n && kind != ZERO
    requires q % BLOCK_SIZE + HEADER_SIZE + |data| <= BLOCK_SIZE
    requires q + HEADER_SIZE + |data| <= |whole| && whole[q..q + HEADER_SIZE + |data|] == Physical(crc, kind, data)
    ensures
      var file := whole[..n];
      var next := q + HEADER_SIZE + |data|;
      var r := ReadPhysical(crc, checksum, file, LoadedAt(q, file));
      if next <= n then r == PhysicalRead(Fragment(kind, data), SettledAt(next, file), 0)
      else r.fragment.Eof? && r.reports == 0
  {
    hide Physical, Parse;
    var file, next := whole[..n], q + HEADER_SIZE + |data|;
    var s := LoadedAt(q, file);
    var buffer := file[q..s.end];
    if next <= n {
      assert next <= s.end;
      assert file[q..next] == whole[q..next];
      assert buffer[..HEADER_SIZE + |data|] == file[q..next];
      ParsesWhole(crc, checksum, kind, data, buffer, s.eof);
      NextSettles(q, next, file);
    } else {
      assert s.end == n && s.eof;
      assert buffer == whole[q..next][..n - q];
      ParsesTorn(crc, checksum, kind, data, buffer);
    }
  }

  lemma NextSettles(q: nat, next: nat, file: seq<Byte>)
    requires q < next <= |file| && q % BLOCK_SIZE + (next - q) <= BLOCK_SIZE
    ensures LoadedAt(q, file).(pos := next) == SettledAt(next, file)
  {
    var off := q % BLOCK_SIZE;
    assert RoundUp(next) == BlockEnd(q) by {
      assert next == q - off + (off + (next - q));
    }
  }

  // ---- one record ----

  lemma FragmentsFit(crc: Crc, p: nat, data: seq<Byte>, begin: bool)
    ensures
      var off := p % BLOCK_SIZE;
      var k := FragmentLength(off, |data|);
      var q := p + |Trailer(off)|;
      var all := Fragments(crc, off, data, begin);
      && q + HEADER_SIZE + k <= p + |all|
      && all[q - p..q - p + HEADER_SIZE + k] == Physical(crc, FragmentKind(begin, k == |data|), data[..k])
      && (k == |data| ==> |all| == q - p + HEADER_SIZE + k)
      && (k < |data| ==>
            all[q - p + HEADER_SIZE + k..] == Fragments(crc, (q + HEADER_SIZE + k) % BLOCK_SIZE, data[k..], false))
  {
    hide Physical, Fragments, Trailer;
    var off := p % BLOCK_SIZE;
    var k := FragmentLength(off, |data|);
    var end := k == |data|;
    FragmentsUnfold(crc, off, data, begin);
    var first := Physical(crc, FragmentKind(begin, end), data[..k]);
    var next := HeaderOffset(off) + HEADER_SIZE + k;
    var rest := if end then [] else Fragments(crc, next, data[k..], false);
    assert Fragments(crc, off, data, begin) == Trailer(off) + first + rest;
    if !end {
      WrappedOffset(crc, next, data[k..], false);
      HeaderIsAtOffset(p);
      Advance(p + |Trailer(off)|, HeaderOffset(off), HEADER_SIZE + k);
    }
  }

  lemma TakesFragment(begin: bool, end: bool, data: seq<Byte>, scratch: seq<Byte>)
    requires begin ==> scratch == []
    ensures Take(Fragment(FragmentKind(begin, end), data), !begin, scratch) ==
      if end then Done(Some(scratch + data), 0) else GoOn(true, scratch + data, 0)
  {
    assert begin ==> scratch + data == data;
  }

  lemma SliceOfPrefix(all: seq<Byte>, whole: seq<Byte>, p: nat, a: nat, b: nat)
    requires p <= |whole| && all <= whole[p..] && a <= b <= |all|
    ensures whole[p + a..p + b] == all[a..b] && all[a..] <= whole[p + a..]
  {
    assert forall i :: 0 <= i < |all| ==> all[i] == whole[p..][i];
  }

  /** From the place where (the rest of) a record begins, ReadRecord puts it together, when all of
      it is there; otherwise it comes to the end of the file. */
  lemma {:induction false} ReadsFragments(crc: Crc, checksum: bool, whole: seq<Byte>, n: nat, p: nat, data: seq<Byte>, begin: bool, scratch: seq<Byte>)
    requires p <= n <= |whole| && (begin ==> scratch == [])
    requires Fragments(crc, p % BLOCK_SIZE, data, begin) <= whole[p..]
    ensures
      var file, next := whole[..n], p + |Fragments(crc, p % BLOCK_SIZE, data, begin)|;
      var r := ReadLogical(crc, checksum, file, SettledAt(p, file), !begin, scratch);
      if next <= n then r == LogicalRead(Some(scratch + data), SettledAt(next, file), 0)
      else r.record.None? && r.reports == 0
    decreases |data|, p % BLOCK_SIZE != 0
  {
    hide Physical, Fragments, Trailer, ReadPhysical, Parse, RoundUp, SettledAt, LoadedAt, Take;
    var off := p % BLOCK_SIZE;
    var k := FragmentLength(off, |data|);
    var q := p + |Trailer(off)|;
    var all := Fragments(crc, off, data, begin);
    FragmentsFit(crc, p, data, begin);
    ReachesHeader(crc, checksum, whole[..n], p);
    TakesEof(!begin, scratch);
    if q + HEADER_SIZE <= n {
      HeaderIsAtOffset(p);
      var p' := q + HEADER_SIZE + k;
      SliceOfPrefix(all, whole, p, q - p, p' - p);
      ReadsPhysical(crc, checksum, whole, n, q, FragmentKind(begin, k == |data|), data[..k]);
      if p' <= n {
        TakesFragment(begin, k == |data|, data[..k], scratch);
        if k < |data| {
          SliceOfPrefix(all, whole, p, p' - p, |all|);
          ReadsFragments(crc, checksum, whole, n, p', data[k..], false, scratch + data[..k]);
          assert scratch + data[..k] + data[k..] == scratch + data;
        } else {
          assert data[..k] == data;
        }
      }
    }
  }

  lemma TakesEof(inRecord: bool, scratch: seq<Byte>)
    ensures Take(Eof, inRecord, scratch) == Done(None, 0)
  {
  }

  // ---- whole files ----

  /** Where record `i` begins: behind those before it. */
  function Boundary(crc: Crc, records: seq<seq<Byte>>, i: nat): nat
    requires i <= |records|
  {
    |LogFile(crc, records[..i])|
  }

  lemma {:induction false} RecordsInFile(crc: Crc, records: seq<seq<Byte>>, i: nat)
    requires i <= |records|
    ensures LogFile(crc, records[..i]) <= LogFile(crc, records)
    ensures i < |records| ==>
      && Fragments(crc, Boundary(crc, records, i) % BLOCK_SIZE, records[i], true) <= LogFile(crc, records)[Boundary(crc, records, i)..]
      && Boundary(crc, records, i + 1) ==
           Boundary(crc, records, i) + |Fragments(crc, Boundary(crc, records, i) % BLOCK_SIZE, records[i], true)|
  {
    hide Fragments;
    var last := |records| - 1;
    if i == |records| {
      assert records[..i] == records;
    } else {
      var before := records[..last];
      assert records[..i + 1][..i] == records[..i] && records[..i + 1][i] == records[i];
      if i < last {
        RecordsInFile(crc, before, i);
        assert before[..i] == records[..i];
      } else {
        assert records[..i + 1] == records;
      }
    }
  }

  /** How many records the first `n` bytes of the file hold as a whole. */
  function Complete(crc: Crc, records: seq<seq<Byte>>, n: nat): (k: nat)
    ensures k <= |records|
  {
    if records == [] then 0
    else if |LogFile(crc, records)| <= n then |records|
    else Complete(crc, records[..|records| - 1], n)
  }

  lemma {:induction false} CompleteIsGreatest(crc: Crc, records: seq<seq<Byte>>, n: nat, i: nat)
    requires i <= |records|
    ensures Boundary(crc, records, i) <= n <==> i <= Complete(crc, records, n)
  {
    hide Fragments;
    var last := |records| - 1;
    RecordsInFile(crc, records, i);
    if i == |records| {
      assert records[..i] == records;
      if records == [] {
        assert LogFile(crc, []) == [];
      }
    } else {
      CompleteIsGreatest(crc, records[..last], n, i);
      assert records[..last][..i] == records[..i];
    }
  }

  lemma EndOfFile(crc: Crc, checksum: bool, file: seq<Byte>)
    ensures
      var r := ReadLogical(crc, checksum, file, SettledAt(|file|, file), false, []);
      r.record.None? && r.reports == 0
  {
    ReachesHeader(crc, checksum, file, |file|);
  }

  lemma {:induction false} ReadsRest(crc: Crc, checksum: bool, records: seq<seq<Byte>>, n: nat, i: nat)
    requires i <= |records| && Boundary(crc, records, i) <= n <= |LogFile(crc, records)|
    ensures
      var file := LogFile(crc, records)[..n];
      var k := Complete(crc, records, n);
      i <= k && ReadAll(crc, checksum, file, SettledAt(Boundary(crc, records, i), file)) == Contents(records[i..k], 0)
    decreases |records| - i
  {
    hide Fragments, LogFile, Complete, SettledAt, ReadLogical;
    var whole := LogFile(crc, records);
    var file, p, k := whole[..n], Boundary(crc, records, i), Complete(crc, records, n);
    CompleteIsGreatest(crc, records, n, i);
    RecordsInFile(crc, records, i);
    if i == |records| {
      assert records[..i] == records && p == n == |file|;
      EndOfFile(crc, checksum, file);
    } else {
      ReadsFragments(crc, checksum, whole, n, p, records[i], true, []);
      CompleteIsGreatest(crc, records, n, i + 1);
      if i + 1 <= k {
        ReadsRest(crc, checksum, records, n, i + 1);
        assert [] + records[i] == records[i];
        assert records[i..k] == [records[i]] + records[i + 1..k];
      }
    }
  }

  lemma StartIsSettled(file: seq<Byte>)
    ensures SettledAt(0, file) == START
  {
  }

  /** A log file cut off after any number of bytes reads as the records that are there as a whole,
      in order, and nothing is reported as corruption. */
  lemma TornTail(crc: Crc, checksum: bool, records: seq<seq<Byte>>, n: nat)
    requires n <= |LogFile(crc, records)|
    ensures
      var k := Complete(crc, records, n);
      && ReadAll(crc, checksum, LogFile(crc, records)[..n], START) == Contents(records[..k], 0)
      && Boundary(crc, records, k) <= n
      && (k < |records| ==> n < Boundary(crc, records, k + 1))
  {
    hide ReadAll, Complete, Fragments;
    var k := Complete(crc, records, n);
    StartIsSettled(LogFile(crc, records)[..n]);
    assert records[..0] == [];
    ReadsRest(crc, checksum, records, n, 0);
    CompleteIsGreatest(crc, records, n, k);
    if k < |records| {
      CompleteIsGreatest(crc, records, n, k + 1);
    }
  }

  /** A log file reads as exactly the records written to it, empty ones and long ones included. */
  lemma RoundTrip(crc: Crc, checksum: bool, records: seq<seq<Byte>>)
    ensures ReadAll(crc, checksum, LogFile(crc, records), START) == Contents(records, 0)
  {
    hide ReadAll, Fragments;
    var whole := LogFile(crc, records);
    TornTail(crc, checksum, records, |whole|);
    assert whole[..|whole|] == whole && records[..|records|] == records;
  }

  // ---- the classes together ----

  /** Writes a file in several sessions, opening it again at its length each time: the bytes are
      those of a single session. */
  method WriteInSessions(crc: Crc, sessions: seq<seq<seq<Byte>>>) returns (file: seq<Byte>)
    ensures file == LogFile(crc, Concat(sessions))
  {
    hide Fragments;
    file := [];
    assert sessions[..0] == [];
    for i := 0 to |sessions|
      invariant file == LogFile(crc, Concat(sessions[..i]))
    {
      var writer := new Writer.Reopen(crc, file);
      ghost var before := Concat(sessions[..i]);
      assert before + sessions[i][..0] == before;
      for j := 0 to |sessions[i]|
        invariant writer.Ok() && writer.crc == crc && writer.dest == LogFile(crc, before + sessions[i][..j])
      {
        writer.AddRecord(sessions[i][j]);
        ghost var more := before + sessions[i][..j + 1];
        assert more[..|more| - 1] == before + sessions[i][..j];
      }
      file := writer.dest;
      assert sessions[i][..|sessions[i]|] == sessions[i];
      assert sessions[..i + 1][..i] == sessions[..i];
    }
    assert sessions[..|sessions|] == sessions;
  }

  /** `records` and `reports` are what a loop has got before it reads on from `s`. */
  ghost predicate SoFar(crc: Crc, checksum: bool, file: seq<Byte>, s: Source, records: seq<seq<Byte>>, reports: nat) {
    && Within(s, file)
    && var rest := ReadAll(crc, checksum, file, s);
      Contents(records + rest.records, reports + rest.reports) == ReadAll(crc, checksum, file, START)
  }

  lemma ReadsOn(crc: Crc, checksum: bool, file: seq<Byte>, s: Source, records: seq<seq<Byte>>, reports: nat)
    requires SoFar(crc, checksum, file, s, records, reports)
    ensures
      var r := ReadLogical(crc, checksum, file, s, false, []);
      if r.record.None? then ReadAll(crc, checksum, file, START) == Contents(records, reports + r.reports)
      else
        && Within(r.source, file) && s.pos < r.source.pos <= |file|
        && SoFar(crc, checksum, file, r.source, records + [r.record.value], reports + r.reports)
  {
    hide ReadLogical, ReadAll;
    var r := ReadLogical(crc, checksum, file, s, false, []);
    ReadAllStep(crc, checksum, file, s);
    assert records + [] == records;
    if r.record.Some? {
      var rest := ReadAll(crc, checksum, file, r.source).records;
      assert records + ([r.record.value] + rest) == records + [r.record.value] + rest;
    }
  }

  lemma ReadAllStep(crc: Crc, checksum: bool, file: seq<Byte>, s: Source)
    requires Within(s, file)
    ensures
      var r := ReadLogical(crc, checksum, file, s, false, []);
      var all := ReadAll(crc, checksum, file, s);
      if r.record.None? then all == Contents([], r.reports)
      else
        && Within(r.source, file) && s.pos < r.source.pos <= |file|
        && var rest := ReadAll(crc, checksum, file, r.source);
          all == Contents([r.record.value] + rest.records, r.reports + rest.reports)
  {
    hide ReadLogical;
  }
}
