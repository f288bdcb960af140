/** What the log's reader makes of damaged bytes: no fragment gets through whose checksum does not
    match, and a damaged fragment costs the records of the rest of its block, which is reported. */
module LogDamage {
  import opened Keys
  import opened Coding
  import opened Sequences
  import opened LogFormat
  import opened LogReader
  import opened LogRoundTrip

  // ---- every fragment is checked ----

  /** What Parse returns as a fragment is what the writer writes for it. */
  lemma ParsesWritten(crc: Crc, buffer: seq<Byte>, eof: bool)
    requires |buffer| >= HEADER_SIZE
    ensures
      var r := Parse(crc, true, buffer, eof);
      r.fragment.Fragment? ==>
        && |r.fragment.data| < 0x1_0000 && r.consumed == HEADER_SIZE + |r.fragment.data|
        && buffer[..r.consumed] == Physical(crc, r.fragment.kind, r.fragment.data)
  {
    hide Mask, Unmask, DecodeFixed32, EncodeFixed32;
    var r := Parse(crc, true, buffer, eof);
    if r.fragment.Fragment? {
      var kind, data := r.fragment.kind, r.fragment.data;
      assert buffer[6..7 + |data|] == [kind] + data;
      var sum := crc([kind] + data);
      MaskUndoesUnmask(DecodeFixed32(buffer));
      Fixed32RoundTrip(Mask(sum), []);
      assert EncodeFixed32(Mask(sum)) + [] == EncodeFixed32(Mask(sum));
      Fixed32Determines(EncodeFixed32(Mask(sum)), buffer);
      LengthBytes(buffer[4], buffer[5]);
      assert buffer[..r.consumed] == buffer[..4] + [buffer[4], buffer[5], kind] + data;
    }
  }

  lemma LengthBytes(low: Byte, high: Byte)
    ensures var n := low + high as int * 0x100; n % 0x100 == low && n / 0x100 == high
  {
  }

  /** Whatever the file and the position: the bytes in front of where the reader stands after a
      fragment are that fragment with its own length, kind and checksum. */
  lemma {:induction false} FragmentsAreChecked(crc: Crc, file: seq<Byte>, s: Source)
    requires Within(s, file)
    ensures
      var r := ReadPhysical(crc, true, file, s);
      r.fragment.Fragment? ==>
        && |r.fragment.data| < 0x1_0000
        && s.pos <= r.source.pos - HEADER_SIZE - |r.fragment.data|
        && file[r.source.pos - HEADER_SIZE - |r.fragment.data|..r.source.pos] == Physical(crc, r.fragment.kind, r.fragment.data)
    decreases |file| - s.end, !s.eof
  {
    hide Parse, Physical;
    if s.end - s.pos >= HEADER_SIZE {
      var buffer := file[s.pos..s.end];
      ParsesWritten(crc, buffer, s.eof);
      var p := Parse(crc, true, buffer, s.eof);
      assert buffer[..p.consumed] == file[s.pos..s.pos + p.consumed];
    } else if !s.eof {
      FragmentsAreChecked(crc, file, Refill(file, s));
    }
  }

  // ---- only what is ahead matters ----

  lemma {:induction false} SamePhysical(crc: Crc, checksum: bool, a: seq<Byte>, b: seq<Byte>, s: Source)
    requires Within(s, a) && |a| == |b| && a[s.pos..] == b[s.pos..]
    ensures ReadPhysical(crc, checksum, a, s) == ReadPhysical(crc, checksum, b, s)
    decreases |a| - s.end, !s.eof
  {
    hide Parse;
    if s.end - s.pos >= HEADER_SIZE {
      assert a[s.pos..s.end] == a[s.pos..][..s.end - s.pos] == b[s.pos..s.end];
    } else if !s.eof {
      assert a[s.end..] == a[s.pos..][s.end - s.pos..] == b[s.end..];
      SamePhysical(crc, checksum, a, b, Refill(a, s));
    }
  }

  lemma {:induction false} SameLogical(crc: Crc, checksum: bool, a: seq<Byte>, b: seq<Byte>, s: Source, inRecord: bool, scratch: seq<Byte>)
    requires Within(s, a) && |a| == |b| && a[s.pos..] == b[s.pos..]
    ensures ReadLogical(crc, checksum, a, s, inRecord, scratch) == ReadLogical(crc, checksum, b, s, inRecord, scratch)
    decreases |a| - s.pos
  {
    hide ReadPhysical;
    SamePhysical(crc, checksum, a, b, s);
    var p := ReadPhysical(crc, checksum, a, s);
    var t := Take(p.fragment, inRecord, scratch);
    if t.GoOn? {
      assert a[p.source.pos..] == a[s.pos..][p.source.pos - s.pos..] == b[p.source.pos..];
      SameLogical(crc, checksum, a, b, p.source, t.inRecord, t.scratch);
    }
  }

  lemma {:induction false} SameAll(crc: Crc, checksum: bool, a: seq<Byte>, b: seq<Byte>, s: Source)
    requires Within(s, a) && |a| == |b| && a[s.pos..] == b[s.pos..]
    ensures ReadAll(crc, checksum, a, s) == ReadAll(crc, checksum, b, s)
    decreases |a| - s.pos
  {
    hide ReadLogical;
    SameLogical(crc, checksum, a, b, s, false, []);
    var r := ReadLogical(crc, checksum, a, s, false, []);
    if r.record.Some? {
      assert a[r.source.pos..] == a[s.pos..][r.source.pos - s.pos..] == b[r.source.pos..];
      SameAll(crc, checksum, a, b, r.source);
    }
  }

  // ---- from the start of a block ----

  /** Two readings that give the same record and go on from the same place, the first with no fewer
      reports. */
  ghost predicate ComesTo(a: LogicalRead, b: LogicalRead) {
    a.record == b.record && a.source == b.source && a.reports >= b.reports
  }

  lemma SameRecords(crc: Crc, checksum: bool, file: seq<Byte>, s: Source, t: Source)
    requires Within(s, file) && Within(t, file)
    requires ComesTo(ReadLogical(crc, checksum, file, s, false, []), ReadLogical(crc, checksum, file, t, false, []))
    ensures
      var a, b := ReadAll(crc, checksum, file, s), ReadAll(crc, checksum, file, t);
      && a.records == b.records
      && a.reports - b.reports ==
           ReadLogical(crc, checksum, file, s, false, []).reports - ReadLogical(crc, checksum, file, t, false, []).reports
  {
    hide ReadLogical;
  }

  /** Block `e` begins in the middle of a record or behind it. */
  lemma {:induction false} BlockInRecord(crc: Crc, whole: seq<Byte>, p: nat, data: seq<Byte>, begin: bool, e: nat) returns (rest: Option<seq<Byte>>)
    requires p + HEADER_SIZE <= e <= |whole| && e % BLOCK_SIZE == 0
    requires Fragments(crc, p % BLOCK_SIZE, data, begin) <= whole[p..]
    ensures
      var end := p + |Fragments(crc, p % BLOCK_SIZE, data, begin)|;
      if rest.None? then end <= e
      else Fragments(crc, 0, rest.value, false) <= whole[e..] && e + |Fragments(crc, 0, rest.value, false)| == end
    decreases |data|, p % BLOCK_SIZE != 0
  {
    hide Physical, Fragments, Trailer, RoundUp;
    var off := p % BLOCK_SIZE;
    var k := FragmentLength(off, |data|);
    var h := p + |Trailer(off)|;
    var next := h + HEADER_SIZE + k;
    var all := Fragments(crc, off, data, begin);
    FragmentsFit(crc, p, data, begin);
    HeaderIsAtOffset(p);
    BlocksAhead(h, e);
    if k == |data| {
      rest := None;
    } else {
      SliceOfPrefix(all, whole, p, next - p, |all|);
      if next + HEADER_SIZE <= e {
        rest := BlockInRecord(crc, whole, next, data[k..], false, e);
      } else {
        // The fragment fills its block.
        rest := Some(data[k..]);
      }
    }
  }

  lemma BlocksAhead(h: nat, e: nat)
    requires h < e && e % BLOCK_SIZE == 0
    ensures BlockEnd(h) <= e
  {
  }

  lemma TrailerUpTo(p: nat, e: nat)
    requires p < e < p + HEADER_SIZE && e % BLOCK_SIZE == 0
    ensures BLOCK_SIZE - HEADER_SIZE < p % BLOCK_SIZE && |Trailer(p % BLOCK_SIZE)| == e - p
  {
    BlocksAhead(p, e);
  }

  lemma TakesTail(end: bool, data: seq<Byte>)
    ensures Take(Fragment(FragmentKind(false, end), data), false, []) == GoOn(false, [], 1)
  {
  }

  /** Without its beginning the rest of a record is skipped. */
  lemma {:induction false} SkipsRest(crc: Crc, checksum: bool, whole: seq<Byte>, p: nat, data: seq<Byte>)
    requires p <= |whole| && Fragments(crc, p % BLOCK_SIZE, data, false) <= whole[p..]
    ensures
      var end := p + |Fragments(crc, p % BLOCK_SIZE, data, false)|;
      ComesTo(ReadLogical(crc, checksum, whole, SettledAt(p, whole), false, []), ReadLogical(crc, checksum, whole, SettledAt(end, whole), false, []))
    decreases |data|, p % BLOCK_SIZE != 0
  {
    hide Physical, Fragments, Trailer, ReadPhysical, Parse, RoundUp, SettledAt, LoadedAt, Take;
    var off := p % BLOCK_SIZE;
    var k := FragmentLength(off, |data|);
    var q := p + |Trailer(off)|;
    var next := q + HEADER_SIZE + k;
    var all := Fragments(crc, off, data, false);
    FragmentsFit(crc, p, data, false);
    assert whole[..|whole|] == whole;
    ReachesHeader(crc, checksum, whole, p);
    HeaderIsAtOffset(p);
    SliceOfPrefix(all, whole, p, q - p, next - p);
    ReadsPhysical(crc, checksum, whole, |whole|, q, FragmentKind(false, k == |data|), data[..k]);
    TakesTail(k == |data|, data[..k]);
    if k < |data| {
      SliceOfPrefix(all, whole, p, next - p, |all|);
      SkipsRest(crc, checksum, whole, next, data[k..]);
    }
  }

  /** From the start of any block, or the end of the file, the reader gets exactly the records that
      have their first header there or later. */
  lemma ReadsFromBlock(crc: Crc, checksum: bool, records: seq<seq<Byte>>, e: nat, j: nat)
    requires e <= |LogFile(crc, records)| && (e % BLOCK_SIZE == 0 || e == |LogFile(crc, records)|) && 0 < j <= |records|
    requires Boundary(crc, records, j - 1) + HEADER_SIZE <= e && (j < |records| ==> e < Boundary(crc, records, j) + HEADER_SIZE)
    ensures
      var whole := LogFile(crc, records);
      ReadAll(crc, checksum, whole, SettledAt(e, whole)).records == records[j..]
  {
    hide Fragments, LogFile, SettledAt, ReadAll, ReadLogical, Complete, BlockEnd, RoundUp;
    var whole := LogFile(crc, records);
    EnoughForHeader(crc, records, j);
    if e == |whole| {
      EndOfFile(crc, checksum, whole);
      ReadsNothing(crc, checksum, whole);
    } else {
      RecordsInFile(crc, records, j - 1);
      var p := Boundary(crc, records, j - 1);
      var rest := BlockInRecord(crc, whole, p, records[j - 1], true, e);
      if rest.Some? {
        SkipsRest(crc, checksum, whole, e, rest.value);
      } else {
        HeaderInBlock(whole, Boundary(crc, records, j), e);
        SameFromBoundary(crc, checksum, whole, Boundary(crc, records, j), e);
      }
      SameRecords(crc, checksum, whole, SettledAt(e, whole), SettledAt(Boundary(crc, records, j), whole));
      AllFrom(crc, checksum, records, j);
    }
  }

  lemma ReadsNothing(crc: Crc, checksum: bool, file: seq<Byte>)
    requires ReadLogical(crc, checksum, file, SettledAt(|file|, file), false, []).record.None?
    ensures ReadAll(crc, checksum, file, SettledAt(|file|, file)).records == []
  {
    hide ReadLogical;
  }

  lemma EnoughForHeader(crc: Crc, records: seq<seq<Byte>>, j: nat)
    requires j <= |records|
    ensures Boundary(crc, records, j) <= |LogFile(crc, records)|
    ensures j < |records| ==>
      Boundary(crc, records, j) + |Trailer(Boundary(crc, records, j) % BLOCK_SIZE)| + HEADER_SIZE <= |LogFile(crc, records)|
    ensures j == |records| ==> Boundary(crc, records, j) == |LogFile(crc, records)|
  {
    hide Fragments, LogFile;
    RecordsInFile(crc, records, j);
    if j < |records| {
      FragmentsFit(crc, Boundary(crc, records, j), records[j], true);
      RecordsInFile(crc, records, j + 1);
    } else {
      assert records[..j] == records;
    }
  }

  lemma HeaderInBlock(whole: seq<Byte>, p: nat, e: nat)
    requires p <= e < p + HEADER_SIZE && e % BLOCK_SIZE == 0 && p + |Trailer(p % BLOCK_SIZE)| + HEADER_SIZE <= |whole|
    ensures e + HEADER_SIZE <= |whole|
  {
    if p < e {
      TrailerUpTo(p, e);
    }
  }

  lemma SameFromBoundary(crc: Crc, checksum: bool, whole: seq<Byte>, p: nat, e: nat)
    requires p <= e < p + HEADER_SIZE && p + HEADER_SIZE <= |whole| && e % BLOCK_SIZE == 0 && e + HEADER_SIZE <= |whole|
    ensures ReadLogical(crc, checksum, whole, SettledAt(e, whole), false, []) == ReadLogical(crc, checksum, whole, SettledAt(p, whole), false, [])
  {
    hide ReadPhysical, SettledAt, LoadedAt;
    if p < e {
      TrailerUpTo(p, e);
      ReachesHeader(crc, checksum, whole, p);
      ReachesHeader(crc, checksum, whole, e);
    }
  }

  lemma AllFrom(crc: Crc, checksum: bool, records: seq<seq<Byte>>, j: nat)
    requires j <= |records|
    ensures
      var whole := LogFile(crc, records);
      Boundary(crc, records, j) <= |whole| && ReadAll(crc, checksum, whole, SettledAt(Boundary(crc, records, j), whole)) == Contents(records[j..], 0)
  {
    hide Fragments, LogFile, SettledAt, ReadAll, Complete;
    var whole := LogFile(crc, records);
    EnoughForHeader(crc, records, j);
    ReadsRest(crc, checksum, records, |whole|, j);
    CompleteIsGreatest(crc, records, |whole|, |records|);
    EnoughForHeader(crc, records, |records|);
    assert whole[..|whole|] == whole && records[j..|records|] == records[j..];
  }

  // ---- one damaged fragment ----

  /** Of what the writer appends for `data` from `p` on, a fragment has its header at `q` and this
      payload. */
  ghost predicate HeaderAt(p: nat, data: seq<Byte>, q: nat, payload: seq<Byte>)
    decreases |data|, p % BLOCK_SIZE != 0
  {
    var k := FragmentLength(p % BLOCK_SIZE, |data|);
    var h := p + |Trailer(p % BLOCK_SIZE)|;
    HeaderIsAtOffset(p);
    if q == h then payload == data[..k] else k < |data| && HeaderAt(h + HEADER_SIZE + k, data[k..], q, payload)
  }

  lemma {:induction false} HeaderIsAhead(crc: Crc, p: nat, data: seq<Byte>, begin: bool, q: nat, payload: seq<Byte>)
    requires HeaderAt(p, data, q, payload)
    ensures p <= q && q % BLOCK_SIZE + HEADER_SIZE + |payload| <= BLOCK_SIZE
    ensures q + HEADER_SIZE + |payload| <= p + |Fragments(crc, p % BLOCK_SIZE, data, begin)|
    decreases |data|, p % BLOCK_SIZE != 0
  {
    hide Fragments, Physical, Trailer;
    var k := FragmentLength(p % BLOCK_SIZE, |data|);
    var h := p + |Trailer(p % BLOCK_SIZE)|;
    var next := h + HEADER_SIZE + k;
    HeaderIsAtOffset(p);
    FragmentsFit(crc, p, data, begin);
    if q != h {
      HeaderIsAhead(crc, next, data[k..], false, q, payload);
    }
  }

  /** `file` differs from `whole` within the fragment of `n` bytes at `q` only, not in its length, and
      the checksum tells. */
  ghost predicate IsDamaged(crc: Crc, whole: seq<Byte>, file: seq<Byte>, q: nat, n: nat) {
    && |file| == |whole| && q + HEADER_SIZE + n <= |whole|
    && file[..q] == whole[..q] && file[q + HEADER_SIZE + n..] == whole[q + HEADER_SIZE + n..]
    && file[q + 4] as int + file[q + 5] as int * 0x100 == n && (file[q + 6] != ZERO || n > 0)
    && crc(file[q + 6..q + 7 + n]) != Unmask(DecodeFixed32(file[q..q + 4]))
  }

  lemma RejectsDamage(crc: Crc, file: seq<Byte>, q: nat, n: nat)
    requires IsDamaged(crc, file, file, q, n) && q % BLOCK_SIZE + HEADER_SIZE + n <= BLOCK_SIZE
    ensures
      var e := Min(BlockEnd(q), |file|);
      ReadPhysical(crc, true, file, LoadedAt(q, file)) == PhysicalRead(Bad, SettledAt(e, file), 1)
  {
    hide Unmask, DecodeFixed32, BlockEnd, RoundUp, Parse, SettledAt, ReadPhysical;
    var s := LoadedAt(q, file);
    var buffer := file[q..s.end];
    InItsBlock(q, n);
    assert q + HEADER_SIZE + n <= s.end;
    SliceOfSlice(file, q, s.end, 6, 7 + n);
    FirstFour(buffer, file[q..q + 4]);
    ParsesDamage(crc, buffer, s.eof, n);
    ReadsBad(crc, file, s);
    EndSettles(q, file);
  }

  lemma ReadsBad(crc: Crc, file: seq<Byte>, s: Source)
    requires Within(s, file) && s.end - s.pos >= HEADER_SIZE
    requires Parse(crc, true, file[s.pos..s.end], s.eof) == Parsed(Bad, s.end - s.pos, 1)
    ensures ReadPhysical(crc, true, file, s) == PhysicalRead(Bad, s.(pos := s.end), 1)
  {
    hide Parse;
  }

  lemma ParsesDamage(crc: Crc, buffer: seq<Byte>, eof: bool, n: nat)
    requires HEADER_SIZE + n <= |buffer| && buffer[4] as int + buffer[5] as int * 0x100 == n && (buffer[6] != ZERO || n > 0)
    requires crc(buffer[6..7 + n]) != Unmask(DecodeFixed32(buffer))
    ensures Parse(crc, true, buffer, eof) == Parsed(Bad, |buffer|, 1)
  {
    hide Unmask, DecodeFixed32;
  }

  lemma FirstFour(a: seq<Byte>, b: seq<Byte>)
    requires |a| >= 4 && b == a[..4]
    ensures DecodeFixed32(a) == DecodeFixed32(b)
  {
  }

  lemma InItsBlock(q: nat, n: nat)
    requires q % BLOCK_SIZE + HEADER_SIZE + n <= BLOCK_SIZE
    ensures q + HEADER_SIZE + n <= BlockEnd(q)
  {
  }

  lemma EndSettles(q: nat, file: seq<Byte>)
    requires q < |file|
    ensures var e := Min(BlockEnd(q), |file|); LoadedAt(q, file).(pos := e) == SettledAt(e, file)
  {
    var e := Min(BlockEnd(q), |file|);
    if e < BlockEnd(q) {
      NextSettles(q, e, file);
    } else {
      SameBlock(e);
    }
  }

  /** Reading the record comes to the damaged fragment, reports it, and goes on behind its block. */
  lemma {:induction false} MeetsDamage(crc: Crc, whole: seq<Byte>, file: seq<Byte>, p: nat, data: seq<Byte>, begin: bool, scratch: seq<Byte>,
                                       q: nat, payload: seq<Byte>)
    requires p <= |whole| && Fragments(crc, p % BLOCK_SIZE, data, begin) <= whole[p..] && (begin ==> scratch == [])
    requires HeaderAt(p, data, q, payload) && IsDamaged(crc, whole, file, q, |payload|)
    ensures
      var e := Min(BlockEnd(q), |file|);
      var a, b := ReadLogical(crc, true, file, SettledAt(p, file), !begin, scratch), ReadLogical(crc, true, file, SettledAt(e, file), false, []);
      ComesTo(a, b) && a.reports > b.reports
    decreases |data|, p % BLOCK_SIZE != 0
  {
    hide Physical, Fragments, Trailer, ReadPhysical, ReadLogical, Parse, RoundUp, BlockEnd, SettledAt, LoadedAt, Take, IsDamaged, FragmentKind;
    var k := FragmentLength(p % BLOCK_SIZE, |data|);
    var h := p + |Trailer(p % BLOCK_SIZE)|;
    var next := h + HEADER_SIZE + k;
    HeaderIsAhead(crc, p, data, begin, q, payload);
    DamageFacts(crc, whole, file, q, |payload|);
    HeaderIsAtOffset(p);
    if q == h {
      StopsAtDamage(crc, file, p, q, |payload|, !begin, scratch);
    } else {
      HeaderIsAhead(crc, next, data[k..], false, q, payload);
      StepsOverFragment(crc, whole, file, p, data, begin, scratch, q);
      RestFollows(crc, whole, p, data, begin);
      MeetsDamage(crc, whole, file, next, data[k..], false, scratch + data[..k], q, payload);
    }
  }

  lemma RestFollows(crc: Crc, whole: seq<Byte>, p: nat, data: seq<Byte>, begin: bool)
    requires p <= |whole| && Fragments(crc, p % BLOCK_SIZE, data, begin) <= whole[p..] && FragmentLength(p % BLOCK_SIZE, |data|) < |data|
    ensures
      var k := FragmentLength(p % BLOCK_SIZE, |data|);
      var next := p + |Trailer(p % BLOCK_SIZE)| + HEADER_SIZE + k;
      next <= |whole| && Fragments(crc, next % BLOCK_SIZE, data[k..], false) <= whole[next..]
  {
    hide Physical, Fragments, Trailer;
    var k := FragmentLength(p % BLOCK_SIZE, |data|);
    var next := p + |Trailer(p % BLOCK_SIZE)| + HEADER_SIZE + k;
    var all := Fragments(crc, p % BLOCK_SIZE, data, begin);
    FragmentsFit(crc, p, data, begin);
    SliceOfPrefix(all, whole, p, next - p, |all|);
  }

  lemma StopsAtDamage(crc: Crc, file: seq<Byte>, p: nat, q: nat, n: nat, inRecord: bool, scratch: seq<Byte>)
    requires p <= |file| && q == p + |Trailer(p % BLOCK_SIZE)| && IsDamaged(crc, file, file, q, n) && (!inRecord ==> scratch == [])
    requires q % BLOCK_SIZE + HEADER_SIZE + n <= BLOCK_SIZE
    ensures
      var e := Min(BlockEnd(q), |file|);
      var a, b := ReadLogical(crc, true, file, SettledAt(p, file), inRecord, scratch), ReadLogical(crc, true, file, SettledAt(e, file), false, []);
      ComesTo(a, b) && a.reports > b.reports
  {
    hide ReadPhysical, RoundUp, BlockEnd, SettledAt, LoadedAt, Take, IsDamaged, Trailer;
    DamageFacts(crc, file, file, q, n);
    ReachesHeader(crc, true, file, p);
    RejectsDamage(crc, file, q, n);
    TakesBad(inRecord, scratch);
  }

  /** A fragment in front of `q` that is not the last of its record. */
  lemma StepsOverFragment(crc: Crc, whole: seq<Byte>, file: seq<Byte>, p: nat, data: seq<Byte>, begin: bool, scratch: seq<Byte>, q: nat)
    requires p <= |whole| && Fragments(crc, p % BLOCK_SIZE, data, begin) <= whole[p..] && (begin ==> scratch == [])
    requires |file| == |whole| && q <= |whole| && file[..q] == whole[..q]
    requires
      var k := FragmentLength(p % BLOCK_SIZE, |data|);
      k < |data| && p + |Trailer(p % BLOCK_SIZE)| + HEADER_SIZE + k <= q
    ensures
      var k := FragmentLength(p % BLOCK_SIZE, |data|);
      var next := p + |Trailer(p % BLOCK_SIZE)| + HEADER_SIZE + k;
      ReadLogical(crc, true, file, SettledAt(p, file), !begin, scratch) == ReadLogical(crc, true, file, SettledAt(next, file), true, scratch + data[..k])
  {
    hide Physical, Fragments, Trailer, ReadPhysical, Parse, RoundUp, SettledAt, LoadedAt, Take;
    var off := p % BLOCK_SIZE;
    var k := FragmentLength(off, |data|);
    var h := p + |Trailer(off)|;
    var next := h + HEADER_SIZE + k;
    FragmentsFit(crc, p, data, begin);
    HeaderIsAtOffset(p);
    ReachesHeader(crc, true, file, p);
    SliceOfPrefix(Fragments(crc, off, data, begin), whole, p, h - p, next - p);
    SameSlice(file, whole, q, h, next);
    assert file[..|file|] == file;
    ReadsPhysical(crc, true, file, |file|, h, FragmentKind(begin, false), data[..k]);
    TakesFragment(begin, false, data[..k], scratch);
  }

  lemma DamageFacts(crc: Crc, whole: seq<Byte>, file: seq<Byte>, q: nat, n: nat)
    requires IsDamaged(crc, whole, file, q, n)
    ensures |file| == |whole| && q + HEADER_SIZE + n <= |whole| && file[..q] == whole[..q] && IsDamaged(crc, file, file, q, n)
    ensures file[q + HEADER_SIZE + n..] == whole[q + HEADER_SIZE + n..]
  {
    hide DecodeFixed32, Unmask;
  }

  lemma TakesBad(inRecord: bool, scratch: seq<Byte>)
    requires !inRecord ==> scratch == []
    ensures Take(Bad, inRecord, scratch) == GoOn(false, [], if inRecord then 1 else 0)
  {
  }

  /** The records in front of the damaged one read as ever. */
  lemma {:induction false} ReadsBefore(crc: Crc, records: seq<seq<Byte>>, file: seq<Byte>, i: nat, m: nat)
    requires m <= i <= |records| && Boundary(crc, records, i) <= |file| == |LogFile(crc, records)|
    requires file[..Boundary(crc, records, i)] == LogFile(crc, records)[..Boundary(crc, records, i)]
    ensures Boundary(crc, records, m) <= Boundary(crc, records, i)
    ensures
      var a, b := ReadAll(crc, true, file, SettledAt(Boundary(crc, records, m), file)), ReadAll(crc, true, file, SettledAt(Boundary(crc, records, i), file));
      a == Contents(records[m..i] + b.records, b.reports)
    decreases i - m
  {
    hide Fragments, LogFile, SettledAt, ReadLogical;
    var whole, p, next := LogFile(crc, records), Boundary(crc, records, m), Boundary(crc, records, i);
    if m == i {
      var b := ReadAll(crc, true, file, SettledAt(next, file));
      assert records[m..i] + b.records == b.records;
    } else {
      var all := Fragments(crc, p % BLOCK_SIZE, records[m], true);
      RecordsInFile(crc, records, m);
      ReadsBefore(crc, records, file, i, m + 1);
      assert all <= file[p..] by {
        SliceOfPrefix(all, whole, p, 0, |all|);
        SameSlice(file, whole, next, p, p + |all|);
      }
      assert file[..|file|] == file;
      ReadsFragments(crc, true, file, |file|, p, records[m], true, []);
      assert [] + records[m] == records[m];
      assert records[m..i] == [records[m]] + records[m + 1..i];
    }
  }

  /** With a fragment of record `i` damaged, the reader reports it and gets exactly the records in
      front of it and those with their first header in a later block, from record `j` on. */
  lemma DamageCostsItsBlock(crc: Crc, records: seq<seq<Byte>>, file: seq<Byte>, i: nat, q: nat, payload: seq<Byte>) returns (j: nat)
    requires i < |records| && HeaderAt(Boundary(crc, records, i), records[i], q, payload)
    requires IsDamaged(crc, LogFile(crc, records), file, q, |payload|)
    ensures i < j <= |records|
    ensures
      var end := Min(BlockEnd(q), |file|);
      && Boundary(crc, records, j - 1) + HEADER_SIZE <= end
      && (j < |records| ==> end < Boundary(crc, records, j) + HEADER_SIZE)
    ensures
      var r := ReadAll(crc, true, file, START);
      r.records == records[..i] + records[j..] && r.reports > 0
  {
    hide Fragments, LogFile, HeaderAt, IsDamaged, ReadAll, ReadLogical, BlockEnd;
    var whole, p, e := LogFile(crc, records), Boundary(crc, records, i), Min(BlockEnd(q), |file|);
    RecordsInFile(crc, records, i);
    DamageFacts(crc, whole, file, q, |payload|);
    HeaderIsAhead(crc, p, records[i], true, q, payload);
    MeetsDamage(crc, whole, file, p, records[i], true, [], q, payload);
    InItsBlock(q, |payload|);
    SameRecords(crc, true, file, SettledAt(p, file), SettledAt(e, file));
    assert file[e..] == file[q + HEADER_SIZE + |payload|..][e - (q + HEADER_SIZE + |payload|)..] == whole[e..];
    SameAll(crc, true, file, whole, SettledAt(e, file));
    j := FirstBehind(crc, records, e, i + 1);
    ReadsFromBlock(crc, true, records, e, j);
    SameSlice(file, whole, q, 0, p);
    ReadsBefore(crc, records, file, i, 0);
    StartIsSettled(file);
    BeginsAtZero(crc, records);
    assert records[0..i] == records[..i];
  }

  lemma BeginsAtZero(crc: Crc, records: seq<seq<Byte>>)
    ensures Boundary(crc, records, 0) == 0
  {
    assert records[..0] == [];
  }

  /** The first record from `m` on that begins less than a header's size before `e`, or later. */
  lemma {:induction false} FirstBehind(crc: Crc, records: seq<seq<Byte>>, e: nat, m: nat) returns (j: nat)
    requires 0 < m <= |records| && Boundary(crc, records, m - 1) + HEADER_SIZE <= e
    ensures m <= j <= |records| && Boundary(crc, records, j - 1) + HEADER_SIZE <= e
    ensures j < |records| ==> e < Boundary(crc, records, j) + HEADER_SIZE
    decreases |records| - m
  {
    hide LogFile;
    if m < |records| && Boundary(crc, records, m) + HEADER_SIZE <= e {
      j := FirstBehind(crc, records, e, m + 1);
    } else {
      j := m;
    }
  }

  /** So a payload with other bytes, under a checksum that tells both apart, is reported, and neither
      these bytes nor the record they are in get through. */
  lemma AlteredPayload(crc: Crc, records: seq<seq<Byte>>, i: nat, q: nat, payload: seq<Byte>, altered: seq<Byte>) returns (file: seq<Byte>, j: nat)
    requires i < |records| && HeaderAt(Boundary(crc, records, i), records[i], q, payload) && |altered| == |payload|
    requires q + HEADER_SIZE + |payload| <= |LogFile(crc, records)|
    requires
      var kind := LogFile(crc, records)[q + 6];
      crc([kind] + altered) != crc([kind] + payload)
    ensures
      var whole := LogFile(crc, records);
      file == whole[..q + HEADER_SIZE] + altered + whole[q + HEADER_SIZE + |payload|..]
    ensures
      var r := ReadAll(crc, true, file, START);
      i < j <= |records| && r.records == records[..i] + records[j..] && r.reports > 0
  {
    hide Fragments, LogFile, HeaderAt, ReadAll, BlockEnd, DecodeFixed32, Unmask;
    var whole := LogFile(crc, records);
    file := whole[..q + HEADER_SIZE] + altered + whole[q + HEADER_SIZE + |payload|..];
    WrittenAt(crc, records, i, q, payload);
    assert file[q..q + 4] == whole[q..q + 4];
    assert file[q + 6..q + 7 + |payload|] == [whole[q + 6]] + altered;
    j := DamageCostsItsBlock(crc, records, file, i, q, payload);
  }

  /** What stands in front of the payload. */
  lemma WrittenAt(crc: Crc, records: seq<seq<Byte>>, i: nat, q: nat, payload: seq<Byte>)
    requires i < |records| && HeaderAt(Boundary(crc, records, i), records[i], q, payload)
    ensures
      var whole := LogFile(crc, records);
      && q + HEADER_SIZE + |payload| <= |whole| && whole[q + 6] != ZERO
      && whole[q + 4] as int + whole[q + 5] as int * 0x100 == |payload|
      && Unmask(DecodeFixed32(whole[q..q + 4])) == crc([whole[q + 6]] + payload)
  {
    hide Fragments, LogFile, HeaderAt, DecodeFixed32, Unmask;
    RecordsInFile(crc, records, i);
    HeaderWritten(crc, LogFile(crc, records), Boundary(crc, records, i), records[i], true, q, payload);
  }

  lemma KindIsNotZero(begin: bool, end: bool)
    ensures FragmentKind(begin, end) != ZERO
  {
  }

  lemma FieldsAt(crc: Crc, whole: seq<Byte>, q: nat, kind: Byte, payload: seq<Byte>)
    requires |payload| < 0x1_0000 && q + HEADER_SIZE + |payload| <= |whole|
    requires whole[q..q + HEADER_SIZE + |payload|] == Physical(crc, kind, payload)
    ensures whole[q + 6] == kind && whole[q + 4] as int + whole[q + 5] as int * 0x100 == |payload|
    ensures Unmask(DecodeFixed32(whole[q..q + 4])) == crc([kind] + payload)
  {
    hide Physical, DecodeFixed32, Unmask;
    var rest := whole[q + HEADER_SIZE + |payload|..];
    assert whole[q..] == Physical(crc, kind, payload) + rest;
    HeaderFields(crc, kind, payload, rest);
    FirstFour(whole[q..], whole[q..q + 4]);
  }

  lemma {:induction false} HeaderWritten(crc: Crc, whole: seq<Byte>, p: nat, data: seq<Byte>, begin: bool, q: nat, payload: seq<Byte>)
    requires p <= |whole| && Fragments(crc, p % BLOCK_SIZE, data, begin) <= whole[p..] && HeaderAt(p, data, q, payload)
    ensures
      && q + HEADER_SIZE + |payload| <= |whole| && whole[q + 6] != ZERO
      && whole[q + 4] as int + whole[q + 5] as int * 0x100 == |payload|
      && Unmask(DecodeFixed32(whole[q..q + 4])) == crc([whole[q + 6]] + payload)
    decreases |data|, p % BLOCK_SIZE != 0
  {
    hide Fragments, Physical, Trailer, DecodeFixed32, Unmask, FragmentKind;
    var off := p % BLOCK_SIZE;
    var k := FragmentLength(off, |data|);
    var h := p + |Trailer(off)|;
    var next := h + HEADER_SIZE + k;
    var all := Fragments(crc, off, data, begin);
    FragmentsFit(crc, p, data, begin);
    HeaderIsAtOffset(p);
    SliceOfPrefix(all, whole, p, h - p, next - p);
    if q == h {
      FieldsAt(crc, whole, q, FragmentKind(begin, k == |data|), payload);
      KindIsNotZero(begin, k == |data|);
    } else {
      SliceOfPrefix(all, whole, p, next - p, |all|);
      HeaderWritten(crc, whole, next, data[k..], false, q, payload);
    }
  }
}
