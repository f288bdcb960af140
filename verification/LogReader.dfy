/** log::Reader with an initial offset of 0, as recovery opens it. */
module LogReader {
  import opened Coding
  import opened Keys
  import opened LogFormat

  // ---- reading, as functions of the file ----

  /** The buffer holds the file's bytes from `pos` up to `end`, where the next read will start;
      `eof` says the last read was a short one. */
  datatype Source = Source(pos: nat, end: nat, eof: bool)

  datatype Fragment = Eof | Bad | Fragment(kind: Byte, data: seq<Byte>)

  datatype PhysicalRead = PhysicalRead(fragment: Fragment, source: Source, reports: nat)

  predicate Within(s: Source, file: seq<Byte>) {
    s.pos <= s.end <= |file|
  }

  function Refill(file: seq<Byte>, s: Source): (r: Source)
    requires Within(s, file)
    ensures Within(r, file)
  {
    var e := if s.end + BLOCK_SIZE <= |file| then s.end + BLOCK_SIZE else |file|;
    Source(s.end, e, e - s.end < BLOCK_SIZE)
  }

  datatype Parsed = Parsed(fragment: Fragment, consumed: nat, reports: nat)

  /** Parses the record at the front of a buffer that holds a header at least. */
  function Parse(crc: Crc, checksum: bool, buffer: seq<Byte>, eof: bool): (r: Parsed)
    requires |buffer| >= HEADER_SIZE
    ensures HEADER_SIZE <= r.consumed <= |buffer|
  {
    var length := buffer[4] + buffer[5] as int * 0x100;
    var kind := buffer[6];
    if HEADER_SIZE + length > |buffer| then
      if !eof then Parsed(Bad, |buffer|, 1) else Parsed(Eof, |buffer|, 0)
    else if kind == ZERO && length == 0 then Parsed(Bad, |buffer|, 0)
    else if checksum && crc(buffer[6..7 + length]) != Unmask(DecodeFixed32(buffer)) then Parsed(Bad, |buffer|, 1)
    else Parsed(Fragment(kind, buffer[7..7 + length]), HEADER_SIZE + length, 0)
  }

  /** ReadPhysicalRecord */
  function ReadPhysical(crc: Crc, checksum: bool, file: seq<Byte>, s: Source): (r: PhysicalRead)
    requires Within(s, file)
    ensures Within(r.source, file) && (r.fragment.Eof? || s.pos < r.source.pos)
    decreases |file| - s.end, !s.eof
  {
    if s.end - s.pos >= HEADER_SIZE then
      var p := Parse(crc, checksum, file[s.pos..s.end], s.eof);
      PhysicalRead(p.fragment, s.(pos := s.pos + p.consumed), p.reports)
    else if s.eof then PhysicalRead(Eof, Source(s.end, s.end, true), 0)
    else ReadPhysical(crc, checksum, file, Refill(file, s))
  }

  /** What ReadRecord does next: it has its answer, or goes on with this much put together. */
  datatype Progress =
    | Done(record: Option<seq<Byte>>, reports: nat)
    | GoOn(inRecord: bool, scratch: seq<Byte>, reports: nat)

  function Take(fragment: Fragment, inRecord: bool, scratch: seq<Byte>): Progress {
    match fragment
    case Eof => Done(None, 0)
    case Bad => if inRecord then GoOn(false, [], 1) else GoOn(false, scratch, 0)
    case Fragment(kind, data) =>
      if kind == FULL then Done(Some(data), if inRecord && scratch != [] then 1 else 0)
      else if kind == FIRST then GoOn(true, data, if inRecord && scratch != [] then 1 else 0)
      else if kind == MIDDLE then if inRecord then GoOn(true, scratch + data, 0) else GoOn(false, scratch, 1)
      else if kind == LAST then if inRecord then Done(Some(scratch + data), 0) else GoOn(false, scratch, 1)
      else GoOn(false, [], 1)
  }

  datatype LogicalRead = LogicalRead(record: Option<seq<Byte>>, source: Source, reports: nat)

  /** ReadRecord, from the middle of a fragmented record or not. */
  function ReadLogical(crc: Crc, checksum: bool, file: seq<Byte>, s: Source, inRecord: bool, scratch: seq<Byte>): (r: LogicalRead)
    requires Within(s, file)
    ensures Within(r.source, file) && (r.record.Some? ==> s.pos < r.source.pos)
    decreases |file| - s.pos
  {
    var p := ReadPhysical(crc, checksum, file, s);
    var t := Take(p.fragment, inRecord, scratch);
    match t
    case Done(record, more) => LogicalRead(record, p.source, p.reports + more)
    case GoOn(inRecord', scratch', more) =>
      var r := ReadLogical(crc, checksum, file, p.source, inRecord', scratch');
      r.(reports := p.reports + more + r.reports)
  }

  datatype Contents = Contents(records: seq<seq<Byte>>, reports: nat)

  /** Everything a loop over ReadRecord gets out of a file, and how often corruption is reported. */
  function ReadAll(crc: Crc, checksum: bool, file: seq<Byte>, s: Source): Contents
    requires Within(s, file)
    decreases |file| - s.pos
  {
    var r := ReadLogical(crc, checksum, file, s, false, []);
    match r.record
    case None => Contents([], r.reports)
    case Some(record) =>
      var rest := ReadAll(crc, checksum, file, r.source);
      Contents([record] + rest.records, r.reports + rest.reports)
  }

  const START := Source(0, 0, false)

  // ---- the class ----

  class Reader {
    const crc: Crc
    const checksum: bool
    const file: seq<Byte>
    var filePos: nat
    var buffer: seq<Byte>
    var eof: bool
    var reports: nat    // calls of the reporter

    predicate Ok()
      reads this
    {
      filePos <= |file| && |buffer| <= filePos && buffer == file[filePos - |buffer|..filePos]
    }

    function At(): Source
      requires Ok()
      reads this
    {
      Source(filePos - |buffer|, filePos, eof)
    }

    constructor (crc: Crc, checksum: bool, file: seq<Byte>)
      ensures Ok() && At() == START && reports == 0
      ensures this.crc == crc && this.checksum == checksum && this.file == file
    {
      this.crc, this.checksum, this.file := crc, checksum, file;
      filePos, buffer, eof, reports := 0, [], false, 0;
    }

    /** Reads the next block once fewer bytes than a header are left of this one. */
    method ReadBlock()
      requires Ok() && !eof
      modifies this`filePos, this`buffer, this`eof
      ensures Ok() && At() == Refill(file, old(At()))
    {
      var e := if filePos + BLOCK_SIZE <= |file| then filePos + BLOCK_SIZE else |file|;
      buffer := file[filePos..e];
      filePos := e;
      if |buffer| < BLOCK_SIZE {
        eof := true;
      }
    }

    /** The part of ReadPhysicalRecord behind the refilling. */
    method ParseHeader() returns (result: Fragment)
      requires Ok() && |buffer| >= HEADER_SIZE
      modifies this`buffer, this`reports
      ensures Ok()
      ensures var p := Parse(crc, checksum, old(buffer), eof);
        result == p.fragment && buffer == old(buffer)[p.consumed..] && reports == old(reports) + p.reports
    {
      var length := buffer[4] + buffer[5] as int * 0x100;
      var kind := buffer[6];
      if HEADER_SIZE + length > |buffer| {
        buffer := [];
        if !eof {
          reports := reports + 1;
          return Bad;
        }
        return Eof;
      }
      if kind == ZERO && length == 0 {
        buffer := [];
        return Bad;
      }
      if checksum {
        var expected := Unmask(DecodeFixed32(buffer));
        var actual := crc(buffer[6..7 + length]);
        if actual != expected {
          buffer := [];
          reports := reports + 1;
          return Bad;
        }
      }
      result := Fragment(kind, buffer[7..7 + length]);
      buffer := buffer[HEADER_SIZE + length..];
    }

    method ReadPhysicalRecord() returns (result: Fragment)
      requires Ok()
      modifies this
      ensures Ok()
      ensures var p := ReadPhysical(crc, checksum, file, old(At()));
        result == p.fragment && At() == p.source && reports == old(reports) + p.reports
    {
      hide Parse;
      while |buffer| < HEADER_SIZE
        invariant Ok() && reports == old(reports)
        invariant ReadPhysical(crc, checksum, file, At()) == ReadPhysical(crc, checksum, file, old(At()))
        decreases |file| - filePos, !eof
      {
        if !eof {
          ReadBlock();
        } else {
          buffer := [];
          return Eof;
        }
      }
      result := ParseHeader();
    }

    method ReadRecord() returns (record: Option<seq<Byte>>)
      requires Ok()
      modifies this
      ensures Ok()
      ensures var r := ReadLogical(crc, checksum, file, old(At()), false, []);
        record == r.record && At() == r.source && reports == old(reports) + r.reports
    {
      hide ReadPhysical;
      var scratch: seq<Byte> := [];
      var inRecord := false;
      ghost var goal := ReadLogical(crc, checksum, file, At(), false, []);
      while true
        invariant Ok() && Within(At(), file) && old(reports) <= reports
        invariant var r := ReadLogical(crc, checksum, file, At(), inRecord, scratch);
          r.record == goal.record && r.source == goal.source && reports + r.reports == old(reports) + goal.reports
        decreases |file| - At().pos
      {
        var fragment := ReadPhysicalRecord();
        var progress := TakeFragment(fragment, inRecord, scratch);
        match progress {
          case Done(r, _) =>
            return r;
          case GoOn(i, s, _) =>
            inRecord, scratch := i, s;
        }
      }
      return None;
    }

    /** The switch over the record type. */
    method TakeFragment(fragment: Fragment, inRecord: bool, scratch: seq<Byte>) returns (r: Progress)
      modifies this`reports
      ensures r == Take(fragment, inRecord, scratch) && reports == old(reports) + r.reports
    {
      var dropped := 0;
      match fragment {
        case Eof =>
          r := Done(None, 0);
        case Bad =>
          if inRecord {
            dropped := 1;
            r := GoOn(false, [], 1);
          } else {
            r := GoOn(false, scratch, 0);
          }
        case Fragment(kind, data) =>
          if kind == FULL {
            if inRecord && scratch != [] {
              dropped := 1;
            }
            r := Done(Some(data), dropped);
          } else if kind == FIRST {
            if inRecord && scratch != [] {
              dropped := 1;
            }
            r := GoOn(true, data, dropped);
          } else if kind == MIDDLE {
            if !inRecord {
              dropped := 1;
              r := GoOn(false, scratch, 1);
            } else {
              r := GoOn(true, scratch + data, 0);
            }
          } else if kind == LAST {
            if !inRecord {
              dropped := 1;
              r := GoOn(false, scratch, 1);
            } else {
              r := Done(Some(scratch + data), 0);
            }
          } else {
            dropped := 1;
            r := GoOn(false, [], 1);
          }
      }
      reports := reports + dropped;
    }
  }
}
