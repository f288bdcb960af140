/** log::Writer */
module LogWriter {
  import opened Keys
  import opened Coding
  import opened LogFormat

  class Writer {
    const crc: Crc
    var dest: seq<Byte>
    var blockOffset: nat

    predicate Ok()
      reads this
    {
      blockOffset <= BLOCK_SIZE && blockOffset % BLOCK_SIZE == |dest| % BLOCK_SIZE
    }

    constructor (crc: Crc)
      ensures Ok() && dest == [] && this.crc == crc
    {
      this.crc, dest, blockOffset := crc, [], 0;
    }

    /** The constructor that goes on with a file whose contents are there already. */
    constructor Reopen(crc: Crc, contents: seq<Byte>)
      ensures Ok() && dest == contents && this.crc == crc
    {
      this.crc, dest, blockOffset := crc, contents, |contents| % BLOCK_SIZE;
    }

    method EmitPhysicalRecord(kind: Byte, data: seq<Byte>)
      requires Ok() && blockOffset + HEADER_SIZE + |data| <= BLOCK_SIZE
      modifies this
      ensures Ok()
      ensures dest == old(dest) + Physical(crc, kind, data)
      ensures blockOffset == old(blockOffset) + HEADER_SIZE + |data|
    {
      hide Mask, EncodeFixed32;
      Advance(blockOffset, |dest|, HEADER_SIZE + |data|);
      var header := EncodeFixed32(Mask(crc([kind] + data))) + [|data| % 0x100, |data| / 0x100, kind];
      dest := dest + header;
      dest := dest + data;
      blockOffset := blockOffset + HEADER_SIZE + |data|;
    }

    method AddRecord(record: seq<Byte>)
      requires Ok()
      modifies this
      ensures Ok()
      ensures dest == old(dest) + Fragments(crc, |old(dest)| % BLOCK_SIZE, record, true)
    {
      hide Fragments, Physical, Trailer;
      var left := record;
      var begin := true;
      var done := false;
      ghost var whole := dest + Fragments(crc, blockOffset, record, true);
      WrappedOffset(crc, blockOffset, record, true);
      while !done
        invariant Ok()
        invariant whole == dest + if done then [] else Fragments(crc, blockOffset, left, begin)
        decreases !done, |left|, BLOCK_SIZE - blockOffset
      {
        FragmentsUnfold(crc, blockOffset, left, begin);
        var fragmentLength := EmitFragment(left, begin);
        left := left[fragmentLength..];
        begin := false;
        done := left == [];
      }
    }

    /** The body of AddRecord's loop, up to the moving of the pointer. */
    method EmitFragment(left: seq<Byte>, begin: bool) returns (fragmentLength: nat)
      requires Ok()
      modifies this
      ensures Ok()
      ensures fragmentLength == FragmentLength(old(blockOffset), |left|)
      ensures blockOffset == HeaderOffset(old(blockOffset)) + HEADER_SIZE + fragmentLength
      ensures dest == old(dest) + (Trailer(old(blockOffset)) + Physical(crc, FragmentKind(begin, fragmentLength == |left|), left[..fragmentLength]))
    {
      hide Physical;
      SwitchBlock();
      var avail := BLOCK_SIZE - blockOffset - HEADER_SIZE;
      fragmentLength := if |left| < avail then |left| else avail;
      var end := |left| == fragmentLength;
      var kind := FragmentKind(begin, end);
      EmitPhysicalRecord(kind, left[..fragmentLength]);
    }

    /** Fills up a block in which no header fits any more. */
    method SwitchBlock()
      requires Ok()
      modifies this
      ensures Ok() && dest == old(dest) + Trailer(old(blockOffset)) && blockOffset == HeaderOffset(old(blockOffset))
    {
      var leftover := BLOCK_SIZE - blockOffset;
      if leftover < HEADER_SIZE {
        Advance(blockOffset, |dest|, leftover);
        if leftover > 0 {
          dest := dest + Zeros(leftover);
        }
        blockOffset := 0;
      }
    }
  }
}
