/** The log's physical format: blocks of 32768 bytes holding records with a 7-byte header, which
    never cross a block's end. */
module LogFormat {
  import opened Keys
  import opened Coding
  import Bits

  const BLOCK_SIZE: nat := 32768
  const HEADER_SIZE: nat := 7

  const ZERO: Byte := 0
  const FULL: Byte := 1
  const FIRST: Byte := 2
  const MIDDLE: Byte := 3
  const LAST: Byte := 4

  /** The checksum of a record's type byte and payload. */
  type Crc = seq<Byte> -> Word

  const MASK_DELTA: Word := 0xa282_ead8

  /** Rotate right by 15 bits and add a constant, in 32 bits. */
  function Mask(crc: Word): Word {
    (crc / 0x8000 + crc % 0x8000 * 0x2_0000 + MASK_DELTA) % 0x1_0000_0000
  }

  function Unmask(masked: Word): Word {
    var rot := (masked + 0x1_0000_0000 - MASK_DELTA) % 0x1_0000_0000;
    rot / 0x2_0000 + rot % 0x2_0000 * 0x8000
  }

  lemma UnmaskUndoesMask(crc: Word)
    ensures Unmask(Mask(crc)) == crc
  {
    var rot := crc / 0x8000 + crc % 0x8000 * 0x2_0000;
    assert crc / 0x8000 < 0x2_0000;
    assert rot < 0x1_0000_0000;
    assert rot / 0x2_0000 == crc % 0x8000 && rot % 0x2_0000 == crc / 0x8000;
  }

  lemma MaskUndoesUnmask(masked: Word)
    ensures Mask(Unmask(masked)) == masked
  {
    var rot := (masked + 0x1_0000_0000 - MASK_DELTA) % 0x1_0000_0000;
    var crc := Unmask(masked);
    assert crc == rot / 0x2_0000 + rot % 0x2_0000 * 0x8000;
    assert rot / 0x2_0000 < 0x8000;
    assert crc / 0x8000 == rot % 0x2_0000 && crc % 0x8000 == rot / 0x2_0000;
  }

  /** EmitPhysicalRecord */
  function Physical(crc: Crc, kind: Byte, data: seq<Byte>): (r: seq<Byte>)
    requires |data| < 0x1_0000
    ensures |r| == HEADER_SIZE + |data|
  {
    EncodeFixed32(Mask(crc([kind] + data))) + [|data| % 0x100, |data| / 0x100, kind] + data
  }

  function Zeros(n: nat): (r: seq<Byte>)
    ensures |r| == n
  {
    seq(n, _ => 0)
  }

  /** The bytes that fill up a block in which no header fits any more. */
  function Trailer(offset: nat): (r: seq<Byte>)
    requires offset <= BLOCK_SIZE
    ensures |r| < HEADER_SIZE
  {
    if BLOCK_SIZE - offset < HEADER_SIZE then Zeros(BLOCK_SIZE - offset) else []
  }

  /** Where in its block the next header goes. */
  function HeaderOffset(offset: nat): (o: nat)
    requires offset <= BLOCK_SIZE
    ensures o + HEADER_SIZE <= BLOCK_SIZE
  {
    if BLOCK_SIZE - offset < HEADER_SIZE then 0 else offset
  }

  function FragmentLength(offset: nat, left: nat): (n: nat)
    requires offset <= BLOCK_SIZE
    ensures n <= left && HeaderOffset(offset) + HEADER_SIZE + n <= BLOCK_SIZE
  {
    var avail := BLOCK_SIZE - HeaderOffset(offset) - HEADER_SIZE;
    if left < avail then left else avail
  }

  function FragmentKind(begin: bool, end: bool): Byte {
    if begin && end then FULL else if begin then FIRST else if end then LAST else MIDDLE
  }

  /** What AddRecord appends from a block offset on: trailers and the fragments of `data`. */
  function Fragments(crc: Crc, offset: nat, data: seq<Byte>, begin: bool): (r: seq<Byte>)
    requires offset <= BLOCK_SIZE
    decreases |data|, BLOCK_SIZE - offset
  {
    var n := FragmentLength(offset, |data|);
    Trailer(offset) + Physical(crc, FragmentKind(begin, n == |data|), data[..n])
    + if n == |data| then [] else Fragments(crc, HeaderOffset(offset) + HEADER_SIZE + n, data[n..], false)
  }

  /** One turn of AddRecord's loop. */
  lemma FragmentsUnfold(crc: Crc, offset: nat, data: seq<Byte>, begin: bool)
    requires offset <= BLOCK_SIZE
    ensures
      var n := FragmentLength(offset, |data|);
      var end := n == |data|;
      var first := Trailer(offset) + Physical(crc, FragmentKind(begin, end), data[..n]);
      Fragments(crc, offset, data, begin) ==
        first + if end then [] else Fragments(crc, HeaderOffset(offset) + HEADER_SIZE + n, data[n..], false)
  {
  }

  /** A full block and a new one are the same place. */
  lemma EndOfBlockIsStart(crc: Crc, data: seq<Byte>, begin: bool)
    ensures Fragments(crc, BLOCK_SIZE, data, begin) == Fragments(crc, 0, data, begin)
  {
  }

  lemma WrappedOffset(crc: Crc, offset: nat, data: seq<Byte>, begin: bool)
    requires offset <= BLOCK_SIZE
    ensures Fragments(crc, offset, data, begin) == Fragments(crc, offset % BLOCK_SIZE, data, begin)
  {
    hide Fragments;
    if offset == BLOCK_SIZE {
      EndOfBlockIsStart(crc, data, begin);
    } else {
      assert offset % BLOCK_SIZE == offset;
    }
  }

  lemma Advance(a: nat, b: nat, k: nat)
    requires a % BLOCK_SIZE == b % BLOCK_SIZE
    ensures (a + k) % BLOCK_SIZE == (b + k) % BLOCK_SIZE
  {
  }

  /** A log file that was written in one session. */
  function LogFile(crc: Crc, records: seq<seq<Byte>>): seq<Byte> {
    if records == [] then []
    else
      var before := LogFile(crc, records[..|records| - 1]);
      before + Fragments(crc, |before| % BLOCK_SIZE, records[|records| - 1], true)
  }

  // ---- on disk ----

  /** The stored checksum is the checksum rotated right by 15 bits, and a constant more. */
  lemma MaskRotates(crc: Word) returns (rotated: Word)
    ensures Mask(crc) == (rotated + 0xa282_ead8) % 0x1_0000_0000
    ensures forall i: nat :: i < 32 ==> (Bits.TestBit(rotated, i) <==> Bits.TestBit(crc, (i + 15) % 32))
  {
    rotated := crc / 0x8000 + crc % 0x8000 * 0x2_0000;
    forall i: nat | i < 32 ensures Bits.TestBit(rotated, i) <==> Bits.TestBit(crc, (i + 15) % 32) {
      Bits.RotateBy15(crc, i);
    }
  }

  /** A record that fits its block: checksum, length, type 1, payload. */
  lemma WholeOnDisk(crc: Crc, offset: nat, data: seq<Byte>)
    requires offset + 7 + |data| <= 32768
    ensures Fragments(crc, offset, data, true) == EncodeFixed32(Mask(crc([1] + data))) + [|data| % 0x100, |data| / 0x100, 1] + data
  {
    hide Mask, EncodeFixed32;
    assert data[..|data|] == data;
  }

  lemma PartIsPhysical(crc: Crc, offset: nat, data: seq<Byte>, begin: bool, n: nat, kind: Byte)
    requires offset + 7 <= 32768 && (begin ==> 32768 < offset + 7 + |data|)
    requires n == if offset + 7 + |data| <= 32768 then |data| else 32768 - 7 - offset
    requires kind == if begin then 2 else if n == |data| then 4 else 3
    ensures Fragments(crc, offset, data, begin) ==
      Physical(crc, kind, data[..n]) + if n == |data| then [] else Fragments(crc, 0, data[n..], false)
  {
    hide Fragments, Physical;
    FragmentsUnfold(crc, offset, data, begin);
    var first := Physical(crc, kind, data[..n]);
    assert Trailer(offset) + first == first;
    if n < |data| {
      EndOfBlockIsStart(crc, data[n..], false);
    }
  }

  /** One that does not is cut where the block ends: first type 2, then 3 as long as more follows, at
      last 4. */
  lemma PartOnDisk(crc: Crc, offset: nat, data: seq<Byte>, begin: bool)
    requires offset + 7 <= 32768 && (begin ==> 32768 < offset + 7 + |data|)
    ensures
      var n := if offset + 7 + |data| <= 32768 then |data| else 32768 - 7 - offset;
      var kind: Byte := if begin then 2 else if n == |data| then 4 else 3;
      Fragments(crc, offset, data, begin) ==
        EncodeFixed32(Mask(crc([kind] + data[..n]))) + [n % 0x100, n / 0x100, kind] + data[..n]
        + if n == |data| then [] else Fragments(crc, 0, data[n..], false)
  {
    hide Mask, EncodeFixed32, Fragments, FragmentLength, FragmentKind, Trailer;
    var n := if offset + 7 + |data| <= 32768 then |data| else 32768 - 7 - offset;
    var kind: Byte := if begin then 2 else if n == |data| then 4 else 3;
    PartIsPhysical(crc, offset, data, begin, n, kind);
  }

  /** Fewer than seven bytes at the end of a block are zero. */
  lemma TrailerOnDisk(crc: Crc, offset: nat, data: seq<Byte>, begin: bool)
    requires 32768 - 7 < offset <= 32768
    ensures Fragments(crc, offset, data, begin) == seq(32768 - offset, _ => 0) + Fragments(crc, 0, data, begin)
  {
    hide Physical, Fragments;
    var n := FragmentLength(0, |data|);
    var t, first := Trailer(offset), Physical(crc, FragmentKind(begin, n == |data|), data[..n]);
    var rest := if n == |data| then [] else Fragments(crc, HEADER_SIZE + n, data[n..], false);
    FragmentsUnfold(crc, offset, data, begin);
    FragmentsUnfold(crc, 0, data, begin);
    assert Fragments(crc, 0, data, begin) == [] + first + rest;
    assert Fragments(crc, offset, data, begin) == t + first + rest;
    assert t + first + rest == t + ([] + first + rest);
    assert t == seq(32768 - offset, _ => 0);
  }
}
