/** The outer format of table files: blocks with their trailers, handles that point to them, and the
    footer at the end. */
module TableFormat {
  import opened Keys
  import opened Coding
  import LogFormat

  const TRAILER_SIZE: nat := 5
  const FOOTER_SIZE: nat := 48
  const TABLE_MAGIC: nat := 0xdb47_7524_8b80_fb57
  const LIMIT64: nat := 0x1_0000_0000_0000_0000

  const NO_COMPRESSION: Byte := 0
  const SNAPPY_COMPRESSION: Byte := 1

  /** Snappy, where it is linked in. */
  datatype Codec = Codec(compress: Bytes -> Option<Bytes>, uncompress: Bytes -> Option<Bytes>)

  ghost predicate CodecOk(codec: Codec) {
    forall raw :: codec.compress(raw).Some? ==> codec.uncompress(codec.compress(raw).value) == Some(raw)
  }

  // ---- handles ----

  datatype BlockHandle = BlockHandle(offset: nat, size: nat)

  datatype DecodedHandle = DecodedHandle(handle: BlockHandle, length: nat)

  /** BlockHandle::EncodeTo */
  function EncodeHandle(h: BlockHandle): Bytes {
    Varint(h.offset % LIMIT64) + Varint(h.size % LIMIT64)
  }

  /** BlockHandle::DecodeFrom; what follows the handle is left. */
  function DecodeHandle(input: Bytes): (r: Option<DecodedHandle>)
    ensures r.Some? ==> r.value.length <= |input|
  {
    match Varint64Of(input)
    case None => None
    case Some(a) =>
      match Varint64Of(input[a.length..])
      case None => None
      case Some(b) => Some(DecodedHandle(BlockHandle(a.value, b.value), a.length + b.length))
  }

  lemma HandleRoundTrip(h: BlockHandle, rest: Bytes)
    requires h.offset < LIMIT64 && h.size < LIMIT64
    ensures DecodeHandle(EncodeHandle(h) + rest) == Some(DecodedHandle(h, |EncodeHandle(h)|))
  {
    hide Varint, Varint64Of;
    var a, b := Varint(h.offset), Varint(h.size);
    assert EncodeHandle(h) + rest == a + (b + rest);
    Varint64Back(h.offset, b + rest);
    Varint64Back(h.size, rest);
  }

  lemma HandleFits(h: BlockHandle)
    ensures |EncodeHandle(h)| <= 20
  {
    Varint64Fits(h.offset % LIMIT64);
    Varint64Fits(h.size % LIMIT64);
  }

  // ---- blocks ----

  /** The bytes WriteRawBlock puts behind a block. */
  function Trailer(crc: LogFormat.Crc, contents: Bytes, kind: Byte): (r: Bytes)
    ensures |r| == TRAILER_SIZE
  {
    [kind] + EncodeFixed32(LogFormat.Mask(crc(contents + [kind])))
  }

  datatype BlockRead = BlockContents(data: Bytes) | Corruption(message: string)

  /** RandomAccessFile::Read returns less when the file ends before. */
  function ReadFile(file: Bytes, offset: nat, n: nat): Bytes {
    if offset + n <= |file| then file[offset..offset + n] else if offset <= |file| then file[offset..] else []
  }

  /** ReadBlock, of any file at any handle. */
  function ReadBlock(crc: LogFormat.Crc, codec: Codec, verify: bool, file: Bytes, handle: BlockHandle): BlockRead {
    var n := handle.size;
    var data := ReadFile(file, handle.offset, n + TRAILER_SIZE);
    if |data| != n + TRAILER_SIZE then Corruption("truncated block read")
    else if verify && crc(data[..n + 1]) != LogFormat.Unmask(DecodeFixed32(data[n + 1..])) then Corruption("block checksum mismatch")
    else if data[n] == NO_COMPRESSION then BlockContents(data[..n])
    else if data[n] != SNAPPY_COMPRESSION then Corruption("bad block type")
    else
      match codec.uncompress(data[..n])
      case Some(raw) => BlockContents(raw)
      case None => Corruption("corrupted compressed block contents")
  }

  /** A block that was written reads back, whatever was written behind it. */
  lemma ReadsWritten(crc: LogFormat.Crc, codec: Codec, verify: bool, before: Bytes, contents: Bytes, kind: Byte, rest: Bytes)
    ensures
      var r := ReadBlock(crc, codec, verify, before + contents + Trailer(crc, contents, kind) + rest, BlockHandle(|before|, |contents|));
      && (kind == NO_COMPRESSION ==> r == BlockContents(contents))
      && (kind == SNAPPY_COMPRESSION && codec.uncompress(contents).Some? ==> r == BlockContents(codec.uncompress(contents).value))
  {
    hide EncodeFixed32, DecodeFixed32, LogFormat.Mask, LogFormat.Unmask;
    var n := |contents|;
    var file := before + contents + Trailer(crc, contents, kind) + rest;
    var data := ReadFile(file, |before|, n + TRAILER_SIZE);
    assert data == contents + Trailer(crc, contents, kind);
    assert data[..n] == contents && data[..n + 1] == contents + [kind];
    var sum := crc(contents + [kind]);
    assert data[n + 1..] == EncodeFixed32(LogFormat.Mask(sum)) + [];
    Fixed32RoundTrip(LogFormat.Mask(sum), []);
    LogFormat.UnmaskUndoesMask(sum);
  }

  /** Appending to the file does not touch the blocks it has. */
  lemma ReadBlockKept(crc: LogFormat.Crc, codec: Codec, verify: bool, file: Bytes, more: Bytes, handle: BlockHandle)
    requires handle.offset + handle.size + TRAILER_SIZE <= |file|
    ensures ReadBlock(crc, codec, verify, file + more, handle) == ReadBlock(crc, codec, verify, file, handle)
  {
    var n := handle.size + TRAILER_SIZE;
    assert ReadFile(file + more, handle.offset, n) == ReadFile(file, handle.offset, n);
  }

  /** Whatever the file and the handle: with checking, what is read was written so, trailer included. */
  lemma BlocksAreChecked(crc: LogFormat.Crc, codec: Codec, file: Bytes, h: BlockHandle) returns (stored: Bytes, kind: Byte)
    requires ReadBlock(crc, codec, true, file, h).BlockContents?
    ensures h.offset + h.size + TRAILER_SIZE <= |file| && |stored| == h.size
    ensures file[h.offset..h.offset + h.size + TRAILER_SIZE] == stored + Trailer(crc, stored, kind)
    ensures
      var data := ReadBlock(crc, codec, true, file, h).data;
      (kind == NO_COMPRESSION && data == stored) || (kind == SNAPPY_COMPRESSION && codec.uncompress(stored) == Some(data))
  {
    hide EncodeFixed32, DecodeFixed32, LogFormat.Mask, LogFormat.Unmask;
    var n := h.size;
    var data := ReadFile(file, h.offset, n + TRAILER_SIZE);
    stored, kind := data[..n], data[n];
    assert data[..n + 1] == stored + [kind];
    var word := data[n + 1..];
    var sum := crc(stored + [kind]);
    LogFormat.MaskUndoesUnmask(DecodeFixed32(word));
    Fixed32RoundTrip(LogFormat.Mask(sum), []);
    assert EncodeFixed32(LogFormat.Mask(sum)) + [] == EncodeFixed32(LogFormat.Mask(sum));
    Fixed32Determines(EncodeFixed32(LogFormat.Mask(sum)), word);
    assert word == word[..4] == EncodeFixed32(LogFormat.Mask(sum));
    assert data == stored + Trailer(crc, stored, kind);
  }

  /** So a block with other bytes is refused, if the checksum tells both apart. */
  lemma AlteredBlock(crc: LogFormat.Crc, codec: Codec, before: Bytes, contents: Bytes, altered: Bytes, kind: Byte, rest: Bytes)
    requires |altered| == |contents| && crc(altered + [kind]) != crc(contents + [kind])
    ensures ReadBlock(crc, codec, true, before + altered + Trailer(crc, contents, kind) + rest, BlockHandle(|before|, |contents|)) ==
      Corruption("block checksum mismatch")
  {
    hide EncodeFixed32, DecodeFixed32, LogFormat.Mask, LogFormat.Unmask;
    var n := |contents|;
    var file := before + altered + Trailer(crc, contents, kind) + rest;
    var data := ReadFile(file, |before|, n + TRAILER_SIZE);
    assert data == altered + Trailer(crc, contents, kind);
    assert data[..n + 1] == altered + [kind];
    var sum := crc(contents + [kind]);
    assert data[n + 1..] == EncodeFixed32(LogFormat.Mask(sum)) + [];
    Fixed32RoundTrip(LogFormat.Mask(sum), []);
    LogFormat.UnmaskUndoesMask(sum);
  }

  // ---- the footer ----

  /** Footer::EncodeTo pads the handles to twice the longest handle. */
  function EncodeFooter(metaindex: BlockHandle, index: BlockHandle): Bytes {
    var handles := EncodeHandle(metaindex) + EncodeHandle(index);
    handles + LogFormat.Zeros(if |handles| <= 40 then 40 - |handles| else 0) + EncodeFixed64(TABLE_MAGIC)
  }

  datatype FooterRead = Footer(metaindex: BlockHandle, index: BlockHandle) | BadFooter(message: string)

  /** Footer::DecodeFrom */
  function DecodeFooter(input: Bytes): FooterRead
    requires |input| == FOOTER_SIZE
  {
    if DecodeFixed64(input[40..]) != TABLE_MAGIC then BadFooter("not an sstable (bad magic number)")
    else
      match DecodeHandle(input)
      case None => BadFooter("bad block handle")
      case Some(a) =>
        match DecodeHandle(input[a.length..])
        case None => BadFooter("bad block handle")
        case Some(b) => Footer(a.handle, b.handle)
  }

  /** What Table::Open makes of the end of any file. */
  function ReadFooter(file: Bytes): FooterRead {
    if |file| < FOOTER_SIZE then BadFooter("file is too short to be an sstable")
    else DecodeFooter(file[|file| - FOOTER_SIZE..])
  }

  lemma FooterSize(metaindex: BlockHandle, index: BlockHandle)
    ensures |EncodeFooter(metaindex, index)| == FOOTER_SIZE
  {
    HandleFits(metaindex);
    HandleFits(index);
  }

  lemma FooterRoundTrip(file: Bytes, metaindex: BlockHandle, index: BlockHandle)
    requires metaindex.offset < LIMIT64 && metaindex.size < LIMIT64 && index.offset < LIMIT64 && index.size < LIMIT64
    ensures ReadFooter(file + EncodeFooter(metaindex, index)) == Footer(metaindex, index)
  {
    hide EncodeHandle, DecodeHandle, EncodeFixed64, DecodeFixed64;
    HandleFits(metaindex);
    HandleFits(index);
    FooterSize(metaindex, index);
    var a, b := EncodeHandle(metaindex), EncodeHandle(index);
    var footer := EncodeFooter(metaindex, index);
    var tail := footer[|a| + |b|..];
    assert footer == a + (b + tail);
    HandleRoundTrip(metaindex, b + tail);
    assert footer[|a|..] == b + tail;
    HandleRoundTrip(index, tail);
    Fixed64RoundTrip(TABLE_MAGIC, []);
    assert footer[40..] == EncodeFixed64(TABLE_MAGIC) + [];
    assert (file + footer)[|file|..] == footer;
  }

  lemma MagicBytes()
    ensures EncodeFixed64(TABLE_MAGIC) == [0x57, 0xfb, 0x80, 0x8b, 0x24, 0x75, 0x47, 0xdb]
  {
    assert EncodeFixed32(0x8b80_fb57) == [0x57, 0xfb, 0x80, 0x8b];
    assert EncodeFixed32(0xdb47_7524) == [0x24, 0x75, 0x47, 0xdb];
  }

  /** The last 48 bytes of a table: the handles, where the metaindex comes first and an offset before
      its size; zeros; and the magic number. */
  lemma FooterOnDisk(metaindex: BlockHandle, index: BlockHandle)
    ensures
      var footer := EncodeFooter(metaindex, index);
      && |footer| == 48 && footer[40..] == [0x57, 0xfb, 0x80, 0x8b, 0x24, 0x75, 0x47, 0xdb]
      && (metaindex.offset < 128 && metaindex.size < 128 && index.offset < 128 && index.size < 128 ==>
            && footer[..4] == [metaindex.offset, metaindex.size, index.offset, index.size]
            && forall i :: 4 <= i < 40 ==> footer[i] == 0)
  {
    hide EncodeHandle, EncodeFixed64;
    HandleFits(metaindex);
    HandleFits(index);
    MagicBytes();
    if metaindex.offset < 128 && metaindex.size < 128 && index.offset < 128 && index.size < 128 {
      ShortHandle(metaindex);
      ShortHandle(index);
      assert EncodeHandle(metaindex) + EncodeHandle(index) == [metaindex.offset, metaindex.size, index.offset, index.size];
    }
  }

  lemma ShortHandle(h: BlockHandle)
    requires h.offset < 128 && h.size < 128
    ensures EncodeHandle(h) == [h.offset, h.size]
  {
  }
}
