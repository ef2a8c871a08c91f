/**
 The ID3v2.3.0 tag: its header (section 3.1 of the ID3v2.3.0 informal standard), its frame
 headers (section 3.3), and the frame data the program writes.
 */
module Id3Format {
  import opened Wrappers
  import opened Streams

  const HEADER_SIZE: nat := 10

  /** Tag sizes are 28-bit numbers. */
  const MAX_TAG_SIZE: nat := 0x1000_0000

  const MAX_FRAME_SIZE: nat := 0x1_0000_0000

  // ---------- the tag header

  datatype TagHeader = TagHeader(flags: Byte, size: nat)

  /** Four bytes of seven bits each, most significant first. */
  function Synchsafe(n: nat): seq<Byte>
    requires n < MAX_TAG_SIZE
  {
    [n / 2097152, n / 16384 % 128, n / 128 % 128, n % 128]
  }

  function FromSynchsafe(b: seq<Byte>): nat
    requires |b| == 4
  {
    b[0] as int * 2097152 + b[1] as int * 16384 + b[2] as int * 128 + b[3] as int
  }

  function EncodeTagHeader(h: TagHeader): seq<Byte>
    requires h.size < MAX_TAG_SIZE
  {
    [0x49, 0x44, 0x33, 3, 0, h.flags] + Synchsafe(h.size)
  }

  predicate IsTagHeader(b: seq<Byte>)
    requires |b| >= HEADER_SIZE
  {
    && b[0] == 0x49 && b[1] == 0x44 && b[2] == 0x33
    && b[3] != 0xff && b[4] != 0xff
    && b[6] < 0x80 && b[7] < 0x80 && b[8] < 0x80 && b[9] < 0x80
  }

  function DecodeTagHeader(b: seq<Byte>): Option<TagHeader>
    requires |b| >= HEADER_SIZE
  {
    if IsTagHeader(b) then Some(TagHeader(b[5], FromSynchsafe(b[6..10]))) else None
  }

  lemma TagHeaderRoundTrip(h: TagHeader, more: seq<Byte>)
    requires h.size < MAX_TAG_SIZE
    ensures |EncodeTagHeader(h)| == HEADER_SIZE
    ensures DecodeTagHeader(EncodeTagHeader(h) + more) == Some(h)
  {
    var b := EncodeTagHeader(h) + more;
    assert b[6..10] == Synchsafe(h.size);
    var n := h.size;
    assert n / 128 == n / 16384 * 128 + n / 128 % 128;
    assert n / 16384 == n / 2097152 * 128 + n / 16384 % 128;
  }

  /** Byte by byte: "ID3", version 3.0, the flags, and the size in four times seven bits. */
  lemma TagHeaderLayout(h: TagHeader)
    requires h.size < MAX_TAG_SIZE
    ensures var b := EncodeTagHeader(h);
      && |b| == 10 && b[0] == 0x49 && b[1] == 0x44 && b[2] == 0x33 && b[3] == 3 && b[4] == 0 && b[5] == h.flags
      && b[6] < 128 && b[7] < 128 && b[8] < 128 && b[9] < 128
      && h.size == 2097152 * (b[6] as int) + 16384 * (b[7] as int) + 128 * (b[8] as int) + (b[9] as int)
  {
    var n := h.size;
    assert n / 128 == n / 16384 * 128 + n / 128 % 128;
    assert n / 16384 == n / 2097152 * 128 + n / 16384 % 128;
  }

  /** What counts as a tag header, and the size it states. */
  lemma TagHeaderMeans(b: seq<Byte>)
    requires |b| >= 10
    ensures IsTagHeader(b) <==>
            && b[..3] == [0x49, 0x44, 0x33] && b[3] < 0xff && b[4] < 0xff
            && b[6] < 0x80 && b[7] < 0x80 && b[8] < 0x80 && b[9] < 0x80
    ensures DecodeTagHeader(b).Some? <==> IsTagHeader(b)
    ensures IsTagHeader(b) ==>
              && DecodeTagHeader(b).value.flags == b[5]
              && DecodeTagHeader(b).value.size ==
                 2097152 * (b[6] as int) + 16384 * (b[7] as int) + 128 * (b[8] as int) + (b[9] as int)
  {
    assert b[..3][0] == b[0] && b[..3][1] == b[1] && b[..3][2] == b[2];
    assert b[6..10][0] == b[6] && b[6..10][1] == b[7] && b[6..10][2] == b[8] && b[6..10][3] == b[9];
  }

  predicate HasExtendedHeader(h: TagHeader) {
    h.flags / 64 % 2 == 1
  }

  // ---------- frame headers

  /** A frame header; the description is kept for TXXX frames and not part of its ten bytes. */
  datatype FrameHeader = FrameHeader(id: seq<Byte>, size: nat, flags: seq<Byte>, description: seq<Byte>)

  predicate WellFormed(h: FrameHeader) {
    |h.id| == 4 && |h.flags| == 2 && h.size < MAX_FRAME_SIZE
  }

  function BigEndian(n: nat): seq<Byte>
    requires n < MAX_FRAME_SIZE
  {
    [n / 16777216, n / 65536 % 256, n / 256 % 256, n % 256]
  }

  function FromBigEndian(b: seq<Byte>): nat
    requires |b| == 4
  {
    b[0] as int * 16777216 + b[1] as int * 65536 + b[2] as int * 256 + b[3] as int
  }

  function EncodeFrameHeader(h: FrameHeader): seq<Byte>
    requires WellFormed(h)
  {
    h.id + BigEndian(h.size) + h.flags
  }

  function DecodeFrameHeader(b: seq<Byte>): FrameHeader
    requires |b| >= HEADER_SIZE
  {
    FrameHeader(b[..4], FromBigEndian(b[4..8]), b[8..10], [])
  }

  lemma FrameHeaderRoundTrip(h: FrameHeader, more: seq<Byte>)
    requires WellFormed(h)
    ensures |EncodeFrameHeader(h)| == HEADER_SIZE
    ensures DecodeFrameHeader(EncodeFrameHeader(h) + more) == h.(description := [])
  {
    var b := EncodeFrameHeader(h) + more;
    assert b[..4] == h.id && b[4..8] == BigEndian(h.size) && b[8..10] == h.flags;
    var n := h.size;
    assert n / 256 == n / 65536 * 256 + n / 256 % 256;
    assert n / 65536 == n / 16777216 * 256 + n / 65536 % 256;
  }

  /** Byte by byte: the ID, the size with its most significant byte first, and the flags. */
  lemma FrameHeaderLayout(h: FrameHeader)
    requires WellFormed(h)
    ensures var b := EncodeFrameHeader(h);
      && |b| == 10 && b[..4] == h.id && b[8..] == h.flags
      && h.size == 16777216 * (b[4] as int) + 65536 * (b[5] as int) + 256 * (b[6] as int) + (b[7] as int)
  {
    var b := EncodeFrameHeader(h);
    assert b[4..8] == BigEndian(h.size);
    assert b[4] == b[4..8][0] && b[5] == b[4..8][1] && b[6] == b[4..8][2] && b[7] == b[4..8][3];
    var n := h.size;
    assert n / 256 == n / 65536 * 256 + n / 256 % 256;
    assert n / 65536 == n / 16777216 * 256 + n / 65536 % 256;
  }

  // ---------- frame data

  const TXXX: seq<Byte> := [0x54, 0x58, 0x58, 0x58]
  const TPE1: seq<Byte> := [0x54, 0x50, 0x45, 0x31]
  const TIT2: seq<Byte> := [0x54, 0x49, 0x54, 0x32]
  const TRCK: seq<Byte> := [0x54, 0x52, 0x43, 0x4b]
  const TLEN: seq<Byte> := [0x54, 0x4c, 0x45, 0x4e]
  const XBMC: seq<Byte> := [0x58, 0x42, 0x4d, 0x43]
  const APIC: seq<Byte> := [0x41, 0x50, 0x49, 0x43]

  /** What the frames are about: texts in their written form, the compressed contract, the image. */
  datatype Content = Content(performer: seq<Byte>, title: seq<Byte>, track: seq<Byte>, length: seq<Byte>,
                             uncompressed: nat, compressed: seq<Byte>,
                             mimeType: seq<Byte>, imageDescription: seq<Byte>, image: seq<Byte>)

  function TextData(c: Content, h: FrameHeader): seq<Byte> {
    if h.id == TPE1 then c.performer
    else if h.id == TIT2 then c.title
    else if h.id == TRCK then c.track
    else if h.id == TLEN then c.length
    else if h.id == TXXX then h.description
    else []
  }

  predicate IsText(h: FrameHeader) {
    |h.id| == 4 && h.id[0] == 0x54
  }

  /** The size that updateFrameSize stores in a frame header; other frames keep theirs. */
  function UpdatedSize(c: Content, h: FrameHeader): nat {
    if IsText(h) then
      if h.id == TXXX then 1 + |TextData(c, h)| + 1 + 0 else 1 + |TextData(c, h)|
    else if h.id == XBMC then 4 + |c.compressed|
    else if h.id == APIC then 1 + |c.mimeType| + 1 + 1 + |c.imageDescription| + 1 + |c.image|
    else h.size
  }

  /** The bytes that startFrame puts into the frame buffer after the header. */
  function BufferedData(c: Content, h: FrameHeader): seq<Byte>
    requires c.uncompressed < MAX_FRAME_SIZE
  {
    if IsText(h) then
      if h.id == TXXX then [0x00] + (TextData(c, h) + [0x00]) else [0x00] + TextData(c, h)
    else if h.id == XBMC then BigEndian(c.uncompressed) + c.compressed
    else if h.id == APIC then [0x00] + (c.mimeType + [0x00]) + [0x03] + (c.imageDescription + [0x00])
    else []
  }

  /** The bytes that follow from the image file. */
  function StreamedData(c: Content, h: FrameHeader): seq<Byte> {
    if !IsText(h) && h.id == APIC then c.image else []
  }

  function FrameData(c: Content, h: FrameHeader): seq<Byte>
    requires c.uncompressed < MAX_FRAME_SIZE
  {
    BufferedData(c, h) + StreamedData(c, h)
  }

  predicate KnownFrame(h: FrameHeader) {
    IsText(h) || h.id == XBMC || h.id == APIC
  }

  /**
   What the data of a frame is, frame by frame. Every text starts with the byte for its encoding.
   TPE1, TIT2, TRCK and TLEN are the performer, the title, the track and the length, TXXX a
   description with its terminator, XBMC the contract after its uncompressed size, and APIC the
   cover image after its MIME type, picture type and description.
   */
  predicate Holds(c: Content, h: FrameHeader, data: seq<Byte>)
    requires |h.id| == 4
  {
    if h.id == [0x54, 0x50, 0x45, 0x31] then data == [0x00] + c.performer
    else if h.id == [0x54, 0x49, 0x54, 0x32] then data == [0x00] + c.title
    else if h.id == [0x54, 0x52, 0x43, 0x4b] then data == [0x00] + c.track
    else if h.id == [0x54, 0x4c, 0x45, 0x4e] then data == [0x00] + c.length
    else if h.id == [0x54, 0x58, 0x58, 0x58] then data == [0x00] + h.description + [0x00]
    else if h.id[0] == 0x54 then data == [0x00]
    else if h.id == [0x58, 0x42, 0x4d, 0x43] then
      && |data| >= 4
      && c.uncompressed ==
         16777216 * (data[0] as int) + 65536 * (data[1] as int) + 256 * (data[2] as int) + (data[3] as int)
      && data[4..] == c.compressed
    else if h.id == [0x41, 0x50, 0x49, 0x43] then
      data == [0x00] + c.mimeType + [0x00, 0x03] + c.imageDescription + [0x00] + c.image
    else data == []
  }

  lemma ContractData(n: nat, compressed: seq<Byte>)
    requires n < MAX_FRAME_SIZE
    ensures var data := BigEndian(n) + compressed + [];
      && n == 16777216 * (data[0] as int) + 65536 * (data[1] as int) + 256 * (data[2] as int) + (data[3] as int)
      && data[4..] == compressed
  {
    assert n / 256 == n / 65536 * 256 + n / 256 % 256;
    assert n / 65536 == n / 16777216 * 256 + n / 65536 % 256;
  }

  /** Every frame holds what it should. */
  lemma FramesHold(c: Content, h: FrameHeader)
    requires c.uncompressed < MAX_FRAME_SIZE && |h.id| == 4
    ensures Holds(c, h, FrameData(c, h))
  {
    if IsText(h) {
      var text := TextData(c, h);
      assert ([0x00] + text) + [] == [0x00] + text && [0x00] + [] == [0x00];
      assert ([0x00] + (text + [0x00])) + [] == [0x00] + text + [0x00];
    } else if h.id == XBMC {
      ContractData(c.uncompressed, c.compressed);
    } else if h.id == APIC {
      assert [0x00] + (c.mimeType + [0x00]) + [0x03] + (c.imageDescription + [0x00]) + c.image ==
             [0x00] + c.mimeType + [0x00, 0x03] + c.imageDescription + [0x00] + c.image;
    }
  }

  /** A frame has exactly the data its updated size says, if and only if it is of a known kind or empty. */
  lemma SizeIsDataIff(c: Content, h: FrameHeader)
    requires c.uncompressed < MAX_FRAME_SIZE
    ensures |FrameData(c, h)| == UpdatedSize(c, h) <==> KnownFrame(h) || h.size == 0
  {
  }

  /** A known frame is never empty, as section 3.3 demands. */
  lemma KnownFramesHaveData(c: Content, h: FrameHeader)
    requires c.uncompressed < MAX_FRAME_SIZE && KnownFrame(h)
    ensures |FrameData(c, h)| >= 1
  {
  }

  // ---------- the whole tag

  /** A header whose size is up to date, of a kind the program writes. */
  predicate Prepared(c: Content, h: FrameHeader) {
    WellFormed(h) && KnownFrame(h) && h.size == UpdatedSize(c, h)
  }

  function FrameBytes(c: Content, h: FrameHeader): seq<Byte>
    requires c.uncompressed < MAX_FRAME_SIZE && WellFormed(h)
  {
    EncodeFrameHeader(h) + FrameData(c, h)
  }

  predicate AllWellFormed(hs: seq<FrameHeader>) {
    forall i :: 0 <= i < |hs| ==> WellFormed(hs[i])
  }

  function AllFrames(c: Content, hs: seq<FrameHeader>): seq<Byte>
    requires c.uncompressed < MAX_FRAME_SIZE && AllWellFormed(hs)
  {
    if hs == [] then [] else FrameBytes(c, hs[0]) + AllFrames(c, hs[1..])
  }

  function TagSize(hs: seq<FrameHeader>): nat {
    if hs == [] then 0 else HEADER_SIZE + hs[0].size + TagSize(hs[1..])
  }

  predicate AllPrepared(c: Content, hs: seq<FrameHeader>) {
    forall i :: 0 <= i < |hs| ==> WellFormed(hs[i]) && Prepared(c, hs[i])
  }

  /** A tag that can be written at all. */
  predicate Writable(c: Content, t: TagHeader, hs: seq<FrameHeader>) {
    c.uncompressed < MAX_FRAME_SIZE && AllWellFormed(hs) && t.size < MAX_TAG_SIZE
  }

  function TagBytes(c: Content, t: TagHeader, hs: seq<FrameHeader>): seq<Byte>
    requires Writable(c, t, hs)
  {
    EncodeTagHeader(t) + AllFrames(c, hs)
  }

  /** A tag as the program prepares it: up-to-date frames, and a header that states their size. */
  predicate PreparedTag(c: Content, t: TagHeader, hs: seq<FrameHeader>) {
    Writable(c, t, hs) && AllPrepared(c, hs) && t.size == TagSize(hs)
  }

  /** What the program prepares has a header that tells the truth. */
  lemma {:induction false} AllFramesSize(c: Content, hs: seq<FrameHeader>)
    requires c.uncompressed < MAX_FRAME_SIZE && AllPrepared(c, hs)
    ensures |AllFrames(c, hs)| == TagSize(hs)
  {
    if hs != [] {
      SizeIsDataIff(c, hs[0]);
      FrameHeaderRoundTrip(hs[0], []);
      AllFramesSize(c, hs[1..]);
    }
  }
}
