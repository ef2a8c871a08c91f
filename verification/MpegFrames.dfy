/**
 Finding MPEG audio frames: a frame starts with a header (section 2.4.1.3 of ISO/IEC 11172-3)
 whose first byte is 255 and whose second byte is above 223.
 */
module MpegFrames {
  import opened Wrappers
  import opened Streams

  /** What the program uses of a frame header: the length of the frame and of its audio, in seconds. */
  datatype Header = Header(length: nat, time: real)

  /** Header decoding is not part of this repository: it is any function of at most four bytes. */
  type Decoder = seq<Byte> -> Option<Header>

  const HEADER_SIZE: nat := 4

  function HeaderAt(decode: Decoder, b: seq<Byte>, offset: nat): Option<Header>
    requires offset <= |b|
  {
    decode(b[offset..Min(offset + HEADER_SIZE, |b|)])
  }

  predicate IsSync(b: seq<Byte>, offset: nat) {
    offset + 1 < |b| && b[offset] == 0xff && b[offset + 1] > 0xdf
  }

  /** The naive scan, byte by byte. */
  function FirstSync(b: seq<Byte>, from: nat): (r: Option<nat>)
    ensures r.Some? ==> from <= r.value && IsSync(b, r.value) && forall k :: from <= k < r.value ==> !IsSync(b, k)
    ensures r.None? ==> forall k :: from <= k ==> !IsSync(b, k)
    decreases |b| - from
  {
    if from + 1 >= |b| then None else if IsSync(b, from) then Some(from) else FirstSync(b, from + 1)
  }

  lemma NoSyncHere(b: seq<Byte>, from: nat)
    requires !IsSync(b, from)
    ensures FirstSync(b, from) == FirstSync(b, from + 1)
  {
  }

  /** A byte that cannot be the second of a sync rules out two offsets, for it cannot be the first either. */
  lemma NoSyncAround(b: seq<Byte>, from: nat)
    requires from + 1 < |b| && b[from + 1] <= 0xdf
    ensures FirstSync(b, from) == FirstSync(b, from + 2)
  {
    NoSyncHere(b, from);
    NoSyncHere(b, from + 1);
  }

  /** The least offset with byte 255 followed by a byte above 223. */
  predicate IsFirst(b: seq<Byte>, o: nat) {
    && o + 1 < |b| && b[o] == 255 && b[o + 1] > 223
    && forall k :: 0 <= k < o ==> b[k] != 255 || b[k + 1] <= 223
  }

  lemma FirstSyncIs(b: seq<Byte>, o: nat)
    ensures FirstSync(b, 0) == Some(o) <==> IsFirst(b, o)
  {
    if IsFirst(b, o) {
      forall k | 0 <= k < o
        ensures !IsSync(b, k)
      {
      }
      assert IsSync(b, o);
    } else if FirstSync(b, 0) == Some(o) {
      forall k | 0 <= k < o
        ensures b[k] != 255 || b[k + 1] <= 223
      {
        assert !IsSync(b, k);
      }
    }
  }

  /** The header and the offset that a search of `b` finds. */
  function Found(decode: Decoder, b: seq<Byte>): Option<(Header, nat)> {
    var at := FirstSync(b, 0);
    if |b| < HEADER_SIZE || at.None? then None
    else
      var h := HeaderAt(decode, b, at.value);
      if h.Some? then Some((h.value, at.value)) else None
  }

  /** How many bytes are missing to decide, or to complete the frame that was found. */
  function Missing(decode: Decoder, b: seq<Byte>): nat {
    if |b| < HEADER_SIZE then HEADER_SIZE - |b|
    else
      match Found(decode, b)
      case None => 0
      case Some((h, at)) => if |b| < at + h.length then at + h.length - |b| else 0
  }

  /** A search finds nothing in under four bytes, else the header at the least offset with sync, if it decodes. */
  lemma FoundIs(decode: Decoder, b: seq<Byte>, o: nat)
    ensures |b| < 4 ==> Found(decode, b) == None && Missing(decode, b) == 4 - |b|
    ensures |b| >= 4 && IsFirst(b, o) ==>
              var h := decode(b[o..if o + 4 < |b| then o + 4 else |b|]);
              && Found(decode, b) == (if h.Some? then Some((h.value, o)) else None)
              && |b| + Missing(decode, b) == (if h.Some? && |b| < o + h.value.length then o + h.value.length else |b|)
    ensures |b| >= 4 && (forall k: nat :: !IsFirst(b, k)) ==> Found(decode, b) == None && Missing(decode, b) == 0
  {
    FirstSyncIs(b, o);
    if FirstSync(b, 0).Some? {
      FirstSyncIs(b, FirstSync(b, 0).value);
    }
  }

  class MpegAudioFrameParser {
    const decode: Decoder
    var lastHeader: Option<Header>
    var lastOffset: int

    /** A header is stored exactly if an offset is. */
    ghost predicate Valid()
      reads this
    {
      lastHeader.Some? <==> lastOffset != -1
    }

    constructor (decode: Decoder)
      ensures Valid() && lastHeader == None && this.decode == decode
    {
      this.decode, lastHeader, lastOffset := decode, None, -1;
    }

    method Reset()
      requires Valid()
      modifies this
      ensures Valid() && lastHeader == None
    {
      if lastHeader.Some? {
        lastHeader := None;
        lastOffset := -1;
      }
    }

    method ParseFrame(b: seq<Byte>) returns (missing: nat)
      modifies this`lastHeader
      ensures lastHeader == if HeaderAt(decode, b, 0).Some? then HeaderAt(decode, b, 0) else old(lastHeader)
      ensures HeaderAt(decode, b, 0).None? ==> missing == 0
      ensures HeaderAt(decode, b, 0).Some? ==>
                |b| + missing == if |b| < lastHeader.value.length then lastHeader.value.length else |b|
    {
      missing := 0;
      var header := HeaderAt(decode, b, 0);
      if header.Some? {
        lastHeader := header;
        if |b| < header.value.length {
          missing := header.value.length - |b|;
        }
      }
    }

    /** The look-ahead scan, which steps over two bytes at a time, finds what the naive scan finds. */
    method FindFrame(b: seq<Byte>) returns (missing: nat)
      requires Valid()
      modifies this
      ensures Valid() && missing == Missing(decode, b)
      ensures lastHeader.Some? <==> Found(decode, b).Some?
      ensures lastHeader.Some? ==> Found(decode, b) == Some((lastHeader.value, lastOffset))
    {
      missing := 0;
      Reset();
      if |b| < HEADER_SIZE {
        missing := HEADER_SIZE - |b|;
      } else {
        var end, offset := |b| - 1, 0;
        while offset < end
          invariant FirstSync(b, offset) == FirstSync(b, 0)
          invariant Valid() && lastHeader == None
        {
          if b[offset + 1] > 0xdf {
            if b[offset] == 0xff {
              assert HeaderAt(decode, b[offset..], 0) == HeaderAt(decode, b, offset) by {
                assert b[offset..][0..Min(HEADER_SIZE, |b[offset..]|)] == b[offset..Min(offset + HEADER_SIZE, |b|)];
              }
              missing := ParseFrame(b[offset..]);
              if lastHeader.Some? {
                lastOffset := offset;
              }
              break;
            }
            NoSyncHere(b, offset);
          } else {
            NoSyncAround(b, offset);
            offset := offset + 1;
          }
          offset := offset + 1;
        }
      }
    }
  }
}
