/**
 The tag reader: it inspects a stream in arbitrary chunks, starts the frames of a leading tag
 in its sink and hands the sink their data.
 */
module Id3Reader {
  import opened Wrappers
  import opened Streams
  import opened Id3Format

  /** `started` and `data` are what the sink has seen: the frames started and the bytes put to each. */
  datatype ReadState = ReadState(headerParsed: bool, header: TagHeader, capture: Option<FrameHeader>,
                                 bytesCaptured: nat, tagBytesRead: nat,
                                 started: seq<FrameHeader>, data: seq<seq<Byte>>, recognized: Option<bool>)

  const Fresh := ReadState(false, TagHeader(0, 0), None, 0, 0, [], [], None)

  predicate Reading(r: ReadState) {
    !r.headerParsed || (r.tagBytesRead < r.header.size && r.header.size > 0 && r.header.size < MAX_TAG_SIZE)
  }

  predicate ReadOk(r: ReadState) {
    |r.data| == |r.started| && (r.capture.Some? ==> r.data != [] && r.bytesCaptured <= r.capture.value.size)
  }

  /** Frame data: up to the size of the captured frame goes to the sink. */
  function Captured(r: ReadState, b: seq<Byte>): (ReadState, nat)
    requires ReadOk(r) && r.capture.Some?
  {
    var n := Min(|b|, r.capture.value.size - r.bytesCaptured);
    var last := |r.data| - 1;
    var done := r.bytesCaptured + n == r.capture.value.size;
    (r.(capture := if done then None else r.capture, bytesCaptured := if done then 0 else r.bytesCaptured + n,
        tagBytesRead := r.tagBytesRead + n, data := r.data[last := r.data[last] + b[..n]]), n)
  }

  /** A header: the tag's, the extended header (which nothing ever marks as passed), or the next frame's. */
  function Headed(r: ReadState, b: seq<Byte>): (ReadState, nat) {
    if |b| < HEADER_SIZE then (r, 0)
    else if !r.headerParsed then
      var h := DecodeTagHeader(b);
      if h.Some? then (r.(headerParsed := true, header := h.value), HEADER_SIZE)
      else (r.(recognized := Some(false)), |b|)
    else if HasExtendedHeader(r.header) then
      var size := FromBigEndian(b[..4]);
      var n := if |b| >= size then size else 0;
      (r.(tagBytesRead := r.tagBytesRead + n), n)
    else
      var h := DecodeFrameHeader(b);
      (r.(capture := Some(h), bytesCaptured := 0, tagBytesRead := r.tagBytesRead + HEADER_SIZE,
          started := r.started + [h], data := r.data + [[]]), HEADER_SIZE)
  }

  function Inspected(r: ReadState, b: seq<Byte>): (ReadState, nat)
    requires ReadOk(r)
  {
    if !Reading(r) then (r, 0) else if r.capture.Some? then Captured(r, b) else Headed(r, b)
  }

  /** One call: inspect, and recognise the format when the size of the tag is reached. */
  function Detected(r: ReadState, b: seq<Byte>): (ReadState, nat)
    requires ReadOk(r)
  {
    var (r', n) := Inspected(r, b);
    if r'.headerParsed && r'.tagBytesRead == r'.header.size then (r'.(recognized := Some(true)), |b|) else (r', n)
  }

  class TagReader {
    var headerParsed: bool
    var header: TagHeader
    var capture: Option<FrameHeader>
    var bytesCaptured: nat
    var tagBytesRead: nat
    var started: seq<FrameHeader>
    var data: seq<seq<Byte>>
    var recognized: Option<bool>

    function State(): ReadState
      reads this
    {
      ReadState(headerParsed, header, capture, bytesCaptured, tagBytesRead, started, data, recognized)
    }

    constructor ()
      ensures State() == Fresh
    {
      headerParsed, header, capture, bytesCaptured, tagBytesRead := false, TagHeader(0, 0), None, 0, 0;
      started, data, recognized := [], [], None;
    }

    /** A call with the bytes that have not been inspected yet. */
    method DetectFormat(b: seq<Byte>) returns (n: nat)
      requires ReadOk(State())
      modifies this
      ensures (State(), n) == Detected(old(State()), b)
      ensures !old(headerParsed) && old(capture).None? && |b| >= 10 && !IsTagHeader(b) ==>
                n == |b| && State() == old(State()).(recognized := Some(false))
      ensures old(Reading(State())) && old(capture).None? && |b| < 10 ==>
                n == 0 && State() == old(State())
      ensures old(headerParsed) && old(tagBytesRead) < header.size && old(capture).None?
              && 0 < header.size < 268435456 && |b| >= 10 && header.flags / 64 % 2 == 1 ==>
                var size := 16777216 * (b[0] as int) + 65536 * (b[1] as int) + 256 * (b[2] as int) + (b[3] as int);
                var k := if size <= |b| then size else 0;
                && State() == old(State()).(tagBytesRead := old(tagBytesRead) + k, recognized := recognized)
                && n == if tagBytesRead == header.size then |b| else k
      ensures old(headerParsed) && (old(tagBytesRead) >= header.size || header.size >= 268435456) ==>
                && State() == old(State()).(recognized := recognized)
                && n == if tagBytesRead == header.size then |b| else 0
    {
      n := 0;
      if !headerParsed || (tagBytesRead < header.size && header.size > 0 && header.size < MAX_TAG_SIZE) {
        if capture.Some? {
          n := Min(|b|, capture.value.size - bytesCaptured);
          bytesCaptured := bytesCaptured + n;
          data := data[|data| - 1 := data[|data| - 1] + b[..n]];
          if capture.value.size == bytesCaptured {
            capture := None;
            bytesCaptured := 0;
          }
          tagBytesRead := tagBytesRead + n;
        } else if |b| >= HEADER_SIZE {
          if !headerParsed {
            var h := DecodeTagHeader(b);
            if h.Some? {
              header := h.value;
              headerParsed := true;
              n := HEADER_SIZE;
            } else {
              recognized := Some(false);
              n := |b|;
            }
          } else if HasExtendedHeader(header) {
            var size := FromBigEndian(b[..4]);
            if |b| >= size {
              n := size;
            }
            tagBytesRead := tagBytesRead + n;
          } else {
            var h := DecodeFrameHeader(b);
            capture := Some(h);
            bytesCaptured := 0;
            started := started + [h];
            data := data + [[]];
            n := HEADER_SIZE;
            tagBytesRead := tagBytesRead + n;
          }
        }
      }
      if headerParsed && tagBytesRead == header.size {
        recognized := Some(true);
        n := |b|;
      }
    }
  }

  // ---------- reading any tag

  datatype Frame = Frame(header: FrameHeader, data: seq<Byte>)

  /** A frame with as many bytes of data as its header says, which may be none. */
  predicate GoodFrame(f: Frame) {
    WellFormed(f.header) && f.header.description == [] && |f.data| == f.header.size
  }

  predicate GoodFrames(fs: seq<Frame>) {
    forall i :: 0 <= i < |fs| ==> GoodFrame(fs[i])
  }

  function FramesAsBytes(fs: seq<Frame>): seq<Byte>
    requires GoodFrames(fs)
  {
    if fs == [] then [] else EncodeFrameHeader(fs[0].header) + fs[0].data + FramesAsBytes(fs[1..])
  }

  predicate GoodTag(t: TagHeader, fs: seq<Frame>) {
    GoodFrames(fs) && t.size == |FramesAsBytes(fs)| < MAX_TAG_SIZE
  }

  function TagAsBytes(t: TagHeader, fs: seq<Frame>): seq<Byte>
    requires GoodTag(t, fs)
  {
    EncodeTagHeader(t) + FramesAsBytes(fs)
  }

  /** The first frames have been started, `complete` of them with all their data. */
  ghost predicate SinkHas(fs: seq<Frame>, r: ReadState, complete: nat) {
    && complete <= |r.started| == |r.data| <= |fs|
    && (forall i :: 0 <= i < |r.started| ==> r.started[i] == fs[i].header)
    && (forall i :: 0 <= i < complete ==> r.data[i] == fs[i].data)
  }

  /** The next frame is to be started; `ahead` are the tag bytes still to come. */
  ghost predicate AwaitsFrame(t: TagHeader, fs: seq<Frame>, r: ReadState, ahead: seq<Byte>)
    requires GoodTag(t, fs)
  {
    var j := |r.started|;
    && r.headerParsed && r.header == t && r.recognized.None? && r.capture.None?
    && SinkHas(fs, r, j) && j < |fs|
    && ahead == FramesAsBytes(fs[j..]) && r.tagBytesRead + |ahead| == t.size
  }

  /** The last started frame is being captured. */
  ghost predicate AwaitsData(t: TagHeader, fs: seq<Frame>, r: ReadState, ahead: seq<Byte>)
    requires GoodTag(t, fs)
  {
    var j := |r.started| - 1;
    && r.headerParsed && r.header == t && r.recognized.None?
    && j >= 0 && SinkHas(fs, r, j)
    && r.capture == Some(fs[j].header) && (r.bytesCaptured < |fs[j].data| || r.bytesCaptured == |fs[j].data| == 0)
    && ahead != []
    && r.data[j] == fs[j].data[..r.bytesCaptured]
    && ahead == fs[j].data[r.bytesCaptured..] + FramesAsBytes(fs[j + 1..]) && r.tagBytesRead + |ahead| == t.size
  }

  ghost predicate Awaits(t: TagHeader, fs: seq<Frame>, r: ReadState, ahead: seq<Byte>)
    requires GoodTag(t, fs)
  {
    (r == Fresh && ahead == TagAsBytes(t, fs)) || AwaitsFrame(t, fs, r, ahead) || AwaitsData(t, fs, r, ahead)
  }

  /** All frames have been started in order and all their data handed over. */
  ghost predicate HasRead(t: TagHeader, fs: seq<Frame>, r: ReadState) {
    r.recognized == Some(true) && r.header == t && |r.started| == |fs| && SinkHas(fs, r, |fs|)
  }

  /**
   A call on a buffer `b` whose tag bytes are the front of `ahead` uses up n of them and awaits
   the rest, or it reaches the end of the tag, and then and only then the format is recognised.
   */
  ghost predicate Advances(t: TagHeader, fs: seq<Frame>, ahead: seq<Byte>, b: seq<Byte>, r': ReadState, n: nat)
    requires GoodTag(t, fs)
  {
    || (r'.recognized.None? && n <= |b| && n < |ahead| && Awaits(t, fs, r', ahead[n..]))
    || (HasRead(t, fs, r') && |b| >= |ahead| && n == |b|)
  }

  lemma FirstHeader(t: TagHeader, fs: seq<Frame>, ahead: seq<Byte>, b: seq<Byte>, more: seq<Byte>, body: seq<Byte>)
    requires GoodTag(t, fs) && ahead == TagAsBytes(t, fs) && b + more == ahead + body && |b| >= HEADER_SIZE
    ensures Advances(t, fs, ahead, b, Detected(Fresh, b).0, Detected(Fresh, b).1)
  {
    TagHeaderRoundTrip(t, b[HEADER_SIZE..]);
    SameFront(b, more, ahead, body, HEADER_SIZE);
    assert b == EncodeTagHeader(t) + b[HEADER_SIZE..];
    assert ahead[HEADER_SIZE..] == FramesAsBytes(fs);
    assert fs[0..] == fs;
  }

  /** The header that is ahead is the one that is read. */
  lemma HeaderAhead(t: TagHeader, fs: seq<Frame>, r: ReadState, ahead: seq<Byte>,
                    b: seq<Byte>, more: seq<Byte>, body: seq<Byte>)
    requires GoodTag(t, fs) && AwaitsFrame(t, fs, r, ahead) && b + more == ahead + body && |b| >= HEADER_SIZE
    ensures var j := |r.started|;
      && DecodeFrameHeader(b) == fs[j].header
      && |ahead| >= HEADER_SIZE && ahead[HEADER_SIZE..] == fs[j].data + FramesAsBytes(fs[j + 1..])
  {
    var j := |r.started|;
    var f := fs[j];
    var head, rest := EncodeFrameHeader(f.header), f.data + FramesAsBytes(fs[j + 1..]);
    FrameHeaderRoundTrip(f.header, b[HEADER_SIZE..]);
    assert ahead == head + rest by {
      assert fs[j..][0] == f && fs[j..][1..] == fs[j + 1..];
    }
    SameFront(b, more, ahead, body, HEADER_SIZE);
    assert b == head + b[HEADER_SIZE..];
  }

  lemma NextHeader(t: TagHeader, fs: seq<Frame>, r: ReadState, ahead: seq<Byte>,
                   b: seq<Byte>, more: seq<Byte>, body: seq<Byte>)
    requires GoodTag(t, fs) && !HasExtendedHeader(t) && AwaitsFrame(t, fs, r, ahead)
    requires b + more == ahead + body && |b| >= HEADER_SIZE
    ensures Advances(t, fs, ahead, b, Detected(r, b).0, Detected(r, b).1)
  {
    HeaderAhead(t, fs, r, ahead, b, more, body);
    var j, rest, r' := |r.started|, ahead[HEADER_SIZE..], Headed(r, b).0;
    var d := fs[j].data;
    assert d[..0] == [] && d[0..] == d;
    if rest == [] {
      NoFramesNoBytes(fs[j + 1..]);
      assert HasRead(t, fs, r'.(recognized := Some(true)));
    } else {
      assert AwaitsData(t, fs, r', rest);
      assert Detected(r, b) == (r', HEADER_SIZE);
    }
  }

  /** The captured bytes are the next ones of the frame's data. */
  lemma CapturedBytes(d: seq<Byte>, rest: seq<Byte>, k: nat, b: seq<Byte>, more: seq<Byte>, body: seq<Byte>, n: nat)
    requires k <= |d| && n <= |b| && n <= |d| - k && b + more == d[k..] + rest + body
    ensures d[..k] + b[..n] == d[..k + n]
    ensures (d[k..] + rest)[n..] == d[k + n..] + rest
  {
    SameFront(b, more, d[k..] + rest, body, n);
    assert (d[k..] + rest)[..n] == d[k..k + n];
  }

  lemma DataGoesOn(t: TagHeader, fs: seq<Frame>, r: ReadState, ahead: seq<Byte>,
                   b: seq<Byte>, more: seq<Byte>, body: seq<Byte>)
    requires GoodTag(t, fs) && ReadOk(r) && AwaitsData(t, fs, r, ahead) && b + more == ahead + body
    requires r.bytesCaptured + |b| < r.capture.value.size
    ensures AwaitsData(t, fs, Captured(r, b).0, ahead[|b|..]) && |b| < |ahead|
  {
    var j := |r.started| - 1;
    CapturedBytes(fs[j].data, FramesAsBytes(fs[j + 1..]), r.bytesCaptured, b, more, body, |b|);
  }

  lemma DataEnds(t: TagHeader, fs: seq<Frame>, r: ReadState, ahead: seq<Byte>,
                 b: seq<Byte>, more: seq<Byte>, body: seq<Byte>)
    requires GoodTag(t, fs) && ReadOk(r) && AwaitsData(t, fs, r, ahead) && b + more == ahead + body
    requires r.bytesCaptured + |b| >= r.capture.value.size
    ensures var (r', n) := Captured(r, b);
      && n <= |ahead| && r'.capture.None? && SinkHas(fs, r', |r.started|) && r'.started == r.started
      && ahead[n..] == FramesAsBytes(fs[|r.started|..]) && r'.tagBytesRead + |ahead[n..]| == t.size
  {
    var j := |r.started| - 1;
    var d := fs[j].data;
    CapturedBytes(d, FramesAsBytes(fs[j + 1..]), r.bytesCaptured, b, more, body, |d| - r.bytesCaptured);
    assert d[|d|..] == [] && d[..|d|] == d;
  }

  lemma MoreData(t: TagHeader, fs: seq<Frame>, r: ReadState, ahead: seq<Byte>,
                 b: seq<Byte>, more: seq<Byte>, body: seq<Byte>)
    requires GoodTag(t, fs) && ReadOk(r) && AwaitsData(t, fs, r, ahead) && b + more == ahead + body
    ensures Advances(t, fs, ahead, b, Detected(r, b).0, Detected(r, b).1)
  {
    if r.bytesCaptured + |b| < r.capture.value.size {
      DataGoesOn(t, fs, r, ahead, b, more, body);
    } else {
      DataEnds(t, fs, r, ahead, b, more, body);
      NoFramesNoBytes(fs[|r.started|..]);
    }
  }

  lemma NoFramesNoBytes(fs: seq<Frame>)
    requires GoodFrames(fs)
    ensures FramesAsBytes(fs) == [] <==> fs == []
  {
  }

  /** Every call advances through the tag, and recognises the format exactly at its end. */
  lemma EveryCallAdvances(t: TagHeader, fs: seq<Frame>, r: ReadState, ahead: seq<Byte>,
                          b: seq<Byte>, more: seq<Byte>, body: seq<Byte>)
    requires GoodTag(t, fs) && !HasExtendedHeader(t)
    requires ReadOk(r) && Awaits(t, fs, r, ahead) && b + more == ahead + body
    ensures Advances(t, fs, ahead, b, Detected(r, b).0, Detected(r, b).1)
    ensures Detected(r, b).1 == 0 && Detected(r, b).0.recognized.None? ==>
              |b| < |ahead| || (r.capture.Some? && Detected(r, b).0.capture.None?)
  {
    if AwaitsData(t, fs, r, ahead) {
      MoreData(t, fs, r, ahead, b, more, body);
    } else {
      AwaitedHeader(t, fs, r, ahead);
      if |b| < HEADER_SIZE {
        assert ahead[0..] == ahead;
      } else if r.headerParsed {
        NextHeader(t, fs, r, ahead, b, more, body);
      } else {
        FirstHeader(t, fs, ahead, b, more, body);
      }
    }
  }

  lemma AwaitedHeader(t: TagHeader, fs: seq<Frame>, r: ReadState, ahead: seq<Byte>)
    requires GoodTag(t, fs) && Awaits(t, fs, r, ahead) && !AwaitsData(t, fs, r, ahead)
    ensures |ahead| >= HEADER_SIZE && r.capture.None? && (r.headerParsed ==> AwaitsFrame(t, fs, r, ahead))
    ensures r.headerParsed ==> 0 < r.header.size && r.tagBytesRead < r.header.size < MAX_TAG_SIZE
  {
  }

  /** Where a reader stands that has `b` at hand and `more` to come. */
  ghost predicate OnTrack(t: TagHeader, fs: seq<Frame>, r: ReadState, ahead: seq<Byte>,
                          b: seq<Byte>, more: seq<Byte>, body: seq<Byte>)
    requires GoodTag(t, fs)
  {
    ReadOk(r) && if r.recognized.None? then Awaits(t, fs, r, ahead) && b + more == ahead + body else HasRead(t, fs, r)
  }

  /** What is ahead after a call. */
  function Remaining(r': ReadState, ahead: seq<Byte>, n: nat): seq<Byte> {
    if r'.recognized.None? && n <= |ahead| then ahead[n..] else ahead
  }

  lemma CallStaysOnTrack(t: TagHeader, fs: seq<Frame>, r: ReadState, ahead: seq<Byte>,
                         b: seq<Byte>, more: seq<Byte>, body: seq<Byte>)
    requires GoodTag(t, fs) && !HasExtendedHeader(t) && r.recognized.None? && OnTrack(t, fs, r, ahead, b, more, body)
    ensures var (r', n) := Detected(r, b);
      && n <= |b|
      && OnTrack(t, fs, r', Remaining(r', ahead, n), b[n..], more, body)
      && (n == 0 && r'.recognized.None? ==> more != [] || (r.capture.Some? && r'.capture.None?))
  {
    EveryCallAdvances(t, fs, r, ahead, b, more, body);
    var (r', n) := Detected(r, b);
    if r'.recognized.None? {
      SameFront(b, more, ahead, body, n);
      assert |b + more| == |ahead + body|;
    }
  }

  lemma ChunkStaysOnTrack(t: TagHeader, fs: seq<Frame>, r: ReadState, ahead: seq<Byte>,
                          b: seq<Byte>, chunk: seq<Byte>, more: seq<Byte>, body: seq<Byte>)
    requires GoodTag(t, fs) && OnTrack(t, fs, r, ahead, b, chunk + more, body)
    ensures OnTrack(t, fs, r, ahead, b + chunk, more, body)
  {
  }

  /**
   Reading a stream that arrives in chunks: frames, data and recognition do not depend on the
   chunks. A call that uses up nothing is repeated with the next chunk; there is one, except after
   a frame without data, when the call is repeated with the bytes at hand.
   */
  method ReadStream(chunks: seq<seq<Byte>>, ghost t: TagHeader, ghost fs: seq<Frame>, ghost body: seq<Byte>)
    returns (reader: TagReader)
    requires GoodTag(t, fs) && !HasExtendedHeader(t) && Flatten(chunks) == TagAsBytes(t, fs) + body
    ensures HasRead(t, fs, reader.State())
  {
    reader := new TagReader();
    var src: seq<Byte> := [];
    ghost var ahead := TagAsBytes(t, fs);
    var rest := chunks;
    while reader.recognized.None?
      invariant OnTrack(t, fs, reader.State(), ahead, src, Flatten(rest), body)
      decreases |rest|, |src|, reader.capture.Some?, reader.recognized.None?
    {
      CallStaysOnTrack(t, fs, reader.State(), ahead, src, Flatten(rest), body);
      var n := reader.DetectFormat(src);
      ahead, src := Remaining(reader.State(), ahead, n), src[n..];
      if reader.recognized.None? && n == 0 && rest != [] {
        ChunkStaysOnTrack(t, fs, reader.State(), ahead, src, rest[0], Flatten(rest[1..]), body);
        src, rest := src + rest[0], rest[1..];
      }
    }
  }

  /** A stream without a leading tag header is turned down, by the first call that has ten bytes and no later. */
  lemma TurnedDownIff(b: seq<Byte>)
    ensures Detected(Fresh, b).0.recognized == Some(false) <==> |b| >= HEADER_SIZE && !IsTagHeader(b)
  {
  }

  // ---------- reading what was written

  function FramesOf(c: Content, hs: seq<FrameHeader>): (fs: seq<Frame>)
    requires c.uncompressed < MAX_FRAME_SIZE
    ensures |fs| == |hs|
    ensures forall i :: 0 <= i < |hs| ==> fs[i] == Frame(hs[i].(description := []), FrameData(c, hs[i]))
  {
    if hs == [] then [] else [Frame(hs[0].(description := []), FrameData(c, hs[0]))] + FramesOf(c, hs[1..])
  }

  lemma {:induction false} WrittenFramesAreGood(c: Content, hs: seq<FrameHeader>)
    requires c.uncompressed < MAX_FRAME_SIZE && AllPrepared(c, hs)
    ensures GoodFrames(FramesOf(c, hs)) && FramesAsBytes(FramesOf(c, hs)) == AllFrames(c, hs)
  {
    if hs != [] {
      SizeIsDataIff(c, hs[0]);
      KnownFramesHaveData(c, hs[0]);
      WrittenFramesAreGood(c, hs[1..]);
    }
  }

  /** Every tag the writer may write is one the reader reads, frame by frame. */
  lemma WrittenTagIsGood(c: Content, t: TagHeader, hs: seq<FrameHeader>)
    requires PreparedTag(c, t, hs)
    ensures GoodTag(t, FramesOf(c, hs)) && TagAsBytes(t, FramesOf(c, hs)) == TagBytes(c, t, hs)
  {
    WrittenFramesAreGood(c, hs);
    AllFramesSize(c, hs);
  }

  /** Reading back a tag the program has prepared and written. */
  method ReadWritten(chunks: seq<seq<Byte>>, ghost c: Content, ghost t: TagHeader, ghost hs: seq<FrameHeader>,
                     ghost body: seq<Byte>)
    returns (reader: TagReader)
    requires PreparedTag(c, t, hs) && !HasExtendedHeader(t) && Flatten(chunks) == TagBytes(c, t, hs) + body
    ensures HasRead(t, FramesOf(c, hs), reader.State())
    ensures |reader.started| == |reader.data| == |hs|
    ensures forall i :: 0 <= i < |hs| ==>
              && reader.started[i].id == hs[i].id && reader.started[i].size == |reader.data[i]|
              && Holds(c, hs[i], reader.data[i])
  {
    WrittenTagIsGood(c, t, hs);
    reader := ReadStream(chunks, t, FramesOf(c, hs), body);
    forall i | 0 <= i < |hs|
      ensures Holds(c, hs[i], reader.data[i]) && reader.started[i].id == hs[i].id
      ensures reader.started[i].size == |reader.data[i]|
    {
      FramesHold(c, hs[i]);
      SizeIsDataIff(c, hs[i]);
    }
  }

  // ---------- tags with an extended header

  function Calls(r: ReadState, bs: seq<seq<Byte>>): ReadState
    requires ReadOk(r)
    decreases |bs|
  {
    if bs == [] then r else Calls(Detected(r, bs[0]).0, bs[1..])
  }

  /** The code never records that the extended header has been passed: no frame of such a tag is ever started. */
  lemma {:induction false} ExtendedHeaderHidesFrames(r: ReadState, bs: seq<seq<Byte>>)
    requires ReadOk(r) && r.headerParsed && HasExtendedHeader(r.header) && r.capture.None?
    ensures Calls(r, bs).started == r.started
    decreases |bs|
  {
    if bs != [] {
      ExtendedHeaderHidesFrames(Detected(r, bs[0]).0, bs[1..]);
    }
  }
}
