/**
 The tag writer: stripping a tag from the front of a stream, and putting one there. Both work
 step by step on buffers whose contents arrive and leave in arbitrary portions.
 */
module Id3Writer {
  import opened Wrappers
  import opened Streams
  import opened Id3Format

  // ---------- stripping

  /** What is left of a stream without its leading tag; None if the tag is not complete. */
  function Stripped(stream: seq<Byte>): Option<seq<Byte>> {
    if |stream| < HEADER_SIZE || !IsTagHeader(stream) then Some(stream)
    else After(stream, HEADER_SIZE + FromSynchsafe(stream[6..10]))
  }

  function After(stream: seq<Byte>, n: nat): Option<seq<Byte>> {
    if |stream| < n then None else Some(stream[n..])
  }

  lemma AfterInParts(stream: seq<Byte>, k: nat, n: nat)
    requires k <= n && k <= |stream|
    ensures After(stream[k..], n - k) == After(stream, n)
  {
  }

  lemma DroppedFront(b: seq<Byte>, more: seq<Byte>, k: nat)
    requires k <= |b|
    ensures b[k..] + more == (b + more)[k..]
  {
  }

  /** What will be left of the bytes still to come, in a given state of the stripper. */
  function Outcome(found: bool, toStrip: nat, stream: seq<Byte>): Option<seq<Byte>> {
    if found then After(stream, toStrip) else Stripped(stream)
  }

  class TagStripper {
    var found: bool
    var bytesToStrip: nat

    ghost predicate Valid()
      reads this
    {
      found ==> bytesToStrip > 0
    }

    constructor ()
      ensures Valid() && !found
    {
      found, bytesToStrip := false, 0;
    }

    /**
     One step on the source buffer; `more` is what the stream will still deliver. A step keeps
     the outcome, completion is the outcome, and asking for data changes nothing.
     */
    method StripTag(src: ByteBuffer, finish: bool, ghost more: seq<Byte>) returns (r: Result)
      requires Valid() && src.Valid() && (finish ==> more == [])
      modifies this, src`data
      ensures Valid() && src.Valid()
      ensures r.Stepped? || r.NeedsData? || r.CompleteAppend?
      ensures !r.CompleteAppend? ==>
                Outcome(found, bytesToStrip, src.data + more) == old(Outcome(found, bytesToStrip, src.data + more))
      ensures r.CompleteAppend? ==> old(Outcome(found, bytesToStrip, src.data + more)) == Some(src.data + more)
      ensures r.NeedsData? && finish ==> found && src.data == []
      ensures r.NeedsData? ==> src.data == old(src.data) && found == old(found)
      ensures r.Stepped? ==> (found && !old(found) && src.data == old(src.data)) || |src.data| < |old(src.data)|
    {
      r := Stepped;
      ghost var stream := src.data + more;
      if !found {
        if |src.data| < HEADER_SIZE {
          r := if finish then CompleteAppend else NeedsData;
        } else if IsTagHeader(src.data) {
          assert stream[6..10] == src.data[6..10];
          found := true;
          bytesToStrip := FromSynchsafe(src.data[6..10]) + HEADER_SIZE;
        } else {
          r := CompleteAppend;
        }
      } else if |src.data| == 0 {
        r := NeedsData;
      } else {
        var k := src.Clear(bytesToStrip);
        DroppedFront(old(src.data), more, k);
        AfterInParts(stream, k, bytesToStrip);
        bytesToStrip := bytesToStrip - k;
        if bytesToStrip == 0 {
          found := false;
          r := CompleteAppend;
        }
      }
    }
  }

  /** A stream without a leading tag header stays as it is; otherwise the header and as many bytes as it states go. */
  lemma StripMeans(stream: seq<Byte>)
    ensures |stream| < 10 || !IsTagHeader(stream) ==> Stripped(stream) == Some(stream)
    ensures |stream| >= 10 && IsTagHeader(stream) ==>
              var n := 10 + 2097152 * (stream[6] as int) + 16384 * (stream[7] as int)
                       + 128 * (stream[8] as int) + (stream[9] as int);
              Stripped(stream) == if |stream| < n then None else Some(stream[n..])
  {
    if |stream| >= 10 {
      TagHeaderMeans(stream);
    }
  }

  /** Stripping a stream that arrives in chunks: the result does not depend on the chunks. */
  method StripStream(chunks: seq<seq<Byte>>) returns (out: Option<seq<Byte>>)
    ensures out == Stripped(Flatten(chunks))
  {
    var stripper := new TagStripper();
    var src := new ByteBuffer(0);
    var i, finish := 0, false;
    assert src.data + Flatten(chunks[0..]) == Flatten(chunks) by {
      assert chunks[0..] == chunks;
    }
    while true
      invariant i <= |chunks| && (finish ==> i == |chunks|)
      invariant stripper.Valid() && src.Valid()
      invariant fresh(stripper) && fresh(src)
      invariant Outcome(stripper.found, stripper.bytesToStrip, src.data + Flatten(chunks[i..]))
                == Stripped(Flatten(chunks))
      decreases |chunks| - i, !finish, |src.data|, !stripper.found
    {
      var r := stripper.StripTag(src, finish, Flatten(chunks[i..]));
      match r {
        case CompleteAppend =>
          out := Some(src.data + Flatten(chunks[i..]));
          return;
        case NeedsData =>
          if i < |chunks| {
            assert src.data + Flatten(chunks[i..]) == src.data + chunks[i] + Flatten(chunks[i + 1..]);
            src.Put(chunks[i]);
            i := i + 1;
          } else if finish {
            out := None;
            return;
          } else {
            finish := true;
          }
        case _ =>
      }
    }
  }

  // ---------- the frame source

  class FrameSource {
    const content: Content
    var frameBuffer: seq<Byte>
    var imageInput: Option<seq<Byte>>

    constructor (content: Content)
      ensures this.content == content && frameBuffer == [] && imageInput.None?
    {
      this.content, frameBuffer, imageInput := content, [], None;
    }

    /** Image bytes that a started frame has still to deliver. */
    ghost function ImageLeft(): seq<Byte>
      reads this
    {
      if imageInput.Some? then imageInput.value else []
    }

    /** Buffers the header and the data of a frame; an image is read from its file later. */
    method StartFrame(h: FrameHeader)
      requires WellFormed(h) && content.uncompressed < MAX_FRAME_SIZE
      modifies this
      ensures frameBuffer == EncodeFrameHeader(h) + BufferedData(content, h)
      ensures imageInput == if !IsText(h) && h.id == APIC then Some(content.image) else old(imageInput)
      ensures |frameBuffer| >= 10 && frameBuffer[..10] == EncodeFrameHeader(h)
      ensures Holds(content, h, frameBuffer[10..] + if h.id == APIC then content.image else [])
    {
      FrameHeaderRoundTrip(h, []);
      FramesHold(content, h);
      frameBuffer := EncodeFrameHeader(h) + BufferedData(content, h);
      if !IsText(h) && h.id == APIC {
        imageInput := Some(content.image);
      }
    }

    /** Moves frame bytes into the destination as far as they fit; 0 is taken for the end of the frame. */
    method GetFrame(dst: ByteBuffer) returns (n: nat)
      requires dst.Valid()
      modifies this, dst`data
      ensures dst.Valid()
      ensures n <= |old(frameBuffer) + old(ImageLeft())|
      ensures dst.data == old(dst.data) + (old(frameBuffer) + old(ImageLeft()))[..n]
      ensures n > 0 ==> frameBuffer + ImageLeft() == (old(frameBuffer) + old(ImageLeft()))[n..]
      ensures n == 0 && old(frameBuffer) != [] ==> frameBuffer == old(frameBuffer) && imageInput == old(imageInput)
      ensures n == 0 && old(frameBuffer) == [] ==> frameBuffer == [] && imageInput.None?
      ensures n == 0 <==> old(frameBuffer) + old(ImageLeft()) == [] || old(dst.IsFull())
    {
      n := 0;
      var room := dst.capacity - |dst.data|;
      if frameBuffer != [] {
        n := Min(|frameBuffer|, room);
        dst.data := dst.data + frameBuffer[..n];
        frameBuffer := frameBuffer[n..];
      } else if imageInput.Some? {
        var image := imageInput.value;
        var most := Min(|image|, room);
        if most == 0 {
          imageInput := None;
        } else {
          n :| 0 < n <= most;
          dst.data := dst.data + image[..n];
          imageInput := Some(image[n..]);
        }
      }
    }
  }

  // ---------- adding

  /** Where the writer is: what it has started, and the bytes of a started frame still to be written. */
  datatype WriteState = WriteState(headerWritten: bool, frames: seq<FrameHeader>, inFrame: bool,
                                   buffer: seq<Byte>, image: seq<Byte>)

  ghost predicate WriteOk(c: Content, t: TagHeader, w: WriteState) {
    && Writable(c, t, w.frames)
    && (!w.headerWritten ==> !w.inFrame)
  }

  /** What has still to be written, as long as nothing has been lost. */
  ghost function Pending(c: Content, t: TagHeader, w: WriteState): seq<Byte>
    requires WriteOk(c, t, w)
  {
    var frames := if w.inFrame then (w.buffer + w.image) + AllFrames(c, w.frames) else AllFrames(c, w.frames);
    if w.headerWritten then frames else EncodeTagHeader(t) + frames
  }

  /** The number of bytes that can still be written, whatever has been lost. */
  ghost function Left(c: Content, t: TagHeader, w: WriteState): nat
    requires WriteOk(c, t, w)
  {
    (if w.headerWritten then 0 else HEADER_SIZE) + (if w.inFrame then |w.buffer| else 0)
    + |w.image| + |AllFrames(c, w.frames)|
  }

  /** The next call reads frame bytes, there are some, and the destination has no room for them. */
  ghost predicate Starves(w: WriteState, full: bool) {
    w.inFrame && w.buffer + w.image != [] && full
  }

  ghost function Started(c: Content, w: WriteState): WriteState
    requires c.uncompressed < MAX_FRAME_SIZE && w.frames != [] && WellFormed(w.frames[0])
  {
    var h := w.frames[0];
    w.(inFrame := true, frames := w.frames[1..], buffer := EncodeFrameHeader(h) + BufferedData(c, h),
       image := if !IsText(h) && h.id == APIC then c.image else w.image)
  }

  /** A read of frame bytes: some are written, or none and the frame is taken to be over. */
  ghost predicate FrameStep(w: WriteState, full: bool, w': WriteState, written: seq<Byte>) {
    && w' == w.(inFrame := written != [], buffer := w'.buffer, image := w'.image)
    && (written == [] <==> w.buffer + w.image == [] || full)
    && (if written != [] then w.buffer + w.image == written + (w'.buffer + w'.image)
        else if w.buffer != [] then w'.buffer == w.buffer && w'.image == w.image
        else w'.buffer == [] && w'.image == [])
  }

  ghost predicate WriteStep(c: Content, t: TagHeader, w: WriteState, full: bool, w': WriteState, written: seq<Byte>)
    requires WriteOk(c, t, w)
  {
    if !w.headerWritten then w' == w.(headerWritten := true) && written == EncodeTagHeader(t)
    else if w.inFrame then FrameStep(w, full, w', written)
    else if w.frames != [] then w' == Started(c, w) && written == []
    else w' == w && written == []
  }

  predicate Finished(w: WriteState) {
    w.headerWritten && !w.inFrame && w.frames == []
  }

  /** Between frames nothing is left behind in the source. */
  ghost predicate Intact(w: WriteState) {
    !w.inFrame ==> w.image == []
  }

  lemma StartKeepsTag(c: Content, t: TagHeader, w: WriteState)
    requires WriteOk(c, t, w) && Intact(w) && w.headerWritten && !w.inFrame && w.frames != []
    ensures WriteOk(c, t, Started(c, w)) && Intact(Started(c, w))
    ensures Pending(c, t, Started(c, w)) == Pending(c, t, w)
  {
    var h, w' := w.frames[0], Started(c, w);
    assert w'.buffer + w'.image == FrameBytes(c, h);
    assert AllFrames(c, w.frames) == FrameBytes(c, h) + AllFrames(c, w'.frames);
  }

  lemma FrameStepKeepsTag(c: Content, t: TagHeader, w: WriteState, full: bool, w': WriteState, written: seq<Byte>)
    requires WriteOk(c, t, w) && w.inFrame && FrameStep(w, full, w', written) && !Starves(w, full)
    ensures WriteOk(c, t, w') && Intact(w')
    ensures written + Pending(c, t, w') == Pending(c, t, w)
  {
    var rest := AllFrames(c, w.frames);
    if written == [] {
      assert w.buffer + w.image == [];
      assert [] + rest == rest;
    } else {
      Reassociate(written, w'.buffer + w'.image, rest, (w'.buffer + w'.image) + rest);
    }
  }

  /** A step that does not starve moves bytes from what is pending to what is written, and loses none. */
  lemma StepKeepsTag(c: Content, t: TagHeader, w: WriteState, full: bool, w': WriteState, written: seq<Byte>)
    requires WriteOk(c, t, w) && Intact(w) && WriteStep(c, t, w, full, w', written) && !Starves(w, full)
    ensures WriteOk(c, t, w') && Intact(w')
    ensures written + Pending(c, t, w') == Pending(c, t, w)
  {
    if w.headerWritten {
      if w.inFrame {
        FrameStepKeepsTag(c, t, w, full, w', written);
      } else {
        if w.frames != [] {
          StartKeepsTag(c, t, w);
        }
        assert [] + Pending(c, t, w') == Pending(c, t, w');
      }
    }
  }

  /** No step gains bytes, and a step that starves loses some. */
  lemma StepLosesBytes(c: Content, t: TagHeader, w: WriteState, full: bool, w': WriteState, written: seq<Byte>)
    requires WriteOk(c, t, w) && WriteStep(c, t, w, full, w', written)
    ensures WriteOk(c, t, w')
    ensures |written| + Left(c, t, w') <= Left(c, t, w)
    ensures Starves(w, full) ==> |written| + Left(c, t, w') < Left(c, t, w)
  {
  }

  class TagWriter {
    const header: TagHeader
    const source: FrameSource
    var headerWritten: bool
    var frames: seq<FrameHeader>
    var current: Option<FrameHeader>

    ghost function State(): WriteState
      reads this, source
    {
      WriteState(headerWritten, frames, current.Some?, source.frameBuffer, source.ImageLeft())
    }

    constructor (header: TagHeader, frames: seq<FrameHeader>, source: FrameSource)
      ensures this.header == header && this.source == source
      ensures State() == WriteState(false, frames, false, source.frameBuffer, source.ImageLeft())
    {
      this.header, this.source, this.frames := header, source, frames;
      headerWritten, current := false, None;
    }

    /**
     The header is written over what the destination holds, which is then as much longer as the
     header is long; every other step appends.
     */
    method AddTag(dst: ByteBuffer) returns (r: Result)
      requires WriteOk(source.content, header, State()) && dst.Valid()
      modifies this, source, dst
      ensures headerWritten
      ensures old(headerWritten) || old(dst.data) == [] ==>
                && old(dst.data) <= dst.data
                && WriteStep(source.content, header, old(State()), old(dst.IsFull()), State(),
                             dst.data[|old(dst.data)|..])
      ensures !old(headerWritten) ==>
                && State() == old(State()).(headerWritten := true)
                && |dst.data| == |old(dst.data)| + HEADER_SIZE && dst.data[..HEADER_SIZE] == EncodeTagHeader(header)
                && forall i :: HEADER_SIZE <= i < |old(dst.data)| ==> dst.data[i] == old(dst.data[i])
      ensures r == if Finished(old(State())) then CompleteAppend else Stepped
    {
      r := Stepped;
      if !headerWritten {
        TagHeaderRoundTrip(header, []);
        var k := Min(HEADER_SIZE, |dst.data|);
        var stale: seq<Byte> :| |stale| == k;
        var bytes := EncodeTagHeader(header) + dst.data[k..] + stale;
        var n := dst.Clear(|dst.data|);
        dst.Put(bytes);
        headerWritten := true;
      } else if current.None? {
        if frames == [] {
          r := CompleteAppend;
        } else {
          var h := frames[0];
          current := Some(h);
          frames := frames[1..];
          source.StartFrame(h);
        }
      } else {
        var n := source.GetFrame(dst);
        if n == 0 {
          current := None;
        }
      }
    }
  }

  /** How much a writer has before it, step by step. */
  ghost function Steps(w: WriteState): nat {
    (if w.headerWritten then 0 else 1) + 2 * |w.frames|
  }

  lemma StepProgress(c: Content, t: TagHeader, w: WriteState, full: bool, w': WriteState, written: seq<Byte>)
    requires WriteOk(c, t, w) && WriteStep(c, t, w, full, w', written) && !Finished(w)
    ensures Steps(w') <= Steps(w)
    ensures Steps(w') == Steps(w) ==> w.inFrame && (!w'.inFrame || |w'.buffer| + |w'.image| < |w.buffer| + |w.image|)
  {
  }

  /** What holds while a tag is written: everything is there, or something is lost for good. */
  ghost predicate WriteInv(c: Content, t: TagHeader, tag: seq<Byte>, out: seq<Byte>, w: WriteState, starved: bool) {
    && WriteOk(c, t, w)
    && (!starved ==> Intact(w) && out + Pending(c, t, w) == tag)
    && |out| + Left(c, t, w) <= |tag| - if starved then 1 else 0
  }

  lemma Reassociate(a: seq<Byte>, b: seq<Byte>, c: seq<Byte>, bc: seq<Byte>)
    requires b + c == bc
    ensures (a + b) + c == a + bc
  {
  }

  lemma WriteInvStep(c: Content, t: TagHeader, tag: seq<Byte>, out: seq<Byte>, w: WriteState, starved: bool,
                     full: bool, w': WriteState, written: seq<Byte>)
    requires WriteInv(c, t, tag, out, w, starved) && WriteStep(c, t, w, full, w', written)
    ensures WriteInv(c, t, tag, out + written, w', starved || Starves(w, full))
  {
    StepLosesBytes(c, t, w, full, w', written);
    if !starved && !Starves(w, full) {
      StepKeepsTag(c, t, w, full, w', written);
      Reassociate(out, written, Pending(c, t, w'), Pending(c, t, w));
    }
  }

  lemma WriteInvEnd(c: Content, t: TagHeader, tag: seq<Byte>, out: seq<Byte>, w: WriteState, starved: bool)
    requires WriteInv(c, t, tag, out, w, starved) && Finished(w)
    ensures out == tag <==> !starved
    ensures starved ==> |out| < |tag|
  {
  }

  lemma WriteInvStart(c: Content, t: TagHeader, hs: seq<FrameHeader>)
    requires Writable(c, t, hs)
    ensures WriteInv(c, t, TagBytes(c, t, hs), [], WriteState(false, hs, false, [], []), false)
  {
  }

  /** The states of a writer before each of its calls, where call k finds room for room(k) bytes. */
  ghost predicate IsTrace(c: Content, t: TagHeader, room: nat -> nat, trace: seq<WriteState>) {
    forall k :: 0 <= k < |trace| - 1 ==> Follows(c, t, trace[k], room(k) == 0, trace[k + 1])
  }

  ghost predicate Follows(c: Content, t: TagHeader, w: WriteState, full: bool, w': WriteState) {
    WriteOk(c, t, w) && exists written :: WriteStep(c, t, w, full, w', written)
  }

  ghost predicate StarvesIn(room: nat -> nat, trace: seq<WriteState>) {
    exists k :: 0 <= k < |trace| && Starves(trace[k], room(k) == 0)
  }

  lemma OneMoreState(c: Content, t: TagHeader, room: nat -> nat, trace: seq<WriteState>, w: WriteState)
    requires IsTrace(c, t, room, trace) && trace != [] && Follows(c, t, trace[|trace| - 1], room(|trace| - 1) == 0, w)
    ensures IsTrace(c, t, room, trace + [w])
    ensures StarvesIn(room, trace + [w]) <==> StarvesIn(room, trace) || Starves(w, room(|trace|) == 0)
  {
  }

  /** A tag has been written in front of a body if and only if no call starved. */
  ghost predicate WrittenIff(c: Content, t: TagHeader, hs: seq<FrameHeader>, body: seq<Byte>, room: nat -> nat,
                             trace: seq<WriteState>, out: seq<Byte>)
    requires Writable(c, t, hs)
  {
    && trace != [] && trace[0] == WriteState(false, hs, false, [], []) && Finished(trace[|trace| - 1])
    && IsTrace(c, t, room, trace)
    && (out == TagBytes(c, t, hs) + body <==> !StarvesIn(room, trace))
  }

  /** Writing a tag in front of a body, into whatever room the destination has at each call. */
  method WriteTag(writer: TagWriter, body: seq<Byte>, room: nat -> nat)
    returns (out: seq<Byte>, ghost trace: seq<WriteState>)
    requires Writable(writer.source.content, writer.header, writer.frames)
    requires writer.State() == WriteState(false, writer.frames, false, [], [])
    modifies writer, writer.source
    ensures WrittenIff(writer.source.content, writer.header, old(writer.frames), body, room, trace, out)
  {
    ghost var c, t := writer.source.content, writer.header;
    ghost var tag := TagBytes(c, t, writer.frames);
    WriteInvStart(c, t, writer.frames);
    out, trace := [], [writer.State()];
    ghost var starved := false;
    var k := 0;
    while true
      invariant WriteInv(c, t, tag, out, writer.State(), starved)
      invariant |trace| == k + 1 && trace[0] == WriteState(false, old(writer.frames), false, [], [])
      invariant trace[k] == writer.State() && IsTrace(c, t, room, trace)
      invariant StarvesIn(room, trace) <==> starved || Starves(trace[k], room(k) == 0)
      decreases Steps(writer.State()), writer.State().inFrame, |writer.State().buffer| + |writer.State().image|
    {
      ghost var w := writer.State();
      var free := room(k);
      var dst := new ByteBuffer(free);
      var r := writer.AddTag(dst);
      if r.CompleteAppend? {
        WriteInvEnd(c, t, tag, out, w, starved);
        out := out + body;
        return;
      }
      assert dst.data[0..] == dst.data;
      StepProgress(c, t, w, free == 0, writer.State(), dst.data);
      WriteInvStep(c, t, tag, out, w, starved, free == 0, writer.State(), dst.data);
      OneMoreState(c, t, room, trace, writer.State());
      starved := starved || Starves(w, free == 0);
      trace := trace + [writer.State()];
      out := out + dst.data;
      k := k + 1;
    }
  }

  /** A tag with frames is cut whenever the third call, the first to read frame bytes, finds no room. */
  lemma NoRoomCutsTag(c: Content, t: TagHeader, hs: seq<FrameHeader>, body: seq<Byte>, room: nat -> nat,
                      trace: seq<WriteState>, out: seq<Byte>)
    requires Writable(c, t, hs) && hs != [] && room(2) == 0
    requires WrittenIff(c, t, hs, body, room, trace, out)
    ensures out != TagBytes(c, t, hs) + body
  {
    assert Follows(c, t, trace[0], room(0) == 0, trace[1]);
    assert Follows(c, t, trace[1], room(1) == 0, trace[2]);
    FrameHeaderRoundTrip(hs[0], []);
    assert Starves(trace[2], room(2) == 0);
  }

  /** For every tag with frames there is such a destination. */
  method WriteWithoutRoom(writer: TagWriter, body: seq<Byte>) returns (out: seq<Byte>)
    requires Writable(writer.source.content, writer.header, writer.frames) && writer.frames != []
    requires writer.State() == WriteState(false, writer.frames, false, [], [])
    modifies writer, writer.source
    ensures out != TagBytes(writer.source.content, writer.header, old(writer.frames)) + body
  {
    var room := (k: nat) => if k == 2 then 0 else 4096;
    ghost var hs, trace := writer.frames, [];
    out, trace := WriteTag(writer, body, room);
    NoRoomCutsTag(writer.source.content, writer.header, hs, body, room, trace, out);
  }

  lemma RoomIsEnough(room: nat -> nat, trace: seq<WriteState>)
    requires forall k :: room(k) >= 1
    ensures !StarvesIn(room, trace)
  {
  }

  // ---------- writing and then stripping

  /** Stripping undoes writing, whatever the body is, if and only if the header states the size of the frames. */
  lemma StripUndoesWriteIff(c: Content, t: TagHeader, hs: seq<FrameHeader>, body: seq<Byte>)
    requires Writable(c, t, hs)
    ensures Stripped(TagBytes(c, t, hs) + body) == Some(body) <==> t.size == |AllFrames(c, hs)|
  {
    var h, frames := EncodeTagHeader(t), AllFrames(c, hs);
    var stream := h + frames + body;
    assert stream == h + (frames + body);
    TagHeaderRoundTrip(t, frames + body);
    assert |stream| == HEADER_SIZE + |frames| + |body|;
    if t.size == |frames| {
      assert stream[HEADER_SIZE + t.size..] == body;
    }
  }

  /** The two passes one after the other, each with its own portions, over any prepared tag. */
  method WriteThenStrip(writer: TagWriter, body: seq<Byte>, room: nat -> nat, chunks: seq<seq<Byte>>)
    returns (out: Option<seq<Byte>>, written: seq<Byte>)
    requires PreparedTag(writer.source.content, writer.header, writer.frames)
    requires writer.State() == WriteState(false, writer.frames, false, [], [])
    requires forall k :: room(k) >= 1
    modifies writer, writer.source
    ensures Flatten(chunks) == written ==> out == Some(body)
  {
    ghost var c, t, hs := writer.source.content, writer.header, writer.frames;
    ghost var trace;
    written, trace := WriteTag(writer, body, room);
    RoomIsEnough(room, trace);
    AllFramesSize(c, hs);
    StripUndoesWriteIff(c, t, hs, body);
    out := StripStream(chunks);
  }
}
