/**
 Cutting samples out of an audio stream: the frames whose end time lies in a time set are kept.
 Times are real numbers.
 */
module TimeSlicing {
  import opened Wrappers
  import opened Streams
  import opened MpegFrames

  // ---------- time sets

  /** Both ends belong to a time set. */
  datatype TimeSet = TimeSet(start: real, end: real)

  predicate Proper(s: TimeSet) {
    s.end > s.start && s.end >= 0.0 && s.start >= 0.0
  }

  predicate Within(s: TimeSet, time: real) {
    s.start <= time <= s.end
  }

  predicate InSome(sets: seq<TimeSet>, time: real) {
    exists i :: 0 <= i < |sets| && Within(sets[i], time)
  }

  class StreamTimeParser {
    var timeSets: seq<TimeSet>
    var time: real

    constructor (start: real, end: real)
      ensures time == 0.0 && timeSets == if Proper(TimeSet(start, end)) then [TimeSet(start, end)] else []
    {
      timeSets, time := [], 0.0;
      new;
      var added := AddTimeSet(start, end);
    }

    method AddTimeSet(start: real, end: real) returns (added: bool)
      modifies this`timeSets
      ensures added <==> Proper(TimeSet(start, end)) && TimeSet(start, end) !in old(timeSets)
      ensures added <==> end > start >= 0.0 && TimeSet(start, end) !in old(timeSets)
      ensures timeSets == if added then old(timeSets) + [TimeSet(start, end)] else old(timeSets)
    {
      added := false;
      if end > start && end >= 0.0 && start >= 0.0 {
        var duplicate, i := false, 0;
        while !duplicate && i < |timeSets|
          invariant i <= |timeSets| && (duplicate <==> TimeSet(start, end) in timeSets[..i])
        {
          duplicate := timeSets[i].start == start && timeSets[i].end == end;
          i := i + 1;
        }
        if !duplicate {
          assert timeSets[..|timeSets|] == timeSets;
          timeSets := timeSets + [TimeSet(start, end)];
          added := true;
        }
      }
    }

    method IsTimeValid(time: real) returns (valid: bool)
      ensures valid <==> InSome(timeSets, time)
      ensures valid <==> exists i :: 0 <= i < |timeSets| && timeSets[i].start <= time <= timeSets[i].end
    {
      valid := false;
      var i := 0;
      while !valid && i < |timeSets|
        invariant i <= |timeSets| && (valid <==> InSome(timeSets[..i], time))
      {
        valid := Within(timeSets[i], time);
        i := i + 1;
      }
      assert timeSets[..|timeSets|] == timeSets || valid;
      assert forall i :: 0 <= i < |timeSets| ==>
               (Within(timeSets[i], time) <==> timeSets[i].start <= time <= timeSets[i].end);
    }
  }

  /** The time sets after a number of additions. */
  function Added(sets: seq<TimeSet>, offers: seq<TimeSet>): seq<TimeSet>
    decreases offers
  {
    if offers == [] then sets
    else Added(if Proper(offers[0]) && offers[0] !in sets then sets + [offers[0]] else sets, offers[1..])
  }

  ghost predicate Covers(offers: seq<TimeSet>, time: real) {
    exists i :: 0 <= i < |offers| && Proper(offers[i]) && Within(offers[i], time)
  }

  /** The valid times are the union of all proper time sets ever added, in whatever order and however often. */
  lemma {:induction false} ValidTimesAreUnion(sets: seq<TimeSet>, offers: seq<TimeSet>, time: real)
    ensures InSome(Added(sets, offers), time) <==> InSome(sets, time) || Covers(offers, time)
    decreases offers
  {
    if offers != [] {
      var first, more := offers[0], offers[1..];
      var sets' := if Proper(first) && first !in sets then sets + [first] else sets;
      ValidTimesAreUnion(sets', more, time);
      OneMoreSet(sets, first, time);
      assert offers == [first] + more;
      assert Covers(offers, time) <==> (Proper(first) && Within(first, time)) || Covers(more, time) by {
        if Covers(offers, time) && !(Proper(first) && Within(first, time)) {
          var i :| 0 <= i < |offers| && Proper(offers[i]) && Within(offers[i], time);
          assert more[i - 1] == offers[i];
        }
        if Covers(more, time) {
          var i :| 0 <= i < |more| && Proper(more[i]) && Within(more[i], time);
          assert offers[i + 1] == more[i];
        }
      }
    }
  }

  lemma OneMoreSet(sets: seq<TimeSet>, s: TimeSet, time: real)
    ensures InSome(sets + [s], time) <==> InSome(sets, time) || Within(s, time)
    ensures s in sets && Within(s, time) ==> InSome(sets, time)
  {
    var all := sets + [s];
    assert all[|sets|] == s;
    if InSome(sets, time) {
      var i :| 0 <= i < |sets| && Within(sets[i], time);
      assert all[i] == sets[i];
    }
  }

  // ---------- one call

  datatype Slicer = Slicer(time: real, accept: nat, strip: nat)

  datatype Sliced = Sliced(next: Slicer, result: Result, taken: nat, put: seq<Byte>)

  /** A frame was found `gap` bytes ahead, in a buffer whose valid bytes start at `offset`. */
  function Framed(sets: seq<TimeSet>, s: Slicer, h: Header, gap: nat, offset: nat): Slicer {
    if gap > offset then s.(accept := gap - offset)
    else
      var time := s.time + h.time;
      if InSome(sets, time) then s.(time := time, accept := h.length) else s.(time := time, strip := h.length)
  }

  function Slice(decode: Decoder, sets: seq<TimeSet>, s: Slicer, b: seq<Byte>, offset: nat, finish: bool): Sliced {
    if b == [] || (s.accept == 0 && s.strip == 0 && |b| < HEADER_SIZE) then
      Sliced(s, if finish then CompleteTruncate else NeedsData, 0, [])
    else if s.accept > 0 then
      var n := Min(s.accept, |b|);
      Sliced(s.(accept := s.accept - n), Stepped, n, b[..n])
    else if s.strip > 0 then
      var n := Min(s.strip, |b|);
      Sliced(s.(strip := s.strip - n), Stepped, n, [])
    else
      match Found(decode, b)
      case None => Sliced(s, Error, 0, [])
      case Some((h, gap)) => Sliced(Framed(sets, s, h, gap, offset), Stepped, 0, [])
  }

  /** What a search does: a gap is passed, a frame is passed or dropped by its end time, and no frame is an error. */
  ghost predicate Searched(found: Option<(Header, nat)>, sets: seq<TimeSet>, offset: nat,
                           s: Slicer, s': Slicer, r: Result)
  {
    match found
    case None => s' == s && r == Error
    case Some((h, gap)) =>
      && r == Stepped
      && (gap > offset ==> s' == Slicer(s.time, gap - offset, s.strip))
      && (gap <= offset && (exists i :: 0 <= i < |sets| && sets[i].start <= s.time + h.time <= sets[i].end) ==>
            s' == Slicer(s.time + h.time, h.length, s.strip))
      && (gap <= offset && (forall i :: 0 <= i < |sets| ==> !(sets[i].start <= s.time + h.time <= sets[i].end)) ==>
            s' == Slicer(s.time + h.time, s.accept, h.length))
  }

  class MpegAudioTimeParser {
    const times: StreamTimeParser
    const frameParser: MpegAudioFrameParser
    var acceptBytes: nat
    var stripBytes: nat

    function State(): Slicer
      reads this, times
    {
      Slicer(times.time, acceptBytes, stripBytes)
    }

    predicate BetweenFrames()
      reads this
    {
      acceptBytes == 0 && stripBytes == 0
    }

    constructor (decode: Decoder, start: real, end: real)
      ensures fresh(times) && fresh(frameParser) && frameParser.Valid() && frameParser.decode == decode
      ensures State() == Slicer(0.0, 0, 0)
      ensures times.timeSets == if Proper(TimeSet(start, end)) then [TimeSet(start, end)] else []
    {
      times := new StreamTimeParser(start, end);
      frameParser := new MpegAudioFrameParser(decode);
      acceptBytes, stripBytes := 0, 0;
    }

    /** `offset` is where the valid bytes start in the buffer behind src. */
    method MutateData(src: ByteBuffer, dst: ByteBuffer, offset: nat, finish: bool) returns (r: Result)
      requires frameParser.Valid() && src.Valid() && dst.Valid() && src != dst
      modifies this`acceptBytes, this`stripBytes, times`time, frameParser, src, dst
      ensures frameParser.Valid() && src.Valid() && dst.Valid()
      ensures var c := Slice(frameParser.decode, times.timeSets, old(State()), old(src.data), offset, finish);
        && State() == c.next && r == c.result
        && c.taken <= |old(src.data)| && src.data == old(src.data)[c.taken..] && dst.data == old(dst.data) + c.put
      ensures old(src.data) == [] || (old(BetweenFrames()) && |old(src.data)| < 4) ==>
                && State() == old(State()) && src.data == old(src.data) && dst.data == old(dst.data)
                && r == if finish then CompleteTruncate else NeedsData
      ensures old(src.data) != [] && old(acceptBytes) > 0 ==>
                var n := if old(acceptBytes) < |old(src.data)| then old(acceptBytes) else |old(src.data)|;
                && times.time == old(times.time) && acceptBytes == old(acceptBytes) - n && stripBytes == old(stripBytes)
                && src.data == old(src.data)[n..] && dst.data == old(dst.data) + old(src.data)[..n] && r == Stepped
      ensures old(src.data) != [] && old(acceptBytes) == 0 && old(stripBytes) > 0 ==>
                var n := if old(stripBytes) < |old(src.data)| then old(stripBytes) else |old(src.data)|;
                && times.time == old(times.time) && acceptBytes == 0 && stripBytes == old(stripBytes) - n
                && src.data == old(src.data)[n..] && dst.data == old(dst.data) && r == Stepped
      ensures |old(src.data)| >= 4 && old(BetweenFrames()) ==>
                && src.data == old(src.data) && dst.data == old(dst.data)
                && Searched(Found(frameParser.decode, old(src.data)), times.timeSets, offset, old(State()), State(), r)
    {
      r := Stepped;
      if src.data == [] || (acceptBytes == 0 && stripBytes == 0 && |src.data| < 4) {
        r := if finish then CompleteTruncate else NeedsData;
      } else if acceptBytes > 0 {
        var k := src.Get(dst, acceptBytes, true);
        acceptBytes := acceptBytes - k;
      } else if stripBytes > 0 {
        var k := src.Clear(stripBytes);
        stripBytes := stripBytes - k;
      } else {
        var missing := frameParser.FindFrame(src.data);
        if frameParser.lastHeader.Some? {
          if frameParser.lastOffset > offset {
            acceptBytes := frameParser.lastOffset - offset;
          } else {
            var header := frameParser.lastHeader.value;
            times.time := times.time + header.time;
            var valid := times.IsTimeValid(times.time);
            if valid {
              acceptBytes := header.length;
            } else {
              stripBytes := header.length;
            }
          }
        } else {
          r := Error;
        }
      }
    }
  }

  // ---------- streams of frames, with and without bytes between them

  /** A frame that starts with frame sync and a header that states its length. */
  predicate ValidFrame(decode: Decoder, f: seq<Byte>) {
    |f| >= HEADER_SIZE && IsSync(f, 0) && HeaderAt(decode, f, 0).Some? && HeaderAt(decode, f, 0).value.length == |f|
  }

  predicate ValidFrames(decode: Decoder, fs: seq<seq<Byte>>) {
    forall i :: 0 <= i < |fs| ==> ValidFrame(decode, fs[i])
  }

  function TimeOf(decode: Decoder, f: seq<Byte>): real {
    if HeaderAt(decode, f, 0).Some? then HeaderAt(decode, f, 0).value.time else 0.0
  }

  /** A frame that ends at the given time, if that is a valid time. */
  function KeptFrame(sets: seq<TimeSet>, end: real, f: seq<Byte>): seq<Byte> {
    if InSome(sets, end) then f else []
  }

  /** What a stream is made of: frames, with the length of their audio, and bytes before a frame. */
  datatype Item = Gap(bytes: seq<Byte>) | Frame(bytes: seq<Byte>, time: real)

  predicate NoSyncBefore(gap: seq<Byte>, frame: seq<Byte>) {
    forall k :: 0 <= k < |gap| ==> !IsSync(gap + frame, k)
  }

  /** There is no frame sync before the frame's own, not even at the seam. */
  predicate LeadsTo(gap: seq<Byte>, frame: seq<Byte>) {
    gap != [] && NoSyncBefore(gap, frame)
  }

  predicate ValidItem(decode: Decoder, xs: seq<Item>, i: nat)
    requires i < |xs|
  {
    match xs[i]
    case Gap(g) => i + 1 < |xs| && xs[i + 1].Frame? && LeadsTo(g, xs[i + 1].bytes)
    case Frame(f, time) => ValidFrame(decode, f) && TimeOf(decode, f) == time
  }

  predicate ValidItems(decode: Decoder, xs: seq<Item>) {
    forall i :: 0 <= i < |xs| ==> ValidItem(decode, xs, i)
  }

  lemma TailValid(decode: Decoder, xs: seq<Item>)
    requires ValidItems(decode, xs) && xs != []
    ensures ValidItems(decode, xs[1..])
  {
    forall i | 0 <= i < |xs[1..]|
      ensures ValidItem(decode, xs[1..], i)
    {
      assert ValidItem(decode, xs, i + 1);
    }
  }

  function ItemBytes(xs: seq<Item>): seq<Byte> {
    if xs == [] then [] else xs[0].bytes + ItemBytes(xs[1..])
  }

  /** All gaps, and the frames whose end time, counted from `time`, lies in some time set. */
  function KeptItems(sets: seq<TimeSet>, time: real, xs: seq<Item>): seq<Byte>
    decreases xs
  {
    if xs == [] then []
    else if xs[0].Gap? then xs[0].bytes + KeptItems(sets, time, xs[1..])
    else
      var end := time + xs[0].time;
      KeptFrame(sets, end, xs[0].bytes) + KeptItems(sets, end, xs[1..])
  }

  /** The length of the audio in all frames. */
  function TotalTime(xs: seq<Item>): real {
    if xs == [] then 0.0 else Length(xs[0]) + TotalTime(xs[1..])
  }

  /** One more item adds itself: always if it is a gap, and if its end time is in some time set if it is a frame. */
  lemma KeptLast(sets: seq<TimeSet>, time: real, xs: seq<Item>, x: Item)
    ensures x.Gap? ==> KeptItems(sets, time, xs + [x]) == KeptItems(sets, time, xs) + x.bytes
    ensures x.Frame? ==>
              var end := time + TotalTime(xs) + x.time;
              && ((exists i :: 0 <= i < |sets| && sets[i].start <= end <= sets[i].end) ==>
                    KeptItems(sets, time, xs + [x]) == KeptItems(sets, time, xs) + x.bytes)
              && ((forall i :: 0 <= i < |sets| ==> end < sets[i].start || sets[i].end < end) ==>
                    KeptItems(sets, time, xs + [x]) == KeptItems(sets, time, xs))
  {
    KeptLastItem(sets, time, xs, x);
    var end := time + TotalTime(xs) + Length(x);
    assert forall i :: 0 <= i < |sets| ==> (Within(sets[i], end) <==> sets[i].start <= end <= sets[i].end);
    assert KeptItems(sets, time, xs) + [] == KeptItems(sets, time, xs);
  }

  /** What an item adds to what is kept, if it ends at the given time. */
  function KeptItem(sets: seq<TimeSet>, end: real, x: Item): seq<Byte> {
    if x.Gap? then x.bytes else KeptFrame(sets, end, x.bytes)
  }

  function Length(x: Item): real {
    if x.Frame? then x.time else 0.0
  }

  lemma KeptFirst(sets: seq<TimeSet>, time: real, x: Item, xs: seq<Item>)
    ensures KeptItems(sets, time, [x] + xs) ==
            KeptItem(sets, time + Length(x), x) + KeptItems(sets, time + Length(x), xs)
    ensures TotalTime([x] + xs) == Length(x) + TotalTime(xs)
  {
    assert ([x] + xs)[1..] == xs;
  }

  lemma Regroup(a: seq<Byte>, b: seq<Byte>, c: seq<Byte>)
    ensures a + (b + c) == (a + b) + c
  {
  }

  lemma {:induction false} KeptLastItem(sets: seq<TimeSet>, time: real, xs: seq<Item>, x: Item)
    ensures KeptItems(sets, time, xs + [x]) ==
            KeptItems(sets, time, xs) + KeptItem(sets, time + TotalTime(xs) + Length(x), x)
    decreases xs
  {
    if xs == [] {
      assert xs + [x] == [x] + xs;
      KeptFirst(sets, time, x, xs);
    } else {
      var first, rest := xs[0], xs[1..];
      assert xs + [x] == [first] + (rest + [x]) && xs == [first] + rest;
      var start, end := time + Length(first), time + TotalTime(xs) + Length(x);
      KeptLastItem(sets, start, rest, x);
      calc {
        KeptItems(sets, time, xs + [x]);
        { KeptFirst(sets, time, first, rest + [x]); }
        KeptItem(sets, start, first) + KeptItems(sets, start, rest + [x]);
        { KeptFirst(sets, time, first, rest); }
        KeptItem(sets, start, first) + (KeptItems(sets, start, rest) + KeptItem(sets, end, x));
        { Regroup(KeptItem(sets, start, first), KeptItems(sets, start, rest), KeptItem(sets, end, x)); }
        KeptItem(sets, start, first) + KeptItems(sets, start, rest) + KeptItem(sets, end, x);
        { KeptFirst(sets, time, first, rest); }
        KeptItems(sets, time, xs) + KeptItem(sets, end, x);
      }
    }
  }

  /** The parser has put out `out`, is `p` short of its next search, and has `b` at hand and `more` to come. */
  ghost predicate OnTrack(decode: Decoder, sets: seq<TimeSet>, s: Slicer, p: seq<Byte>, xs: seq<Item>,
                          out: seq<Byte>, b: seq<Byte>, more: seq<Byte>, total: seq<Byte>)
  {
    && ValidItems(decode, xs)
    && |p| == s.accept + s.strip && (s.accept == 0 || s.strip == 0)
    && b + more == p + ItemBytes(xs)
    && out + (if s.accept > 0 then p else []) + KeptItems(sets, s.time, xs) == total
  }

  /** The first sync depends on the bytes up to it only. */
  lemma SyncInFront(b: seq<Byte>, c: seq<Byte>, n: nat, k: nat)
    requires n <= |b| && n <= |c| && b[..n] == c[..n] && k + 1 < n && FirstSync(c, 0) == Some(k)
    ensures FirstSync(b, 0) == Some(k)
  {
    forall i | 0 <= i <= k
      ensures IsSync(b, i) == IsSync(c, i)
    {
      assert b[i] == b[..n][i] && c[i] == c[..n][i] && b[i + 1] == b[..n][i + 1] && c[i + 1] == c[..n][i + 1];
    }
    var r := FirstSync(b, 0);
    assert IsSync(b, k);
  }

  lemma FirstSyncAtFrame(g: seq<Byte>, f: seq<Byte>)
    requires NoSyncBefore(g, f) && IsSync(f, 0)
    ensures FirstSync(g + f, 0) == Some(|g|)
  {
    assert IsSync(g + f, |g|);
  }

  /** A search with the bytes before a frame and its header at hand finds the frame where it is. */
  lemma FoundInPlace(decode: Decoder, g: seq<Byte>, f: seq<Byte>, rest: seq<Byte>, b: seq<Byte>, more: seq<Byte>)
    requires ValidFrame(decode, f) && NoSyncBefore(g, f)
    requires b + more == (g + f) + rest && |b| >= |g| + HEADER_SIZE
    ensures Found(decode, b) == Some((HeaderAt(decode, f, 0).value, |g|))
  {
    var n := |g| + HEADER_SIZE;
    SameFront(b, more, g + f, rest, n);
    FirstSyncAtFrame(g, f);
    SyncInFront(b, g + f, n, |g|);
    assert b[|g|..n] == b[..n][|g|..] == (g + f)[..n][|g|..] == f[0..HEADER_SIZE];
  }

  lemma FoundAfterGap(decode: Decoder, xs: seq<Item>, b: seq<Byte>, more: seq<Byte>)
    requires ValidItems(decode, xs) && xs != [] && xs[0].Gap?
    requires b + more == ItemBytes(xs) && |b| >= |xs[0].bytes| + HEADER_SIZE
    ensures Found(decode, b).Some? && Found(decode, b).value.1 == |xs[0].bytes| > 0
  {
    assert ValidItem(decode, xs, 0) && ValidItem(decode, xs, 1);
    var g, f, rest := xs[0].bytes, xs[1].bytes, ItemBytes(xs[1..][1..]);
    assert ItemBytes(xs) == g + (f + rest) == (g + f) + rest;
    FoundInPlace(decode, g, f, rest, b, more);
  }

  lemma FoundAtOnce(decode: Decoder, xs: seq<Item>, b: seq<Byte>, more: seq<Byte>)
    requires ValidItems(decode, xs) && xs != [] && xs[0].Frame?
    requires b + more == ItemBytes(xs) && |b| >= HEADER_SIZE
    ensures ValidFrame(decode, xs[0].bytes) && TimeOf(decode, xs[0].bytes) == xs[0].time
    ensures Found(decode, b) == Some((HeaderAt(decode, xs[0].bytes, 0).value, 0))
  {
    assert ValidItem(decode, xs, 0);
    var f := xs[0].bytes;
    assert [] + f == f;
    FoundInPlace(decode, [], f, ItemBytes(xs[1..]), b, more);
  }

  lemma Passes(out: seq<Byte>, x: seq<Byte>, kept: seq<Byte>)
    ensures out + [] + (x + kept) == out + x + kept
  {
    assert out + [] == out;
  }

  /** A search that finds the bytes before a frame, in a buffer whose valid bytes start at 0. */
  lemma GapSliced(decode: Decoder, sets: seq<TimeSet>, s: Slicer, xs: seq<Item>, b: seq<Byte>, more: seq<Byte>,
                  finish: bool)
    requires s.accept == 0 && s.strip == 0 && ValidItems(decode, xs) && xs != [] && xs[0].Gap?
    requires b + more == ItemBytes(xs) && |b| >= |xs[0].bytes| + HEADER_SIZE
    ensures Slice(decode, sets, s, b, 0, finish) == Sliced(AfterGap(s.time, xs[0].bytes), Stepped, 0, [])
    ensures xs[0].bytes != []
  {
    FoundAfterGap(decode, xs, b, more);
  }

  function AfterGap(time: real, g: seq<Byte>): Slicer {
    Slicer(time, |g|, 0)
  }

  lemma GapTrack(decode: Decoder, sets: seq<TimeSet>, time: real, xs: seq<Item>,
                 out: seq<Byte>, b: seq<Byte>, more: seq<Byte>, total: seq<Byte>)
    requires OnTrack(decode, sets, Slicer(time, 0, 0), [], xs, out, b, more, total)
    requires xs != [] && xs[0].Gap? && xs[0].bytes != []
    ensures OnTrack(decode, sets, AfterGap(time, xs[0].bytes), xs[0].bytes, xs[1..], out, b, more, total)
  {
    TailValid(decode, xs);
    assert b + more == xs[0].bytes + ItemBytes(xs[1..]) by {
      assert [] + ItemBytes(xs) == ItemBytes(xs);
    }
    Passes(out, xs[0].bytes, KeptItems(sets, time, xs[1..]));
  }

  /** The parser after a frame has been found: its end time decides. */
  function AfterFrame(sets: seq<TimeSet>, end: real, f: seq<Byte>): Slicer {
    if InSome(sets, end) then Slicer(end, |f|, 0) else Slicer(end, 0, |f|)
  }

  lemma FrameSliced(decode: Decoder, sets: seq<TimeSet>, s: Slicer, xs: seq<Item>, b: seq<Byte>, more: seq<Byte>,
                    offset: nat, finish: bool)
    requires s.accept == 0 && s.strip == 0 && ValidItems(decode, xs) && xs != [] && xs[0].Frame?
    requires b + more == ItemBytes(xs) && |b| >= HEADER_SIZE
    ensures Slice(decode, sets, s, b, offset, finish) ==
            Sliced(AfterFrame(sets, s.time + xs[0].time, xs[0].bytes), Stepped, 0, [])
    ensures xs[0].bytes != []
  {
    FoundAtOnce(decode, xs, b, more);
  }

  lemma FrameTrack(decode: Decoder, sets: seq<TimeSet>, time: real, xs: seq<Item>,
                   out: seq<Byte>, b: seq<Byte>, more: seq<Byte>, total: seq<Byte>)
    requires OnTrack(decode, sets, Slicer(time, 0, 0), [], xs, out, b, more, total) && xs != [] && xs[0].Frame?
    ensures OnTrack(decode, sets, AfterFrame(sets, time + xs[0].time, xs[0].bytes), xs[0].bytes, xs[1..],
                    out, b, more, total)
  {
    var f, next := xs[0].bytes, AfterFrame(sets, time + xs[0].time, xs[0].bytes);
    TailValid(decode, xs);
    assert ValidItem(decode, xs, 0);
    assert b + more == f + ItemBytes(xs[1..]) by {
      assert [] + ItemBytes(xs) == ItemBytes(xs);
    }
    Passes(out, if next.accept > 0 then f else [], KeptItems(sets, next.time, xs[1..]));
  }

  lemma PassStep(decode: Decoder, sets: seq<TimeSet>, s: Slicer, p: seq<Byte>, xs: seq<Item>,
                 out: seq<Byte>, b: seq<Byte>, more: seq<Byte>, total: seq<Byte>, offset: nat, finish: bool)
    requires OnTrack(decode, sets, s, p, xs, out, b, more, total) && p != [] && b != []
    ensures var c := Slice(decode, sets, s, b, offset, finish);
      && c.result == Stepped && 0 < c.taken <= |p| && c.taken <= |b|
      && OnTrack(decode, sets, c.next, p[c.taken..], xs, out + c.put, b[c.taken..], more, total)
  {
    var n := Slice(decode, sets, s, b, offset, finish).taken;
    SameFront(b, more, p, ItemBytes(xs), n);
    if s.accept > 0 {
      assert out + p == out + p[..n] + p[n..];
    } else {
      assert out + [] == out;
    }
  }

  lemma ItemsAreLong(decode: Decoder, xs: seq<Item>)
    requires ValidItems(decode, xs) && xs != []
    ensures |ItemBytes(xs)| >= HEADER_SIZE
  {
    assert ValidItem(decode, xs, 0);
    if xs[0].Gap? {
      assert ValidItem(decode, xs, 1);
      assert ItemBytes(xs[1..]) == xs[1].bytes + ItemBytes(xs[1..][1..]);
    }
  }

  lemma NothingLeft(decode: Decoder, sets: seq<TimeSet>, s: Slicer, p: seq<Byte>, xs: seq<Item>,
                    out: seq<Byte>, b: seq<Byte>, total: seq<Byte>)
    requires OnTrack(decode, sets, s, p, xs, out, b, [], total) && (b == [] || (p == [] && |b| < HEADER_SIZE))
    ensures out == total
  {
    assert |b + []| == |p + ItemBytes(xs)|;
    if xs != [] {
      ItemsAreLong(decode, xs);
    }
  }

  // ---------- where the chunks may be cut

  /**
   A cut n bytes after the start of the items lies in no gap or header, unless so close to its
   start that the parser does not search yet. Without gaps every cut is fine.
   */
  predicate Spares(n: int, xs: seq<Item>) {
    n < HEADER_SIZE || xs == [] ||
    ((xs[0].Gap? ==> n >= |xs[0].bytes| + HEADER_SIZE) && Spares(n - |xs[0].bytes|, xs[1..]))
  }

  /** Every cut to come spares the gaps and headers: those at the ends of b, of b and the next chunk, and so on. */
  ghost predicate AllSpared(n: int, rest: seq<seq<Byte>>, xs: seq<Item>) {
    forall i :: 0 <= i <= |rest| ==> Spares(n + |Flatten(rest[..i])|, xs)
  }

  predicate NoGaps(xs: seq<Item>) {
    forall i :: 0 <= i < |xs| ==> xs[i].Frame?
  }

  lemma {:induction false} NoGapsSpared(n: int, xs: seq<Item>)
    requires NoGaps(xs)
    ensures Spares(n, xs)
    decreases xs
  {
    if n >= HEADER_SIZE && xs != [] {
      NoGapsSpared(n - |xs[0].bytes|, xs[1..]);
    }
  }

  lemma CutNow(n: int, rest: seq<seq<Byte>>, xs: seq<Item>)
    requires AllSpared(n, rest, xs)
    ensures Spares(n, xs)
  {
    assert rest[..0] == [];
  }

  /** The next chunk has arrived. */
  lemma CutsAfterChunk(n: int, rest: seq<seq<Byte>>, xs: seq<Item>)
    requires AllSpared(n, rest, xs) && rest != []
    ensures AllSpared(n + |rest[0]|, rest[1..], xs)
  {
    forall i | 0 <= i <= |rest[1..]|
      ensures Spares(n + |rest[0]| + |Flatten(rest[1..][..i])|, xs)
    {
      assert rest[..i + 1][0] == rest[0] && rest[..i + 1][1..] == rest[1..][..i];
    }
  }

  /** The search is over, and the item is dealt with. */
  lemma CutsAfterSearch(n: int, rest: seq<seq<Byte>>, xs: seq<Item>)
    requires AllSpared(n, rest, xs) && xs != []
    ensures AllSpared(n - |xs[0].bytes|, rest, xs[1..])
  {
    forall i | 0 <= i <= |rest|
      ensures Spares(n - |xs[0].bytes| + |Flatten(rest[..i])|, xs[1..])
    {
      assert Spares(n + |Flatten(rest[..i])|, xs);
    }
  }

  // ---------- whole runs

  /** A search that is to find bytes before a frame needs a buffer whose valid bytes start at 0. */
  ghost predicate OffsetFits(p: seq<Byte>, xs: seq<Item>, offset: nat) {
    p == [] && xs != [] && xs[0].Gap? ==> offset == 0
  }

  /** On track, and every cut to come spares the gaps and headers. */
  ghost predicate Standing(decode: Decoder, sets: seq<TimeSet>, s: Slicer, p: seq<Byte>, xs: seq<Item>,
                           out: seq<Byte>, b: seq<Byte>, rest: seq<seq<Byte>>, total: seq<Byte>)
  {
    OnTrack(decode, sets, s, p, xs, out, b, Flatten(rest), total) && AllSpared(|b| - |p|, rest, xs)
  }

  /** How a call that takes n bytes moves through the items: inside one, or by a search into the next. */
  ghost predicate Moved(p: seq<Byte>, xs: seq<Item>, n: nat, p': seq<Byte>, xs': seq<Item>) {
    || (xs' == xs && n + |p'| == |p|)
    || (n == 0 && p == [] && xs != [] && p' == xs[0].bytes && xs' == xs[1..])
  }

  /** A call that moved on, asked for more data, or ended with exactly what is kept put out. */
  ghost predicate WentWell(decode: Decoder, sets: seq<TimeSet>, s: Slicer, p: seq<Byte>, xs: seq<Item>, out: seq<Byte>,
                           b: seq<Byte>, rest: seq<seq<Byte>>, total: seq<Byte>, finish: bool,
                           c: Sliced, p': seq<Byte>, xs': seq<Item>)
  {
    && c.taken <= |b|
    && (c.result == Stepped || c.result == if finish then CompleteTruncate else NeedsData)
    && (c.result == CompleteTruncate ==> out + c.put == total)
    && (c.result != CompleteTruncate ==>
          && Standing(decode, sets, c.next, p', xs', out + c.put, b[c.taken..], rest, total)
          && Moved(p, xs, c.taken, p', xs'))
    && (c.result == Stepped ==> c.taken > 0 || (s.accept + s.strip == 0 && c.next.accept + c.next.strip > 0))
  }

  lemma WaitStaysOnTrack(decode: Decoder, sets: seq<TimeSet>, s: Slicer, p: seq<Byte>, xs: seq<Item>, out: seq<Byte>,
                         b: seq<Byte>, rest: seq<seq<Byte>>, total: seq<Byte>, offset: nat, finish: bool)
    requires Standing(decode, sets, s, p, xs, out, b, rest, total) && (finish ==> rest == [])
    requires b == [] || (p == [] && |b| < HEADER_SIZE)
    ensures WentWell(decode, sets, s, p, xs, out, b, rest, total, finish,
                     Slice(decode, sets, s, b, offset, finish), p, xs)
  {
    assert out + [] == out && b[0..] == b;
    if finish {
      NothingLeft(decode, sets, s, p, xs, out, b, total);
    }
  }

  lemma PassStaysOnTrack(decode: Decoder, sets: seq<TimeSet>, s: Slicer, p: seq<Byte>, xs: seq<Item>, out: seq<Byte>,
                         b: seq<Byte>, rest: seq<seq<Byte>>, total: seq<Byte>, offset: nat, finish: bool)
    requires Standing(decode, sets, s, p, xs, out, b, rest, total) && p != [] && b != []
    ensures var c := Slice(decode, sets, s, b, offset, finish);
      && c.taken <= |p|
      && WentWell(decode, sets, s, p, xs, out, b, rest, total, finish, c, p[c.taken..], xs)
  {
    PassStep(decode, sets, s, p, xs, out, b, Flatten(rest), total, offset, finish);
    var n := Slice(decode, sets, s, b, offset, finish).taken;
    assert |b[n..]| - |p[n..]| == |b| - |p|;
  }

  /** There is something to find. */
  lemma SearchHasItem(decode: Decoder, sets: seq<TimeSet>, s: Slicer, xs: seq<Item>, out: seq<Byte>,
                      b: seq<Byte>, rest: seq<seq<Byte>>, total: seq<Byte>)
    requires Standing(decode, sets, s, [], xs, out, b, rest, total) && |b| >= HEADER_SIZE
    ensures xs != [] && (xs[0].Gap? ==> |b| >= |xs[0].bytes| + HEADER_SIZE)
    ensures ValidItems(decode, xs) && b + Flatten(rest) == ItemBytes(xs) && s == Slicer(s.time, 0, 0)
  {
    assert [] + ItemBytes(xs) == ItemBytes(xs);
    assert |b + Flatten(rest)| == |ItemBytes(xs)|;
    CutNow(|b|, rest, xs);
  }

  /** What a search that finds the first item comes to. */
  function SearchResult(sets: seq<TimeSet>, time: real, x: Item): Sliced {
    Sliced(if x.Gap? then AfterGap(time, x.bytes) else AfterFrame(sets, time + x.time, x.bytes), Stepped, 0, [])
  }

  lemma SearchSliced(decode: Decoder, sets: seq<TimeSet>, s: Slicer, xs: seq<Item>, b: seq<Byte>, more: seq<Byte>,
                     offset: nat, finish: bool)
    requires s == Slicer(s.time, 0, 0) && ValidItems(decode, xs) && xs != [] && OffsetFits([], xs, offset)
    requires b + more == ItemBytes(xs) && |b| >= HEADER_SIZE && (xs[0].Gap? ==> |b| >= |xs[0].bytes| + HEADER_SIZE)
    ensures Slice(decode, sets, s, b, offset, finish) == SearchResult(sets, s.time, xs[0])
    ensures xs[0].bytes != []
  {
    if xs[0].Gap? {
      GapSliced(decode, sets, s, xs, b, more, finish);
    } else {
      FrameSliced(decode, sets, s, xs, b, more, offset, finish);
    }
  }

  /** The parser is on track after it. */
  lemma SearchTrack(decode: Decoder, sets: seq<TimeSet>, time: real, xs: seq<Item>,
                    out: seq<Byte>, b: seq<Byte>, more: seq<Byte>, total: seq<Byte>)
    requires OnTrack(decode, sets, Slicer(time, 0, 0), [], xs, out, b, more, total) && xs != [] && xs[0].bytes != []
    ensures OnTrack(decode, sets, SearchResult(sets, time, xs[0]).next, xs[0].bytes, xs[1..], out, b, more, total)
  {
    if xs[0].Gap? {
      GapTrack(decode, sets, time, xs, out, b, more, total);
    } else {
      FrameTrack(decode, sets, time, xs, out, b, more, total);
    }
  }

  lemma SearchStands(decode: Decoder, sets: seq<TimeSet>, xs: seq<Item>, out: seq<Byte>, b: seq<Byte>,
                     rest: seq<seq<Byte>>, total: seq<Byte>, next: Slicer)
    requires xs != [] && AllSpared(|b|, rest, xs)
    requires OnTrack(decode, sets, next, xs[0].bytes, xs[1..], out, b, Flatten(rest), total)
    ensures Standing(decode, sets, next, xs[0].bytes, xs[1..], out, b, rest, total)
  {
    CutsAfterSearch(|b|, rest, xs);
  }

  /** So it went well. */
  lemma SearchWentWell(decode: Decoder, sets: seq<TimeSet>, s: Slicer, xs: seq<Item>, out: seq<Byte>, b: seq<Byte>,
                       rest: seq<seq<Byte>>, total: seq<Byte>, finish: bool, next: Slicer)
    requires xs != [] && AllSpared(|b|, rest, xs) && s.accept + s.strip == 0 && next.accept + next.strip > 0
    requires OnTrack(decode, sets, next, xs[0].bytes, xs[1..], out, b, Flatten(rest), total)
    ensures WentWell(decode, sets, s, [], xs, out, b, rest, total, finish, Sliced(next, Stepped, 0, []),
                     xs[0].bytes, xs[1..])
  {
    SearchStands(decode, sets, xs, out, b, rest, total, next);
    assert out + [] == out && b[0..] == b;
  }

  lemma SearchStaysOnTrack(decode: Decoder, sets: seq<TimeSet>, s: Slicer, xs: seq<Item>, out: seq<Byte>,
                           b: seq<Byte>, rest: seq<seq<Byte>>, total: seq<Byte>, offset: nat, finish: bool)
    requires Standing(decode, sets, s, [], xs, out, b, rest, total) && OffsetFits([], xs, offset) && |b| >= HEADER_SIZE
    ensures xs != []
    ensures WentWell(decode, sets, s, [], xs, out, b, rest, total, finish, Slice(decode, sets, s, b, offset, finish),
                     xs[0].bytes, xs[1..])
  {
    SearchHasItem(decode, sets, s, xs, out, b, rest, total);
    SearchSliced(decode, sets, s, xs, b, Flatten(rest), offset, finish);
    SearchTrack(decode, sets, s.time, xs, out, b, Flatten(rest), total);
    SearchWentWell(decode, sets, s, xs, out, b, rest, total, finish, SearchResult(sets, s.time, xs[0]).next);
  }

  /** Every call stays on track. */
  lemma CallStaysOnTrack(decode: Decoder, sets: seq<TimeSet>, s: Slicer, p: seq<Byte>, xs: seq<Item>, out: seq<Byte>,
                         b: seq<Byte>, rest: seq<seq<Byte>>, total: seq<Byte>, offset: nat, finish: bool)
    returns (p': seq<Byte>, xs': seq<Item>)
    requires Standing(decode, sets, s, p, xs, out, b, rest, total) && OffsetFits(p, xs, offset)
    requires finish ==> rest == []
    ensures WentWell(decode, sets, s, p, xs, out, b, rest, total, finish,
                     Slice(decode, sets, s, b, offset, finish), p', xs')
  {
    if b == [] || (p == [] && |b| < HEADER_SIZE) {
      WaitStaysOnTrack(decode, sets, s, p, xs, out, b, rest, total, offset, finish);
      p', xs' := p, xs;
    } else if p == [] {
      SearchStaysOnTrack(decode, sets, s, xs, out, b, rest, total, offset, finish);
      p', xs' := xs[0].bytes, xs[1..];
    } else {
      PassStaysOnTrack(decode, sets, s, p, xs, out, b, rest, total, offset, finish);
      p', xs' := p[Slice(decode, sets, s, b, offset, finish).taken..], xs;
    }
  }

  // ---------- where the buffer's offsets matter

  /** The offset at call k, when n bytes of the stream have been taken. */
  type Offsets = (nat, nat) -> nat

  /** Wherever a gap starts, the offset is 0; `at` is where the items start. */
  ghost predicate GapsAtZero(offsets: Offsets, at: nat, xs: seq<Item>)
    decreases xs
  {
    xs != [] ==>
      && (xs[0].Gap? ==> forall k :: offsets(k, at) == 0)
      && GapsAtZero(offsets, at + |xs[0].bytes|, xs[1..])
  }

  lemma MovedKeepsGaps(offsets: Offsets, at: nat, p: seq<Byte>, xs: seq<Item>, n: nat, p': seq<Byte>, xs': seq<Item>)
    requires GapsAtZero(offsets, at + |p|, xs) && Moved(p, xs, n, p', xs')
    ensures GapsAtZero(offsets, at + n + |p'|, xs')
  {
  }

  lemma {:induction false} NoGapsAtZero(offsets: Offsets, at: nat, xs: seq<Item>)
    requires NoGaps(xs)
    ensures GapsAtZero(offsets, at, xs)
    decreases xs
  {
    if xs != [] {
      NoGapsAtZero(offsets, at + |xs[0].bytes|, xs[1..]);
    }
  }

  lemma ChunkStaysOnTrack(decode: Decoder, sets: seq<TimeSet>, s: Slicer, p: seq<Byte>, xs: seq<Item>,
                          out: seq<Byte>, b: seq<Byte>, chunk: seq<Byte>, more: seq<Byte>, total: seq<Byte>)
    requires OnTrack(decode, sets, s, p, xs, out, b, chunk + more, total)
    ensures OnTrack(decode, sets, s, p, xs, out, b + chunk, more, total)
  {
    assert b + (chunk + more) == b + chunk + more;
  }

  ghost predicate Stands(parser: MpegAudioTimeParser, p: seq<Byte>, xs: seq<Item>, out: seq<Byte>,
                         b: seq<Byte>, rest: seq<seq<Byte>>, total: seq<Byte>)
    reads parser, parser.times
  {
    Standing(parser.frameParser.decode, parser.times.timeSets, parser.State(), p, xs, out, b, rest, total)
  }

  /** One call of the parser, as the value model says. */
  method Call(parser: MpegAudioTimeParser, src: ByteBuffer, dst: ByteBuffer, offset: nat, finish: bool)
    returns (r: Result)
    requires parser.frameParser.Valid() && src.Valid() && dst.Valid() && src != dst
    modifies parser`acceptBytes, parser`stripBytes, parser.times`time, parser.frameParser, src, dst
    ensures parser.frameParser.Valid() && src.Valid() && dst.Valid()
    ensures var c := Slice(parser.frameParser.decode, parser.times.timeSets, old(parser.State()), old(src.data),
                           offset, finish);
      && parser.State() == c.next && r == c.result
      && c.taken <= |old(src.data)| && src.data == old(src.data)[c.taken..] && dst.data == old(dst.data) + c.put
  {
    r := parser.MutateData(src, dst, offset, finish);
  }

  /** One call of the parser, which stays on track. */
  method Advance(parser: MpegAudioTimeParser, src: ByteBuffer, dst: ByteBuffer, offset: nat, finish: bool,
                 ghost p: seq<Byte>, ghost xs: seq<Item>, ghost rest: seq<seq<Byte>>, ghost total: seq<Byte>)
    returns (r: Result, ghost p': seq<Byte>, ghost xs': seq<Item>)
    requires parser.frameParser.Valid() && src.Valid() && dst.Valid() && src != dst && (finish ==> rest == [])
    requires Stands(parser, p, xs, dst.data, src.data, rest, total) && OffsetFits(p, xs, offset)
    modifies parser`acceptBytes, parser`stripBytes, parser.times`time, parser.frameParser, src, dst
    ensures parser.frameParser.Valid() && src.Valid() && dst.Valid()
    ensures r == Stepped || r == if finish then CompleteTruncate else NeedsData
    ensures r == CompleteTruncate ==> dst.data == total
    ensures |src.data| <= |old(src.data)|
    ensures r != CompleteTruncate ==>
              && Stands(parser, p', xs', dst.data, src.data, rest, total)
              && Moved(p, xs, |old(src.data)| - |src.data|, p', xs')
    ensures r == Stepped ==> |src.data| < |old(src.data)| || (!parser.BetweenFrames() && old(parser.BetweenFrames()))
  {
    p', xs' := CallStaysOnTrack(parser.frameParser.decode, parser.times.timeSets, parser.State(), p, xs,
                                dst.data, src.data, rest, total, offset, finish);
    r := Call(parser, src, dst, offset, finish);
  }

  /** The same at a place in the stream, with the offset that the buffer has there. */
  method AdvanceAt(parser: MpegAudioTimeParser, src: ByteBuffer, dst: ByteBuffer, offsets: Offsets, call: nat, at: nat,
                   finish: bool, ghost p: seq<Byte>, ghost xs: seq<Item>, ghost rest: seq<seq<Byte>>,
                   ghost total: seq<Byte>)
    returns (r: Result, at': nat, ghost p': seq<Byte>, ghost xs': seq<Item>)
    requires parser.frameParser.Valid() && src.Valid() && dst.Valid() && src != dst && (finish ==> rest == [])
    requires Stands(parser, p, xs, dst.data, src.data, rest, total) && GapsAtZero(offsets, at + |p|, xs)
    modifies parser`acceptBytes, parser`stripBytes, parser.times`time, parser.frameParser, src, dst
    ensures parser.frameParser.Valid() && src.Valid() && dst.Valid()
    ensures r == Stepped || r == if finish then CompleteTruncate else NeedsData
    ensures r == CompleteTruncate ==> dst.data == total
    ensures |src.data| <= |old(src.data)| && at' + |src.data| == at + |old(src.data)|
    ensures r != CompleteTruncate ==>
              Stands(parser, p', xs', dst.data, src.data, rest, total) && GapsAtZero(offsets, at' + |p'|, xs')
    ensures r == Stepped ==> |src.data| < |old(src.data)| || (!parser.BetweenFrames() && old(parser.BetweenFrames()))
  {
    var n := |src.data|;
    r, p', xs' := Advance(parser, src, dst, offsets(call, at), finish, p, xs, rest, total);
    at' := at + n - |src.data|;
    if r != CompleteTruncate {
      MovedKeepsGaps(offsets, at, p, xs, n - |src.data|, p', xs');
    }
  }

  /** The next chunk arrives. */
  method AddChunk(parser: MpegAudioTimeParser, src: ByteBuffer, rest: seq<seq<Byte>>,
                  ghost p: seq<Byte>, ghost xs: seq<Item>, ghost out: seq<Byte>, ghost total: seq<Byte>)
    requires src.Valid() && rest != [] && Stands(parser, p, xs, out, src.data, rest, total)
    modifies src
    ensures src.Valid() && Stands(parser, p, xs, out, src.data, rest[1..], total)
  {
    ChunkStaysOnTrack(parser.frameParser.decode, parser.times.timeSets, parser.State(), p, xs,
                      out, src.data, rest[0], Flatten(rest[1..]), total);
    CutsAfterChunk(|src.data| - |p|, rest, xs);
    src.Put(rest[0]);
  }

  /** A call, and the next chunk if it is needed. */
  method Turn(parser: MpegAudioTimeParser, src: ByteBuffer, dst: ByteBuffer, offsets: Offsets, call: nat, at: nat,
              rest: seq<seq<Byte>>, ghost p: seq<Byte>, ghost xs: seq<Item>, ghost total: seq<Byte>)
    returns (r: Result, rest': seq<seq<Byte>>, at': nat, ghost p': seq<Byte>, ghost xs': seq<Item>)
    requires parser.frameParser.Valid() && src.Valid() && dst.Valid() && src != dst
    requires Stands(parser, p, xs, dst.data, src.data, rest, total) && GapsAtZero(offsets, at + |p|, xs)
    modifies parser`acceptBytes, parser`stripBytes, parser.times`time, parser.frameParser, src, dst
    ensures parser.frameParser.Valid() && src.Valid() && dst.Valid()
    ensures r == CompleteTruncate ==> dst.data == total
    ensures r != CompleteTruncate ==>
              Stands(parser, p', xs', dst.data, src.data, rest', total) && GapsAtZero(offsets, at' + |p'|, xs')
    ensures r != CompleteTruncate ==>
              || |rest'| < |rest|
              || (rest' == rest && |src.data| < |old(src.data)|)
              || (rest' == rest && |src.data| == |old(src.data)|
                  && !parser.BetweenFrames() && old(parser.BetweenFrames()))
  {
    rest' := rest;
    r, at', p', xs' := AdvanceAt(parser, src, dst, offsets, call, at, rest == [], p, xs, rest, total);
    if r == NeedsData {
      AddChunk(parser, src, rest, p', xs', dst.data, total);
      rest' := rest[1..];
    }
  }

  lemma StartsOnTrack(decode: Decoder, sets: seq<TimeSet>, time: real, xs: seq<Item>)
    requires ValidItems(decode, xs)
    ensures OnTrack(decode, sets, Slicer(time, 0, 0), [], xs, [], [], ItemBytes(xs),
                    KeptItems(sets, time, xs))
  {
    var total := KeptItems(sets, time, xs);
    assert [] + ItemBytes(xs) == ItemBytes(xs) && [] + [] + total == total;
  }

  /**
   A stream of frames with bytes between them: if the chunks spare the gaps and headers, and the
   offset is 0 where a gap starts, the gaps come out verbatim between the kept frames.
   */
  method SliceItems(parser: MpegAudioTimeParser, chunks: seq<seq<Byte>>, offsets: Offsets, ghost xs: seq<Item>)
    returns (out: seq<Byte>, r: Result)
    requires parser.frameParser.Valid() && parser.BetweenFrames()
    requires ValidItems(parser.frameParser.decode, xs) && Flatten(chunks) == ItemBytes(xs)
    requires AllSpared(0, chunks, xs) && GapsAtZero(offsets, 0, xs)
    modifies parser, parser.times, parser.frameParser
    ensures r == CompleteTruncate
    ensures out == KeptItems(old(parser.times.timeSets), old(parser.times.time), xs)
  {
    ghost var p, ahead := [], xs;
    ghost var total := KeptItems(parser.times.timeSets, parser.times.time, xs);
    StartsOnTrack(parser.frameParser.decode, parser.times.timeSets, parser.times.time, xs);
    var src := new ByteBuffer(0);
    var dst := new ByteBuffer(0);
    var rest, calls: nat, taken: nat := chunks, 0, 0;
    r := NeedsData;
    while r != CompleteTruncate
      invariant parser.frameParser.Valid() && src.Valid() && dst.Valid() && fresh(src) && fresh(dst) && src != dst
      invariant if r == CompleteTruncate then dst.data == total
                else Stands(parser, p, ahead, dst.data, src.data, rest, total)
      invariant r != CompleteTruncate ==> GapsAtZero(offsets, taken + |p|, ahead)
      decreases r != CompleteTruncate, |rest|, |src.data|, parser.BetweenFrames()
    {
      r, rest, taken, p, ahead := Turn(parser, src, dst, offsets, calls, taken, rest, p, ahead, total);
      calls := calls + 1;
    }
    out := dst.data;
  }

  /** A stream of frames only. */
  function Gapless(decode: Decoder, fs: seq<seq<Byte>>): seq<Item> {
    seq(|fs|, i requires 0 <= i < |fs| => Frame(fs[i], TimeOf(decode, fs[i])))
  }

  lemma GaplessValid(decode: Decoder, fs: seq<seq<Byte>>)
    requires ValidFrames(decode, fs)
    ensures ValidItems(decode, Gapless(decode, fs)) && NoGaps(Gapless(decode, fs))
  {
  }

  lemma {:induction false} GaplessBytes(decode: Decoder, fs: seq<seq<Byte>>)
    ensures ItemBytes(Gapless(decode, fs)) == Flatten(fs)
  {
    if fs != [] {
      assert Gapless(decode, fs)[0].bytes == fs[0] && Gapless(decode, fs)[1..] == Gapless(decode, fs[1..]);
      GaplessBytes(decode, fs[1..]);
    }
  }

  /** Whatever the chunks and the offsets of the buffer, a stream of frames is cut to the kept frames. */
  method SliceStream(parser: MpegAudioTimeParser, chunks: seq<seq<Byte>>, offsets: Offsets, ghost fs: seq<seq<Byte>>)
    returns (out: seq<Byte>, r: Result)
    requires parser.frameParser.Valid() && parser.BetweenFrames()
    requires ValidFrames(parser.frameParser.decode, fs) && Flatten(chunks) == Flatten(fs)
    modifies parser, parser.times, parser.frameParser
    ensures r == CompleteTruncate
    ensures out == KeptItems(old(parser.times.timeSets), old(parser.times.time),
                             Gapless(parser.frameParser.decode, fs))
  {
    ghost var xs := Gapless(parser.frameParser.decode, fs);
    GaplessValid(parser.frameParser.decode, fs);
    GaplessBytes(parser.frameParser.decode, fs);
    forall i | 0 <= i <= |chunks|
      ensures Spares(0 + |Flatten(chunks[..i])|, xs)
    {
      NoGapsSpared(|Flatten(chunks[..i])|, xs);
    }
    NoGapsAtZero(offsets, 0, xs);
    out, r := SliceItems(parser, chunks, offsets, xs);
  }

  // ---------- offsets other than 0

  /** The search lets exactly the gap pass, or deals with the frame if there is none. */
  predicate HandlesGap(s: Slicer, h: Header, gap: nat, c: Sliced) {
    && c.result == Stepped && c.taken == 0 && c.put == []
    && if gap > 0 then c.next == s.(accept := gap) else c.next.time == s.time + h.time
  }

  /** A search handles the gap it finds if and only if there is none or the buffer's valid bytes start at 0. */
  lemma GapHandledIff(decode: Decoder, sets: seq<TimeSet>, s: Slicer, b: seq<Byte>, offset: nat, finish: bool)
    requires s.accept == 0 && s.strip == 0 && Found(decode, b).Some? && Found(decode, b).value.0.time > 0.0
    ensures var (h, gap) := Found(decode, b).value;
      HandlesGap(s, h, gap, Slice(decode, sets, s, b, offset, finish)) <==> gap == 0 || offset == 0
  {
  }

  /** The calls on a buffer that gets no more data, up to the end: what is put out. */
  function Drained(decode: Decoder, sets: seq<TimeSet>, s: Slicer, b: seq<Byte>, offset: nat, calls: nat): seq<Byte>
    decreases calls
  {
    var c := Slice(decode, sets, s, b, offset, true);
    if calls == 0 || c.result != Stepped || c.taken > |b| then []
    else c.put + Drained(decode, sets, c.next, b[c.taken..], offset, calls - 1)
  }

  /**
   A short gap before a frame that is not kept disappears if the offset is no smaller than it: the
   frame's length is stripped from the gap on, and the rest of the frame is cut off.
   */
  lemma GapLost(decode: Decoder, sets: seq<TimeSet>, time: real, g: seq<Byte>, f: seq<Byte>, offset: nat, calls: nat)
    requires ValidFrame(decode, f) && LeadsTo(g, f) && |g| < HEADER_SIZE && |g| <= offset
    requires !InSome(sets, time + TimeOf(decode, f))
    ensures KeptItems(sets, time, [Gap(g), Frame(f, TimeOf(decode, f))]) == g
    ensures Drained(decode, sets, Slicer(time, 0, 0), g + f, offset, calls) == []
  {
    var xs, b := [Gap(g), Frame(f, TimeOf(decode, f))], g + f;
    assert xs[1..] == [xs[1]] && xs[1..][1..] == [];
    assert KeptItems(sets, time, xs[1..]) == [] + [] == [];
    assert g + [] == g;
    assert b + [] == (g + f) + [];
    FoundInPlace(decode, g, f, [], b, []);
    assert b[0..] == b;
    if calls > 0 {
      StrippedShort(decode, sets, Slicer(time + TimeOf(decode, f), 0, |f|), b, offset, calls - 1);
    }
  }

  /** Stripping all but a few bytes puts out nothing. */
  lemma StrippedShort(decode: Decoder, sets: seq<TimeSet>, s: Slicer, b: seq<Byte>, offset: nat, calls: nat)
    requires s.accept == 0 && 0 < s.strip <= |b| < s.strip + HEADER_SIZE
    ensures Drained(decode, sets, s, b, offset, calls) == []
  {
    assert |b[s.strip..]| < HEADER_SIZE;
  }

  const HEADER_BYTES: seq<Byte> := [0xff, 0xfb, 0x00, 0x00]
  const OneSecond: Decoder := (b: seq<Byte>) => if b == HEADER_BYTES then Some(Header(4, 1.0)) else None

  /** Such a stream: one byte, then a frame that is its header, read from a buffer with offset 1. */
  lemma GapLostStream()
    ensures ItemBytes([Gap([0]), Frame(HEADER_BYTES, 1.0)]) == [0, 0xff, 0xfb, 0x00, 0x00]
    ensures KeptItems([], 0.0, [Gap([0]), Frame(HEADER_BYTES, 1.0)]) == [0]
    ensures Drained(OneSecond, [], Slicer(0.0, 0, 0), [0, 0xff, 0xfb, 0x00, 0x00], 1, 3) == []
  {
    var g: seq<Byte>, f := [0], HEADER_BYTES;
    assert f[0..4] == f && g + f == [0, 0xff, 0xfb, 0x00, 0x00];
    assert !IsSync(g + f, 0) && IsSync(g + f, 1);
    GapLost(OneSecond, [], 0.0, g, f, 1, 3);
    var xs := [Gap(g), Frame(f, 1.0)];
    assert xs[1..] == [Frame(f, 1.0)] && xs[1..][1..] == [];
    assert ItemBytes(xs[1..]) == f + [] == f;
  }
}
