/**
 The steganographer, which lets the immutable bytes of a stream pass and hands the others to a watermark.
 */
module Steganography {
  import opened Wrappers
  import opened Streams

  /** Byte counts are cut to 31 bits before they are used. */
  const COUNT_LIMIT: nat := 0x8000_0000

  datatype Mode = Encode | Clean | Decode

  /** What writing or cleaning did: whether it had enough data, the bytes it took and the bytes it put. */
  datatype Written = Written(enough: bool, taken: nat, put: seq<Byte>)

  /** The answers of a concrete watermark, which may differ from call to call. */
  datatype Watermark = Watermark(mode: Mode,
                                 immutables: (nat, seq<Byte>, bool) -> int,
                                 inspect: (nat, seq<Byte>) -> int,
                                 write: (nat, seq<Byte>, bool) -> Written)

  datatype State = State(immutableBytes: int, retryMutation: bool)

  datatype Step = Step(next: State, result: Result, taken: nat, put: seq<Byte>, mutated: bool)

  function Mutated(wm: Watermark, call: nat, b: seq<Byte>, full: bool, finish: bool): Written {
    if wm.mode.Decode? then
      var inspected := wm.inspect(call, b);
      if inspected > 0 then Written(true, Min(inspected, |b|), b[..Min(inspected, |b|)])
      else if full then Written(true, |b|, b)
      else Written(false, 0, [])
    else
      var w := wm.write(call, b, finish);
      w.(taken := Min(w.taken, |b|))
  }

  function Starved(finish: bool): Result {
    if finish then CompleteTruncate else NeedsData
  }

  /** Immutable bytes pass. */
  function Passed(s: State, b: seq<Byte>, finish: bool): Step
    requires s.immutableBytes > 0
  {
    if b == [] then Step(s, Starved(finish), 0, [], false)
    else
      var n := Min(s.immutableBytes % COUNT_LIMIT, |b|);
      Step(s.(immutableBytes := s.immutableBytes - n), Stepped, n, b[..n], false)
  }

  function Stepping(wm: Watermark, s: State, call: nat, b: seq<Byte>, full: bool, finish: bool): Step {
    var n := if s.immutableBytes == 0 && !s.retryMutation then wm.immutables(call, b, finish) else s.immutableBytes;
    if n > 0 then Passed(s.(immutableBytes := n), b, finish)
    else if n == 0 then
      var w := Mutated(wm, call, b, full, finish);
      Step(State(0, !w.enough), if w.enough then Stepped else Starved(finish), w.taken, w.put, true)
    else if s.immutableBytes != 0 then Step(s, Stepped, 0, [], false)
    else if n == -1 then Step(s, Starved(finish), 0, [], false)
    else Step(s.(immutableBytes := n), Error, 0, [], false)
  }

  /** A pending retry implies that no immutable bytes are left. */
  predicate Ok(s: State) {
    s.retryMutation ==> s.immutableBytes == 0
  }

  /**
   In Decode mode exactly the inspected bytes move, at most all there are, or all of a full buffer
   if none were inspected; in the other modes the watermark says what is taken and put.
   */
  ghost predicate Decided(wm: Watermark, call: nat, finish: bool, b: seq<Byte>, full: bool, out: seq<Byte>,
                          enough: bool, b': seq<Byte>, out': seq<Byte>)
  {
    if wm.mode.Decode? then
      var k := wm.inspect(call, b);
      && (0 < k < |b| ==> enough && b' == b[k..] && out' == out + b[..k])
      && ((k >= |b| && k > 0) || (k <= 0 && full) ==> enough && b' == [] && out' == out + b)
      && (k <= 0 && !full ==> !enough && b' == b && out' == out)
    else
      var w := wm.write(call, b, finish);
      enough == w.enough && out' == out + w.put && b' == if w.taken < |b| then b[w.taken..] else []
  }

  /** As many of the known immutable bytes as there are pass. */
  ghost predicate LetThrough(n: int, finish: bool, b: seq<Byte>, out: seq<Byte>,
                             n': int, r: Result, b': seq<Byte>, out': seq<Byte>)
    requires n > 0
  {
    if b == [] then
      n' == n && b' == b && out' == out && r == if finish then CompleteTruncate else NeedsData
    else
      var k := if n % 0x8000_0000 < |b| then n % 0x8000_0000 else |b|;
      n' == n - k && b' == b[k..] && out' == out + b[..k] && r == Stepped
  }

  /** What a call with a watermark does, case by case on the count of immutable bytes. */
  ghost predicate Turned(wm: Watermark, call: nat, finish: bool, full: bool, s: State, b: seq<Byte>, out: seq<Byte>,
                         s': State, r: Result, b': seq<Byte>, out': seq<Byte>)
  {
    var n := if s.immutableBytes == 0 && !s.retryMutation then wm.immutables(call, b, finish) else s.immutableBytes;
    if n > 0 then
      !s'.retryMutation && LetThrough(n, finish, b, out, s'.immutableBytes, r, b', out')
    else if n == 0 then
      && s'.immutableBytes == 0 && Decided(wm, call, finish, b, full, out, !s'.retryMutation, b', out')
      && r == if !s'.retryMutation then Stepped else if finish then CompleteTruncate else NeedsData
    else if s.immutableBytes != 0 then
      s' == s && r == Stepped && b' == b && out' == out
    else
      && s' == State(if n == -1 then 0 else n, false) && b' == b && out' == out
      && r == if n < -1 then Error else if finish then CompleteTruncate else NeedsData
  }

  method Mutate(wm: Watermark, call: nat, src: ByteBuffer, dst: ByteBuffer, finish: bool) returns (enough: bool)
    requires src.Valid() && dst.Valid() && src != dst
    modifies src, dst
    ensures src.Valid() && dst.Valid()
    ensures var w := Mutated(wm, call, old(src.data), old(src.IsFull()), finish);
      && w.taken <= |old(src.data)|
      && enough == w.enough && src.data == old(src.data)[w.taken..] && dst.data == old(dst.data) + w.put
    ensures Decided(wm, call, finish, old(src.data), old(src.IsFull()), old(dst.data), enough, src.data, dst.data)
  {
    enough := true;
    match wm.mode {
      case Decode =>
        var inspected := wm.inspect(call, src.data);
        if inspected > 0 {
          var k := src.Get(dst, inspected, true);
        } else if src.IsFull() {
          var k := src.Get(dst, |src.data|, true);
        } else {
          enough := false;
        }
      case _ =>
        var w := wm.write(call, src.data, finish);
        var k := src.Clear(w.taken);
        dst.Put(w.put);
        enough := w.enough;
    }
  }

  class Steganographer {
    var watermark: Option<Watermark>
    var immutableBytes: int
    var retryMutation: bool

    function Current(): State
      reads this
    {
      State(immutableBytes, retryMutation)
    }

    constructor ()
      ensures watermark.None? && Current() == State(0, false)
    {
      watermark, immutableBytes, retryMutation := None, 0, false;
    }

    method Reset()
      modifies this
      ensures watermark.None? && Current() == State(0, false)
    {
      watermark, immutableBytes, retryMutation := None, 0, false;
    }

    method MutateData(call: nat, src: ByteBuffer, dst: ByteBuffer, finish: bool) returns (r: Result)
      requires src.Valid() && dst.Valid() && src != dst && Ok(Current())
      modifies this`immutableBytes, this`retryMutation, src, dst
      ensures src.Valid() && dst.Valid() && Ok(Current())
      ensures watermark.None? ==> r == CompleteAppend && Current() == old(Current())
                                  && src.data == old(src.data) && dst.data == old(dst.data)
      ensures watermark.Some? ==>
                Turned(watermark.value, call, finish, old(src.IsFull()), old(Current()), old(src.data), old(dst.data),
                       Current(), r, src.data, dst.data)
      ensures watermark.Some? ==>
                var c := Stepping(watermark.value, old(Current()), call, old(src.data), old(src.IsFull()), finish);
                && Current() == c.next && r == c.result && c.taken <= |old(src.data)|
                && src.data == old(src.data)[c.taken..] && dst.data == old(dst.data) + c.put
    {
      if watermark.None? {
        r := CompleteAppend;
      } else {
        ghost var s, b, full, out := Current(), src.data, src.IsFull(), dst.data;
        r := Turn(watermark.value, call, src, dst, finish);
        TurnedIsStepping(watermark.value, call, finish, full, s, b, out, Current(), r, src.data, dst.data);
      }
    }

    method Turn(wm: Watermark, call: nat, src: ByteBuffer, dst: ByteBuffer, finish: bool) returns (r: Result)
      requires src.Valid() && dst.Valid() && src != dst && Ok(Current())
      modifies this`immutableBytes, this`retryMutation, src, dst
      ensures src.Valid() && dst.Valid() && Ok(Current())
      ensures Turned(wm, call, finish, old(src.IsFull()), old(Current()), old(src.data), old(dst.data),
                     Current(), r, src.data, dst.data)
    {
      r := Stepped;
      if immutableBytes == 0 {
        if !retryMutation {
          immutableBytes := wm.immutables(call, src.data, finish);
        }
        if immutableBytes == 0 {
          var enough := Mutate(wm, call, src, dst, finish);
          retryMutation := !enough;
          if retryMutation {
            r := NeedsData;
          }
        } else if immutableBytes == -1 {
          r := NeedsData;
          immutableBytes := 0;
        } else if immutableBytes < -1 {
          r := Error;
        }
      }
      if immutableBytes > 0 {
        if src.data != [] {
          var k := src.Get(dst, immutableBytes % COUNT_LIMIT, true);
          immutableBytes := immutableBytes - k;
        } else {
          r := NeedsData;
        }
      }
      if r == NeedsData && finish {
        r := CompleteTruncate;
      }
    }
  }

  lemma DecidedIsMutated(wm: Watermark, call: nat, finish: bool, full: bool, b: seq<Byte>, out: seq<Byte>,
                         enough: bool, b': seq<Byte>, out': seq<Byte>)
    requires Decided(wm, call, finish, b, full, out, enough, b', out')
    ensures var w := Mutated(wm, call, b, full, finish);
      w.taken <= |b| && enough == w.enough && b' == b[w.taken..] && out' == out + w.put
  {
    assert out + [] == out && b[0..] == b && b[|b|..] == [] && b[..|b|] == b;
  }

  lemma TurnedIsStepping(wm: Watermark, call: nat, finish: bool, full: bool, s: State, b: seq<Byte>, out: seq<Byte>,
                         s': State, r: Result, b': seq<Byte>, out': seq<Byte>)
    requires Ok(s) && Turned(wm, call, finish, full, s, b, out, s', r, b', out')
    ensures var c := Stepping(wm, s, call, b, full, finish);
      s' == c.next && r == c.result && c.taken <= |b| && b' == b[c.taken..] && out' == out + c.put
  {
    assert out + [] == out && b[0..] == b;
    var n := if s.immutableBytes == 0 && !s.retryMutation then wm.immutables(call, b, finish) else s.immutableBytes;
    if n == 0 {
      DecidedIsMutated(wm, call, finish, full, b, out, !s'.retryMutation, b', out');
    }
  }

  // ---------- runs: before each call a chunk is added to the source

  datatype World = World(state: State, src: seq<Byte>, dst: seq<Byte>, calls: nat, mutations: nat)

  /** Whether the source buffer is full and whether the stream ends, call by call. */
  datatype Buffers = Buffers(full: nat -> bool, finish: nat -> bool)

  function Called(wm: Watermark, e: Buffers, w: World, chunk: seq<Byte>): World {
    var b := w.src + chunk;
    var c := Stepping(wm, w.state, w.calls, b, e.full(w.calls), e.finish(w.calls));
    World(c.next, b[Min(c.taken, |b|)..], w.dst + c.put, w.calls + 1, w.mutations + if c.mutated then 1 else 0)
  }

  function Fed(wm: Watermark, e: Buffers, w: World, chunks: seq<seq<Byte>>): World
    decreases chunks
  {
    if chunks == [] then w else Fed(wm, e, Called(wm, e, w, chunks[0]), chunks[1..])
  }

  /** In every run a pending retry implies a zero immutable count. */
  lemma {:induction false} RetryMeansNoImmutables(wm: Watermark, e: Buffers, w: World, chunks: seq<seq<Byte>>)
    requires Ok(w.state)
    ensures Ok(Fed(wm, e, w, chunks).state)
    decreases chunks
  {
    if chunks != [] {
      RetryMeansNoImmutables(wm, e, Called(wm, e, w, chunks[0]), chunks[1..]);
    }
  }

  lemma CallConserves(wm: Watermark, e: Buffers, w: World, chunk: seq<Byte>)
    requires wm.mode.Decode?
    ensures var w' := Called(wm, e, w, chunk); w'.dst + w'.src == w.dst + w.src + chunk
  {
    var b := w.src + chunk;
    var c := Stepping(wm, w.state, w.calls, b, e.full(w.calls), e.finish(w.calls));
    assert c.put == b[..c.taken];
    assert (w.dst + b[..c.taken]) + b[c.taken..] == w.dst + (w.src + chunk) == w.dst + w.src + chunk;
  }

  /** In Decode mode no run loses, adds, changes or reorders a byte. */
  lemma {:induction false} DecodeConserves(wm: Watermark, e: Buffers, w: World, chunks: seq<seq<Byte>>)
    requires wm.mode.Decode?
    ensures var w' := Fed(wm, e, w, chunks); w'.dst + w'.src == w.dst + w.src + Flatten(chunks)
    decreases chunks
  {
    if chunks == [] {
      assert w.dst + w.src + [] == w.dst + w.src;
    } else {
      CallConserves(wm, e, w, chunks[0]);
      DecodeConserves(wm, e, Called(wm, e, w, chunks[0]), chunks[1..]);
      assert w.dst + w.src + chunks[0] + Flatten(chunks[1..]) == w.dst + w.src + Flatten(chunks);
    }
  }

  // ---------- immutable bytes

  /** The calls of a run up to the one that passes the last immutable byte; later chunks wait in the source. */
  function Passing(wm: Watermark, e: Buffers, w: World, chunks: seq<seq<Byte>>): World
    decreases chunks
  {
    if w.state.immutableBytes == 0 then w.(src := w.src + Flatten(chunks))
    else if chunks == [] then w
    else Passing(wm, e, Called(wm, e, w, chunks[0]), chunks[1..])
  }

  /** Of the bytes `fed`, as many as are immutable have passed verbatim, and the watermark has changed none. */
  ghost predicate HavePassed(w: World, fed: seq<Byte>, w': World)
    requires w.state.immutableBytes >= 0
  {
    var n := Min(w.state.immutableBytes, |fed|);
    && w'.state == w.state.(immutableBytes := w.state.immutableBytes - n)
    && w'.dst == w.dst + fed[..n] && w'.src == fed[n..] && w'.mutations == w.mutations
  }

  lemma CallPasses(wm: Watermark, e: Buffers, w: World, chunk: seq<Byte>)
    requires 0 < w.state.immutableBytes < COUNT_LIMIT
    ensures HavePassed(w, w.src + chunk, Called(wm, e, w, chunk))
  {
  }

  lemma PassedOnceMore(w: World, b: seq<Byte>, w': World, more: seq<Byte>, w'': World)
    requires w.state.immutableBytes >= 0
    requires HavePassed(w, b, w') && HavePassed(w', w'.src + more, w'')
    ensures HavePassed(w, b + more, w'')
  {
  }

  /**
   A count below 2^31 makes exactly that many bytes pass, verbatim and in order, over any number of
   calls, and the watermark changes nothing in the meantime.
   */
  lemma {:induction false} ImmutablesPass(wm: Watermark, e: Buffers, w: World, chunks: seq<seq<Byte>>)
    requires 0 <= w.state.immutableBytes < COUNT_LIMIT
    requires chunks != [] || w.src == [] || w.state.immutableBytes == 0
    ensures HavePassed(w, w.src + Flatten(chunks), Passing(wm, e, w, chunks))
    decreases chunks
  {
    if w.state.immutableBytes > 0 && chunks != [] {
      var w' := Called(wm, e, w, chunks[0]);
      CallPasses(wm, e, w, chunks[0]);
      HavePassedBounds(w, w.src + chunks[0], w');
      ImmutablesPass(wm, e, w', chunks[1..]);
      ChunksPassed(w, chunks, w', Passing(wm, e, w', chunks[1..]));
    } else {
      assert w.dst + [] == w.dst;
    }
  }

  lemma HavePassedBounds(w: World, fed: seq<Byte>, w': World)
    requires 0 <= w.state.immutableBytes < COUNT_LIMIT && HavePassed(w, fed, w')
    ensures 0 <= w'.state.immutableBytes < COUNT_LIMIT && (w'.src == [] || w'.state.immutableBytes == 0)
  {
  }

  lemma ChunksPassed(w: World, chunks: seq<seq<Byte>>, w': World, w'': World)
    requires 0 <= w.state.immutableBytes && chunks != [] && HavePassed(w, w.src + chunks[0], w')
    requires 0 <= w'.state.immutableBytes && HavePassed(w', w'.src + Flatten(chunks[1..]), w'')
    ensures HavePassed(w, w.src + Flatten(chunks), w'')
  {
    PassedOnceMore(w, w.src + chunks[0], w', Flatten(chunks[1..]), w'');
    assert w.src + Flatten(chunks) == w.src + chunks[0] + Flatten(chunks[1..]);
  }

  /** The call in which the watermark announces n immutable bytes already goes on as if they had been known before. */
  lemma AnnouncedAtOnce(wm: Watermark, e: Buffers, w: World, chunk: seq<Byte>, n: int)
    requires w.state == State(0, false) && n > 0 && wm.immutables(w.calls, w.src + chunk, e.finish(w.calls)) == n
    ensures Called(wm, e, w, chunk) == Called(wm, e, w.(state := State(n, false)), chunk)
  {
  }

  /** A count of 2^31 or more never falls below 2^31. */
  lemma {:induction false} LargeCountStays(wm: Watermark, e: Buffers, w: World, chunks: seq<seq<Byte>>)
    requires w.state.immutableBytes >= COUNT_LIMIT
    ensures Passing(wm, e, w, chunks).state.immutableBytes >= COUNT_LIMIT
    decreases chunks
  {
    if chunks != [] {
      LargeCountStays(wm, e, Called(wm, e, w, chunks[0]), chunks[1..]);
    }
  }

  /** Given enough data, the immutable bytes are passed and the watermark gets its turn iff the count is below 2^31. */
  lemma TurnComesIff(wm: Watermark, e: Buffers, w: World, chunks: seq<seq<Byte>>)
    requires w.state.immutableBytes > 0 && chunks != []
    requires |w.src + Flatten(chunks)| >= w.state.immutableBytes
    ensures Passing(wm, e, w, chunks).state.immutableBytes == 0 <==> w.state.immutableBytes < COUNT_LIMIT
  {
    if w.state.immutableBytes < COUNT_LIMIT {
      ImmutablesPass(wm, e, w, chunks);
    } else {
      LargeCountStays(wm, e, w, chunks);
    }
  }

  /** A call that is told to step but leaves everything as it was: the stream never moves on. */
  lemma StandsStillIff(wm: Watermark, s: State, call: nat, b: seq<Byte>, full: bool, finish: bool)
    requires s.immutableBytes > 0 && b != []
    ensures Stepping(wm, s, call, b, full, finish) == Step(s, Stepped, 0, [], false)
       <==> s.immutableBytes % COUNT_LIMIT == 0
  {
  }
}
