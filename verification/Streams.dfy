/**
 Byte streams in arbitrary chunks, and the byte buffer the streaming algorithms work on.
 */
module Streams {
  type Byte = b: nat | b < 256

  function Flatten(chunks: seq<seq<Byte>>): seq<Byte> {
    if chunks == [] then [] else chunks[0] + Flatten(chunks[1..])
  }

  function Min(a: nat, b: nat): nat {
    if a < b then a else b
  }

  /** Two ways to split the same stream agree on its front. */
  lemma SameFront(b: seq<Byte>, more: seq<Byte>, ahead: seq<Byte>, body: seq<Byte>, n: nat)
    requires b + more == ahead + body && n <= |b| && n <= |ahead|
    ensures b[..n] == ahead[..n]
    ensures b[n..] + more == ahead[n..] + body
  {
    assert (b + more)[..n] == b[..n] && (ahead + body)[..n] == ahead[..n];
    assert (b + more)[n..] == b[n..] + more && (ahead + body)[n..] == ahead[n..] + body;
  }

  /** What a streaming algorithm answers to a call. */
  datatype Result = NeedsData | Stepped | CompleteAppend | CompleteTruncate | Error

  class ByteBuffer {
    var data: seq<Byte>
    var capacity: nat

    ghost predicate Valid()
      reads this
    {
      |data| <= capacity
    }

    constructor (capacity: nat)
      ensures Valid() && data == [] && this.capacity == capacity
    {
      this.data, this.capacity := [], capacity;
    }

    predicate IsFull()
      reads this
    {
      |data| == capacity
    }

    /** Appends bytes, growing the buffer as needed. */
    method Put(bytes: seq<Byte>)
      requires Valid()
      modifies this
      ensures Valid() && data == old(data) + bytes
      ensures capacity == if |data| > old(capacity) then |data| else old(capacity)
    {
      data := data + bytes;
      if capacity < |data| {
        capacity := |data|;
      }
    }

    /** Drops up to n bytes from the front. */
    method Clear(n: nat) returns (k: nat)
      requires Valid()
      modifies this`data
      ensures Valid() && k == Min(n, |old(data)|) && data == old(data)[k..]
    {
      k := Min(n, |data|);
      data := data[k..];
    }

    /** Moves up to n bytes to another buffer, which grows if it may and otherwise takes what fits. */
    method Get(dst: ByteBuffer, n: nat, resize: bool) returns (k: nat)
      requires Valid() && dst.Valid() && dst != this
      modifies this`data, dst
      ensures Valid() && dst.Valid()
      ensures k == if resize then Min(n, |old(data)|) else Min(Min(n, |old(data)|), old(dst.capacity) - |old(dst.data)|)
      ensures data == old(data)[k..] && dst.data == old(dst.data) + old(data)[..k]
      ensures !resize ==> dst.capacity == old(dst.capacity)
    {
      k := Min(n, |data|);
      if !resize {
        k := Min(k, dst.capacity - |dst.data|);
      }
      dst.Put(data[..k]);
      data := data[k..];
    }
  }
}
