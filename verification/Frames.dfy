/** Newline framing of guest-control messages over a byte stream. */
module Frames {
  import opened Common

  newtype byte = n: int | 0 <= n < 256

  const NEWLINE: byte := 10
  const MAX_FRAME_BYTES := 1024 * 1024

  // The JSON codec: any encoding that decodes back and contains no newline.
  datatype Codec<!T> = Codec(encode: T -> seq<byte>, decode: seq<byte> -> Option<T>)

  ghost predicate Lossless<T(!new)>(codec: Codec<T>) {
    forall m :: codec.decode(codec.encode(m)) == Some(m) && NEWLINE !in codec.encode(m)
  }

  datatype FrameError = Closed | TooLong | InvalidFrame | Cancelled | TimedOut | ReadFailed

  function Decoded<T>(codec: Codec<T>, frame: seq<byte>): Result<T, FrameError> {
    var m := codec.decode(frame);
    if m.Some? then Ok(m.value) else Err(InvalidFrame)
  }

  // How many bytes `take(limit).read_until(newline)` consumes: up to and including the first
  // newline, at most `limit`, at most all there is.
  function Consumed(bytes: seq<byte>, limit: nat): (n: nat)
    ensures n <= |bytes| && n <= limit
  {
    if bytes == [] || limit == 0 then 0
    else if bytes[0] == NEWLINE then 1
    else 1 + Consumed(bytes[1..], limit - 1)
  }

  lemma {:induction false} ConsumedStopsAtNewline(bytes: seq<byte>, limit: nat)
    ensures var n := Consumed(bytes, limit);
      && (forall i :: 0 <= i < n - 1 ==> bytes[i] != NEWLINE)
      && (n < |bytes| && n < limit ==> n > 0 && bytes[n - 1] == NEWLINE)
  {
    if bytes != [] && limit != 0 && bytes[0] != NEWLINE {
      ConsumedStopsAtNewline(bytes[1..], limit - 1);
    }
  }

  // One `read_frame`: the message or the error, and the bytes left in the stream.
  function Received<T>(codec: Codec<T>, bytes: seq<byte>): (Result<T, FrameError>, seq<byte>) {
    var n := Consumed(bytes, MAX_FRAME_BYTES + 1);
    if n == 0 then (Err(Closed), bytes)
    else if bytes[n - 1] != NEWLINE then (Err(TooLong), bytes[n..])
    else (Decoded(codec, bytes[..n - 1]), bytes[n..])
  }

  class ByteStream {
    var bytes: seq<byte>

    constructor ()
      ensures bytes == []
    {
      bytes := [];
    }

    method WriteFrame<T>(codec: Codec<T>, message: T) returns (ok: bool)
      modifies this
      ensures ok <==> |codec.encode(message)| <= MAX_FRAME_BYTES
      ensures bytes == if ok then old(bytes) + codec.encode(message) + [NEWLINE] else old(bytes)
    {
      var encoded := codec.encode(message);
      if |encoded| > MAX_FRAME_BYTES {
        return false;
      }
      bytes := bytes + encoded;
      bytes := bytes + [NEWLINE];
      return true;
    }

    // `read_until` on the limited reader, one byte at a time.
    method TakeUntilNewline(limit: nat) returns (encoded: seq<byte>)
      modifies this
      ensures encoded == old(bytes)[..Consumed(old(bytes), limit)]
      ensures bytes == old(bytes)[Consumed(old(bytes), limit)..]
    {
      ghost var all := bytes;
      encoded := [];
      while bytes != [] && |encoded| < limit && (encoded == [] || encoded[|encoded| - 1] != NEWLINE)
        invariant |encoded| <= limit && all == encoded + bytes
        invariant encoded != [] && encoded[|encoded| - 1] == NEWLINE ==> Consumed(all, limit) == |encoded|
        invariant encoded == [] || encoded[|encoded| - 1] != NEWLINE ==>
          Consumed(all, limit) == |encoded| + Consumed(bytes, limit - |encoded|)
        decreases |bytes|
      {
        encoded, bytes := encoded + [bytes[0]], bytes[1..];
      }
    }

    method ReadFrame<T>(codec: Codec<T>) returns (r: Result<T, FrameError>)
      modifies this
      ensures r == Received(codec, old(bytes)).0
      ensures bytes == Received(codec, old(bytes)).1
    {
      ghost var all := bytes;
      var encoded := TakeUntilNewline(MAX_FRAME_BYTES + 1);
      assert encoded != [] ==> encoded[..|encoded| - 1] == all[..|encoded| - 1];
      if encoded == [] {
        return Err(Closed);
      }
      if encoded[|encoded| - 1] != NEWLINE {
        return Err(TooLong);
      }
      r := Decoded(codec, encoded[..|encoded| - 1]);
    }
  }

  // ----- Round trips -----

  function Frame(body: seq<byte>): seq<byte> {
    body + [NEWLINE]
  }

  lemma {:induction false} ConsumedOfFrame(body: seq<byte>, rest: seq<byte>, limit: nat)
    requires NEWLINE !in body
    ensures Consumed(Frame(body) + rest, limit) == if |body| < limit then |body| + 1 else limit
  {
    var bytes := Frame(body) + rest;
    if body != [] && limit != 0 {
      assert body[0] in body;
      assert bytes[1..] == Frame(body[1..]) + rest;
      ConsumedOfFrame(body[1..], rest, limit - 1);
    }
  }

  // A newline-free body is received as a frame exactly when it is within the limit: one byte
  // more than the limit is allowed for the newline, and no more.
  lemma FrameReceivedIffWithinLimit<T>(codec: Codec<T>, body: seq<byte>, rest: seq<byte>)
    requires NEWLINE !in body
    ensures |body| <= MAX_FRAME_BYTES ==>
      Received(codec, Frame(body) + rest) == (Decoded(codec, body), rest)
    ensures |body| > MAX_FRAME_BYTES ==>
      Received(codec, Frame(body) + rest).0 == Err(TooLong)
  {
    var bytes, n := Frame(body) + rest, Consumed(Frame(body) + rest, MAX_FRAME_BYTES + 1);
    ConsumedOfFrame(body, rest, MAX_FRAME_BYTES + 1);
    if |body| <= MAX_FRAME_BYTES {
      assert bytes[..n - 1] == body && bytes[n..] == rest;
    } else {
      assert bytes[n - 1] == body[n - 1] && body[n - 1] in body;
    }
  }

  // What a writer leaves in the stream, and what a reader makes of it.
  function Written<T>(codec: Codec<T>, messages: seq<T>): seq<byte> {
    if messages == [] then [] else Frame(codec.encode(messages[0])) + Written(codec, messages[1..])
  }

  function ReceivedMany<T>(codec: Codec<T>, bytes: seq<byte>, count: nat): (seq<Result<T, FrameError>>, seq<byte>) {
    if count == 0 then ([], bytes)
    else
      var (first, rest) := Received(codec, bytes);
      var (others, left) := ReceivedMany(codec, rest, count - 1);
      ([first] + others, left)
  }

  function AllOk<T>(messages: seq<T>): seq<Result<T, FrameError>> {
    seq(|messages|, i requires 0 <= i < |messages| => Ok(messages[i]))
  }

  // Any sequence of messages within the limit is read back in order, with nothing left over.
  lemma {:induction false} WrittenMessagesReadBack<T(!new)>(codec: Codec<T>, messages: seq<T>)
    requires Lossless(codec)
    requires forall m :: m in messages ==> |codec.encode(m)| <= MAX_FRAME_BYTES
    ensures ReceivedMany(codec, Written(codec, messages), |messages|) == (AllOk(messages), [])
  {
    if messages == [] {
      assert AllOk(messages) == [];
    } else {
      var first, others := messages[0], messages[1..];
      assert first in messages;
      WrittenMessagesReadBack(codec, others);
      FrameReceivedIffWithinLimit(codec, codec.encode(first), Written(codec, others));
      assert AllOk(messages) == [Ok(first)] + AllOk(others);
    }
  }

  // One read, in plain terms: nothing left to read is a closed stream; a newline among the first
  // 2^20 + 1 bytes ends a frame, which decodes or is invalid; otherwise the frame is too long.
  lemma ReceivedIs<T>(codec: Codec<T>, bytes: seq<byte>)
    ensures bytes == [] ==> Received(codec, bytes) == (Err(Closed), [])
    ensures forall k :: 0 <= k < |bytes| && k <= 1_048_576 && bytes[k] == 10 && (forall m :: 0 <= m < k ==> bytes[m] != 10) ==>
      Received(codec, bytes) ==
        (match codec.decode(bytes[..k]) case Some(m) => Ok(m) case None => Err(InvalidFrame), bytes[k + 1..])
    ensures bytes != [] && (forall m :: 0 <= m < |bytes| && m <= 1_048_576 ==> bytes[m] != 10) ==>
      Received(codec, bytes).0 == Err(TooLong)
  {
    var n := Consumed(bytes, MAX_FRAME_BYTES + 1);
    ConsumedStopsAtNewline(bytes, MAX_FRAME_BYTES + 1);
    ConsumesSomething(bytes, MAX_FRAME_BYTES + 1);
    forall k | 0 <= k < |bytes| && k <= 1_048_576 && bytes[k] == 10 && (forall m :: 0 <= m < k ==> bytes[m] != 10)
      ensures n == k + 1
    {
    }
  }

  lemma ConsumesSomething(bytes: seq<byte>, limit: nat)
    ensures bytes != [] && limit > 0 ==> Consumed(bytes, limit) > 0
  {
  }
}
