/**
 Reading one frame from a socket that delivers chunks with timeouts in between, while a
 deadline and a cancellation flag are polled before every read.
 */
module FrameReading {
  import opened Common
  import opened Frames

  // What the socket delivers next. Once closed it stays closed; a fault is any other error.
  datatype Event = Chunk(bytes: seq<byte>) | Timeout | Close | Fault

  // What the loop finds when it polls: the cancellation flag and the deadline.
  datatype Poll = Poll(cancelled: bool, expired: bool)

  // One `read_until(newline)` on the buffered socket: how it ended and what is left.
  datatype End = AtNewline | AtClose | WouldBlock | AtFault
  datatype Step = Step(encoded: seq<byte>, buffer: seq<byte>, network: seq<Event>, end: End)

  function IndexOfNewline(bytes: seq<byte>): (k: nat)
    ensures k <= |bytes| && NEWLINE !in bytes[..k]
    ensures k < |bytes| ==> bytes[k] == NEWLINE
    ensures k == |bytes| ==> NEWLINE !in bytes
  {
    if bytes == [] || bytes[0] == NEWLINE then 0 else 1 + IndexOfNewline(bytes[1..])
  }

  // A timeout loses nothing: what was consumed stays in `encoded`.
  function ReadUntil(encoded: seq<byte>, buffer: seq<byte>, network: seq<Event>): (step: Step)
    ensures step.end == AtNewline ==> step.encoded != []
    decreases |network|
  {
    var k := IndexOfNewline(buffer);
    if k < |buffer| then Step(encoded + buffer[..k + 1], buffer[k + 1..], network, AtNewline)
    else if network == [] then Step(encoded + buffer, [], [], WouldBlock)
    else match network[0]
      case Chunk(bytes) => ReadUntil(encoded + buffer, bytes, network[1..])
      case Timeout => Step(encoded + buffer, [], network[1..], WouldBlock)
      case Close => Step(encoded + buffer, [], network, AtClose)
      case Fault => Step(encoded + buffer, [], network[1..], AtFault)
  }

  datatype Outcome<!T> = Outcome(result: Result<T, FrameError>, buffer: seq<byte>, network: seq<Event>)

  // The polling loop; running out of polls is reaching the deadline.
  function ReadLoop<T>(codec: Codec<T>, encoded: seq<byte>, buffer: seq<byte>, network: seq<Event>, polls: seq<Poll>): Outcome<T>
    decreases |polls|
  {
    if polls == [] || (!polls[0].cancelled && polls[0].expired) then Outcome(Err(TimedOut), buffer, network)
    else if polls[0].cancelled then Outcome(Err(Cancelled), buffer, network)
    else
      var step := ReadUntil(encoded, buffer, network);
      if step.end == AtFault then Outcome(Err(ReadFailed), step.buffer, step.network)
      else if step.end == AtClose && |step.encoded| == |encoded| then Outcome(Err(Closed), step.buffer, step.network)
      else if step.end == AtNewline then
        Outcome(Decoded(codec, step.encoded[..|step.encoded| - 1]), step.buffer, step.network)
      else if |step.encoded| > MAX_FRAME_BYTES then Outcome(Err(TooLong), step.buffer, step.network)
      else ReadLoop(codec, step.encoded, step.buffer, step.network, polls[1..])
  }

  class FrameReader {
    var buffer: seq<byte>
    var network: seq<Event>

    constructor (network: seq<Event>)
      ensures this.buffer == [] && this.network == network
    {
      this.buffer := [];
      this.network := network;
    }

    method ReadUntilNewline(encoded: seq<byte>) returns (grown: seq<byte>, end: End)
      modifies this
      ensures Step(grown, buffer, network, end) == ReadUntil(encoded, old(buffer), old(network))
    {
      grown := encoded;
      while true
        invariant ReadUntil(grown, buffer, network) == ReadUntil(encoded, old(buffer), old(network))
        decreases |network|
      {
        var k := IndexOfNewline(buffer);
        if k < |buffer| {
          grown, buffer := grown + buffer[..k + 1], buffer[k + 1..];
          return grown, AtNewline;
        }
        if network == [] {
          grown, buffer := grown + buffer, [];
          return grown, WouldBlock;
        }
        match network[0] {
          case Chunk(bytes) =>
            grown, buffer, network := grown + buffer, bytes, network[1..];
          case Timeout =>
            grown, buffer, network := grown + buffer, [], network[1..];
            return grown, WouldBlock;
          case Close =>
            grown, buffer := grown + buffer, [];
            return grown, AtClose;
          case Fault =>
            grown, buffer, network := grown + buffer, [], network[1..];
            return grown, AtFault;
        }
      }
    }

    method ReadFrameCancellable<T>(codec: Codec<T>, polls: seq<Poll>) returns (r: Result<T, FrameError>)
      modifies this
      ensures Outcome(r, buffer, network) == ReadLoop(codec, [], old(buffer), old(network), polls)
    {
      var encoded: seq<byte> := [];
      for i := 0 to |polls|
        invariant ReadLoop(codec, encoded, buffer, network, polls[i..]) == ReadLoop(codec, [], old(buffer), old(network), polls)
      {
        assert polls[i..][1..] == polls[i + 1..];
        if polls[i].cancelled {
          return Err(Cancelled);
        }
        if polls[i].expired {
          return Err(TimedOut);
        }
        var grown, end := ReadUntilNewline(encoded);
        if end == AtFault {
          return Err(ReadFailed);
        }
        if end == AtClose && |grown| == |encoded| {
          return Err(Closed);
        }
        if end == AtNewline {
          return Decoded(codec, grown[..|grown| - 1]);
        }
        encoded := grown;
        if |encoded| > MAX_FRAME_BYTES {
          return Err(TooLong);
        }
      }
      r := Err(TimedOut);
    }
  }

  // ----- Splits do not matter -----

  // The bytes still to arrive before the socket closes or fails.
  function Arriving(network: seq<Event>): seq<byte> {
    if network == [] then []
    else match network[0]
      case Chunk(bytes) => bytes + Arriving(network[1..])
      case Timeout => Arriving(network[1..])
      case Close => []
      case Fault => []
  }

  function Timeouts(network: seq<Event>): nat {
    if network == [] || network[0].Close? || network[0].Fault? then 0
    else (if network[0].Timeout? then 1 else 0) + Timeouts(network[1..])
  }

  ghost predicate Undisturbed(polls: seq<Poll>) {
    forall p :: p in polls ==> p == Poll(false, false)
  }

  // While the frame is incomplete a read either completes it or uses up one timeout, and the
  // bytes it has and the bytes to come stay the same.
  lemma {:induction false} ReadTowardsFrame(encoded: seq<byte>, buffer: seq<byte>, network: seq<Event>, body: seq<byte>, rest: seq<byte>)
    requires NEWLINE !in body && NEWLINE !in encoded
    requires encoded + buffer + Arriving(network) == Frame(body) + rest
    ensures
      var step := ReadUntil(encoded, buffer, network);
      || (step.end == AtNewline && step.encoded == Frame(body) && step.buffer + Arriving(step.network) == rest)
      || (step.end == WouldBlock && NEWLINE !in step.encoded && step.encoded <= body
          && step.encoded + step.buffer + Arriving(step.network) == Frame(body) + rest
          && Timeouts(step.network) + 1 == Timeouts(network))
    decreases |network|
  {
    var k := IndexOfNewline(buffer);
    var all := Frame(body) + rest;
    PrefixWithoutNewline(encoded + buffer[..k], body, rest, buffer[k..] + Arriving(network));
    if k < |buffer| {
      assert all[|encoded| + k] == NEWLINE;
      assert encoded + buffer[..k + 1] == Frame(body);
      assert encoded + buffer[..k + 1] + (buffer[k + 1..] + Arriving(network)) == all;
      SameHead(Frame(body), buffer[k + 1..] + Arriving(network), rest);
    } else {
      assert encoded + buffer[..k] == encoded + buffer;
      assert |encoded| + |buffer| <= |body| < |all|;
      if network != [] && network[0].Chunk? {
        assert encoded + buffer + network[0].bytes + Arriving(network[1..]) == all;
        ReadTowardsFrame(encoded + buffer, network[0].bytes, network[1..], body, rest);
      }
    }
  }

  lemma SameHead(head: seq<byte>, a: seq<byte>, b: seq<byte>)
    requires head + a == head + b
    ensures a == b
  {
    assert a == (head + a)[|head|..] && b == (head + b)[|head|..];
  }

  // A newline-free beginning of a framed stream lies within the body.
  lemma PrefixWithoutNewline(prefix: seq<byte>, body: seq<byte>, rest: seq<byte>, suffix: seq<byte>)
    requires NEWLINE !in prefix && prefix + suffix == Frame(body) + rest
    ensures prefix <= body
  {
    var all := Frame(body) + rest;
    assert all[|body|] == NEWLINE;
    assert forall i :: 0 <= i < |prefix| ==> all[i] == prefix[i] && prefix[i] in prefix;
    assert forall i :: 0 <= i < |body| ==> all[i] == body[i];
  }

  lemma {:induction false} LoopReadsFrame<T>(codec: Codec<T>, encoded: seq<byte>, buffer: seq<byte>, network: seq<Event>,
                                             polls: seq<Poll>, body: seq<byte>, rest: seq<byte>)
    requires NEWLINE !in body && |body| <= MAX_FRAME_BYTES && NEWLINE !in encoded
    requires encoded + buffer + Arriving(network) == Frame(body) + rest
    requires Undisturbed(polls) && |polls| > Timeouts(network)
    ensures
      var o := ReadLoop(codec, encoded, buffer, network, polls);
      o.result == Decoded(codec, body) && o.buffer + Arriving(o.network) == rest
    decreases |polls|
  {
    var step := ReadUntil(encoded, buffer, network);
    ReadTowardsFrame(encoded, buffer, network, body, rest);
    assert polls[0] in polls;
    if step.end == AtNewline {
      assert Frame(body)[..|body|] == body;
    } else {
      assert forall p :: p in polls[1..] ==> p in polls;
      LoopReadsFrame(codec, step.encoded, step.buffer, step.network, polls[1..], body, rest);
    }
  }

  // However a frame is cut into chunks, and whatever timeouts lie between them, as long as no
  // deadline or cancellation intervenes the reader returns the message the plain reader returns,
  // and leaves the same bytes.
  lemma SplitFramesReadAlike<T(!new)>(codec: Codec<T>, buffer: seq<byte>, network: seq<Event>, polls: seq<Poll>, m: T, rest: seq<byte>)
    requires Lossless(codec) && |codec.encode(m)| <= MAX_FRAME_BYTES
    requires buffer + Arriving(network) == Frame(codec.encode(m)) + rest
    requires Undisturbed(polls) && |polls| > Timeouts(network)
    ensures
      var o := ReadLoop(codec, [], buffer, network, polls);
      && o.result == Ok(m)
      && (o.result, o.buffer + Arriving(o.network)) == Received(codec, buffer + Arriving(network))
  {
    assert [] + buffer + Arriving(network) == buffer + Arriving(network);
    LoopReadsFrame(codec, [], buffer, network, polls, codec.encode(m), rest);
    FrameReceivedIffWithinLimit(codec, codec.encode(m), rest);
  }

  // ----- Giving up anywhere -----

  ghost predicate Unbroken(network: seq<Event>) {
    forall e :: e in network ==> e.Chunk? || e.Timeout?
  }

  // The bytes a read can still get.
  function Ahead(buffer: seq<byte>, network: seq<Event>): seq<byte> {
    buffer + Arriving(network)
  }

  // A newline-free body and its newline.
  ghost predicate EndsFrame(read: seq<byte>) {
    read != [] && read[|read| - 1] == NEWLINE && NEWLINE !in read[..|read| - 1]
  }

  // On an unbroken socket a read moves bytes along and stops at the first newline.
  lemma {:induction false} ReadConserves(encoded: seq<byte>, buffer: seq<byte>, network: seq<Event>)
    requires Unbroken(network) && NEWLINE !in encoded
    ensures
      var step := ReadUntil(encoded, buffer, network);
      && Unbroken(step.network)
      && step.encoded + Ahead(step.buffer, step.network) == encoded + Ahead(buffer, network)
      && (step.end == AtNewline || step.end == WouldBlock)
      && (step.end == WouldBlock ==> NEWLINE !in step.encoded)
      && (step.end == AtNewline ==> EndsFrame(step.encoded))
    decreases |network|
  {
    var k := IndexOfNewline(buffer);
    if k < |buffer| {
      StopsAtNewline(encoded, buffer, k, Arriving(network));
    } else {
      assert buffer[..k] == buffer;
      MovesIn(encoded, buffer, Arriving(network));
      if network == [] {
        assert Ahead([], []) == [];
      } else {
        assert network[0] in network && forall e :: e in network[1..] ==> e in network;
        if network[0].Chunk? {
          ReadConserves(encoded + buffer, network[0].bytes, network[1..]);
        } else {
          assert Ahead([], network[1..]) == Arriving(network[1..]);
        }
      }
    }
  }

  lemma MovesIn(encoded: seq<byte>, buffer: seq<byte>, rest: seq<byte>)
    ensures (encoded + buffer) + rest == encoded + (buffer + rest)
  {
  }

  lemma StopsAtNewline(encoded: seq<byte>, buffer: seq<byte>, k: nat, rest: seq<byte>)
    requires k < |buffer| && buffer[k] == NEWLINE && NEWLINE !in buffer[..k] && NEWLINE !in encoded
    ensures (encoded + buffer[..k + 1]) + (buffer[k + 1..] + rest) == encoded + (buffer + rest)
    ensures EndsFrame(encoded + buffer[..k + 1])
  {
    assert (encoded + buffer[..k + 1])[..|encoded| + k] == encoded + buffer[..k];
    assert buffer + rest == buffer[..k + 1] + (buffer[k + 1..] + rest);
  }

  // What a reading did: it decoded a frame, or gave up before its end.
  ghost predicate ReadOrCut<T>(codec: Codec<T>, read: seq<byte>, result: Result<T, FrameError>) {
    if EndsFrame(read) then result == Decoded(codec, read[..|read| - 1])
    else
      && NEWLINE !in read
      && (result in {Err(Cancelled), Err(TimedOut)} || (result == Err(TooLong) && |read| > MAX_FRAME_BYTES))
  }

  // Whatever the chunks, the timeouts and the polls, the loop reads through the first newline and
  // decodes what is before it, or gives up having thrown away some bytes before it.
  lemma {:induction false} LoopReadsOrCuts<T>(codec: Codec<T>, encoded: seq<byte>, buffer: seq<byte>, network: seq<Event>,
                                              polls: seq<Poll>) returns (read: seq<byte>)
    requires Unbroken(network) && NEWLINE !in encoded
    ensures
      var o := ReadLoop(codec, encoded, buffer, network, polls);
      && Unbroken(o.network) && read + Ahead(o.buffer, o.network) == encoded + Ahead(buffer, network)
      && ReadOrCut(codec, read, o.result)
    decreases |polls|
  {
    read := encoded;
    if polls != [] && !polls[0].cancelled && !polls[0].expired {
      var step := ReadUntil(encoded, buffer, network);
      ReadConserves(encoded, buffer, network);
      read := step.encoded;
      if step.end == WouldBlock && |step.encoded| <= MAX_FRAME_BYTES {
        read := LoopReadsOrCuts(codec, step.encoded, step.buffer, step.network, polls[1..]);
      }
    }
  }

  // ----- How a reading ends -----

  // A cancellation, and then the deadline, stop the loop before it reads.
  lemma StopsWhenAsked<T>(codec: Codec<T>, encoded: seq<byte>, buffer: seq<byte>, network: seq<Event>, polls: seq<Poll>)
    ensures polls == [] ==> ReadLoop(codec, encoded, buffer, network, polls) == Outcome(Err(TimedOut), buffer, network)
    ensures polls != [] && polls[0].cancelled ==>
      ReadLoop(codec, encoded, buffer, network, polls) == Outcome(Err(Cancelled), buffer, network)
    ensures polls != [] && !polls[0].cancelled && polls[0].expired ==>
      ReadLoop(codec, encoded, buffer, network, polls) == Outcome(Err(TimedOut), buffer, network)
  {
  }

  // A socket that fails is reported at once. One that closes is reported by the first read that
  // finds nothing more; what it delivered before is read first, but is no frame.
  lemma BrokenSocket<T>(codec: Codec<T>, buffer: seq<byte>, rest: seq<Event>, polls: seq<Poll>)
    requires NEWLINE !in buffer && Undisturbed(polls) && polls != []
    ensures ReadLoop(codec, [], buffer, [Fault] + rest, polls).result == Err(ReadFailed)
    ensures buffer == [] ==> ReadLoop(codec, [], buffer, [Close] + rest, polls).result == Err(Closed)
    ensures buffer != [] && |buffer| <= 1_048_576 && |polls| > 1 ==>
      ReadLoop(codec, [], buffer, [Close] + rest, polls).result == Err(Closed)
  {
    assert polls[0] in polls;
    assert IndexOfNewline(buffer) == |buffer|;
    assert [] + buffer == buffer;
    if |polls| > 1 {
      assert polls[1] in polls && polls[1..][0] == polls[1];
    }
  }

  // More than 2^20 bytes without a newline are rejected at the next pause.
  lemma OverlongFrameIsRejected<T>(codec: Codec<T>, buffer: seq<byte>, rest: seq<Event>, polls: seq<Poll>)
    requires NEWLINE !in buffer && |buffer| > 1_048_576 && polls != [] && polls[0] == Poll(false, false)
    ensures ReadLoop(codec, [], buffer, [Timeout] + rest, polls) == Outcome(Err(TooLong), [], rest)
  {
    assert IndexOfNewline(buffer) == |buffer|;
    assert ([Timeout] + rest)[1..] == rest;
  }

  // A read that does not reach a newline leaves nothing in the buffer: what it has taken is with
  // the reader, behind what the reader had.
  lemma {:induction false} TakenBytesAreWithTheReader(encoded: seq<byte>, buffer: seq<byte>, network: seq<Event>)
    ensures
      var step := ReadUntil(encoded, buffer, network);
      encoded <= step.encoded && (step.end != AtNewline ==> step.buffer == [] && encoded + buffer <= step.encoded)
    decreases |network|
  {
    if IndexOfNewline(buffer) == |buffer| && network != [] && network[0].Chunk? {
      TakenBytesAreWithTheReader(encoded + buffer, network[0].bytes, network[1..]);
    }
  }

  // The timeouts that count are those before the socket closes or fails.
  lemma TimeoutsThatCount(rest: seq<Event>)
    ensures Timeouts([]) == 0 && Timeouts([Close] + rest) == 0 && Timeouts([Fault] + rest) == 0
    ensures Timeouts([Timeout] + rest) == Timeouts(rest) + 1
  {
    assert ([Timeout] + rest)[1..] == rest;
  }
}
