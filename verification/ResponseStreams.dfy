/**
 The bytes of a guest-control connection: the polling frame reader, on any delivery of what the
 server has written, does what one receive of the request protocol does.
 */
module ResponseStreams {
  import opened Common
  import opened Frames
  import opened FrameReading
  import opened RequestIds

  // The bytes of the replies that the client has not read yet.
  function Pending<A, R>(codec: Codec<Response<R>>, link: Link<A, R>): seq<byte> {
    if link.taken < |link.replies| then
      Frame(Rest(codec.encode(link.replies[link.taken]), link.cut)) + Written(codec, link.replies[link.taken + 1..])
    else []
  }

  ghost predicate WithinLimit<A, R>(codec: Codec<Response<R>>, link: Link<A, R>) {
    forall j :: 0 <= j < |link.replies| ==> |codec.encode(link.replies[j])| <= MAX_FRAME_BYTES
  }

  // The same outcome for the request: a cancellation and a deadline are both giving up.
  ghost predicate SameOutcome<R>(read: Result<Response<R>, FrameError>, received: Result<Response<R>, FrameError>) {
    read == received || (read == Err(Cancelled) && received == Err(TimedOut))
  }

  // How many bytes a read has taken from those delivered.
  function BytesRead<T>(buffer: seq<byte>, network: seq<Event>, o: Outcome<T>): int {
    |Ahead(buffer, network)| - |Ahead(o.buffer, o.network)|
  }

  lemma FrameTaken<A(!new), R(!new)>(codec: Codec<Response<R>>, link: Link<A, R>)
    requires RequestIds.Inv(codec, link) && link.taken < |link.replies|
    ensures
      var rest := Rest(codec.encode(link.replies[link.taken]), link.cut);
      Pending(codec, link) == Frame(rest) + Pending(codec, Receive(codec, link, None).0)
  {
    var more := link.replies[link.taken + 1..];
    if more != [] {
      assert more[0] == link.replies[link.taken + 1] && more[1..] == link.replies[link.taken + 2..];
      assert codec.encode(more[0])[0..] == codec.encode(more[0]);
    }
  }

  lemma FrameCut<A(!new), R(!new)>(codec: Codec<Response<R>>, link: Link<A, R>, n: nat)
    requires RequestIds.Inv(codec, link) && link.taken < |link.replies|
    requires n <= |Rest(codec.encode(link.replies[link.taken]), link.cut)|
    ensures
      var rest := Rest(codec.encode(link.replies[link.taken]), link.cut);
      Pending(codec, link) == rest[..n] + Pending(codec, Receive(codec, link, Some(n)).0)
  {
    CutTwice(codec.encode(link.replies[link.taken]), link.cut, n, Written(codec, link.replies[link.taken + 1..]));
  }

  lemma CutTwice(body: seq<byte>, cut: nat, n: nat, more: seq<byte>)
    requires cut + n <= |body|
    ensures Frame(Rest(body, cut)) + more == Rest(body, cut)[..n] + (Frame(Rest(body, cut + n)) + more)
  {
    assert Rest(body, cut) == Rest(body, cut)[..n] + Rest(body, cut + n);
  }

  // However much of the pending bytes is delivered, in whatever chunks and with whatever
  // timeouts, and wherever the client gives up, the reader's outcome is that of one receive,
  // and what it has not read is the beginning of what is pending afterwards.
  lemma ReaderReceives<A(!new), R(!new)>(codec: Codec<Response<R>>, link: Link<A, R>, buffer: seq<byte>, network: seq<Event>,
                                         polls: seq<Poll>) returns (patience: Option<nat>)
    requires RequestIds.Inv(codec, link) && Lossless(codec) && WithinLimit(codec, link)
    requires Unbroken(network) && Ahead(buffer, network) <= Pending(codec, link)
    ensures
      var o := ReadLoop(codec, [], buffer, network, polls);
      var (after, received) := Receive(codec, link, patience);
      && SameOutcome(o.result, received)
      && Unbroken(o.network) && Ahead(o.buffer, o.network) <= Pending(codec, after)
      && 0 <= BytesRead(buffer, network, o) <= |Pending(codec, link)|
      && Pending(codec, after) == Pending(codec, link)[BytesRead(buffer, network, o)..]
  {
    var read := LoopReadsOrCuts(codec, [], buffer, network, polls);
    assert [] + Ahead(buffer, network) == Ahead(buffer, network);
    patience := OutcomeReceives(codec, link, ReadLoop(codec, [], buffer, network, polls), read, Ahead(buffer, network));
  }

  lemma OutcomeReceives<A(!new), R(!new)>(codec: Codec<Response<R>>, link: Link<A, R>, o: Outcome<Response<R>>, read: seq<byte>,
                                          delivered: seq<byte>) returns (patience: Option<nat>)
    requires RequestIds.Inv(codec, link) && Lossless(codec) && WithinLimit(codec, link)
    requires delivered <= Pending(codec, link) && delivered == read + Ahead(o.buffer, o.network)
    requires ReadOrCut(codec, read, o.result)
    ensures
      var (after, received) := Receive(codec, link, patience);
      var n := |delivered| - |Ahead(o.buffer, o.network)|;
      && SameOutcome(o.result, received)
      && Ahead(o.buffer, o.network) <= Pending(codec, after)
      && 0 <= n <= |Pending(codec, link)| && Pending(codec, after) == Pending(codec, link)[n..]
  {
    patience := ReadsReply(codec, link, read, Ahead(o.buffer, o.network));
  }

  // The bytes read, and those left, end where the receive leaves off.
  lemma ReadsReply<A(!new), R(!new)>(codec: Codec<Response<R>>, link: Link<A, R>, read: seq<byte>, left: seq<byte>)
    returns (patience: Option<nat>)
    requires RequestIds.Inv(codec, link) && Lossless(codec) && WithinLimit(codec, link)
    requires read + left <= Pending(codec, link) && (EndsFrame(read) || NEWLINE !in read)
    ensures left <= Pending(codec, Receive(codec, link, patience).0)
    ensures Pending(codec, link) == read + Pending(codec, Receive(codec, link, patience).0)
    ensures EndsFrame(read) ==> Receive(codec, link, patience).1 == Decoded(codec, read[..|read| - 1])
    ensures !EndsFrame(read) ==> Receive(codec, link, patience).1 == Err(TimedOut) && |read| <= MAX_FRAME_BYTES
  {
    if link.taken >= |link.replies| {
      patience := None;
    } else {
      patience := ReadsOneReply(codec, link, read, left);
    }
  }

  lemma ReadsOneReply<A(!new), R(!new)>(codec: Codec<Response<R>>, link: Link<A, R>, read: seq<byte>, left: seq<byte>)
    returns (patience: Option<nat>)
    requires RequestIds.Inv(codec, link) && Lossless(codec) && WithinLimit(codec, link) && link.taken < |link.replies|
    requires read + left <= Pending(codec, link) && (EndsFrame(read) || NEWLINE !in read)
    ensures left <= Pending(codec, Receive(codec, link, patience).0)
    ensures Pending(codec, link) == read + Pending(codec, Receive(codec, link, patience).0)
    ensures EndsFrame(read) ==> Receive(codec, link, patience).1 == Decoded(codec, read[..|read| - 1])
    ensures !EndsFrame(read) ==> Receive(codec, link, patience).1 == Err(TimedOut) && |read| <= MAX_FRAME_BYTES
  {
    var rest := Rest(codec.encode(link.replies[link.taken]), link.cut);
    assert codec.decode(codec.encode(link.replies[link.taken])) == Some(link.replies[link.taken]);
    assert NEWLINE !in rest;
    if EndsFrame(read) {
      patience := None;
      WholeReply(codec, link, read, left);
    } else {
      patience := Some(|read|);
      PartOfReply(codec, link, read, left);
    }
  }

  lemma WholeReply<A(!new), R(!new)>(codec: Codec<Response<R>>, link: Link<A, R>, read: seq<byte>, left: seq<byte>)
    requires RequestIds.Inv(codec, link) && link.taken < |link.replies|
    requires NEWLINE !in Rest(codec.encode(link.replies[link.taken]), link.cut)
    requires EndsFrame(read) && read + left <= Pending(codec, link)
    ensures
      var (after, received) := Receive(codec, link, None);
      && left <= Pending(codec, after) && Pending(codec, link) == read + Pending(codec, after)
      && received == Decoded(codec, read[..|read| - 1])
  {
    var rest := Rest(codec.encode(link.replies[link.taken]), link.cut);
    FrameTaken(codec, link);
    WholeFrame(read, left, rest, Pending(codec, Receive(codec, link, None).0));
    assert Frame(rest)[..|rest|] == rest;
  }

  lemma PartOfReply<A(!new), R(!new)>(codec: Codec<Response<R>>, link: Link<A, R>, read: seq<byte>, left: seq<byte>)
    requires RequestIds.Inv(codec, link) && link.taken < |link.replies|
    requires NEWLINE !in Rest(codec.encode(link.replies[link.taken]), link.cut)
    requires NEWLINE !in read && read + left <= Pending(codec, link)
    ensures
      var (after, received) := Receive(codec, link, Some(|read|));
      && left <= Pending(codec, after) && Pending(codec, link) == read + Pending(codec, after)
      && received == Err(TimedOut) && |read| <= |codec.encode(link.replies[link.taken])|
  {
    var rest := Rest(codec.encode(link.replies[link.taken]), link.cut);
    var more := Pending(codec, Receive(codec, link, None).0);
    FrameTaken(codec, link);
    PrefixWithoutNewline(read, rest, more, (Frame(rest) + more)[|read|..]);
    FrameCut(codec, link, |read|);
    RestLeft(read, left, Pending(codec, link), Pending(codec, Receive(codec, link, Some(|read|)).0));
  }

  lemma RestLeft(read: seq<byte>, left: seq<byte>, pending: seq<byte>, after: seq<byte>)
    requires read + left <= pending && |pending| == |read| + |after| && pending[|read|..] == after
    ensures left <= after && pending == read + after
  {
    assert left == (read + left)[|read|..];
    assert read == (read + left)[..|read|];
  }

  lemma WholeFrame(read: seq<byte>, left: seq<byte>, rest: seq<byte>, more: seq<byte>)
    requires EndsFrame(read) && NEWLINE !in rest && read + left <= Frame(rest) + more
    ensures read == Frame(rest) && left <= more
  {
    var all, body := Frame(rest) + more, read[..|read| - 1];
    PrefixWithoutNewline(body, rest, more, all[|body|..]);
    assert all[|body|] == NEWLINE && all[|rest|] == NEWLINE;
    assert forall i :: 0 <= i < |rest| ==> all[i] == rest[i] && rest[i] in rest;
    assert read == all[..|read|];
  }

  // ----- Whole connections -----

  // The two ends of a connection: what the client has sent and the server replied, the bytes
  // written and not yet read, and the part of them that the client has buffered.
  datatype Wire<A, R> = Wire(nextId: nat, sent: seq<Request<A>>, replies: seq<Response<R>>, unread: seq<byte>, buffer: seq<byte>)

  // One request as it goes over the wire: what the socket delivers while the client reads, and
  // what the client finds when it polls.
  datatype Attempt<A, R> = Attempt(action: A, fits: bool, answers: seq<Answer<R>>, network: seq<Event>, polls: seq<Poll>)

  function FreshWire<A, R>(): Wire<A, R> {
    Wire(FRESH_ID, [], [], [], [])
  }

  function AsRound<A, R>(attempt: Attempt<A, R>, patience: Option<nat>): Round<A, R> {
    Round(attempt.action, attempt.fits, attempt.answers, patience)
  }

  function Outstanding<A, R>(wire: Wire<A, R>): Link<A, R> {
    Link(wire.nextId, wire.sent, wire.replies, 0, 0)
  }

  // The connection once the request is sent and answered.
  function AnsweredWire<A, R>(codec: Codec<Response<R>>, wire: Wire<A, R>, attempt: Attempt<A, R>): Wire<A, R> {
    var served := Served(Outstanding(wire), AsRound(attempt, None));
    Wire(wire.nextId + 1, served.sent, served.replies, wire.unread + Written(codec, served.replies[|wire.replies|..]), wire.buffer)
  }

  function Drop(bytes: seq<byte>, n: int): seq<byte> {
    if 0 <= n <= |bytes| then bytes[n..] else []
  }

  // The client's reading of an answered request.
  function ReadWire<A, R>(codec: Codec<Response<R>>, answered: Wire<A, R>, attempt: Attempt<A, R>, id: nat): (Wire<A, R>, Verdict<R>) {
    var o := ReadLoop(codec, [], answered.buffer, attempt.network, attempt.polls);
    var unread := Drop(answered.unread, BytesRead(answered.buffer, attempt.network, o));
    (answered.(unread := unread, buffer := o.buffer), Judge(id, o.result))
  }

  function WireExchange<A, R>(codec: Codec<Response<R>>, wire: Wire<A, R>, attempt: Attempt<A, R>): (Wire<A, R>, Verdict<R>) {
    if wire.nextId >= RequestIds.U64_MAX then (wire, IdOverflow)
    else if !attempt.fits then (wire.(nextId := wire.nextId + 1), NotSent)
    else ReadWire(codec, AnsweredWire(codec, wire, attempt), attempt, wire.nextId)
  }

  // The socket delivers bytes that were written and not yet read, each reply within the limit.
  ghost predicate Deliverable<A, R>(codec: Codec<Response<R>>, wire: Wire<A, R>, attempt: Attempt<A, R>) {
    var answered := AnsweredWire(codec, wire, attempt);
    wire.nextId < RequestIds.U64_MAX && attempt.fits ==>
    && Unbroken(attempt.network) && Ahead(wire.buffer, attempt.network) <= answered.unread
    && WithinLimit(codec, Outstanding(answered))
  }

  // The link of the request protocol that a wire is in the state of.
  ghost predicate Represents<A(!new), R(!new)>(codec: Codec<Response<R>>, wire: Wire<A, R>, link: Link<A, R>) {
    && RequestIds.Inv(codec, link)
    && wire.nextId == link.nextId && wire.sent == link.sent && wire.replies == link.replies
    && wire.unread == Pending(codec, link)
  }

  lemma {:induction false} WrittenAppends<T>(codec: Codec<T>, a: seq<T>, b: seq<T>)
    ensures Written(codec, a + b) == Written(codec, a) + Written(codec, b)
  {
    if a == [] {
      assert a + b == b;
    } else {
      assert (a + b)[1..] == a[1..] + b;
      WrittenAppends(codec, a[1..], b);
    }
  }

  // New replies are pending behind the old ones.
  lemma PendingGrows<A(!new), R(!new)>(codec: Codec<Response<R>>, link: Link<A, R>, more: seq<Response<R>>)
    requires RequestIds.Inv(codec, link)
    ensures Pending(codec, link.(replies := link.replies + more)) == Pending(codec, link) + Written(codec, more)
  {
    var grown := link.(replies := link.replies + more);
    if link.taken < |link.replies| {
      var first, others := link.replies[link.taken], link.replies[link.taken + 1..];
      assert grown.replies[link.taken + 1..] == others + more;
      PendingIs(codec, link, first, others);
      PendingIs(codec, grown, first, others + more);
      GrowsBehind(codec, Rest(codec.encode(first), link.cut), others, more);
    } else if more != [] {
      assert grown.replies[link.taken + 1..] == more[1..];
      PendingIs(codec, grown, more[0], more[1..]);
      WrittenIs(codec, more);
    }
  }

  lemma PendingIs<A, R>(codec: Codec<Response<R>>, link: Link<A, R>, first: Response<R>, others: seq<Response<R>>)
    requires link.taken < |link.replies| && link.replies[link.taken] == first && link.replies[link.taken + 1..] == others
    ensures Pending(codec, link) == Frame(Rest(codec.encode(first), link.cut)) + Written(codec, others)
  {
  }

  lemma WrittenIs<T>(codec: Codec<T>, messages: seq<T>)
    requires messages != []
    ensures Written(codec, messages) == Frame(Rest(codec.encode(messages[0]), 0)) + Written(codec, messages[1..])
    ensures [] + Written(codec, messages) == Written(codec, messages)
  {
    assert Rest(codec.encode(messages[0]), 0) == codec.encode(messages[0]);
  }

  lemma GrowsBehind<T>(codec: Codec<T>, rest: seq<byte>, first: seq<T>, more: seq<T>)
    ensures Frame(rest) + Written(codec, first + more) == Frame(rest) + Written(codec, first) + Written(codec, more)
  {
    WrittenAppends(codec, first, more);
  }

  // Serving looks at requests and replies only.
  lemma {:induction false} ServeIgnoresReader<A, R>(a: Link<A, R>, b: Link<A, R>, answers: seq<Answer<R>>)
    requires a.sent == b.sent && a.replies == b.replies && a.nextId == b.nextId
    ensures Serve(b, answers) == Serve(a, answers).(taken := b.taken, cut := b.cut)
    decreases |answers|
  {
    if answers != [] && |a.replies| < |a.sent| {
      var response := Response(a.sent[|a.replies|].id, answers[0]);
      ServeIgnoresReader(a.(replies := a.replies + [response]), b.(replies := b.replies + [response]), answers[1..]);
    }
  }

  lemma AnsweredRepresents<A(!new), R(!new)>(codec: Codec<Response<R>>, wire: Wire<A, R>, link: Link<A, R>, attempt: Attempt<A, R>)
    requires Represents(codec, wire, link)
    ensures Represents(codec, AnsweredWire(codec, wire, attempt), Served(link, AsRound(attempt, None)))
  {
    var round := AsRound(attempt, None);
    ServedAlike(link, Outstanding(wire), round);
    ServedPending(codec, link, round);
  }

  lemma ServedPending<A(!new), R(!new)>(codec: Codec<Response<R>>, link: Link<A, R>, round: Round<A, R>)
    requires RequestIds.Inv(codec, link)
    ensures RequestIds.Inv(codec, Served(link, round))
    ensures link.replies <= Served(link, round).replies && Served(link, round).nextId == link.nextId + 1
    ensures Pending(codec, Served(link, round)) == Pending(codec, link) + Written(codec, Served(link, round).replies[|link.replies|..])
  {
    ServedKeepsInv(codec, link, round);
    var served := Served(link, round);
    var more := served.replies[|link.replies|..];
    PendingGrows(codec, link, more);
    PendingDependsOnReplies(codec, served, link.(replies := link.replies + more));
  }

  lemma PendingDependsOnReplies<A, R>(codec: Codec<Response<R>>, a: Link<A, R>, b: Link<A, R>)
    requires a.replies == b.replies && a.taken == b.taken && a.cut == b.cut
    ensures Pending(codec, a) == Pending(codec, b)
  {
  }

  lemma ServedAlike<A, R>(a: Link<A, R>, b: Link<A, R>, round: Round<A, R>)
    requires a.sent == b.sent && a.replies == b.replies && a.nextId == b.nextId
    ensures Served(a, round).sent == Served(b, round).sent && Served(a, round).replies == Served(b, round).replies
    ensures Served(a, round).nextId == Served(b, round).nextId
  {
    var request := [Request(a.nextId, round.action)];
    ServeIgnoresReader(a.(nextId := a.nextId + 1, sent := a.sent + request), b.(nextId := b.nextId + 1, sent := b.sent + request),
                       round.answers);
  }

  // One request on the wire is one round of the request protocol, the bytes that the client
  // threw away being its patience.
  lemma AttemptIsRound<A(!new), R(!new)>(codec: Codec<Response<R>>, wire: Wire<A, R>, link: Link<A, R>, attempt: Attempt<A, R>)
    returns (round: Round<A, R>)
    requires Lossless(codec) && Represents(codec, wire, link) && Deliverable(codec, wire, attempt)
    ensures round.action == attempt.action
    ensures Represents(codec, WireExchange(codec, wire, attempt).0, Exchange(codec, link, round).0)
    ensures WireExchange(codec, wire, attempt).1 == Exchange(codec, link, round).1
  {
    if link.nextId < RequestIds.U64_MAX && attempt.fits {
      round := SentAttemptIsRound(codec, wire, link, attempt);
    } else {
      round := AsRound(attempt, None);
      UnsentKeepsRest(codec, link);
    }
  }

  lemma UnsentKeepsRest<A(!new), R(!new)>(codec: Codec<Response<R>>, link: Link<A, R>)
    requires RequestIds.Inv(codec, link)
    ensures RequestIds.Inv(codec, link.(nextId := link.nextId + 1))
    ensures Pending(codec, link.(nextId := link.nextId + 1)) == Pending(codec, link)
  {
  }

  lemma SentAttemptIsRound<A(!new), R(!new)>(codec: Codec<Response<R>>, wire: Wire<A, R>, link: Link<A, R>, attempt: Attempt<A, R>)
    returns (round: Round<A, R>)
    requires Lossless(codec) && Represents(codec, wire, link) && Deliverable(codec, wire, attempt)
    requires link.nextId < RequestIds.U64_MAX && attempt.fits
    ensures round.action == attempt.action
    ensures Represents(codec, WireExchange(codec, wire, attempt).0, Exchange(codec, link, round).0)
    ensures WireExchange(codec, wire, attempt).1 == Exchange(codec, link, round).1
  {
    AnsweredRepresents(codec, wire, link, attempt);
    var served := Served(link, AsRound(attempt, None));
    var patience := AnsweredIsRead(codec, AnsweredWire(codec, wire, attempt), served, attempt, wire.nextId);
    round := AsRound(attempt, patience);
    SentAndRead(codec, wire, link, attempt, patience);
  }

  // Both exchanges, once the request is sent, are a reading of what the server has answered.
  lemma SentAndRead<A(!new), R(!new)>(codec: Codec<Response<R>>, wire: Wire<A, R>, link: Link<A, R>, attempt: Attempt<A, R>,
                                      patience: Option<nat>)
    requires wire.nextId == link.nextId < RequestIds.U64_MAX && attempt.fits
    ensures WireExchange(codec, wire, attempt) == ReadWire(codec, AnsweredWire(codec, wire, attempt), attempt, wire.nextId)
    ensures
      var (after, received) := Receive(codec, Served(link, AsRound(attempt, None)), patience);
      Exchange(codec, link, AsRound(attempt, patience)) == (after, Judge(wire.nextId, received))
  {
  }

  lemma AnsweredIsRead<A(!new), R(!new)>(codec: Codec<Response<R>>, wire: Wire<A, R>, link: Link<A, R>, attempt: Attempt<A, R>,
                                         id: nat) returns (patience: Option<nat>)
    requires Lossless(codec) && Represents(codec, wire, link) && WithinLimit(codec, Outstanding(wire))
    requires Unbroken(attempt.network) && Ahead(wire.buffer, attempt.network) <= wire.unread
    ensures
      var (after, received) := Receive(codec, link, patience);
      var (read, verdict) := ReadWire(codec, wire, attempt, id);
      Represents(codec, read, after) && verdict == Judge(id, received)
  {
    patience := ReaderReceives(codec, link, wire.buffer, attempt.network, attempt.polls);
    ReceiveKeepsInv(codec, link, patience);
  }

  // A run: the connection before and after each attempt, and the verdict of each.
  ghost predicate WireRun<A(!new), R(!new)>(codec: Codec<Response<R>>, attempts: seq<Attempt<A, R>>, wires: seq<Wire<A, R>>,
                                            verdicts: seq<Verdict<R>>)
  {
    && |wires| == |attempts| + 1 && |verdicts| == |attempts| && wires[0] == FreshWire()
    && forall i :: 0 <= i < |attempts| ==> Attempted(codec, wires[i], attempts[i], wires[i + 1], verdicts[i])
  }

  ghost predicate Attempted<A(!new), R(!new)>(codec: Codec<Response<R>>, wire: Wire<A, R>, attempt: Attempt<A, R>, after: Wire<A, R>,
                                              verdict: Verdict<R>)
  {
    Deliverable(codec, wire, attempt) && WireExchange(codec, wire, attempt) == (after, verdict)
  }

  lemma FreshIsRepresented<A(!new), R(!new)>(codec: Codec<Response<R>>)
    ensures Represents<A, R>(codec, FreshWire(), Fresh())
  {
  }

  // An attempt leads to a state of the request protocol, a backlog stays, and a result belongs
  // to its own request.
  lemma LinkAfter<A(!new), R(!new)>(codec: Codec<Response<R>>, wire: Wire<A, R>, attempt: Attempt<A, R>, after: Wire<A, R>,
                                    verdict: Verdict<R>, before: Link<A, R>) returns (link: Link<A, R>)
    requires Lossless(codec) && TailsAreGarbled(codec)
    requires Attempted(codec, wire, attempt, after, verdict) && Represents(codec, wire, before)
    ensures Represents(codec, after, link)
    ensures Backlog(before) || verdict == GaveUp ==> Backlog(link)
    ensures Backlog(before) ==> !verdict.Got?
    ensures verdict.Got? ==> OwnResult(wire, attempt, after, verdict)
  {
    var round := AttemptIsRound(codec, wire, before, attempt);
    link := Exchange(codec, before, round).0;
    BacklogStays(codec, before, round);
    ResultAnswersItsRequest(codec, before, round);
  }

  // The result is what the server answered to the request just sent, its last one.
  ghost predicate OwnResult<A(!new), R(!new)>(wire: Wire<A, R>, attempt: Attempt<A, R>, after: Wire<A, R>, verdict: Verdict<R>)
    requires verdict.Got?
  {
    && after.sent == wire.sent + [Request(wire.nextId, attempt.action)]
    && |after.replies| == |after.sent|
    && after.replies[|after.replies| - 1] == Response(wire.nextId, Success(verdict.value))
  }

  // At every moment of a run the connection is in a state of the request protocol.
  lemma {:induction false} LinkBefore<A(!new), R(!new)>(codec: Codec<Response<R>>, attempts: seq<Attempt<A, R>>, wires: seq<Wire<A, R>>,
                                                        verdicts: seq<Verdict<R>>, n: nat) returns (link: Link<A, R>)
    requires Lossless(codec) && TailsAreGarbled(codec) && WireRun(codec, attempts, wires, verdicts) && n <= |attempts|
    ensures Represents(codec, wires[n], link)
  {
    if n == 0 {
      link := Fresh();
      FreshIsRepresented<A, R>(codec);
    } else {
      var before := LinkBefore(codec, attempts, wires, verdicts, n - 1);
      link := LinkAfter(codec, wires[n - 1], attempts[n - 1], wires[n], verdicts[n - 1], before);
    }
  }

  // After a request given up once sent a reply is outstanding or unread, at every later moment.
  lemma {:induction false} BacklogAfter<A(!new), R(!new)>(codec: Codec<Response<R>>, attempts: seq<Attempt<A, R>>, wires: seq<Wire<A, R>>,
                                                          verdicts: seq<Verdict<R>>, i: nat, j: nat) returns (link: Link<A, R>)
    requires Lossless(codec) && TailsAreGarbled(codec) && WireRun(codec, attempts, wires, verdicts)
    requires i < j <= |attempts| && verdicts[i] == GaveUp
    ensures Represents(codec, wires[j], link) && Backlog(link)
  {
    var before: Link<A, R>;
    if j == i + 1 {
      before := LinkBefore(codec, attempts, wires, verdicts, i);
    } else {
      before := BacklogAfter(codec, attempts, wires, verdicts, i, j - 1);
    }
    link := LinkAfter(codec, wires[j - 1], attempts[j - 1], wires[j], verdicts[j - 1], before);
  }

  // Over every run on the wire, however frames are cut up and wherever requests are given up, a
  // result is the server's answer to the request of that attempt.
  lemma EveryWireResultIsOwn<A(!new), R(!new)>(codec: Codec<Response<R>>, attempts: seq<Attempt<A, R>>, wires: seq<Wire<A, R>>,
                                               verdicts: seq<Verdict<R>>, n: nat)
    requires Lossless(codec) && TailsAreGarbled(codec) && WireRun(codec, attempts, wires, verdicts)
    requires n < |attempts| && verdicts[n].Got?
    ensures OwnResult(wires[n], attempts[n], wires[n + 1], verdicts[n])
  {
    var before := LinkBefore(codec, attempts, wires, verdicts, n);
    var link := LinkAfter(codec, wires[n], attempts[n], wires[n + 1], verdicts[n], before);
  }

  // Nor does anything succeed on the wire after a request given up once sent, between frames or
  // in the middle of one.
  lemma NothingOnTheWireSucceedsAfterGivingUp<A(!new), R(!new)>(codec: Codec<Response<R>>, attempts: seq<Attempt<A, R>>,
                                                                wires: seq<Wire<A, R>>, verdicts: seq<Verdict<R>>, i: nat, j: nat)
    requires Lossless(codec) && TailsAreGarbled(codec) && WireRun(codec, attempts, wires, verdicts)
    requires i < j < |attempts| && verdicts[i] == GaveUp
    ensures !verdicts[j].Got?
  {
    var before := BacklogAfter(codec, attempts, wires, verdicts, i, j);
    var link := LinkAfter(codec, wires[j], attempts[j], wires[j + 1], verdicts[j], before);
  }
}
