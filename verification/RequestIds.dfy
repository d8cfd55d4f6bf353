/**
 Request ids on one guest-control connection: the client numbers its requests, the server
 answers in order and echoes the number, and the client takes at most one response per request.
 A client that gives up in the middle of a frame throws away what it has read of it.
 */
module RequestIds {
  import opened Common
  import opened Frames

  const U64_MAX := 0xffff_ffff_ffff_ffff

  datatype Answer<R> = Success(value: R) | Failure(message: string)
  datatype Request<A> = Request(id: nat, action: A)
  datatype Response<R> = Response(id: nat, answer: Answer<R>)

  // Everything the client has sent, everything the server has replied, how many of the replies
  // the client has taken, and how much of the next one it has read and thrown away.
  datatype Link<A, R> = Link(nextId: nat, sent: seq<Request<A>>, replies: seq<Response<R>>, taken: nat, cut: nat)

  const FRESH_ID := 1

  function Fresh<A, R>(): Link<A, R> {
    Link(FRESH_ID, [], [], 0, 0)
  }

  // One request: whether its frame can be written, the answers the server gives until the client
  // stops reading, and after how many bytes of a frame the client times out or is cancelled, if
  // it does not wait for the end of the frame.
  datatype Round<A, R> = Round(action: A, fits: bool, answers: seq<Answer<R>>, patience: Option<nat>)

  datatype Verdict<R> = Got(value: R) | GuestFailed | IdMismatch | Garbled | GaveUp | NotSent | IdOverflow

  // The server takes the outstanding requests in order and echoes each id.
  function Serve<A, R>(link: Link<A, R>, answers: seq<Answer<R>>): (served: Link<A, R>)
    ensures link.replies <= served.replies
    decreases |answers|
  {
    if answers == [] || |link.replies| >= |link.sent| then link
    else
      var response := Response(link.sent[|link.replies|].id, answers[0]);
      Serve(link.(replies := link.replies + [response]), answers[1..])
  }

  // What is left of a body.
  function Rest(body: seq<byte>, cut: nat): seq<byte> {
    if cut <= |body| then body[cut..] else []
  }

  // Reads one frame, or gives up on the way. A cancellation counts as running out of time.
  function Receive<A, R>(codec: Codec<Response<R>>, link: Link<A, R>, patience: Option<nat>): (Link<A, R>, Result<Response<R>, FrameError>) {
    if link.taken >= |link.replies| then (link, Err(TimedOut))
    else
      var rest := Rest(codec.encode(link.replies[link.taken]), link.cut);
      if patience.Some? && patience.value <= |rest| then (link.(cut := link.cut + patience.value), Err(TimedOut))
      else (link.(taken := link.taken + 1, cut := 0), Decoded(codec, rest))
  }

  function Judge<R>(id: nat, received: Result<Response<R>, FrameError>): Verdict<R> {
    match received
    case Err(TimedOut) => GaveUp
    case Err(Cancelled) => GaveUp
    case Err(_) => Garbled
    case Ok(response) =>
      if response.id != id then IdMismatch
      else if response.answer.Failure? then GuestFailed
      else Got(response.answer.value)
  }

  // The link once the request is sent and served, before the client reads.
  function Served<A, R>(link: Link<A, R>, round: Round<A, R>): Link<A, R> {
    Serve(link.(nextId := link.nextId + 1, sent := link.sent + [Request(link.nextId, round.action)]), round.answers)
  }

  function Exchange<A, R>(codec: Codec<Response<R>>, link: Link<A, R>, round: Round<A, R>): (Link<A, R>, Verdict<R>) {
    if link.nextId >= U64_MAX then (link, IdOverflow)
    else if !round.fits then (link.(nextId := link.nextId + 1), NotSent)
    else
      var (after, received) := Receive(codec, Served(link, round), round.patience);
      (after, Judge(link.nextId, received))
  }

  class GuestControlClient<A, R> {
    var link: Link<A, R>

    constructor ()
      ensures link == Fresh()
    {
      link := Fresh();
    }

    method ServeOutstanding(answers: seq<Answer<R>>)
      modifies this
      ensures link == Serve(old(link), answers)
    {
      var i := 0;
      while i < |answers| && |link.replies| < |link.sent|
        invariant i <= |answers|
        invariant Serve(link, answers[i..]) == Serve(old(link), answers)
      {
        assert answers[i..][1..] == answers[i + 1..];
        var request := link.sent[|link.replies|];
        link := link.(replies := link.replies + [Response(request.id, answers[i])]);
        i := i + 1;
      }
    }

    method ReceiveFrame(codec: Codec<Response<R>>, patience: Option<nat>) returns (received: Result<Response<R>, FrameError>)
      modifies this
      ensures (link, received) == Receive(codec, old(link), patience)
    {
      if link.taken >= |link.replies| {
        return Err(TimedOut);
      }
      var rest := Rest(codec.encode(link.replies[link.taken]), link.cut);
      if patience.Some? && patience.value <= |rest| {
        link := link.(cut := link.cut + patience.value);
        return Err(TimedOut);
      }
      link := link.(taken := link.taken + 1, cut := 0);
      received := Decoded(codec, rest);
    }

    method RequestCancellable(codec: Codec<Response<R>>, round: Round<A, R>) returns (verdict: Verdict<R>)
      modifies this
      ensures (link, verdict) == Exchange(codec, old(link), round)
    {
      var id := link.nextId;
      if id >= U64_MAX {
        return IdOverflow;
      }
      link := link.(nextId := id + 1);
      if !round.fits {
        return NotSent;
      }
      link := link.(sent := link.sent + [Request(id, round.action)]);
      ServeOutstanding(round.answers);
      var received := ReceiveFrame(codec, round.patience);
      if received.Err? {
        return if received.error in {TimedOut, Cancelled} then GaveUp else Garbled;
      }
      var response := received.value;
      if response.id != id {
        return IdMismatch;
      }
      match response.answer {
        case Failure(_) => return GuestFailed;
        case Success(value) => return Got(value);
      }
    }
  }

  // ----- Every run -----

  // What is left of an encoding once its first bytes are gone never decodes: the end of a JSON
  // object is no JSON object.
  ghost predicate TailsAreGarbled<T(!new)>(codec: Codec<T>) {
    forall m, n: nat :: 0 < n <= |codec.encode(m)| ==> codec.decode(codec.encode(m)[n..]) == None
  }

  ghost predicate Inv<A(!new), R(!new)>(codec: Codec<Response<R>>, link: Link<A, R>) {
    && link.taken <= |link.replies| <= |link.sent|
    && (forall j :: 0 <= j < |link.replies| ==> link.replies[j].id == link.sent[j].id)
    && (forall j :: 0 <= j < |link.sent| ==> link.sent[j].id < link.nextId)
    && (forall i, j :: 0 <= i < j < |link.sent| ==> link.sent[i].id < link.sent[j].id)
    && CutIsWithin(codec, link)
  }

  ghost predicate CutIsWithin<A(!new), R(!new)>(codec: Codec<Response<R>>, link: Link<A, R>) {
    if link.taken < |link.replies| then link.cut <= |codec.encode(link.replies[link.taken])| else link.cut == 0
  }

  lemma {:induction false} ServeKeepsInv<A(!new), R(!new)>(codec: Codec<Response<R>>, link: Link<A, R>, answers: seq<Answer<R>>)
    requires Inv(codec, link)
    ensures Inv(codec, Serve(link, answers))
    ensures
      var served := Serve(link, answers);
      && served.sent == link.sent && served.taken == link.taken && served.nextId == link.nextId && served.cut == link.cut
      && link.replies <= served.replies
      && (answers != [] && |link.replies| < |link.sent| ==>
            && |link.replies| < |served.replies|
            && served.replies[|link.replies|] == Response(link.sent[|link.replies|].id, answers[0]))
      && (answers == [] ==> served.replies == link.replies)
    decreases |answers|
  {
    if answers != [] && |link.replies| < |link.sent| {
      var response := Response(link.sent[|link.replies|].id, answers[0]);
      ServeKeepsInv(codec, link.(replies := link.replies + [response]), answers[1..]);
    }
  }

  lemma SendKeepsInv<A(!new), R(!new)>(codec: Codec<Response<R>>, link: Link<A, R>, action: A)
    requires Inv(codec, link)
    ensures Inv(codec, link.(nextId := link.nextId + 1, sent := link.sent + [Request(link.nextId, action)]))
  {
  }

  lemma ServedKeepsInv<A(!new), R(!new)>(codec: Codec<Response<R>>, link: Link<A, R>, round: Round<A, R>)
    requires Inv(codec, link)
    ensures Inv(codec, Served(link, round))
    ensures
      var served := Served(link, round);
      && served.sent == link.sent + [Request(link.nextId, round.action)]
      && served.nextId == link.nextId + 1 && served.taken == link.taken && served.cut == link.cut
      && link.replies <= served.replies
      && (round.answers != [] ==> |link.replies| < |served.replies|)
      && (round.answers == [] ==> served.replies == link.replies)
      && (round.answers != [] && |link.replies| == |link.sent| ==>
            served.replies[|link.replies|] == Response(link.nextId, round.answers[0]))
  {
    SendKeepsInv(codec, link, round.action);
    ServeKeepsInv(codec, link.(nextId := link.nextId + 1, sent := link.sent + [Request(link.nextId, round.action)]), round.answers);
  }

  lemma ReceiveKeepsInv<A(!new), R(!new)>(codec: Codec<Response<R>>, link: Link<A, R>, patience: Option<nat>)
    requires Inv(codec, link)
    ensures
      var (after, received) := Receive(codec, link, patience);
      && Inv(codec, after)
      && after.sent == link.sent && after.nextId == link.nextId && after.replies == link.replies
      && after.taken <= link.taken + 1
      && (received == Err(TimedOut) ==> after.taken == link.taken)
  {
  }

  lemma ExchangeKeepsInv<A(!new), R(!new)>(codec: Codec<Response<R>>, link: Link<A, R>, round: Round<A, R>)
    requires Inv(codec, link)
    ensures Inv(codec, Exchange(codec, link, round).0)
    ensures link.sent <= Exchange(codec, link, round).0.sent
    ensures link.nextId <= Exchange(codec, link, round).0.nextId
  {
    if link.nextId < U64_MAX && round.fits {
      ServedKeepsInv(codec, link, round);
      ReceiveKeepsInv(codec, Served(link, round), round.patience);
    }
  }

  // A request still unanswered or unread from an earlier round.
  ghost predicate Backlog<A, R>(link: Link<A, R>) {
    link.taken < |link.sent|
  }

  // A frame that decodes was read whole, and is the next reply.
  lemma DecodedIsNextReply<A(!new), R(!new)>(codec: Codec<Response<R>>, link: Link<A, R>, patience: Option<nat>)
    requires Inv(codec, link) && Lossless(codec) && TailsAreGarbled(codec)
    ensures
      var received := Receive(codec, link, patience).1;
      received.Ok? ==> link.taken < |link.replies| && link.cut == 0 && received.value == link.replies[link.taken]
  {
    if link.taken < |link.replies| {
      var reply := link.replies[link.taken];
      assert codec.decode(codec.encode(reply)) == Some(reply);
      assert link.cut > 0 ==> codec.decode(codec.encode(reply)[link.cut..]) == None;
      assert codec.encode(reply)[0..] == codec.encode(reply);
    }
  }

  // A result is the server's answer to that very request.
  lemma ResultAnswersItsRequest<A(!new), R(!new)>(codec: Codec<Response<R>>, link: Link<A, R>, round: Round<A, R>)
    requires Inv(codec, link) && Lossless(codec) && TailsAreGarbled(codec)
    ensures
      var (after, verdict) := Exchange(codec, link, round);
      verdict.Got? ==>
        && after.sent == link.sent + [Request(link.nextId, round.action)]
        && |after.replies| == |after.sent|
        && after.replies[|after.replies| - 1] == Response(link.nextId, Success(verdict.value))
  {
    if link.nextId < U64_MAX && round.fits {
      var served := Served(link, round);
      ServedKeepsInv(codec, link, round);
      ReceiveKeepsInv(codec, served, round.patience);
      DecodedIsNextReply(codec, served, round.patience);
      if Exchange(codec, link, round).1.Got? {
        assert served.replies[served.taken].id == served.sent[served.taken].id;
      }
    }
  }

  // The client waits for the whole of a body.
  predicate Waits<A, R>(round: Round<A, R>, body: seq<byte>) {
    round.patience.Some? ==> round.patience.value > |body|
  }

  // A round gets its answer exactly when nothing is outstanding, the frame is sent, the server
  // answers and the client waits for the end of that answer.
  lemma AnsweredIffNoBacklog<A(!new), R(!new)>(codec: Codec<Response<R>>, link: Link<A, R>, round: Round<A, R>)
    requires Inv(codec, link) && link.nextId < U64_MAX && Lossless(codec) && TailsAreGarbled(codec)
    ensures
      var verdict := Exchange(codec, link, round).1;
      (verdict.Got? || verdict == GuestFailed) <==>
      && !Backlog(link) && round.fits && round.answers != []
      && Waits(round, codec.encode(Response(link.nextId, round.answers[0])))
  {
    if round.fits {
      ServedKeepsInv(codec, link, round);
      var served := Served(link, round);
      DecodedIsNextReply(codec, served, round.patience);
      if served.taken < |served.replies| {
        assert served.replies[served.taken].id == served.sent[served.taken].id;
        assert codec.encode(served.replies[served.taken])[0..] == codec.encode(served.replies[served.taken]);
      }
    }
  }

  // With a backlog a late reply comes first: if its frame is whole its id is rejected, and what
  // is left of a frame given up in the middle is no message.
  lemma LateReplyIsRejected<A(!new), R(!new)>(codec: Codec<Response<R>>, link: Link<A, R>, round: Round<A, R>)
    requires Inv(codec, link) && link.nextId < U64_MAX && Lossless(codec) && TailsAreGarbled(codec)
    requires Backlog(link) && round.fits && round.answers != [] && round.patience.None?
    ensures Exchange(codec, link, round).1 == if link.cut == 0 then IdMismatch else Garbled
  {
    ServedKeepsInv(codec, link, round);
    var served := Served(link, round);
    var reply := served.replies[served.taken];
    assert reply.id == served.sent[served.taken].id;
    assert codec.decode(codec.encode(reply)) == Some(reply);
    assert codec.encode(reply)[0..] == codec.encode(reply);
  }

  // Giving up after sending leaves a backlog, and a backlog is never worked off: from then on
  // every request on the connection fails.
  lemma BacklogStays<A(!new), R(!new)>(codec: Codec<Response<R>>, link: Link<A, R>, round: Round<A, R>)
    requires Inv(codec, link) && Lossless(codec) && TailsAreGarbled(codec)
    ensures Exchange(codec, link, round).1 == GaveUp ==> Backlog(Exchange(codec, link, round).0)
    ensures Backlog(link) ==> Backlog(Exchange(codec, link, round).0) && !Exchange(codec, link, round).1.Got?
  {
    if link.nextId < U64_MAX && round.fits {
      ServedKeepsInv(codec, link, round);
      ReceiveKeepsInv(codec, Served(link, round), round.patience);
      AnsweredIffNoBacklog(codec, link, round);
    }
  }

  // The connection after the first n rounds of a run, and the verdict of round n.
  function LinkAt<A, R>(codec: Codec<Response<R>>, rounds: seq<Round<A, R>>, n: nat): Link<A, R>
    requires n <= |rounds|
  {
    if n == 0 then Fresh() else Exchange(codec, LinkAt(codec, rounds, n - 1), rounds[n - 1]).0
  }

  function VerdictAt<A, R>(codec: Codec<Response<R>>, rounds: seq<Round<A, R>>, n: nat): Verdict<R>
    requires n < |rounds|
  {
    Exchange(codec, LinkAt(codec, rounds, n), rounds[n]).1
  }

  lemma {:induction false} RunsKeepInv<A(!new), R(!new)>(codec: Codec<Response<R>>, rounds: seq<Round<A, R>>, n: nat)
    requires n <= |rounds|
    ensures Inv(codec, LinkAt(codec, rounds, n))
  {
    if n > 0 {
      RunsKeepInv(codec, rounds, n - 1);
      ExchangeKeepsInv(codec, LinkAt(codec, rounds, n - 1), rounds[n - 1]);
    }
  }

  // Over every run, a result is the answer the server gave to the request of that round.
  lemma EveryResultIsOwn<A(!new), R(!new)>(codec: Codec<Response<R>>, rounds: seq<Round<A, R>>, n: nat)
    requires Lossless(codec) && TailsAreGarbled(codec)
    requires n < |rounds| && VerdictAt(codec, rounds, n).Got?
    ensures
      var after := LinkAt(codec, rounds, n + 1);
      var request := Request(LinkAt(codec, rounds, n).nextId, rounds[n].action);
      && |after.sent| > 0 && after.sent[|after.sent| - 1] == request
      && |after.replies| == |after.sent|
      && after.replies[|after.sent| - 1] == Response(request.id, Success(VerdictAt(codec, rounds, n).value))
  {
    RunsKeepInv(codec, rounds, n);
    ResultAnswersItsRequest(codec, LinkAt(codec, rounds, n), rounds[n]);
  }

  // Over every run, once a request has been given up after it was sent, between frames or in
  // the middle of one, no later request on the connection succeeds.
  lemma {:induction false} NothingSucceedsAfterGivingUp<A(!new), R(!new)>(codec: Codec<Response<R>>, rounds: seq<Round<A, R>>,
                                                                          i: nat, j: nat)
    requires Lossless(codec) && TailsAreGarbled(codec)
    requires i < j <= |rounds| && VerdictAt(codec, rounds, i) == GaveUp
    ensures Backlog(LinkAt(codec, rounds, j))
    ensures j < |rounds| ==> !VerdictAt(codec, rounds, j).Got?
  {
    RunsKeepInv(codec, rounds, j - 1);
    RunsKeepInv(codec, rounds, j);
    if j > i + 1 {
      NothingSucceedsAfterGivingUp(codec, rounds, i, j - 1);
    }
    BacklogStays(codec, LinkAt(codec, rounds, j - 1), rounds[j - 1]);
    if j < |rounds| {
      BacklogStays(codec, LinkAt(codec, rounds, j), rounds[j]);
    }
  }

  // ----- How a round ends -----

  // Ids start at one and run out at 2^64 - 1; a frame that cannot be written uses up its id.
  lemma UnsentRounds<A(!new), R(!new)>(codec: Codec<Response<R>>, link: Link<A, R>, round: Round<A, R>)
    ensures Fresh<A, R>() == Link(1, [], [], 0, 0)
    ensures link.nextId >= 18_446_744_073_709_551_615 ==> Exchange(codec, link, round) == (link, IdOverflow)
    ensures link.nextId < 18_446_744_073_709_551_615 && !round.fits ==>
      Exchange(codec, link, round) == (link.(nextId := link.nextId + 1), NotSent)
  {
  }

  // With nothing outstanding a sent request ends as the server answers it, or is given up.
  lemma FreshRounds<A(!new), R(!new)>(codec: Codec<Response<R>>, link: Link<A, R>, round: Round<A, R>)
    requires Inv(codec, link) && Lossless(codec) && TailsAreGarbled(codec)
    requires !Backlog(link) && link.nextId < 18_446_744_073_709_551_615 && round.fits
    ensures
      var verdict := Exchange(codec, link, round).1;
      if round.answers == [] || !Waits(round, codec.encode(Response(link.nextId, round.answers[0]))) then verdict == GaveUp
      else match round.answers[0]
        case Success(value) => verdict == Got(value)
        case Failure(_) => verdict == GuestFailed
  {
    ServedKeepsInv(codec, link, round);
    var served := Served(link, round);
    DecodedIsNextReply(codec, served, round.patience);
    if round.answers != [] {
      var reply := served.replies[served.taken];
      assert codec.encode(reply)[0..] == codec.encode(reply) && codec.decode(codec.encode(reply)) == Some(reply);
    }
  }
}
