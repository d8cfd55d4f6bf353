/** The guest server's table of running processes, over every sequence of requested actions. */
module ProcessTable {
  import opened Common

  const U64_MAX := 0xffff_ffff_ffff_ffff
  const MAX_COMMAND_TIMEOUT_MS := 30 * 60 * 1000

  datatype Action =
    | Ping
    | Exec(validCommand: bool, timeoutMs: nat)
    | Spawn(validCommand: bool)
    | Wait(id: nat, timeoutMs: nat)
    | Terminate(id: nat)

  datatype ProcessState = Running | Exited | TimedOut | Terminated

  // One look at a waited-for process: what `try_wait` says, and whether the deadline has passed.
  datatype Poll = Poll(status: PollStatus, deadline: bool)
  datatype PollStatus = StillRunning | HasExited | PollFailed

  // How the operating system answers during one action. Polls end at the deadline at the latest.
  datatype Host = Host(spawns: Option<nat>, polls: seq<Poll>, killed: bool, reaped: bool, outputRead: bool)

  datatype Reply = Pong | SpawnedReply(id: nat, pid: nat) | ProcessReply(id: nat, state: ProcessState) | ErrorReply

  // The last id given out, and the processes in the table with their pids.
  datatype Table = Table(nextId: nat, processes: map<nat, nat>)

  predicate AcceptedTimeout(timeoutMs: nat) {
    timeoutMs <= MAX_COMMAND_TIMEOUT_MS
  }

  function SpawnIn(t: Table, validCommand: bool, host: Host): (Table, Option<nat>) {
    if !validCommand || t.nextId >= U64_MAX then (t, None)
    else
      var id := t.nextId + 1;
      if host.spawns.None? then (Table(id, t.processes), None)
      else (Table(id, t.processes[id := host.spawns.value]), Some(id))
  }

  // Taking a process out of the table; its output may still be unreadable.
  function FinishIn(t: Table, id: nat, state: ProcessState, host: Host): (Table, Reply)
    requires id in t.processes
  {
    (Table(t.nextId, t.processes - {id}), if host.outputRead then ProcessReply(id, state) else ErrorReply)
  }

  // How a wait ends.
  datatype WaitEnd = SawExit | SawFailure | SawDeadline

  function WaitEnds(polls: seq<Poll>): WaitEnd {
    if polls == [] then SawDeadline
    else match polls[0].status
      case HasExited => SawExit
      case PollFailed => SawFailure
      case StillRunning => if polls[0].deadline then SawDeadline else WaitEnds(polls[1..])
  }

  function WaitIn(t: Table, id: nat, terminateOnTimeout: bool, host: Host): (Table, Reply) {
    if id !in t.processes then (t, ErrorReply)
    else match WaitEnds(host.polls)
      case SawExit => FinishIn(t, id, Exited, host)
      case SawFailure => (t, ErrorReply)
      case SawDeadline =>
        if !terminateOnTimeout then (t, ProcessReply(id, Running))
        else if !host.killed || !host.reaped then (t, ErrorReply)
        else FinishIn(t, id, TimedOut, host)
  }

  // Terminating looks at the process once and kills it if it is still running.
  function TerminateIn(t: Table, id: nat, host: Host): (Table, Reply) {
    if id !in t.processes then (t, ErrorReply)
    else
      var status := if host.polls == [] then StillRunning else host.polls[0].status;
      if status == PollFailed || (status == StillRunning && (!host.killed || !host.reaped)) then (t, ErrorReply)
      else FinishIn(t, id, Terminated, host)
  }

  function HandleIn(t: Table, action: Action, host: Host): (Table, Reply) {
    match action
    case Ping => (t, Pong)
    case Exec(valid, timeoutMs) =>
      if !AcceptedTimeout(timeoutMs) then (t, ErrorReply)
      else
        var (spawned, id) := SpawnIn(t, valid, host);
        if id.None? then (spawned, ErrorReply) else WaitIn(spawned, id.value, true, host)
    case Spawn(valid) =>
      var (spawned, id) := SpawnIn(t, valid, host);
      if id.None? then (spawned, ErrorReply) else (spawned, SpawnedReply(id.value, host.spawns.value))
    case Wait(id, timeoutMs) => if !AcceptedTimeout(timeoutMs) then (t, ErrorReply) else WaitIn(t, id, false, host)
    case Terminate(id) => TerminateIn(t, id, host)
  }

  class ProcessManager {
    var nextId: nat
    var processes: map<nat, nat>

    constructor ()
      ensures State() == Table(0, map[])
    {
      nextId := 0;
      processes := map[];
    }

    function State(): Table
      reads this
    {
      Table(nextId, processes)
    }

    method SpawnProcess(validCommand: bool, host: Host) returns (id: Option<nat>)
      modifies this
      ensures (State(), id) == SpawnIn(old(State()), validCommand, host)
    {
      if !validCommand {
        return None;
      }
      if nextId >= U64_MAX {
        return None;
      }
      nextId := nextId + 1;
      if host.spawns.None? {
        return None;
      }
      processes := processes[nextId := host.spawns.value];
      return Some(nextId);
    }

    method Finish(id: nat, state: ProcessState, host: Host) returns (reply: Reply)
      requires id in processes
      modifies this`processes
      ensures (State(), reply) == FinishIn(old(State()), id, state, host)
    {
      processes := processes - {id};
      return if host.outputRead then ProcessReply(id, state) else ErrorReply;
    }

    method WaitFor(id: nat, terminateOnTimeout: bool, host: Host) returns (reply: Reply)
      modifies this`processes
      ensures (State(), reply) == WaitIn(old(State()), id, terminateOnTimeout, host)
    {
      if id !in processes {
        return ErrorReply;
      }
      var n := 0;
      while n < |host.polls| && !host.polls[n].deadline && host.polls[n].status == StillRunning
        invariant n <= |host.polls|
        invariant WaitEnds(host.polls[n..]) == WaitEnds(host.polls)
      {
        assert host.polls[n..][1..] == host.polls[n + 1..];
        n := n + 1;
      }
      if n < |host.polls| && host.polls[n].status == HasExited {
        reply := Finish(id, Exited, host);
        return;
      }
      if n < |host.polls| && host.polls[n].status == PollFailed {
        return ErrorReply;
      }
      if !terminateOnTimeout {
        return ProcessReply(id, Running);
      }
      if !host.killed || !host.reaped {
        return ErrorReply;
      }
      reply := Finish(id, TimedOut, host);
    }

    method TerminateProcess(id: nat, host: Host) returns (reply: Reply)
      modifies this`processes
      ensures (State(), reply) == TerminateIn(old(State()), id, host)
    {
      if id !in processes {
        return ErrorReply;
      }
      var status := if host.polls == [] then StillRunning else host.polls[0].status;
      if status == PollFailed {
        return ErrorReply;
      }
      if status == StillRunning && (!host.killed || !host.reaped) {
        return ErrorReply;
      }
      reply := Finish(id, Terminated, host);
    }

    method Handle(action: Action, host: Host) returns (reply: Reply)
      modifies this
      ensures (State(), reply) == HandleIn(old(State()), action, host)
    {
      match action {
        case Ping => return Pong;
        case Exec(valid, timeoutMs) =>
          if !AcceptedTimeout(timeoutMs) {
            return ErrorReply;
          }
          var id := SpawnProcess(valid, host);
          if id.None? {
            return ErrorReply;
          }
          reply := WaitFor(id.value, true, host);
        case Spawn(valid) =>
          var id := SpawnProcess(valid, host);
          if id.None? {
            return ErrorReply;
          }
          return SpawnedReply(id.value, host.spawns.value);
        case Wait(id, timeoutMs) =>
          if !AcceptedTimeout(timeoutMs) {
            return ErrorReply;
          }
          reply := WaitFor(id, false, host);
        case Terminate(id) =>
          reply := TerminateProcess(id, host);
      }
    }
  }

  // ----- One action -----

  ghost predicate IdsGivenOut(t: Table) {
    forall id :: id in t.processes ==> 0 < id <= t.nextId
  }

  // An action adds at most the next id, removes at most one process, and a reply that reports
  // a process finished means that the process has just left the table.
  lemma ActionEffect(t: Table, action: Action, host: Host)
    requires IdsGivenOut(t)
    ensures
      var (after, reply) := HandleIn(t, action, host);
      && IdsGivenOut(after)
      && t.nextId <= after.nextId <= t.nextId + 1
      && (forall id :: id in after.processes && id !in t.processes ==> id == t.nextId + 1 == after.nextId)
      && (forall id :: id in after.processes && id in t.processes ==> after.processes[id] == t.processes[id])
      && (reply.SpawnedReply? ==>
            reply.id == t.nextId + 1 && after.processes == t.processes[reply.id := reply.pid])
      && (reply.ProcessReply? && reply.state == Running ==> after == t && reply.id in t.processes)
      && (reply.ProcessReply? && reply.state != Running ==>
            && (reply.id in t.processes || reply.id == t.nextId + 1)
            && reply.id <= after.nextId && reply.id !in after.processes
            && after.processes == t.processes - {reply.id})
      && (reply.ProcessReply? && reply.state == Running ==> action.Wait?)
      && (reply.ProcessReply? && reply.state == Exited ==> (action.Wait? || action.Exec?) && WaitEnds(host.polls) == SawExit)
      && (reply.ProcessReply? && reply.state == TimedOut ==> action.Exec? && WaitEnds(host.polls) == SawDeadline)
      && (reply.ProcessReply? && reply.state == Terminated ==> action.Terminate?)
  {
  }

  // An Exec with too long a timeout changes nothing; a successful Exec leaves the processes as
  // they were; a failed one leaves its process behind exactly when it was spawned and could
  // then not be polled, killed or reaped.
  lemma ExecEffect(t: Table, valid: bool, timeoutMs: nat, host: Host)
    requires IdsGivenOut(t)
    ensures
      var (after, reply) := HandleIn(t, Exec(valid, timeoutMs), host);
      && (!AcceptedTimeout(timeoutMs) ==> after == t && reply == ErrorReply)
      && (reply != ErrorReply ==> after.processes == t.processes)
      && (after.processes != t.processes <==>
            && AcceptedTimeout(timeoutMs) && SpawnIn(t, valid, host).1.Some?
            && (WaitEnds(host.polls) == SawFailure
                || (WaitEnds(host.polls) == SawDeadline && (!host.killed || !host.reaped))))
  {
    var spawned := SpawnIn(t, valid, host);
    if spawned.1.Some? {
      var id := spawned.1.value;
      assert id !in t.processes && id in spawned.0.processes;
      assert spawned.0.processes - {id} == t.processes;
    }
  }

  // The first look that decides sees the process exited; before it the process ran in time.
  ghost predicate SeesExit(polls: seq<Poll>) {
    exists n :: 0 <= n < |polls| && polls[n].status == HasExited && RunsInTime(polls[..n])
  }

  ghost predicate LookFails(polls: seq<Poll>) {
    exists n :: 0 <= n < |polls| && polls[n].status == PollFailed && RunsInTime(polls[..n])
  }

  ghost predicate RunsInTime(polls: seq<Poll>) {
    forall n :: 0 <= n < |polls| ==> polls[n] == Poll(StillRunning, false)
  }

  lemma {:induction false} WaitEndsIff(polls: seq<Poll>)
    ensures WaitEnds(polls) == SawExit <==> SeesExit(polls)
    ensures WaitEnds(polls) == SawFailure <==> LookFails(polls)
  {
    if polls != [] {
      WaitEndsIff(polls[1..]);
      if polls[0] == Poll(StillRunning, false) {
        LaterLook(polls, HasExited);
        LaterLook(polls, PollFailed);
      } else {
        FirstLook(polls, HasExited);
        FirstLook(polls, PollFailed);
      }
    }
  }

  lemma LaterLook(polls: seq<Poll>, status: PollStatus)
    requires polls != [] && polls[0] == Poll(StillRunning, false) && status != StillRunning
    ensures (exists n :: 0 <= n < |polls| && polls[n].status == status && RunsInTime(polls[..n])) <==>
            exists n :: 0 <= n < |polls[1..]| && polls[1..][n].status == status && RunsInTime(polls[1..][..n])
  {
    if n :| 0 <= n < |polls| && polls[n].status == status && RunsInTime(polls[..n]) {
      assert polls[1..][n - 1].status == status;
      assert polls[1..][..n - 1] == polls[..n][1..];
    }
    if n :| 0 <= n < |polls[1..]| && polls[1..][n].status == status && RunsInTime(polls[1..][..n]) {
      assert polls[n + 1].status == status;
      assert polls[..n + 1] == [polls[0]] + polls[1..][..n];
    }
  }

  lemma FirstLook(polls: seq<Poll>, status: PollStatus)
    requires polls != [] && polls[0] != Poll(StillRunning, false) && status != StillRunning
    ensures (exists n :: 0 <= n < |polls| && polls[n].status == status && RunsInTime(polls[..n])) <==> polls[0].status == status
  {
    if polls[0].status == status {
      assert RunsInTime(polls[..0]);
    }
    forall n | 0 < n < |polls|
      ensures !RunsInTime(polls[..n])
    {
      assert polls[..n][0] == polls[0];
    }
  }

  // A known process leaves on Terminate exactly when the first look does not fail and, if the
  // process still runs, it is killed and reaped; it is reported if its output can be read too.
  lemma TerminateEffect(t: Table, id: nat, host: Host)
    ensures
      var fails := host.polls != [] && host.polls[0].status == PollFailed;
      var exited := host.polls != [] && host.polls[0].status == HasExited;
      var leaves := id in t.processes && !fails && (exited || (host.killed && host.reaped));
      var (after, reply) := HandleIn(t, Terminate(id), host);
      && after == (if leaves then Table(t.nextId, t.processes - {id}) else t)
      && reply == (if leaves && host.outputRead then ProcessReply(id, Terminated) else ErrorReply)
  {
  }

  // A known process leaves on Wait exactly when its exit is seen in time; the reply says that it
  // is running exactly when the deadline is seen first.
  lemma WaitEffect(t: Table, id: nat, timeoutMs: nat, host: Host)
    ensures
      var waited := timeoutMs <= 1_800_000 && id in t.processes;
      var (after, reply) := HandleIn(t, Wait(id, timeoutMs), host);
      && after == (if waited && SeesExit(host.polls) then Table(t.nextId, t.processes - {id}) else t)
      && reply ==
           if waited && SeesExit(host.polls) && host.outputRead then ProcessReply(id, Exited)
           else if waited && !SeesExit(host.polls) && !LookFails(host.polls) then ProcessReply(id, Running)
           else ErrorReply
  {
    WaitEndsIff(host.polls);
  }

  // A valid command takes the next id, whether or not it then starts; ids run out at 2^64 - 1.
  lemma SpawnEffect(t: Table, valid: bool, host: Host)
    ensures
      var numbered := valid && t.nextId < 18_446_744_073_709_551_615;
      var (after, reply) := HandleIn(t, Spawn(valid), host);
      if numbered && host.spawns.Some? then
        && after == Table(t.nextId + 1, t.processes[t.nextId + 1 := host.spawns.value])
        && reply == SpawnedReply(t.nextId + 1, host.spawns.value)
      else after == Table(if numbered then t.nextId + 1 else t.nextId, t.processes) && reply == ErrorReply
  {
  }

  lemma PingEffect(t: Table, host: Host)
    ensures HandleIn(t, Ping, host) == (t, Pong)
  {
  }

  // A started Exec ends with its exit seen, or at the deadline with the process killed and
  // reaped; in either case the process is gone and reported if its output can be read.
  lemma ExecReply(t: Table, valid: bool, timeoutMs: nat, host: Host)
    requires IdsGivenOut(t)
    ensures
      var id := t.nextId + 1;
      var numbered := timeoutMs <= 1_800_000 && valid && t.nextId < 18_446_744_073_709_551_615;
      var started := numbered && host.spawns.Some?;
      var expired := !SeesExit(host.polls) && !LookFails(host.polls);
      var ends := started && (SeesExit(host.polls) || (expired && host.killed && host.reaped));
      var (after, reply) := HandleIn(t, Exec(valid, timeoutMs), host);
      && after.nextId == (if numbered then id else t.nextId)
      && after.processes == (if started && !ends then t.processes[id := host.spawns.value] else t.processes)
      && reply == (if ends && host.outputRead then ProcessReply(id, if expired then TimedOut else Exited) else ErrorReply)
  {
    WaitEndsIff(host.polls);
    assert t.nextId + 1 !in t.processes;
    if host.spawns.Some? {
      assert t.processes[t.nextId + 1 := host.spawns.value] - {t.nextId + 1} == t.processes;
    }
  }

  // ----- Every sequence of actions -----

  datatype Request = Request(action: Action, host: Host)

  function TableAfter(requests: seq<Request>, n: nat): Table
    requires n <= |requests|
  {
    if n == 0 then Table(0, map[]) else HandleIn(TableAfter(requests, n - 1), requests[n - 1].action, requests[n - 1].host).0
  }

  function ReplyTo(requests: seq<Request>, n: nat): Reply
    requires n < |requests|
  {
    HandleIn(TableAfter(requests, n), requests[n].action, requests[n].host).1
  }

  // The ids that action n put in the table for good or in passing, and those it took out.
  function SpawnedAt(requests: seq<Request>, n: nat): set<nat>
    requires n < |requests|
  {
    var t := TableAfter(requests, n);
    var action := requests[n].action;
    if (action.Exec? && AcceptedTimeout(action.timeoutMs)) || action.Spawn? then
      var id := SpawnIn(t, action.validCommand, requests[n].host).1;
      if id.Some? then {id.value} else {}
    else {}
  }

  function FinishedAt(requests: seq<Request>, n: nat): set<nat>
    requires n < |requests|
  {
    (TableAfter(requests, n).processes.Keys + SpawnedAt(requests, n)) - TableAfter(requests, n + 1).processes.Keys
  }

  lemma {:induction false} IdsStayGivenOut(requests: seq<Request>, n: nat)
    requires n <= |requests|
    ensures IdsGivenOut(TableAfter(requests, n))
    ensures n == 0 ==> TableAfter(requests, n) == Table(0, map[])
  {
    if n > 0 {
      IdsStayGivenOut(requests, n - 1);
      ActionEffect(TableAfter(requests, n - 1), requests[n - 1].action, requests[n - 1].host);
    }
  }

  lemma {:induction false} NextIdGrows(requests: seq<Request>, i: nat, j: nat)
    requires i <= j <= |requests|
    ensures TableAfter(requests, i).nextId <= TableAfter(requests, j).nextId
  {
    if i < j {
      NextIdGrows(requests, i, j - 1);
      IdsStayGivenOut(requests, j - 1);
      ActionEffect(TableAfter(requests, j - 1), requests[j - 1].action, requests[j - 1].host);
    }
  }

  lemma SpawnedIdIsNext(requests: seq<Request>, n: nat, id: nat)
    requires n < |requests| && id in SpawnedAt(requests, n)
    ensures id == TableAfter(requests, n).nextId + 1 == TableAfter(requests, n + 1).nextId
  {
  }

  // Ids are strictly increasing over the whole run, so none is ever given out twice.
  lemma IdsAreNeverReused(requests: seq<Request>, i: nat, j: nat, first: nat, second: nat)
    requires i < j < |requests|
    requires first in SpawnedAt(requests, i) && second in SpawnedAt(requests, j)
    ensures first < second
  {
    SpawnedIdIsNext(requests, i, first);
    SpawnedIdIsNext(requests, j, second);
    NextIdGrows(requests, i + 1, j);
  }

  ghost predicate SpawnedBefore(requests: seq<Request>, n: nat, id: nat)
    requires n <= |requests|
  {
    exists k :: 0 <= k < n && id in SpawnedAt(requests, k)
  }

  ghost predicate FinishedBefore(requests: seq<Request>, n: nat, id: nat)
    requires n <= |requests|
  {
    exists k :: 0 <= k < n && id in FinishedAt(requests, k)
  }

  // A process that is not in the table below the id counter never comes back.
  lemma {:induction false} GoneStaysGone(requests: seq<Request>, i: nat, j: nat, id: nat)
    requires i <= j <= |requests|
    requires id <= TableAfter(requests, i).nextId && id !in TableAfter(requests, i).processes
    ensures id !in TableAfter(requests, j).processes
    ensures j < |requests| ==> id !in SpawnedAt(requests, j) && id !in FinishedAt(requests, j)
  {
    if i < j {
      GoneStaysGone(requests, i, j - 1, id);
      NextIdGrows(requests, i, j - 1);
      IdsStayGivenOut(requests, j - 1);
      ActionEffect(TableAfter(requests, j - 1), requests[j - 1].action, requests[j - 1].host);
    }
    NextIdGrows(requests, i, j);
  }

  lemma TableStep(requests: seq<Request>, n: nat, id: nat)
    requires n < |requests|
    ensures id in TableAfter(requests, n + 1).processes <==>
      (id in TableAfter(requests, n).processes || id in SpawnedAt(requests, n)) && id !in FinishedAt(requests, n)
  {
    IdsStayGivenOut(requests, n);
    ActionEffect(TableAfter(requests, n), requests[n].action, requests[n].host);
  }

  lemma FinishedIsGone(requests: seq<Request>, n: nat, id: nat)
    requires n < |requests| && id in FinishedAt(requests, n)
    ensures id <= TableAfter(requests, n + 1).nextId && id !in TableAfter(requests, n + 1).processes
  {
    IdsStayGivenOut(requests, n);
    NextIdGrows(requests, n, n + 1);
  }

  // The table holds exactly the processes spawned and not yet finished.
  lemma {:induction false} TableHoldsUnfinished(requests: seq<Request>, n: nat, id: nat)
    requires n <= |requests|
    ensures id in TableAfter(requests, n).processes <==>
      SpawnedBefore(requests, n, id) && !FinishedBefore(requests, n, id)
  {
    if n > 0 {
      TableHoldsUnfinished(requests, n - 1, id);
      TableStep(requests, n - 1, id);
      if id in SpawnedAt(requests, n - 1) && FinishedBefore(requests, n - 1, id) {
        var k :| 0 <= k < n - 1 && id in FinishedAt(requests, k);
        FinishedIsGone(requests, k, id);
        GoneStaysGone(requests, k + 1, n - 1, id);
      }
    }
  }

  // A process is reported finished at most once, and never waited for again.
  lemma FinishedReportedOnce(requests: seq<Request>, i: nat, j: nat)
    requires i < j < |requests|
    requires ReplyTo(requests, i).ProcessReply? && ReplyTo(requests, i).state != Running
    requires ReplyTo(requests, j).ProcessReply?
    ensures ReplyTo(requests, i).id != ReplyTo(requests, j).id
  {
    var id := ReplyTo(requests, i).id;
    IdsStayGivenOut(requests, i);
    IdsStayGivenOut(requests, j);
    ActionEffect(TableAfter(requests, i), requests[i].action, requests[i].host);
    ActionEffect(TableAfter(requests, j), requests[j].action, requests[j].host);
    GoneStaysGone(requests, i + 1, j, id);
    NextIdGrows(requests, i + 1, j);
  }
}
