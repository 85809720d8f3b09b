/** The injected client's transport: logical requests, the chain of session renewals they share, and
    a trace of what was sent and adopted. */
module Renewal {
  import opened Wrappers

  const SESSION_RENEW_BEFORE_MS := 540000
  const SESSION_RENEW_RETRY_MS := 30000
  const UNAUTHORIZED_CODE := -32001

  /** A reply envelope; `token` is the result's token when it is a string. */
  datatype Reply = NoReply | Envelope(version: string, id: int, error: Option<int>, token: Option<string>)

  /** One link of the renewal chain. */
  datatype Status = Waiting | InFlight(id: nat) | Settled(usable: bool)
  datatype Task = Task(owner: nat, force: bool, status: Status)

  /** A logical request: waiting for its first or second renewal task, sent, or finished. */
  datatype Phase =
    | FirstQueued(task: nat)
    | FirstSent(id: nat)
    | SecondQueued(task: nat, first: Reply)
    | SecondSent(id: nat)
    | Finished(reply: Reply)

  /** What went over the wire: each sending, and each reply as it arrived, with the id and purpose of
      the sending it answers. */
  datatype Entry =
    | Attempt(request: nat, second: bool, id: nat, secret: string)
    | Replied(request: nat, id: nat, reply: Reply)
    | SentRenew(task: nat, force: bool, id: nat, secret: string, at: int)
    | RenewReplied(owner: nat, force: bool, id: nat, reply: Reply, at: int)

  datatype State = State(
    currentSecret: string, secretIssuedAt: int, renewalRetryAt: int, nextId: nat,
    tasks: seq<Task>, requests: seq<Phase>, trace: seq<Entry>)

  function Fresh(secret: string, now: int): State {
    State(secret, now, 0, 1, [], [], [])
  }

  // ---- Steps ----

  /** A new request first makes sure, through the chain, that the secret is fresh. */
  function AfterRequest(s: State): State {
    s.(requests := s.requests + [FirstQueued(|s.tasks|)], tasks := s.tasks + [Task(|s.requests|, false, Waiting)])
  }

  predicate RenewalAllowed(s: State, now: int) {
    now >= s.renewalRetryAt
  }

  predicate RenewalDue(s: State, now: int) {
    RenewalAllowed(s, now) && now - s.secretIssuedAt > SESSION_RENEW_BEFORE_MS
  }

  /** A link of the chain runs once the link before it has settled. */
  predicate CanRun(s: State, i: nat) {
    i < |s.tasks| && s.tasks[i].status.Waiting? && (i == 0 || s.tasks[i - 1].status.Settled?)
  }

  function WithStatus(s: State, i: nat, status: Status): State
    requires i < |s.tasks|
  {
    s.(tasks := s.tasks[i := s.tasks[i].(status := status)])
  }

  function AfterRunTask(s: State, i: nat, now: int): State
    requires CanRun(s, i)
  {
    if !s.tasks[i].force && !RenewalDue(s, now) then WithStatus(s, i, Settled(true))
    else if !RenewalAllowed(s, now) then WithStatus(s, i, Settled(false))
    else
      WithStatus(s, i, InFlight(s.nextId)).(
        nextId := s.nextId + 1,
        trace := s.trace + [SentRenew(i, s.tasks[i].force, s.nextId, s.currentSecret, now)])
  }

  predicate Renews(reply: Reply, id: nat) {
    && reply.Envelope? && reply.version == "0.1" && reply.id == id && reply.error.None?
    && reply.token.Some? && reply.token.value != ""
  }

  predicate CanRenew(s: State, i: nat) {
    i < |s.tasks| && s.tasks[i].status.InFlight?
  }

  function AfterRenewReply(s: State, i: nat, reply: Reply, now: int): State
    requires CanRenew(s, i)
  {
    var id := s.tasks[i].status.id;
    var arrived := s.(trace := s.trace + [RenewReplied(s.tasks[i].owner, s.tasks[i].force, id, reply, now)]);
    if Renews(reply, id) then
      WithStatus(arrived, i, Settled(true)).(
        currentSecret := reply.token.value, secretIssuedAt := now, renewalRetryAt := 0)
    else
      WithStatus(arrived, i, Settled(false)).(renewalRetryAt := now + SESSION_RENEW_RETRY_MS)
  }

  predicate CanResume(s: State, r: nat) {
    && r < |s.requests| && (s.requests[r].FirstQueued? || s.requests[r].SecondQueued?)
    && s.requests[r].task < |s.tasks| && s.tasks[s.requests[r].task].status.Settled?
  }

  /** The renewal task of a request settled: send it, or give up on the second attempt. */
  function AfterResume(s: State, r: nat): State
    requires CanResume(s, r)
  {
    var phase := s.requests[r];
    if phase.SecondQueued? && !s.tasks[phase.task].status.usable then
      s.(requests := s.requests[r := Finished(phase.first)])
    else
      s.(requests := s.requests[r := if phase.FirstQueued? then FirstSent(s.nextId) else SecondSent(s.nextId)],
         nextId := s.nextId + 1,
         trace := s.trace + [Attempt(r, phase.SecondQueued?, s.nextId, s.currentSecret)])
  }

  predicate IsSent(s: State, r: nat) {
    r < |s.requests| && (s.requests[r].FirstSent? || s.requests[r].SecondSent?)
  }

  predicate IsUnauthorized(reply: Reply) {
    reply.Envelope? && reply.error == Some(UNAUTHORIZED_CODE)
  }

  function AfterReply(s: State, r: nat, reply: Reply): State
    requires IsSent(s, r)
  {
    var arrived := s.(trace := s.trace + [Replied(r, s.requests[r].id, reply)]);
    if s.requests[r].FirstSent? && IsUnauthorized(reply) then
      arrived.(requests := s.requests[r := SecondQueued(|s.tasks|, reply)],
               tasks := s.tasks + [Task(r, true, Waiting)])
    else arrived.(requests := s.requests[r := Finished(reply)])
  }

  class Transport {
    var currentSecret: string
    var secretIssuedAt: int
    var renewalRetryAt: int
    var nextId: nat
    var tasks: seq<Task>
    var requests: seq<Phase>
    ghost var trace: seq<Entry>

    ghost function Now(): State
      reads this
    {
      State(currentSecret, secretIssuedAt, renewalRetryAt, nextId, tasks, requests, trace)
    }

    constructor (secret: string, now: int)
      ensures Now() == Fresh(secret, now)
    {
      currentSecret, secretIssuedAt, renewalRetryAt, nextId := secret, now, 0, 1;
      tasks, requests, trace := [], [], [];
    }

    method EnqueueRenewal(owner: nat, force: bool) returns (task: nat)
      modifies this`tasks
      ensures task == |old(tasks)| && tasks == old(tasks) + [Task(owner, force, Waiting)]
    {
      task := |tasks|;
      tasks := tasks + [Task(owner, force, Waiting)];
    }

    method Request() returns (r: nat)
      modifies this
      ensures r == |old(requests)| && Now() == AfterRequest(old(Now()))
    {
      r := |requests|;
      var task := EnqueueRenewal(r, false);
      requests := requests + [FirstQueued(task)];
    }

    method Settle(i: nat, usable: bool)
      requires i < |tasks|
      modifies this`tasks
      ensures tasks == old(tasks)[i := old(tasks)[i].(status := Settled(usable))]
    {
      tasks := tasks[i := tasks[i].(status := Settled(usable))];
    }

    method RunTask(i: nat, now: int)
      requires CanRun(Now(), i)
      modifies this
      ensures Now() == AfterRunTask(old(Now()), i, now)
    {
      var allowed := now >= renewalRetryAt;
      var due := allowed && now - secretIssuedAt > SESSION_RENEW_BEFORE_MS;
      if !tasks[i].force && !due {
        Settle(i, true);
      } else if !allowed {
        Settle(i, false);
      } else {
        var renewId := nextId;
        nextId := nextId + 1;
        trace := trace + [SentRenew(i, tasks[i].force, renewId, currentSecret, now)];
        tasks := tasks[i := tasks[i].(status := InFlight(renewId))];
      }
    }

    method RenewReply(i: nat, reply: Reply, now: int)
      requires CanRenew(Now(), i)
      modifies this
      ensures Now() == AfterRenewReply(old(Now()), i, reply, now)
    {
      var renewId := tasks[i].status.id;
      trace := trace + [RenewReplied(tasks[i].owner, tasks[i].force, renewId, reply, now)];
      if reply.NoReply? || reply.version != "0.1" || reply.id != renewId || reply.error.Some?
         || reply.token.None? || |reply.token.value| == 0 {
        renewalRetryAt := now + SESSION_RENEW_RETRY_MS;
        Settle(i, false);
        return;
      }
      currentSecret := reply.token.value;
      secretIssuedAt := now;
      renewalRetryAt := 0;
      Settle(i, true);
    }

    method SendAttempt(r: nat, second: bool) returns (id: nat)
      modifies this`nextId, this`trace
      ensures id == old(nextId) && nextId == id + 1
      ensures trace == old(trace) + [Attempt(r, second, id, currentSecret)]
    {
      id := nextId;
      nextId := nextId + 1;
      trace := trace + [Attempt(r, second, id, currentSecret)];
    }

    method Resume(r: nat)
      requires CanResume(Now(), r)
      modifies this
      ensures Now() == AfterResume(old(Now()), r)
    {
      var phase := requests[r];
      if phase.FirstQueued? {
        var id := SendAttempt(r, false);
        requests := requests[r := FirstSent(id)];
      } else if tasks[phase.task].status.usable {
        var id := SendAttempt(r, true);
        requests := requests[r := SecondSent(id)];
      } else {
        requests := requests[r := Finished(phase.first)];
      }
    }

    method ReceiveReply(r: nat, reply: Reply)
      requires IsSent(Now(), r)
      modifies this
      ensures Now() == AfterReply(old(Now()), r, reply)
    {
      trace := trace + [Replied(r, requests[r].id, reply)];
      if requests[r].FirstSent? && reply.Envelope? && reply.error == Some(UNAUTHORIZED_CODE) {
        var task := EnqueueRenewal(r, true);
        requests := requests[r := SecondQueued(task, reply)];
      } else {
        requests := requests[r := Finished(reply)];
      }
    }
  }
}
