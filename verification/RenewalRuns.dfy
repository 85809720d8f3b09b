/** Every interleaving of concurrent requests, renewals and replies obeys one trace specification. */
module RenewalRuns {
  import opened Wrappers
  import opened Renewal

  // ---- What a trace may contain ----

  predicate IsSend(e: Entry) {
    e.Attempt? || e.SentRenew?
  }

  function Sends(trace: seq<Entry>): nat {
    if trace == [] then 0 else Sends(trace[..|trace| - 1]) + if IsSend(trace[|trace| - 1]) then 1 else 0
  }

  // The next two predicates are the protocol's, in terms of what a reply contains; the transport's
  // own tests are proved to agree with them.

  /** The reply rejects the sender as unauthorized. */
  predicate Rejects(reply: Reply) {
    reply.Envelope? && reply.error == Some(-32001)
  }

  /** The reply answers the renewal with this id, without error, with a token. */
  predicate Grants(reply: Reply, id: nat) {
    && reply.Envelope? && reply.version == "0.1" && reply.id == id && reply.error == None
    && reply.token.Some? && reply.token.value != ""
  }

  /** A granting reply to a renewal. */
  predicate IsGrant(e: Entry) {
    e.RenewReplied? && Grants(e.reply, e.id)
  }

  /** The secret in force: the token of the last granting reply, or the launch secret. */
  function Secret(launch: string, trace: seq<Entry>): string {
    if trace == [] then launch
    else if IsGrant(trace[|trace| - 1]) then trace[|trace| - 1].reply.token.value
    else Secret(launch, trace[..|trace| - 1])
  }

  /** Id and secret of the renewal sent and not yet answered. */
  function Open(trace: seq<Entry>): Option<(nat, string)> {
    if trace == [] then None
    else
      var e := trace[|trace| - 1];
      if e.SentRenew? then Some((e.id, e.secret))
      else if e.RenewReplied? then None
      else Open(trace[..|trace| - 1])
  }

  predicate IsFailure(e: Entry) {
    e.RenewReplied? && !Grants(e.reply, e.id)
  }

  function LatestFailure(trace: seq<Entry>): Option<int> {
    if trace == [] then None
    else if IsFailure(trace[|trace| - 1]) then Some(trace[|trace| - 1].at)
    else LatestFailure(trace[..|trace| - 1])
  }

  function Attempts(trace: seq<Entry>, r: nat): nat {
    if trace == [] then 0
    else
      var e := trace[|trace| - 1];
      Attempts(trace[..|trace| - 1], r) + if e.Attempt? && e.request == r then 1 else 0
  }

  /** The id of the request's sending that is not answered yet. */
  function Awaiting(trace: seq<Entry>, r: nat): Option<nat> {
    if trace == [] then None
    else
      var e := trace[|trace| - 1];
      if e.Attempt? && e.request == r then Some(e.id)
      else if e.Replied? && e.request == r then None
      else Awaiting(trace[..|trace| - 1], r)
  }

  /** The latest reply to the request. */
  function LastReply(trace: seq<Entry>, r: nat): Option<Reply> {
    if trace == [] then None
    else
      var e := trace[|trace| - 1];
      if e.Replied? && e.request == r then Some(e.reply) else LastReply(trace[..|trace| - 1], r)
  }

  /** Some reply to the request rejected it. */
  predicate Rejected(trace: seq<Entry>, r: nat) {
    && trace != []
    && var e := trace[|trace| - 1];
       (e.Replied? && e.request == r && Rejects(e.reply)) || Rejected(trace[..|trace| - 1], r)
  }

  /** The request was rejected, and after that a renewal forced by it was granted. */
  predicate Recovered(trace: seq<Entry>, r: nat) {
    && trace != []
    && var e := trace[|trace| - 1];
       var before := trace[..|trace| - 1];
       (IsGrant(e) && e.owner == r && e.force && Rejected(before, r)) || Recovered(before, r)
  }

  predicate Spaced(before: seq<Entry>, at: int) {
    LatestFailure(before).None? || at >= LatestFailure(before).value + SESSION_RENEW_RETRY_MS
  }

  /** What each entry owes to the entries before it. */
  predicate Justified(launch: string, before: seq<Entry>, e: Entry) {
    match e
    case Attempt(r, second, id, secret) =>
      && id == Sends(before) + 1 && secret == Secret(launch, before) && Awaiting(before, r).None?
      && Attempts(before, r) == (if second then 1 else 0) && (second ==> Recovered(before, r))
    case Replied(r, id, _) => Awaiting(before, r) == Some(id)
    case SentRenew(_, _, id, secret, at) =>
      id == Sends(before) + 1 && secret == Secret(launch, before) && Open(before).None? && Spaced(before, at)
    case RenewReplied(_, _, id, _, at) =>
      && Open(before) == Some((id, Secret(launch, before)))
      && (LatestFailure(before).Some? ==> LatestFailure(before).value <= at)
  }

  predicate Obeys(launch: string, trace: seq<Entry>) {
    trace == [] || (Obeys(launch, trace[..|trace| - 1]) && Justified(launch, trace[..|trace| - 1], trace[|trace| - 1]))
  }

  // ---- Runs ----

  datatype Step =
    | Request
    | RunTask(task: nat)
    | RenewReply(task: nat, reply: Reply)
    | Resume(request: nat)
    | ReceiveReply(request: nat, reply: Reply)

  /** A step and the clock's reading when it is taken. */
  datatype Timed = Timed(step: Step, now: int)

  /** Steps that cannot be taken do nothing. */
  function Next(s: State, t: Timed): State {
    match t.step
    case Request => AfterRequest(s)
    case RunTask(i) => if CanRun(s, i) then AfterRunTask(s, i, t.now) else s
    case RenewReply(i, reply) =>
      if CanRenew(s, i) then AfterRenewReply(s, i, reply, t.now) else s
    case Resume(r) => if CanResume(s, r) then AfterResume(s, r) else s
    case ReceiveReply(r, reply) => if IsSent(s, r) then AfterReply(s, r, reply) else s
  }

  function Run(launch: string, start: int, steps: seq<Timed>): State {
    if steps == [] then Fresh(launch, start)
    else Next(Run(launch, start, steps[..|steps| - 1]), steps[|steps| - 1])
  }

  function Clock(start: int, steps: seq<Timed>): int {
    if steps == [] then start else steps[|steps| - 1].now
  }

  /** The clock does not run backwards. */
  predicate Monotone(start: int, steps: seq<Timed>) {
    steps == [] ||
    (Monotone(start, steps[..|steps| - 1]) && Clock(start, steps[..|steps| - 1]) <= steps[|steps| - 1].now)
  }

  // ---- The invariant ----

  /** The chain: settled links, then at most one in flight, then waiting links. */
  predicate Lined(tasks: seq<Task>, head: nat) {
    && head <= |tasks|
    && (forall k :: 0 <= k < head ==> tasks[k].status.Settled?)
    && (forall k :: head < k < |tasks| ==> tasks[k].status.Waiting?)
    && (head < |tasks| ==> !tasks[head].status.Settled?)
  }

  ghost predicate ChainInv(s: State) {
    exists head: nat :: Lined(s.tasks, head) && OpenIs(s, head)
  }

  /** The renewal open in the trace is the one the head of the chain waits for. */
  predicate OpenIs(s: State, head: nat) {
    if head < |s.tasks| && s.tasks[head].status.InFlight?
    then Open(s.trace) == Some((s.tasks[head].status.id, s.currentSecret))
    else Open(s.trace).None?
  }

  predicate TimeInv(s: State, clock: int) {
    LatestFailure(s.trace).Some? ==>
      var retry := LatestFailure(s.trace).value + SESSION_RENEW_RETRY_MS;
      && LatestFailure(s.trace).value <= clock
      && (s.renewalRetryAt >= retry || clock >= retry)
      && (Open(s.trace).Some? ==> clock >= retry)
  }

  predicate TaskInv(s: State, i: nat)
    requires i < |s.tasks|
  {
    var task := s.tasks[i];
    task.force ==>
      && Rejected(s.trace, task.owner)
      && (task.status == Settled(true) ==> Recovered(s.trace, task.owner))
  }

  /** Where a request stands; requests not made yet have sent nothing. */
  predicate RequestInv(s: State, r: nat) {
    if r >= |s.requests| then Attempts(s.trace, r) == 0 && Awaiting(s.trace, r).None?
    else
      match s.requests[r]
      case FirstQueued(t) => t < |s.tasks| && Attempts(s.trace, r) == 0 && Awaiting(s.trace, r).None?
      case FirstSent(id) => Attempts(s.trace, r) == 1 && Awaiting(s.trace, r) == Some(id)
      case SecondQueued(t, first) =>
        && Attempts(s.trace, r) == 1 && Awaiting(s.trace, r).None? && LastReply(s.trace, r) == Some(first)
        && t < |s.tasks| && s.tasks[t].force && s.tasks[t].owner == r
      case SecondSent(id) => Awaiting(s.trace, r) == Some(id)
      case Finished(reply) => LastReply(s.trace, r) == Some(reply)
  }

  ghost predicate PartsInv(s: State) {
    && (forall i :: 0 <= i < |s.tasks| ==> TaskInv(s, i))
    && (forall r: nat :: RequestInv(s, r))
  }

  predicate TraceInv(s: State, launch: string) {
    Obeys(launch, s.trace) && s.nextId == Sends(s.trace) + 1 && s.currentSecret == Secret(launch, s.trace)
  }

  // ---- Appending to the trace ----

  lemma Appended(launch: string, trace: seq<Entry>, e: Entry)
    ensures var t := trace + [e];
            && Sends(t) == Sends(trace) + (if IsSend(e) then 1 else 0)
            && Secret(launch, t) == (if IsGrant(e) then e.reply.token.value else Secret(launch, trace))
            && Open(t) == (if e.SentRenew? then Some((e.id, e.secret))
                           else if e.RenewReplied? then None else Open(trace))
            && LatestFailure(t) == (if IsFailure(e) then Some(e.at) else LatestFailure(trace))
            && (Obeys(launch, t) <==> Obeys(launch, trace) && Justified(launch, trace, e))
  {
    assert (trace + [e])[..|trace|] == trace;
  }

  lemma AppendedFor(trace: seq<Entry>, e: Entry, r: nat)
    ensures var t := trace + [e];
            && Attempts(t, r) == Attempts(trace, r) + (if e.Attempt? && e.request == r then 1 else 0)
            && Awaiting(t, r) == (if e.Attempt? && e.request == r then Some(e.id)
                                  else if e.Replied? && e.request == r then None else Awaiting(trace, r))
            && LastReply(t, r) == (if e.Replied? && e.request == r then Some(e.reply) else LastReply(trace, r))
            && (Rejected(t, r) <==> (e.Replied? && e.request == r && Rejects(e.reply)) || Rejected(trace, r))
            && (Recovered(t, r) <==>
                  (IsGrant(e) && e.owner == r && e.force && Rejected(trace, r)) || Recovered(trace, r))
  {
    assert (trace + [e])[..|trace|] == trace;
  }

  // ---- The chain ----

  lemma HeadCanRun(tasks: seq<Task>, head: nat, i: nat)
    requires Lined(tasks, head) && i < |tasks| && tasks[i].status.Waiting?
    requires i == 0 || tasks[i - 1].status.Settled?
    ensures i == head
  {
  }

  lemma HeadInFlight(tasks: seq<Task>, head: nat, i: nat)
    requires Lined(tasks, head) && i < |tasks| && tasks[i].status.InFlight?
    ensures i == head
  {
  }

  lemma HeadMoves(tasks: seq<Task>, head: nat, status: Status)
    requires Lined(tasks, head) && head < |tasks| && !status.Waiting?
    ensures Lined(tasks[head := tasks[head].(status := status)], if status.Settled? then head + 1 else head)
  {
  }

  lemma ChainGrows(tasks: seq<Task>, head: nat, task: Task)
    requires Lined(tasks, head) && task.status.Waiting?
    ensures Lined(tasks + [task], head)
  {
  }

  lemma ChainAt(s: State, head: nat)
    requires Lined(s.tasks, head) && OpenIs(s, head)
    ensures ChainInv(s)
  {
  }

  ghost predicate CoreInv(s: State, launch: string, clock: int) {
    ChainInv(s) && TraceInv(s, launch) && TimeInv(s, clock)
  }

  lemma RequestKeepsCore(s: State, launch: string, clock: int)
    requires CoreInv(s, launch, clock)
    ensures CoreInv(AfterRequest(s), launch, clock)
  {
    var head: nat :| Lined(s.tasks, head) && OpenIs(s, head);
    ChainGrows(s.tasks, head, Task(|s.requests|, false, Waiting));
    ChainAt(AfterRequest(s), head);
  }

  lemma LaterClock(s: State, clock: int, now: int)
    requires TimeInv(s, clock) && clock <= now
    ensures TimeInv(s, now)
  {
  }

  lemma RunTaskKeepsChain(s: State, head: nat, i: nat, now: int)
    requires Lined(s.tasks, head) && OpenIs(s, head) && CanRun(s, i)
    ensures i == head && ChainInv(AfterRunTask(s, i, now)) && Open(s.trace).None?
  {
    HeadCanRun(s.tasks, head, i);
    var next := AfterRunTask(s, i, now);
    HeadMoves(s.tasks, head, next.tasks[i].status);
    if next.tasks[i].status.Settled? {
      ChainAt(next, head + 1);
    } else {
      Appended("", s.trace, SentRenew(i, s.tasks[i].force, s.nextId, s.currentSecret, now));
      ChainAt(next, head);
    }
  }

  lemma RunTaskKeepsTrace(s: State, launch: string, i: nat, now: int)
    requires TraceInv(s, launch) && TimeInv(s, now) && CanRun(s, i) && Open(s.trace).None?
    ensures TraceInv(AfterRunTask(s, i, now), launch) && TimeInv(AfterRunTask(s, i, now), now)
  {
    Appended(launch, s.trace, SentRenew(i, s.tasks[i].force, s.nextId, s.currentSecret, now));
  }

  lemma RunTaskKeepsCore(s: State, launch: string, i: nat, now: int)
    requires CoreInv(s, launch, now) && CanRun(s, i)
    ensures CoreInv(AfterRunTask(s, i, now), launch, now)
  {
    var head: nat :| Lined(s.tasks, head) && OpenIs(s, head);
    RunTaskKeepsChain(s, head, i, now);
    RunTaskKeepsTrace(s, launch, i, now);
  }

  lemma RenewReplyKeepsChain(s: State, head: nat, i: nat, reply: Reply, now: int)
    requires Lined(s.tasks, head) && OpenIs(s, head) && CanRenew(s, i)
    ensures ChainInv(AfterRenewReply(s, i, reply, now))
    ensures Open(s.trace) == Some((s.tasks[i].status.id, s.currentSecret))
  {
    HeadInFlight(s.tasks, head, i);
    var next := AfterRenewReply(s, i, reply, now);
    HeadMoves(s.tasks, head, next.tasks[i].status);
    Appended("", s.trace, next.trace[|s.trace|]);
    ChainAt(next, head + 1);
  }

  lemma RenewReplyKeepsTrace(s: State, launch: string, i: nat, reply: Reply, now: int)
    requires TraceInv(s, launch) && TimeInv(s, now) && CanRenew(s, i)
    requires Open(s.trace) == Some((s.tasks[i].status.id, s.currentSecret))
    ensures TraceInv(AfterRenewReply(s, i, reply, now), launch) && TimeInv(AfterRenewReply(s, i, reply, now), now)
  {
    var next := AfterRenewReply(s, i, reply, now);
    Appended(launch, s.trace, next.trace[|s.trace|]);
  }

  lemma RenewReplyKeepsCore(s: State, launch: string, i: nat, reply: Reply, now: int)
    requires CoreInv(s, launch, now) && CanRenew(s, i)
    ensures CoreInv(AfterRenewReply(s, i, reply, now), launch, now)
  {
    var head: nat :| Lined(s.tasks, head) && OpenIs(s, head);
    RenewReplyKeepsChain(s, head, i, reply, now);
    RenewReplyKeepsTrace(s, launch, i, reply, now);
  }

  predicate SendsNow(s: State, r: nat)
    requires CanResume(s, r)
  {
    s.requests[r].FirstQueued? || s.tasks[s.requests[r].task].status.usable
  }

  lemma AttemptIsJustified(s: State, launch: string, r: nat)
    requires TraceInv(s, launch) && CanResume(s, r) && SendsNow(s, r) && RequestInv(s, r)
    requires TaskInv(s, s.requests[r].task)
    ensures Justified(launch, s.trace, Attempt(r, s.requests[r].SecondQueued?, s.nextId, s.currentSecret))
  {
    var task := s.tasks[s.requests[r].task];
    if s.requests[r].SecondQueued? {
      assert task.force && task.owner == r && task.status == Settled(true);
    }
  }

  lemma AttemptKeepsTrace(s: State, launch: string, e: Entry, clock: int, next: State)
    requires TraceInv(s, launch) && TimeInv(s, clock) && e.Attempt? && Justified(launch, s.trace, e)
    requires next.trace == s.trace + [e] && next.nextId == s.nextId + 1
    requires next.currentSecret == s.currentSecret && next.renewalRetryAt == s.renewalRetryAt
    ensures TraceInv(next, launch) && TimeInv(next, clock) && Open(next.trace) == Open(s.trace)
  {
    Appended(launch, s.trace, e);
  }

  lemma ResumeKeepsTrace(s: State, launch: string, r: nat, clock: int)
    requires TraceInv(s, launch) && TimeInv(s, clock) && CanResume(s, r) && RequestInv(s, r)
    requires TaskInv(s, s.requests[r].task)
    ensures TraceInv(AfterResume(s, r), launch) && TimeInv(AfterResume(s, r), clock)
    ensures Open(AfterResume(s, r).trace) == Open(s.trace)
  {
    if SendsNow(s, r) {
      AttemptIsJustified(s, launch, r);
      var e := Attempt(r, s.requests[r].SecondQueued?, s.nextId, s.currentSecret);
      AttemptKeepsTrace(s, launch, e, clock, AfterResume(s, r));
    } else {
      assert AfterResume(s, r) == s.(requests := AfterResume(s, r).requests);
    }
  }

  lemma ResumeKeepsCore(s: State, launch: string, r: nat, clock: int)
    requires CoreInv(s, launch, clock) && CanResume(s, r) && RequestInv(s, r)
    requires TaskInv(s, s.requests[r].task)
    ensures CoreInv(AfterResume(s, r), launch, clock)
  {
    var head: nat :| Lined(s.tasks, head) && OpenIs(s, head);
    ResumeKeepsTrace(s, launch, r, clock);
    ChainAt(AfterResume(s, r), head);
  }

  lemma ReplyKeepsCore(s: State, launch: string, r: nat, reply: Reply, clock: int)
    requires CoreInv(s, launch, clock) && IsSent(s, r) && RequestInv(s, r)
    ensures CoreInv(AfterReply(s, r, reply), launch, clock)
  {
    var head: nat :| Lined(s.tasks, head) && OpenIs(s, head);
    var next := AfterReply(s, r, reply);
    Appended(launch, s.trace, next.trace[|s.trace|]);
    ChainGrows(s.tasks, head, Task(r, true, Waiting));
    ChainAt(next, head);
  }

  // ---- Tasks and requests ----

  lemma RequestKeepsParts(s: State)
    requires PartsInv(s)
    ensures PartsInv(AfterRequest(s))
  {
    var next := AfterRequest(s);
    forall i | 0 <= i < |next.tasks|
      ensures TaskInv(next, i)
    {
      assert i < |s.tasks| ==> TaskInv(s, i);
    }
    forall r: nat
      ensures RequestInv(next, r)
    {
      assert RequestInv(s, r);
    }
  }

  lemma RunTaskKeepsTask(s: State, i: nat, now: int, k: nat)
    requires CanRun(s, i) && k < |s.tasks| && TaskInv(s, k)
    ensures TaskInv(AfterRunTask(s, i, now), k)
  {
    AppendedFor(s.trace, SentRenew(i, s.tasks[i].force, s.nextId, s.currentSecret, now), s.tasks[k].owner);
  }

  lemma RunTaskKeepsRequest(s: State, i: nat, now: int, r: nat)
    requires CanRun(s, i) && RequestInv(s, r)
    ensures RequestInv(AfterRunTask(s, i, now), r)
  {
    AppendedFor(s.trace, SentRenew(i, s.tasks[i].force, s.nextId, s.currentSecret, now), r);
  }

  lemma RunTaskKeepsParts(s: State, i: nat, now: int)
    requires PartsInv(s) && CanRun(s, i)
    ensures PartsInv(AfterRunTask(s, i, now))
  {
    var next := AfterRunTask(s, i, now);
    forall k | 0 <= k < |next.tasks|
      ensures TaskInv(next, k)
    {
      RunTaskKeepsTask(s, i, now, k);
    }
    forall r: nat
      ensures RequestInv(next, r)
    {
      RunTaskKeepsRequest(s, i, now, r);
    }
  }

  lemma RenewReplyKeepsTask(s: State, i: nat, reply: Reply, now: int, k: nat)
    requires CanRenew(s, i) && TaskInv(s, i) && k < |s.tasks| && TaskInv(s, k)
    ensures TaskInv(AfterRenewReply(s, i, reply, now), k)
  {
    AppendedFor(s.trace, AfterRenewReply(s, i, reply, now).trace[|s.trace|], s.tasks[k].owner);
  }

  lemma RenewReplyKeepsRequest(s: State, i: nat, reply: Reply, now: int, r: nat)
    requires CanRenew(s, i) && RequestInv(s, r)
    ensures RequestInv(AfterRenewReply(s, i, reply, now), r)
  {
    AppendedFor(s.trace, AfterRenewReply(s, i, reply, now).trace[|s.trace|], r);
  }

  lemma RenewReplyKeepsParts(s: State, i: nat, reply: Reply, now: int)
    requires PartsInv(s) && CanRenew(s, i)
    ensures PartsInv(AfterRenewReply(s, i, reply, now))
  {
    var next := AfterRenewReply(s, i, reply, now);
    forall k | 0 <= k < |next.tasks|
      ensures TaskInv(next, k)
    {
      RenewReplyKeepsTask(s, i, reply, now, k);
    }
    forall r: nat
      ensures RequestInv(next, r)
    {
      RenewReplyKeepsRequest(s, i, reply, now, r);
    }
  }

  lemma ResumeKeepsTask(s: State, r: nat, k: nat)
    requires CanResume(s, r) && k < |s.tasks| && TaskInv(s, k)
    ensures TaskInv(AfterResume(s, r), k)
  {
    AppendedFor(s.trace, Attempt(r, s.requests[r].SecondQueued?, s.nextId, s.currentSecret), s.tasks[k].owner);
  }

  lemma ResumeKeepsRequest(s: State, r: nat, k: nat)
    requires CanResume(s, r) && RequestInv(s, k)
    ensures RequestInv(AfterResume(s, r), k)
  {
    AppendedFor(s.trace, Attempt(r, s.requests[r].SecondQueued?, s.nextId, s.currentSecret), k);
  }

  lemma ResumeKeepsParts(s: State, r: nat)
    requires PartsInv(s) && CanResume(s, r)
    ensures PartsInv(AfterResume(s, r))
  {
    var next := AfterResume(s, r);
    forall k | 0 <= k < |next.tasks|
      ensures TaskInv(next, k)
    {
      ResumeKeepsTask(s, r, k);
    }
    forall k: nat
      ensures RequestInv(next, k)
    {
      ResumeKeepsRequest(s, r, k);
    }
  }

  lemma ReplyKeepsTask(s: State, r: nat, reply: Reply, k: nat)
    requires IsSent(s, r) && k < |AfterReply(s, r, reply).tasks| && (k < |s.tasks| ==> TaskInv(s, k))
    ensures TaskInv(AfterReply(s, r, reply), k)
  {
    AppendedFor(s.trace, Replied(r, s.requests[r].id, reply), AfterReply(s, r, reply).tasks[k].owner);
  }

  lemma ReplyKeepsRequest(s: State, r: nat, reply: Reply, k: nat)
    requires IsSent(s, r) && RequestInv(s, k)
    ensures RequestInv(AfterReply(s, r, reply), k)
  {
    AppendedFor(s.trace, Replied(r, s.requests[r].id, reply), k);
  }

  lemma ReplyKeepsParts(s: State, r: nat, reply: Reply)
    requires PartsInv(s) && IsSent(s, r)
    ensures PartsInv(AfterReply(s, r, reply))
  {
    var next := AfterReply(s, r, reply);
    forall k | 0 <= k < |next.tasks|
      ensures TaskInv(next, k)
    {
      ReplyKeepsTask(s, r, reply, k);
    }
    forall k: nat
      ensures RequestInv(next, k)
    {
      ReplyKeepsRequest(s, r, reply, k);
    }
  }

  lemma StepKeepsInv(s: State, launch: string, clock: int, t: Timed)
    requires CoreInv(s, launch, clock) && PartsInv(s) && clock <= t.now
    ensures CoreInv(Next(s, t), launch, t.now) && PartsInv(Next(s, t))
  {
    LaterClock(s, clock, t.now);
    match t.step
    case Request =>
      RequestKeepsCore(s, launch, t.now);
      RequestKeepsParts(s);
    case RunTask(i) =>
      if CanRun(s, i) {
        RunTaskKeepsCore(s, launch, i, t.now);
        RunTaskKeepsParts(s, i, t.now);
      }
    case RenewReply(i, reply) =>
      if CanRenew(s, i) {
        RenewReplyKeepsCore(s, launch, i, reply, t.now);
        RenewReplyKeepsParts(s, i, reply, t.now);
      }
    case Resume(r) =>
      if CanResume(s, r) {
        assert RequestInv(s, r) && TaskInv(s, s.requests[r].task);
        ResumeKeepsCore(s, launch, r, t.now);
        ResumeKeepsParts(s, r);
      }
    case ReceiveReply(r, reply) =>
      if IsSent(s, r) {
        ReplyKeepsCore(s, launch, r, reply, t.now);
        ReplyKeepsParts(s, r, reply);
      }
  }

  lemma {:induction false} RunKeepsInv(launch: string, start: int, steps: seq<Timed>)
    requires Monotone(start, steps)
    ensures CoreInv(Run(launch, start, steps), launch, Clock(start, steps)) && PartsInv(Run(launch, start, steps))
  {
    if steps == [] {
      ChainAt(Fresh(launch, start), 0);
    } else {
      var before := steps[..|steps| - 1];
      RunKeepsInv(launch, start, before);
      StepKeepsInv(Run(launch, start, before), launch, Clock(start, before), steps[|steps| - 1]);
    }
  }

  // ---- Main results ----

  /** Every run obeys the trace specification. */
  lemma RunObeys(launch: string, start: int, steps: seq<Timed>)
    requires Monotone(start, steps)
    ensures Obeys(launch, Run(launch, start, steps).trace)
  {
    RunKeepsInv(launch, start, steps);
  }

  lemma {:induction false} ObeysAt(launch: string, trace: seq<Entry>, j: nat)
    requires Obeys(launch, trace) && j < |trace|
    ensures Obeys(launch, trace[..j]) && Justified(launch, trace[..j], trace[j])
  {
    var init := trace[..|trace| - 1];
    if j == |trace| - 1 {
    } else {
      ObeysAt(launch, init, j);
      assert init[..j] == trace[..j];
    }
  }

  lemma {:induction false} SendsGrow(trace: seq<Entry>, i: nat, j: nat)
    requires i <= j <= |trace|
    ensures Sends(trace[..i]) <= Sends(trace[..j])
  {
    if i < j {
      SendsGrow(trace, i, j - 1);
      assert trace[..j][..j - 1] == trace[..j - 1];
    }
  }

  /** Physical request ids never repeat: they increase with every send. */
  lemma IdsIncrease(launch: string, trace: seq<Entry>, i: nat, j: nat)
    requires Obeys(launch, trace) && i < j < |trace| && IsSend(trace[i]) && IsSend(trace[j])
    ensures trace[i].id < trace[j].id
  {
    ObeysAt(launch, trace, i);
    ObeysAt(launch, trace, j);
    assert trace[..i + 1] == trace[..i] + [trace[i]];
    Appended(launch, trace[..i], trace[i]);
    SendsGrow(trace, i + 1, j);
  }

  lemma {:induction false} AttemptsGrow(trace: seq<Entry>, r: nat, i: nat, j: nat)
    requires i <= j <= |trace|
    ensures Attempts(trace[..i], r) <= Attempts(trace[..j], r)
  {
    if i < j {
      AttemptsGrow(trace, r, i, j - 1);
      assert trace[..j][..j - 1] == trace[..j - 1];
    }
  }

  /** A logical request is sent at most twice. */
  lemma {:induction false} SentAtMostTwice(launch: string, trace: seq<Entry>, r: nat)
    requires Obeys(launch, trace)
    ensures Attempts(trace, r) <= 2
  {
    if trace != [] {
      SentAtMostTwice(launch, trace[..|trace| - 1], r);
    }
  }

  lemma {:induction false} RejectedIs(trace: seq<Entry>, r: nat) returns (i: nat)
    requires Rejected(trace, r)
    ensures i < |trace| && trace[i].Replied? && trace[i].request == r && Rejects(trace[i].reply)
  {
    if Rejected(trace[..|trace| - 1], r) {
      i := RejectedIs(trace[..|trace| - 1], r);
    } else {
      i := |trace| - 1;
    }
  }

  lemma {:induction false} RecoveredIs(trace: seq<Entry>, r: nat) returns (i: nat, k: nat)
    requires Recovered(trace, r)
    ensures i < k < |trace| && trace[i].Replied? && trace[i].request == r && Rejects(trace[i].reply)
    ensures IsGrant(trace[k]) && trace[k].owner == r && trace[k].force
  {
    var before := trace[..|trace| - 1];
    if Recovered(before, r) {
      i, k := RecoveredIs(before, r);
    } else {
      k := |trace| - 1;
      i := RejectedIs(before, r);
    }
  }

  lemma {:induction false} AwaitedIs(trace: seq<Entry>, r: nat) returns (i: nat)
    requires Awaiting(trace, r).Some?
    ensures i < |trace| && trace[i].Attempt? && trace[i].request == r && Awaiting(trace, r) == Some(trace[i].id)
  {
    var e := trace[|trace| - 1];
    if e.Attempt? && e.request == r {
      i := |trace| - 1;
    } else {
      i := AwaitedIs(trace[..|trace| - 1], r);
    }
  }

  /** A request is sent a second time only after a reply to its first sending with error -32001, and
      after that reply a renewal forced for this request whose reply carried the renewal's own id, no
      error and a token. */
  lemma SecondSendIsEarned(launch: string, trace: seq<Entry>, j: nat) returns (first: nat, rejected: nat, renewed: nat)
    requires Obeys(launch, trace) && j < |trace| && trace[j].Attempt? && trace[j].second
    ensures first < rejected < renewed < j
    ensures trace[first].Attempt? && trace[first].request == trace[j].request && !trace[first].second
    ensures var reply := trace[rejected];
            && reply.Replied? && reply.request == trace[j].request && reply.id == trace[first].id
            && reply.reply.Envelope? && reply.reply.error == Some(-32001)
    ensures var renewal := trace[renewed];
            && renewal.RenewReplied? && renewal.owner == trace[j].request && renewal.force
            && renewal.reply.Envelope? && renewal.reply.version == "0.1" && renewal.reply.id == renewal.id
            && renewal.reply.error == None && renewal.reply.token.Some? && renewal.reply.token.value != ""
  {
    var r := trace[j].request;
    ObeysAt(launch, trace, j);
    rejected, renewed := RecoveredIs(trace[..j], r);
    ObeysAt(launch, trace, rejected);
    first := AwaitedIs(trace[..rejected], r);
    FirstIsNotSecond(launch, trace, first, j);
  }

  /** Before a second sending of a request there is only its first. */
  lemma FirstIsNotSecond(launch: string, trace: seq<Entry>, first: nat, j: nat)
    requires Obeys(launch, trace) && first < j < |trace| && trace[j].Attempt? && trace[j].second
    requires trace[first].Attempt? && trace[first].request == trace[j].request
    ensures !trace[first].second
  {
    var r := trace[j].request;
    ObeysAt(launch, trace, first);
    ObeysAt(launch, trace, j);
    AttemptsGrow(trace, r, first + 1, j);
    assert trace[..first + 1] == trace[..first] + [trace[first]];
    AppendedFor(trace[..first], trace[first], r);
  }

  /** At most one renewal is in flight: between two of them the first was answered. */
  lemma RenewalsDoNotOverlap(launch: string, trace: seq<Entry>, i: nat, j: nat) returns (k: nat)
    requires Obeys(launch, trace) && i < j < |trace| && trace[i].SentRenew? && trace[j].SentRenew?
    ensures i < k < j && trace[k].RenewReplied?
  {
    ObeysAt(launch, trace, j);
    k := AnsweredIn(trace[..j], i);
  }

  lemma {:induction false} AnsweredIn(trace: seq<Entry>, i: nat) returns (k: nat)
    requires i < |trace| && trace[i].SentRenew? && Open(trace).None?
    ensures i < k < |trace| && trace[k].RenewReplied?
  {
    var e := trace[|trace| - 1];
    if e.RenewReplied? {
      k := |trace| - 1;
    } else {
      k := AnsweredIn(trace[..|trace| - 1], i);
    }
  }

  /** A token is adopted only from a reply that carries the renewal's own id and no error, and replaces
      the very secret that renewal presented. */
  lemma AdoptionReplacesPresentedSecret(launch: string, trace: seq<Entry>, j: nat) returns (i: nat)
    requires Obeys(launch, trace) && j < |trace| && IsGrant(trace[j])
    ensures i < j && trace[i].SentRenew? && trace[j].reply.id == trace[i].id && trace[j].reply.error == None
    ensures trace[i].secret == Secret(launch, trace[..j])
    ensures trace[j].reply.token == Some(Secret(launch, trace[..j + 1]))
  {
    ObeysAt(launch, trace, j);
    i := OpenedAt(trace[..j]);
    assert trace[..j + 1] == trace[..j] + [trace[j]];
    Appended(launch, trace[..j], trace[j]);
  }

  /** In every run the secret changes only in a step that receives a reply, with the id of a renewal
      that presented the old secret and without error, and then to that reply's token. */
  lemma SecretChangesOnlyByMatchingReply(launch: string, start: int, steps: seq<Timed>, t: Timed)
    requires Monotone(start, steps) && Clock(start, steps) <= t.now
    ensures var s := Run(launch, start, steps);
            var v := Next(s, t);
            v.currentSecret != s.currentSecret ==>
              && t.step.RenewReply? && t.step.reply.Envelope? && t.step.reply.version == "0.1"
              && t.step.reply.error == None && t.step.reply.token == Some(v.currentSecret)
              && exists i :: 0 <= i < |s.trace| && s.trace[i].SentRenew? && t.step.reply.id == s.trace[i].id &&
                             s.trace[i].secret == s.currentSecret
  {
    var s := Run(launch, start, steps);
    RunKeepsInv(launch, start, steps);
    StepKeepsInv(s, launch, Clock(start, steps), t);
    var v := Next(s, t);
    if v.currentSecret != s.currentSecret {
      var e := v.trace[|s.trace|];
      assert v.trace == s.trace + [e];
      Appended(launch, s.trace, e);
      var i := OpenedAt(s.trace);
    }
  }

  lemma {:induction false} OpenedAt(trace: seq<Entry>) returns (i: nat)
    requires Open(trace).Some?
    ensures i < |trace| && trace[i].SentRenew? && (trace[i].id, trace[i].secret) == Open(trace).value
  {
    if trace[|trace| - 1].SentRenew? {
      i := |trace| - 1;
    } else {
      i := OpenedAt(trace[..|trace| - 1]);
    }
  }

  lemma {:induction false} LatestFailureIsLatest(launch: string, trace: seq<Entry>, i: nat)
    requires Obeys(launch, trace) && i < |trace| && IsFailure(trace[i])
    ensures LatestFailure(trace).Some? && trace[i].at <= LatestFailure(trace).value
  {
    if i < |trace| - 1 {
      LatestFailureIsLatest(launch, trace[..|trace| - 1], i);
    }
  }

  /** No renewal is sent within 30 seconds after a failed one. */
  lemma RenewalsAreSpaced(launch: string, trace: seq<Entry>, i: nat, j: nat)
    requires Obeys(launch, trace) && i < j < |trace| && IsFailure(trace[i]) && trace[j].SentRenew?
    ensures trace[j].at >= trace[i].at + 30000
  {
    ObeysAt(launch, trace, j);
    LatestFailureIsLatest(launch, trace[..j], i);
  }

  /** Main theorem, for every interleaving of concurrent requests, renewals and replies: ids never
      repeat, no renewal starts within 30 seconds after a failed one, renewals never overlap, and no
      request is sent more than twice. */
  lemma EveryRunIsSafe(launch: string, start: int, steps: seq<Timed>, r: nat, i: nat, j: nat)
    requires Monotone(start, steps)
    ensures var trace := Run(launch, start, steps).trace;
            && Attempts(trace, r) <= 2
            && (i < j < |trace| ==>
                  && (IsSend(trace[i]) && IsSend(trace[j]) ==> trace[i].id < trace[j].id)
                  && (IsFailure(trace[i]) && trace[j].SentRenew? ==> trace[j].at >= trace[i].at + 30000)
                  && (trace[i].SentRenew? && trace[j].SentRenew? ==>
                        exists k :: i < k < j && trace[k].RenewReplied?))
  {
    var trace := Run(launch, start, steps).trace;
    RunObeys(launch, start, steps);
    SentAtMostTwice(launch, trace, r);
    if i < j < |trace| {
      if IsSend(trace[i]) && IsSend(trace[j]) {
        IdsIncrease(launch, trace, i, j);
      }
      if IsFailure(trace[i]) && trace[j].SentRenew? {
        RenewalsAreSpaced(launch, trace, i, j);
      }
      if trace[i].SentRenew? && trace[j].SentRenew? {
        var k := RenewalsDoNotOverlap(launch, trace, i, j);
      }
    }
  }
}
