/** Renewals are shared by the requests that need them, and no request is ever stuck. */
module RenewalProgress {
  import opened Renewal
  import opened RenewalRuns

  // ---- Sharing ----

  /** When the secret in force was adopted: at the last granting reply, or at the start. */
  function LastIssue(start: int, trace: seq<Entry>): int {
    if trace == [] then start
    else if IsGrant(trace[|trace| - 1]) then trace[|trace| - 1].at
    else LastIssue(start, trace[..|trace| - 1])
  }

  /** A renewal that no rejection forced is sent more than nine minutes after the secret was adopted. */
  predicate IsDue(start: int, before: seq<Entry>, e: Entry) {
    && (e.SentRenew? && !e.force ==> e.at - LastIssue(start, before) > 540000)
    && (IsGrant(e) ==> e.at >= LastIssue(start, before))
  }

  predicate AllDue(start: int, trace: seq<Entry>) {
    trace == [] || (AllDue(start, trace[..|trace| - 1]) && IsDue(start, trace[..|trace| - 1], trace[|trace| - 1]))
  }

  predicate IssueInv(s: State, start: int, clock: int) {
    AllDue(start, s.trace) && s.secretIssuedAt == LastIssue(start, s.trace) <= clock
  }

  lemma IssueAppended(start: int, trace: seq<Entry>, e: Entry)
    ensures LastIssue(start, trace + [e]) == if IsGrant(e) then e.at else LastIssue(start, trace)
    ensures AllDue(start, trace + [e]) <==> AllDue(start, trace) && IsDue(start, trace, e)
  {
    assert (trace + [e])[..|trace|] == trace;
  }

  lemma StepKeepsIssue(s: State, start: int, clock: int, t: Timed)
    requires IssueInv(s, start, clock) && clock <= t.now
    ensures IssueInv(Next(s, t), start, t.now)
  {
    var v := Next(s, t);
    if v.trace != s.trace {
      var e := v.trace[|s.trace|];
      assert v.trace == s.trace + [e];
      IssueAppended(start, s.trace, e);
    }
  }

  lemma {:induction false} RunKeepsIssue(launch: string, start: int, steps: seq<Timed>)
    requires Monotone(start, steps)
    ensures IssueInv(Run(launch, start, steps), start, Clock(start, steps))
  {
    if steps != [] {
      var before := steps[..|steps| - 1];
      RunKeepsIssue(launch, start, before);
      StepKeepsIssue(Run(launch, start, before), start, Clock(start, before), steps[|steps| - 1]);
    }
  }

  lemma {:induction false} DueAt(start: int, trace: seq<Entry>, j: nat)
    requires AllDue(start, trace) && j < |trace|
    ensures AllDue(start, trace[..j]) && IsDue(start, trace[..j], trace[j])
  {
    var init := trace[..|trace| - 1];
    if j < |trace| - 1 {
      DueAt(start, init, j);
      assert init[..j] == trace[..j];
    }
  }

  lemma {:induction false} GrantIsIssue(start: int, trace: seq<Entry>, i: nat)
    requires AllDue(start, trace) && i < |trace| && IsGrant(trace[i])
    ensures trace[i].at <= LastIssue(start, trace)
  {
    if i < |trace| - 1 {
      GrantIsIssue(start, trace[..|trace| - 1], i);
    }
  }

  /** Requests share their renewals: in every run, however many requests ask for one, within nine
      minutes after the start or after a renewal was granted no other is sent unless a rejection forces it. */
  lemma RenewalsAreShared(launch: string, start: int, steps: seq<Timed>, i: nat, j: nat)
    requires Monotone(start, steps)
    ensures var trace := Run(launch, start, steps).trace;
            j < |trace| && trace[j].SentRenew? && !trace[j].force ==>
              && trace[j].at > start + 540000
              && (i < j && IsGrant(trace[i]) ==> trace[j].at > trace[i].at + 540000)
  {
    var trace := Run(launch, start, steps).trace;
    RunKeepsIssue(launch, start, steps);
    if j < |trace| && trace[j].SentRenew? && !trace[j].force {
      DueAt(start, trace, j);
      IssueAfterStart(start, trace[..j]);
      if i < j && IsGrant(trace[i]) {
        GrantIsIssue(start, trace[..j], i);
      }
    }
  }

  lemma {:induction false} IssueAfterStart(start: int, trace: seq<Entry>)
    requires AllDue(start, trace)
    ensures start <= LastIssue(start, trace)
  {
    if trace != [] {
      IssueAfterStart(start, trace[..|trace| - 1]);
    }
  }

  // ---- How far a request is from its end ----

  function Rank(phase: Phase): nat {
    match phase
    case FirstQueued(_) => 4
    case FirstSent(_) => 3
    case SecondQueued(_, _) => 2
    case SecondSent(_) => 1
    case Finished(_) => 0
  }

  function Weight(status: Status): nat {
    match status
    case Waiting => 2
    case InFlight(_) => 1
    case Settled(_) => 0
  }

  /** The steps the first n links of the chain still have to take. */
  function Pending(tasks: seq<Task>, n: nat): nat
    requires n <= |tasks|
  {
    if n == 0 then 0 else Pending(tasks, n - 1) + Weight(tasks[n - 1].status)
  }

  /** The steps of the chain a queued request still waits for. */
  function Ahead(s: State, r: nat): nat
    requires r < |s.requests|
  {
    match s.requests[r]
    case FirstQueued(t) => if t < |s.tasks| then Pending(s.tasks, t + 1) else 0
    case SecondQueued(t, _) => if t < |s.tasks| then Pending(s.tasks, t + 1) else 0
    case _ => 0
  }

  predicate Closer(s: State, v: State, r: nat)
    requires r < |s.requests| && r < |v.requests|
  {
    || Rank(v.requests[r]) < Rank(s.requests[r])
    || (Rank(v.requests[r]) == Rank(s.requests[r]) && Ahead(v, r) < Ahead(s, r))
  }

  predicate NotFarther(s: State, v: State, r: nat)
    requires r < |s.requests| && r < |v.requests|
  {
    Closer(s, v, r) || (v.requests[r] == s.requests[r] && Ahead(v, r) == Ahead(s, r))
  }

  lemma {:induction false} PendingOfPrefix(tasks: seq<Task>, task: Task, n: nat)
    requires n <= |tasks|
    ensures Pending(tasks + [task], n) == Pending(tasks, n)
  {
    if n > 0 {
      PendingOfPrefix(tasks, task, n - 1);
    }
  }

  lemma {:induction false} PendingAfterUpdate(tasks: seq<Task>, i: nat, task: Task, n: nat)
    requires n <= |tasks| && i < |tasks|
    ensures Pending(tasks[i := task], n) ==
            Pending(tasks, n) + if i < n then Weight(task.status) - Weight(tasks[i].status) else 0
  {
    if n > 0 {
      PendingAfterUpdate(tasks, i, task, n - 1);
    }
  }

  /** The link a request waits for exists. */
  predicate Linked(s: State, r: nat)
    requires r < |s.requests|
  {
    match s.requests[r]
    case FirstQueued(t) => t < |s.tasks|
    case SecondQueued(t, _) => t < |s.tasks|
    case _ => true
  }

  lemma ChainGrowthIsNotFarther(s: State, v: State, r: nat, task: Task)
    requires r < |s.requests| && r < |v.requests| && v.requests[r] == s.requests[r] && Linked(s, r)
    requires v.tasks == s.tasks + [task]
    ensures NotFarther(s, v, r)
  {
    match s.requests[r]
    case FirstQueued(t) => PendingOfPrefix(s.tasks, task, t + 1);
    case SecondQueued(t, _) => PendingOfPrefix(s.tasks, task, t + 1);
    case _ =>
  }

  lemma ChainStepIsNotFarther(s: State, v: State, r: nat, i: nat, status: Status)
    requires r < |s.requests| && v.requests == s.requests && Linked(s, r) && i < |s.tasks|
    requires v.tasks == s.tasks[i := s.tasks[i].(status := status)] && Weight(status) < Weight(s.tasks[i].status)
    ensures NotFarther(s, v, r)
    ensures s.requests[r].FirstQueued? || s.requests[r].SecondQueued? ==> (i <= s.requests[r].task ==> Closer(s, v, r))
  {
    var task := s.tasks[i].(status := status);
    match s.requests[r]
    case FirstQueued(t) => PendingAfterUpdate(s.tasks, i, task, t + 1);
    case SecondQueued(t, _) => PendingAfterUpdate(s.tasks, i, task, t + 1);
    case _ =>
  }

  /** No step of another request, of the chain or of the clock sets a request back. */
  lemma NoStepSetsBack(s: State, t: Timed, r: nat)
    requires r < |s.requests| && Linked(s, r)
    ensures r < |Next(s, t).requests| && NotFarther(s, Next(s, t), r)
  {
    var v := Next(s, t);
    match t.step
    case Request => ChainGrowthIsNotFarther(s, v, r, Task(|s.requests|, false, Waiting));
    case RunTask(i) =>
      if CanRun(s, i) {
        ChainStepIsNotFarther(s, v, r, i, v.tasks[i].status);
      }
    case RenewReply(i, reply) =>
      if CanRenew(s, i) {
        ChainStepIsNotFarther(s, v, r, i, v.tasks[i].status);
      }
    case Resume(q) =>
    case ReceiveReply(q, reply) =>
      if IsSent(s, q) && q != r && v.tasks != s.tasks {
        ChainGrowthIsNotFarther(s, v, r, Task(q, true, Waiting));
      }
  }

  // ---- A step that helps ----

  /** The first link that has not settled. */
  function Head(tasks: seq<Task>): (head: nat)
    ensures head <= |tasks|
    ensures head < |tasks| ==> !tasks[head].status.Settled?
    ensures forall k :: 0 <= k < head ==> tasks[k].status.Settled?
  {
    HeadFrom(tasks, 0)
  }

  function HeadFrom(tasks: seq<Task>, i: nat): (head: nat)
    requires i <= |tasks|
    ensures i <= head <= |tasks|
    ensures head < |tasks| ==> !tasks[head].status.Settled?
    ensures forall k :: i <= k < head ==> tasks[k].status.Settled?
    decreases |tasks| - i
  {
    if i == |tasks| || !tasks[i].status.Settled? then i else HeadFrom(tasks, i + 1)
  }

  /** What the request, or the chain for it, can do next; `reply` is whatever the environment answers. */
  function HelpfulStep(s: State, r: nat, reply: Reply): Step
    requires r < |s.requests|
  {
    match s.requests[r]
    case FirstQueued(t) => if t < Head(s.tasks) then Resume(r) else ChainStep(s, reply)
    case SecondQueued(t, _) => if t < Head(s.tasks) then Resume(r) else ChainStep(s, reply)
    case _ => ReceiveReply(r, reply)
  }

  function ChainStep(s: State, reply: Reply): Step {
    var head := Head(s.tasks);
    if head < |s.tasks| && s.tasks[head].status.InFlight? then RenewReply(head, reply) else RunTask(head)
  }

  lemma ChainMoves(s: State, r: nat, reply: Reply, now: int)
    requires r < |s.requests| && (s.requests[r].FirstQueued? || s.requests[r].SecondQueued?)
    requires Linked(s, r) && Head(s.tasks) <= s.requests[r].task
    ensures r < |Next(s, Timed(ChainStep(s, reply), now)).requests|
    ensures Closer(s, Next(s, Timed(ChainStep(s, reply), now)), r)
  {
    var head := Head(s.tasks);
    var v := Next(s, Timed(ChainStep(s, reply), now));
    ChainStepIsNotFarther(s, v, r, head, v.tasks[head].status);
  }

  /** A request that is not finished can always move on, whatever is answered. */
  lemma SomeStepHelps(s: State, r: nat, reply: Reply, now: int)
    requires r < |s.requests| && !s.requests[r].Finished? && Linked(s, r)
    ensures r < |Next(s, Timed(HelpfulStep(s, r, reply), now)).requests|
    ensures Closer(s, Next(s, Timed(HelpfulStep(s, r, reply), now)), r)
  {
    if (s.requests[r].FirstQueued? || s.requests[r].SecondQueued?) && Head(s.tasks) <= s.requests[r].task {
      ChainMoves(s, r, reply, now);
    }
  }

  lemma RunIsLinked(launch: string, start: int, steps: seq<Timed>, r: nat)
    requires Monotone(start, steps) && r < |Run(launch, start, steps).requests|
    ensures Linked(Run(launch, start, steps), r)
  {
    RunKeepsInv(launch, start, steps);
    assert RequestInv(Run(launch, start, steps), r);
  }

  lemma RunNext(launch: string, start: int, steps: seq<Timed>, t: Timed)
    requires Monotone(start, steps) && Clock(start, steps) <= t.now
    ensures Run(launch, start, steps + [t]) == Next(Run(launch, start, steps), t)
    ensures Monotone(start, steps + [t]) && Clock(start, steps + [t]) == t.now
  {
    assert (steps + [t])[..|steps|] == steps;
  }

  /** Progress, at every point of every run and for every request: whatever happens next, the request is
      not set back; unless it is finished some step takes it closer to its end, whatever the environment
      answers; and there are only finitely many such steps. */
  lemma RequestsMakeProgress(launch: string, start: int, steps: seq<Timed>, t: Timed, r: nat, reply: Reply)
    requires Monotone(start, steps) && r < |Run(launch, start, steps).requests|
    ensures var s := Run(launch, start, steps);
            && r < |Next(s, t).requests| && NotFarther(s, Next(s, t), r)
            && (!s.requests[r].Finished? ==>
                  var v := Next(s, Timed(HelpfulStep(s, r, reply), t.now));
                  r < |v.requests| && Closer(s, v, r))
  {
    var s := Run(launch, start, steps);
    RunIsLinked(launch, start, steps, r);
    NoStepSetsBack(s, t, r);
    if !s.requests[r].Finished? {
      SomeStepHelps(s, r, reply, t.now);
    }
  }

  lemma StepCloser(launch: string, start: int, steps: seq<Timed>, r: nat) returns (t: Timed)
    requires Monotone(start, steps) && r < |Run(launch, start, steps).requests|
    requires !Run(launch, start, steps).requests[r].Finished?
    ensures Monotone(start, steps + [t]) && r < |Run(launch, start, steps + [t]).requests|
    ensures Closer(Run(launch, start, steps), Run(launch, start, steps + [t]), r)
  {
    t := Timed(HelpfulStep(Run(launch, start, steps), r, NoReply), Clock(start, steps));
    RequestsMakeProgress(launch, start, steps, t, r, NoReply);
    RunNext(launch, start, steps, t);
  }

  /** So every request can be finished from every point of every run, even with nothing but failures. */
  lemma {:induction false} RequestCanFinish(launch: string, start: int, steps: seq<Timed>, r: nat)
    returns (more: seq<Timed>)
    requires Monotone(start, steps) && r < |Run(launch, start, steps).requests|
    ensures Monotone(start, steps + more)
    ensures r < |Run(launch, start, steps + more).requests| && Run(launch, start, steps + more).requests[r].Finished?
    decreases Rank(Run(launch, start, steps).requests[r]), Ahead(Run(launch, start, steps), r)
  {
    if Run(launch, start, steps).requests[r].Finished? {
      more := [];
      assert steps + more == steps;
    } else {
      var t := StepCloser(launch, start, steps, r);
      var rest := RequestCanFinish(launch, start, steps + [t], r);
      more := [t] + rest;
      assert steps + more == steps + [t] + rest;
    }
  }
}
