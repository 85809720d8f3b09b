/** The Manager's optimistic policy writes, interleaved with Core's answers and snapshot refreshes. */
module PolicyQueue {
  import opened Wrappers
  import opened Sequences

  datatype Policy = Policy(enabled: bool, grants: seq<string>)

  const UNSET_POLICY := Policy(false, [])

  datatype Scope = Scope(applicationId: string, pluginId: string)

  /** One toggled control: the plugin switch (no grant) or one grant. */
  datatype Change = Change(grant: Option<string>, checked: bool)

  datatype Key = Key(scope: Scope, grant: Option<string>)

  // ---- Applying intents ----

  function Dedup(grants: seq<string>): seq<string> {
    if grants == [] then []
    else
      var front := Dedup(grants[..|grants| - 1]);
      var last := grants[|grants| - 1];
      if last in front then front else front + [last]
  }

  function ApplyPolicyChange(policy: Policy, change: Change): Policy {
    match change.grant
    case None => Policy(change.checked, policy.grants)
    case Some(grant) =>
      Policy(policy.enabled,
             if change.checked then Dedup(policy.grants + [grant]) else Without(policy.grants, grant))
  }

  /** The grants listed once each, in the order in which `before` has them first; one it has not is last. */
  ghost predicate ListedOnce(after: seq<string>, before: seq<string>) {
    forall i, j :: 0 <= i < j < |after| ==> FirstIndex(before, after[i]) < FirstIndex(before, after[j])
  }

  /** What a control shows: the switch, or whether the grant is there. */
  predicate Holds(policy: Policy, control: Option<string>) {
    match control
    case None => policy.enabled
    case Some(grant) => grant in policy.grants
  }

  /** What one intent does to a policy: its control shows what was chosen and every other control what
      it did. The switch leaves the list of grants alone; a withheld grant leaves the others in their
      order; a granted one that is new goes last. */
  ghost predicate Applied(before: Policy, change: Change, after: Policy) {
    && (forall control ::
          Holds(after, control) == if control == change.grant then change.checked else Holds(before, control))
    && (change.grant.None? ==> after.grants == before.grants)
    && (change.grant.Some? && !change.checked ==>
          && Subsequence(after.grants, before.grants)
          && multiset(after.grants) == multiset(before.grants)[change.grant.value := 0])
    && (change.grant.Some? && change.checked ==>
          && ListedOnce(after.grants, before.grants)
          && after.grants != []
          && (change.grant.value !in before.grants ==> after.grants[|after.grants| - 1] == change.grant.value)
          && (NoDuplicates(before.grants) && change.grant.value in before.grants ==> after.grants == before.grants))
  }

  lemma AddedLast(front: seq<string>, s: seq<string>, last: string)
    requires ListedOnce(front, s) && forall x :: x in front <==> x in s
    ensures var after := if last in front then front else front + [last];
            ListedOnce(after, s) && ListedOnce(after, s + [last])
  {
    var after := if last in front then front else front + [last];
    forall i | 0 <= i < |after|
      ensures i < |front| ==> after[i] in s
      ensures i == |front| ==> after[i] == last && last !in s
      ensures FirstIndex(s + [last], after[i]) == FirstIndex(s, after[i])
    {
      assert i < |front| ==> after[i] == front[i] && front[i] in front;
      FirstIndexGrows(s, last, after[i]);
    }
  }

  lemma {:induction false} DedupHoldsAll(s: seq<string>)
    ensures forall x :: x in Dedup(s) <==> x in s
    ensures NoDuplicates(s) ==> Dedup(s) == s
  {
    if s != [] {
      DedupHoldsAll(s[..|s| - 1]);
      assert s == s[..|s| - 1] + [s[|s| - 1]];
    }
  }

  lemma DedupStep(init: seq<string>, last: string)
    requires ListedOnce(Dedup(init), init)
    ensures ListedOnce(Dedup(init + [last]), init + [last])
  {
    assert (init + [last])[..|init|] == init;
    DedupHoldsAll(init);
    AddedLast(Dedup(init), init, last);
  }

  lemma DedupListsOnce(s: seq<string>)
    ensures ListedOnce(Dedup(s), s)
  {
    ghost var p := (t: seq<string>) => ListedOnce(Dedup(t), t);
    forall t: seq<string>, x: string ensures Grown(p, t, x) {
      if p(t) {
        DedupStep(t, x);
      }
    }
    ByAppending(p, s);
  }

  lemma ChangeMeans(policy: Policy, change: Change)
    ensures Applied(policy, change, ApplyPolicyChange(policy, change))
  {
    if change.grant.Some? {
      var g := change.grant.value;
      if change.checked {
        GrantMeans(policy.grants, g);
      } else {
        WithoutKeepsOrder(policy.grants, g);
        WithoutKeepsCounts(policy.grants, g);
      }
    }
  }

  lemma GrantMeans(grants: seq<string>, g: string)
    ensures var after := Dedup(grants + [g]);
            && (forall x :: x in after <==> x in grants || x == g)
            && ListedOnce(after, grants) && after != []
            && (g !in grants ==> after[|after| - 1] == g)
            && (NoDuplicates(grants) && g in grants ==> after == grants)
  {
    DedupListsOnce(grants);
    DedupHoldsAll(grants);
    assert (grants + [g])[..|grants|] == grants;
    AddedLast(Dedup(grants), grants, g);
  }

  function Fold(policy: Policy, changes: seq<Change>): Policy
    decreases |changes|
  {
    if changes == [] then policy else Fold(ApplyPolicyChange(policy, changes[0]), changes[1..])
  }

  // ---- State ----

  /** What Core reports: which plugins and applications exist and the stored policies. */
  datatype Snapshot = Snapshot(plugins: set<string>, applications: set<string>, policies: map<Scope, Policy>)

  function PolicyFor(snapshot: Snapshot, s: Scope): Policy {
    if s in snapshot.policies then snapshot.policies[s] else UNSET_POLICY
  }

  predicate Present(snapshot: Snapshot, s: Scope) {
    s.pluginId in snapshot.plugins && s.applicationId in snapshot.applications
  }

  /** The life of one chained write. */
  datatype Phase = Waiting | Sent(policy: Policy) | Answered(accepted: bool, policy: Policy) | Settled

  datatype Write = Write(change: Change, phase: Phase)

  /** A scope's queue. `tail` is the promise chain: one entry for every write ever chained. */
  datatype Queue = Queue(
    committed: Policy, desired: Policy, changes: seq<Change>, revision: nat, tail: seq<Write>)

  datatype Model = Model(
    snapshot: Snapshot, queues: map<Scope, Queue>, pending: map<Key, Change>, policyRevision: nat)

  // ---- The Manager's own steps ----

  predicate CanToggle(m: Model, s: Scope, change: Change) {
    Present(m.snapshot, s) && Key(s, change.grant) !in m.pending
  }

  function QueueFor(m: Model, s: Scope): Queue {
    if s in m.queues then m.queues[s]
    else var committed := PolicyFor(m.snapshot, s); Queue(committed, committed, [], 0, [])
  }

  function AfterToggle(m: Model, s: Scope, change: Change): Model {
    if !CanToggle(m, s, change) then m
    else
      var queue := QueueFor(m, s);
      var changes := queue.changes + [change];
      var queue' := Queue(queue.committed, Fold(queue.committed, changes), changes, m.policyRevision + 1,
                          queue.tail + [Write(change, Waiting)]);
      m.(queues := m.queues[s := queue'],
         pending := m.pending[Key(s, change.grant) := change],
         policyRevision := m.policyRevision + 1)
  }

  /** A chained write runs once everything chained before it has settled. */
  predicate CanBegin(m: Model, s: Scope, i: nat) {
    && s in m.queues && i < |m.queues[s].tail|
    && m.queues[s].tail[i].phase.Waiting?
    && (i > 0 ==> m.queues[s].tail[i - 1].phase.Settled?)
  }

  function SetPhase(m: Model, s: Scope, i: nat, phase: Phase): Model
    requires s in m.queues && i < |m.queues[s].tail|
  {
    var queue := m.queues[s];
    m.(queues := m.queues[s := queue.(tail := queue.tail[i := queue.tail[i].(phase := phase)])])
  }

  function AfterBegin(m: Model, s: Scope, i: nat): Model
    requires CanBegin(m, s, i)
  {
    var queue := m.queues[s];
    SetPhase(m, s, i, Sent(ApplyPolicyChange(queue.committed, queue.tail[i].change)))
  }

  predicate CanSettle(m: Model, s: Scope, i: nat) {
    s in m.queues && i < |m.queues[s].tail| && m.queues[s].tail[i].phase.Answered?
  }

  function Publish(snapshot: Snapshot, s: Scope, committed: Policy): Snapshot {
    if s.pluginId in snapshot.plugins then snapshot.(policies := snapshot.policies[s := committed])
    else snapshot
  }

  function AfterSettle(m: Model, s: Scope, i: nat): Model
    requires CanSettle(m, s, i)
  {
    var queue := m.queues[s];
    var write := queue.tail[i];
    var committed := if write.phase.accepted then write.phase.policy else queue.committed;
    var changes := if queue.changes == [] then [] else queue.changes[1..];
    var queue' := Queue(committed, Fold(committed, changes), changes, m.policyRevision + 1,
                        queue.tail[i := write.(phase := Settled)]);
    Model(Publish(m.snapshot, s, committed),
          m.queues[s := queue'],
          m.pending - {Key(s, write.change.grant)},
          m.policyRevision + 1)
  }

  /** A queue that a refresh begun at this revision must not touch. */
  predicate Protected(queue: Queue, revisionAtStart: nat) {
    queue.changes != [] || queue.revision > revisionAtStart
  }

  function ProtectedScopes(m: Model, revisionAtStart: nat): set<Scope> {
    set s | s in m.queues && Protected(m.queues[s], revisionAtStart)
  }

  function AfterRefresh(m: Model, loaded: Snapshot, revisionAtStart: nat): Model {
    var kept := ProtectedScopes(m, revisionAtStart);
    var shown := set s | s in kept && s.pluginId in loaded.plugins;
    m.(snapshot := loaded.(policies := map s | s in loaded.policies.Keys + shown ::
                                        if s in shown then m.queues[s].committed else loaded.policies[s]),
       queues := map s | s in kept :: m.queues[s])
  }

  // ---- The Manager ----

  class Manager {
    var snapshot: Snapshot
    var queues: map<Scope, Queue>
    var pending: map<Key, Change>
    var policyRevision: nat

    function State(): Model
      reads this
    {
      Model(snapshot, queues, pending, policyRevision)
    }

    constructor ()
      ensures State() == Model(Snapshot({}, {}, map[]), map[], map[], 0)
    {
      snapshot, queues, pending, policyRevision := Snapshot({}, {}, map[]), map[], map[], 0;
    }

    method TogglePolicyControl(s: Scope, change: Change)
      modifies this
      ensures State() == AfterToggle(old(State()), s, change)
    {
      if !Present(snapshot, s) || Key(s, change.grant) in pending {
        return;
      }
      if s !in queues {
        var committed := PolicyFor(snapshot, s);
        queues := queues[s := Queue(committed, committed, [], 0, [])];
      }
      var queue := queues[s];
      var changes := queue.changes + [change];
      policyRevision := policyRevision + 1;
      queue := Queue(queue.committed, Fold(queue.committed, changes), changes, policyRevision,
                     queue.tail + [Write(change, Waiting)]);
      queues := queues[s := queue];
      pending := pending[Key(s, change.grant) := change];
    }

    /** Start the i-th chained write; the policy returned is what is sent to Core. */
    method BeginWrite(s: Scope, i: nat) returns (policy: Policy)
      requires CanBegin(State(), s, i)
      modifies this
      ensures State() == AfterBegin(old(State()), s, i)
      ensures State().queues[s].tail[i].phase == Sent(policy)
      ensures var queue := old(State()).queues[s]; Applied(queue.committed, queue.tail[i].change, policy)
    {
      var queue := queues[s];
      ChangeMeans(queue.committed, queue.tail[i].change);
      policy := ApplyPolicyChange(queue.committed, queue.tail[i].change);
      queues := queues[s := queue.(tail := queue.tail[i := queue.tail[i].(phase := Sent(policy))])];
    }

    method SettleWrite(s: Scope, i: nat)
      requires CanSettle(State(), s, i)
      modifies this
      ensures State() == AfterSettle(old(State()), s, i)
    {
      var queue := queues[s];
      var write := queue.tail[i];
      if write.phase.accepted {
        queue := queue.(committed := write.phase.policy);
      }
      policyRevision := policyRevision + 1;
      var changes := if queue.changes == [] then [] else queue.changes[1..];
      queue := Queue(queue.committed, Fold(queue.committed, changes), changes, policyRevision,
                     queue.tail[i := write.(phase := Settled)]);
      queues := queues[s := queue];
      PublishCommittedPolicy(s);
      pending := pending - {Key(s, write.change.grant)};
    }

    method PublishCommittedPolicy(s: Scope)
      requires s in queues
      modifies this`snapshot
      ensures snapshot == Publish(old(snapshot), s, queues[s].committed)
    {
      if s.pluginId in snapshot.plugins {
        snapshot := snapshot.(policies := snapshot.policies[s := queues[s].committed]);
      }
    }

    /** Accept a snapshot; idle queues are dropped, the others keep their committed policy on show. */
    method FinishRefresh(loaded: Snapshot, revisionAtStart: nat)
      modifies this
      ensures State() == AfterRefresh(old(State()), loaded, revisionAtStart)
    {
      ghost var before := State();
      snapshot := loaded;
      var todo := queues.Keys;
      RefreshBegins(before, loaded, revisionAtStart);
      while todo != {}
        invariant todo <= before.queues.Keys
        invariant pending == before.pending && policyRevision == before.policyRevision
        invariant queues == Remaining(before, revisionAtStart, todo)
        invariant snapshot == Partial(before, loaded, revisionAtStart, todo)
        decreases |todo|
      {
        var s :| s in todo;
        var queue := queues[s];
        RefreshVisits(before, loaded, revisionAtStart, todo, s);
        if queue.changes == [] && queue.revision <= revisionAtStart {
          queues := queues - {s};
        } else {
          PublishCommittedPolicy(s);
        }
        todo := todo - {s};
      }
      RefreshEnds(before, loaded, revisionAtStart);
    }
  }

  // ---- The refresh loop ----

  /** The queues left while these scopes are still to be visited. */
  function Remaining(m: Model, revisionAtStart: nat, todo: set<Scope>): map<Scope, Queue> {
    map s | s in m.queues && (s in todo || Protected(m.queues[s], revisionAtStart)) :: m.queues[s]
  }

  /** The snapshot on show while these scopes are still to be visited. */
  function Partial(m: Model, loaded: Snapshot, revisionAtStart: nat, todo: set<Scope>): Snapshot {
    var shown := set s | s in ProtectedScopes(m, revisionAtStart) && s !in todo && s.pluginId in loaded.plugins;
    loaded.(policies := map s | s in loaded.policies.Keys + shown ::
                          if s in shown then m.queues[s].committed else loaded.policies[s])
  }

  lemma RefreshBegins(m: Model, loaded: Snapshot, revisionAtStart: nat)
    ensures Remaining(m, revisionAtStart, m.queues.Keys) == m.queues
    ensures Partial(m, loaded, revisionAtStart, m.queues.Keys) == loaded
  {
    assert Partial(m, loaded, revisionAtStart, m.queues.Keys).policies == loaded.policies;
  }

  lemma RefreshVisits(m: Model, loaded: Snapshot, revisionAtStart: nat, todo: set<Scope>, s: Scope)
    requires s in todo && todo <= m.queues.Keys
    ensures Protected(m.queues[s], revisionAtStart) ==>
              Remaining(m, revisionAtStart, todo - {s}) == Remaining(m, revisionAtStart, todo) &&
              Partial(m, loaded, revisionAtStart, todo - {s}) ==
              Publish(Partial(m, loaded, revisionAtStart, todo), s, m.queues[s].committed)
    ensures !Protected(m.queues[s], revisionAtStart) ==>
              Remaining(m, revisionAtStart, todo - {s}) == Remaining(m, revisionAtStart, todo) - {s} &&
              Partial(m, loaded, revisionAtStart, todo - {s}) == Partial(m, loaded, revisionAtStart, todo)
  {
    var now := Partial(m, loaded, revisionAtStart, todo).policies;
    var next := Partial(m, loaded, revisionAtStart, todo - {s}).policies;
    if Protected(m.queues[s], revisionAtStart) && s.pluginId in loaded.plugins {
      assert next == now[s := m.queues[s].committed];
    } else {
      assert next == now;
    }
  }

  lemma RefreshEnds(m: Model, loaded: Snapshot, revisionAtStart: nat)
    ensures Remaining(m, revisionAtStart, {}) == AfterRefresh(m, loaded, revisionAtStart).queues
    ensures Partial(m, loaded, revisionAtStart, {}) == AfterRefresh(m, loaded, revisionAtStart).snapshot
  {
    var refreshed := AfterRefresh(m, loaded, revisionAtStart);
    assert Partial(m, loaded, revisionAtStart, {}).policies == refreshed.snapshot.policies;
  }
}
