/** Every interleaving of toggles, writes, Core's answers, refreshes and other people's changes. */
module PolicyRuns {
  import opened Wrappers
  import opened PolicyQueue

  /** A refresh under way: the revision when it began, and the snapshot once Core was read. */
  datatype Refresh = Refresh(revisionAtStart: nat, read: Option<Snapshot>)

  /** The intents of one scope in the order they were made, and Core's verdicts in the order given. */
  datatype History = History(toggled: seq<Change>, verdicts: seq<bool>)

  datatype World = World(
    model: Model, core: Snapshot, refresh: Option<Refresh>, history: map<Scope, History>)

  datatype Step =
    | Toggle(s: Scope, change: Change)
    | Begin(s: Scope, i: nat)
    | Answer(s: Scope, i: nat, accepted: bool)
    | Settle(s: Scope, i: nat)
    | StartRefresh
    | ReadCore
    | FinishRefresh
    | FailRefresh
    | Elsewhere(core: Snapshot)

  function HistoryOf(w: World, s: Scope): History {
    if s in w.history then w.history[s] else History([], [])
  }

  predicate Enabled(w: World, step: Step) {
    match step
    case Toggle(_, _) => true
    case Begin(s, i) => CanBegin(w.model, s, i)
    case Answer(s, i, _) =>
      s in w.model.queues && i < |w.model.queues[s].tail| && w.model.queues[s].tail[i].phase.Sent?
    case Settle(s, i) => CanSettle(w.model, s, i)
    case StartRefresh => w.refresh.None?
    case ReadCore => w.refresh.Some? && w.refresh.value.read.None?
    case FinishRefresh => w.refresh.Some? && w.refresh.value.read.Some?
    case FailRefresh => w.refresh.Some?
    case Elsewhere(_) => true
  }

  /** Core stores exactly the policy it was sent, or refuses and changes nothing. */
  function AfterAnswer(w: World, s: Scope, i: nat, accepted: bool): World
    requires Enabled(w, Answer(s, i, accepted))
  {
    var policy := w.model.queues[s].tail[i].phase.policy;
    var h := HistoryOf(w, s);
    w.(model := SetPhase(w.model, s, i, Answered(accepted, policy)),
       core := if accepted then w.core.(policies := w.core.policies[s := policy]) else w.core,
       history := w.history[s := h.(verdicts := h.verdicts + [accepted])])
  }

  function Next(w: World, step: Step): World
    requires Enabled(w, step)
  {
    match step
    case Toggle(s, change) =>
      var h := HistoryOf(w, s);
      w.(model := AfterToggle(w.model, s, change),
         history := if CanToggle(w.model, s, change)
                    then w.history[s := h.(toggled := h.toggled + [change])] else w.history)
    case Begin(s, i) => w.(model := AfterBegin(w.model, s, i))
    case Answer(s, i, accepted) => AfterAnswer(w, s, i, accepted)
    case Settle(s, i) => w.(model := AfterSettle(w.model, s, i))
    case StartRefresh => w.(refresh := Some(Refresh(w.model.policyRevision, None)))
    case ReadCore => w.(refresh := Some(Refresh(w.refresh.value.revisionAtStart, Some(w.core))))
    case FinishRefresh =>
      w.(model := AfterRefresh(w.model, w.refresh.value.read.value, w.refresh.value.revisionAtStart),
         refresh := None)
    case FailRefresh => w.(refresh := None)
    case Elsewhere(core) => w.(core := core)
  }

  // ---- The invariant of one scope ----

  /** The intents Core accepted, in order. */
  function Accepted(toggled: seq<Change>, verdicts: seq<bool>): seq<Change>
    requires |verdicts| <= |toggled|
  {
    if verdicts == [] then []
    else
      var last := |verdicts| - 1;
      Accepted(toggled, verdicts[..last]) + if verdicts[last] then [toggled[last]] else []
  }

  function Settledness(q: Queue): int {
    |q.tail| - |q.changes|
  }

  /** The i-th chained write is settled, or it belongs to an intent still in the queue; only the
      first of those may be in flight. */
  predicate LinkInv(q: Queue, i: nat)
    requires i < |q.tail| && |q.changes| <= |q.tail|
  {
    var n := Settledness(q);
    if i < n then q.tail[i].phase.Settled?
    else q.tail[i].change == q.changes[i - n] && !q.tail[i].phase.Settled? &&
         (i > n ==> q.tail[i].phase.Waiting?)
  }

  /** The chain: settled writes, then one write that may be in flight, then writes that wait. */
  ghost predicate ChainInv(q: Queue) {
    |q.changes| <= |q.tail| && forall i :: 0 <= i < |q.tail| ==> LinkInv(q, i)
  }

  function HeadPhase(q: Queue): Phase {
    var n := Settledness(q);
    if 0 <= n < |q.tail| then q.tail[n].phase else Settled
  }

  /** What Core stores, given how far the head write has come. */
  ghost predicate StoredInv(q: Queue, stored: Policy) {
    match HeadPhase(q)
    case Sent(p) => stored == q.committed && q.changes != [] && p == ApplyPolicyChange(q.committed, q.changes[0])
    case Answered(accepted, p) => stored == if accepted then p else q.committed
    case _ => stored == q.committed
  }

  /** The intents without a verdict are exactly those still unanswered in the queue. */
  ghost predicate HistoryInv(q: Queue, h: History) {
    |h.verdicts| <= |h.toggled| &&
    h.toggled[|h.verdicts|..] ==
      if HeadPhase(q).Answered? && q.changes != [] then q.changes[1..] else q.changes
  }

  predicate Waits(changes: seq<Change>, g: Option<string>) {
    exists i :: 0 <= i < |changes| && changes[i].grant == g
  }

  /** The pending controls of a scope are its unsettled intents, one for each control. */
  ghost predicate PendingInv(pending: map<Key, Change>, s: Scope, changes: seq<Change>) {
    && (forall i :: 0 <= i < |changes| ==>
          Key(s, changes[i].grant) in pending && pending[Key(s, changes[i].grant)] == changes[i])
    && (forall i, j :: 0 <= i < j < |changes| ==> changes[i].grant != changes[j].grant)
    && (forall g :: Key(s, g) in pending ==> Waits(changes, g))
  }

  ghost predicate QueueInv(q: Queue, stored: Policy, h: History) {
    && ChainInv(q) && StoredInv(q, stored) && HistoryInv(q, h)
    && q.desired == Fold(q.committed, q.changes)
  }

  function ChangesOf(m: Model, s: Scope): seq<Change> {
    if s in m.queues then m.queues[s].changes else []
  }

  /** What the Manager shows for the scope is the last policy it knows Core to have confirmed. */
  ghost predicate ShownInv(m: Model, s: Scope, stored: Policy) {
    if s in m.queues
    then s.pluginId in m.snapshot.plugins ==> PolicyFor(m.snapshot, s) == m.queues[s].committed
    else Present(m.snapshot, s) ==> PolicyFor(m.snapshot, s) == stored
  }

  /** A snapshot already read is current for every scope it is allowed to replace. */
  ghost predicate RefreshInv(w: World, s: Scope, stored: Policy) {
    w.refresh.Some? ==>
      && w.refresh.value.revisionAtStart <= w.model.policyRevision
      && (w.refresh.value.read.Some? ==>
            (s in w.model.queues && Protected(w.model.queues[s], w.refresh.value.revisionAtStart)) ||
            PolicyFor(w.refresh.value.read.value, s) == stored)
  }

  ghost predicate ScopeInv(w: World, s: Scope, base: Policy) {
    var stored := PolicyFor(w.core, s);
    var h := HistoryOf(w, s);
    && (s in w.model.queues ==> QueueInv(w.model.queues[s], stored, h) &&
                                w.model.queues[s].revision <= w.model.policyRevision)
    && (s !in w.model.queues ==> |h.toggled| == |h.verdicts|)
    && |h.verdicts| <= |h.toggled|
    && stored == Fold(base, Accepted(h.toggled, h.verdicts))
    && PendingInv(w.model.pending, s, ChangesOf(w.model, s))
    && ShownInv(w.model, s, stored)
    && RefreshInv(w, s, stored)
  }

  // ---- Each step keeps it ----

  lemma {:induction false} FoldAppend(p: Policy, a: seq<Change>, b: seq<Change>)
    ensures Fold(p, a + b) == Fold(Fold(p, a), b)
    decreases |a|
  {
    if a == [] {
      assert a + b == b;
    } else {
      assert (a + b)[1..] == a[1..] + b;
      FoldAppend(ApplyPolicyChange(p, a[0]), a[1..], b);
    }
  }

  lemma {:induction false} AcceptedFrame(toggled: seq<Change>, more: seq<Change>, verdicts: seq<bool>)
    requires |verdicts| <= |toggled|
    ensures Accepted(toggled + more, verdicts) == Accepted(toggled, verdicts)
  {
    if verdicts != [] {
      AcceptedFrame(toggled, more, verdicts[..|verdicts| - 1]);
    }
  }

  function Extended(q: Queue, change: Change, revision: nat): Queue {
    var changes := q.changes + [change];
    Queue(q.committed, Fold(q.committed, changes), changes, revision, q.tail + [Write(change, Waiting)])
  }

  lemma ToggleKeepsChain(q: Queue, change: Change, revision: nat)
    requires ChainInv(q)
    ensures ChainInv(Extended(q, change, revision))
    ensures q.changes != [] ==> HeadPhase(Extended(q, change, revision)) == HeadPhase(q)
    ensures q.changes == [] ==> HeadPhase(q).Settled? && HeadPhase(Extended(q, change, revision)).Waiting?
  {
    var v := Extended(q, change, revision);
    forall i | 0 <= i < |v.tail| ensures LinkInv(v, i) {
      assert i < |q.tail| ==> LinkInv(q, i);
    }
  }

  /** A toggle extends the chain by a waiting write. */
  lemma ToggleKeepsQueue(q: Queue, stored: Policy, h: History, change: Change, revision: nat)
    requires QueueInv(q, stored, h)
    ensures QueueInv(Extended(q, change, revision), stored, h.(toggled := h.toggled + [change]))
  {
    ToggleKeepsChain(q, change, revision);
    assert (h.toggled + [change])[|h.verdicts|..] == h.toggled[|h.verdicts|..] + [change];
    assert q.changes != [] ==> (q.changes + [change])[1..] == q.changes[1..] + [change];
  }

  lemma ToggleKeepsPending(pending: map<Key, Change>, s: Scope, changes: seq<Change>, change: Change)
    requires PendingInv(pending, s, changes) && Key(s, change.grant) !in pending
    ensures PendingInv(pending[Key(s, change.grant) := change], s, changes + [change])
  {
    var after := pending[Key(s, change.grant) := change];
    var all := changes + [change];
    forall g | Key(s, g) in after ensures Waits(all, g) {
      if g == change.grant {
        assert all[|changes|].grant == g;
      } else {
        var i :| 0 <= i < |changes| && changes[i].grant == g;
        assert all[i].grant == g;
      }
    }
  }

  lemma PhaseKeepsChain(q: Queue, i: nat, phase: Phase)
    requires ChainInv(q) && i == Settledness(q) < |q.tail| && !phase.Settled?
    ensures ChainInv(q.(tail := q.tail[i := q.tail[i].(phase := phase)]))
    ensures HeadPhase(q.(tail := q.tail[i := q.tail[i].(phase := phase)])) == phase
  {
    var v := q.(tail := q.tail[i := q.tail[i].(phase := phase)]);
    forall j | 0 <= j < |v.tail| ensures LinkInv(v, j) {
      assert LinkInv(q, j);
    }
  }

  /** Only the head of the chain can begin, be answered or settle. */
  lemma OnlyHeadActs(q: Queue, i: nat)
    requires ChainInv(q) && i < |q.tail|
    requires q.tail[i].phase.Sent? || q.tail[i].phase.Answered? ||
             (q.tail[i].phase.Waiting? && (i > 0 ==> q.tail[i - 1].phase.Settled?))
    ensures i == Settledness(q) && q.changes != [] && q.changes[0] == q.tail[i].change
    ensures HeadPhase(q) == q.tail[i].phase
  {
    assert LinkInv(q, i);
    if i > 0 {
      assert LinkInv(q, i - 1);
    }
  }

  /** The queue after its head settled on this policy. */
  function Shortened(q: Queue, committed: Policy, i: nat, revision: nat): Queue
    requires i < |q.tail| && q.changes != []
  {
    Queue(committed, Fold(committed, q.changes[1..]), q.changes[1..], revision,
          q.tail[i := q.tail[i].(phase := Settled)])
  }

  lemma SettleKeepsChain(q: Queue, committed: Policy, i: nat, revision: nat)
    requires ChainInv(q) && i == Settledness(q) && q.changes != []
    ensures ChainInv(Shortened(q, committed, i, revision))
    ensures HeadPhase(Shortened(q, committed, i, revision)).Settled? ||
            HeadPhase(Shortened(q, committed, i, revision)).Waiting?
  {
    var v := Shortened(q, committed, i, revision);
    forall j | 0 <= j < |v.tail| ensures LinkInv(v, j) {
      assert LinkInv(q, j);
    }
    assert i + 1 < |v.tail| ==> LinkInv(q, i + 1);
  }

  lemma SettleKeepsQueue(q: Queue, stored: Policy, h: History, i: nat, revision: nat)
    requires QueueInv(q, stored, h) && i < |q.tail| && q.tail[i].phase.Answered?
    ensures var phase := q.tail[i].phase;
            var committed := if phase.accepted then phase.policy else q.committed;
            q.changes != [] && committed == stored && QueueInv(Shortened(q, committed, i, revision), stored, h)
  {
    OnlyHeadActs(q, i);
    SettleKeepsChain(q, stored, i, revision);
  }

  lemma SettleKeepsPending(pending: map<Key, Change>, s: Scope, changes: seq<Change>)
    requires PendingInv(pending, s, changes) && changes != []
    ensures PendingInv(pending - {Key(s, changes[0].grant)}, s, changes[1..])
  {
    var after := pending - {Key(s, changes[0].grant)};
    forall g | Key(s, g) in after ensures Waits(changes[1..], g) {
      var i :| 0 <= i < |changes| && changes[i].grant == g;
      assert changes[1..][i - 1].grant == g;
    }
  }

  lemma PendingFrame(pending: map<Key, Change>, after: map<Key, Change>, s: Scope, changes: seq<Change>)
    requires PendingInv(pending, s, changes)
    requires forall g :: Key(s, g) in after <==> Key(s, g) in pending
    requires forall g :: Key(s, g) in pending ==> after[Key(s, g)] == pending[Key(s, g)]
    ensures PendingInv(after, s, changes)
  {
  }

  /** A step elsewhere that bumps the revision leaves this scope alone. */
  lemma OtherScopeKeepsInv(w: World, v: World, s: Scope, base: Policy)
    requires ScopeInv(w, s, base)
    requires s in w.model.queues <==> s in v.model.queues
    requires s in w.model.queues ==> v.model.queues[s] == w.model.queues[s]
    requires HistoryOf(v, s) == HistoryOf(w, s) && PolicyFor(v.core, s) == PolicyFor(w.core, s)
    requires v.refresh == w.refresh
    requires w.model.policyRevision <= v.model.policyRevision
    requires v.model.snapshot.plugins == w.model.snapshot.plugins
    requires v.model.snapshot.applications == w.model.snapshot.applications
    requires PolicyFor(v.model.snapshot, s) == PolicyFor(w.model.snapshot, s)
    requires PendingInv(v.model.pending, s, ChangesOf(w.model, s))
    ensures ScopeInv(v, s, base)
  {
  }

  lemma ToggleKeepsShown(w: World, s: Scope, base: Policy, change: Change)
    requires ScopeInv(w, s, base) && CanToggle(w.model, s, change)
    ensures var v := Next(w, Toggle(s, change));
            ShownInv(v.model, s, PolicyFor(v.core, s)) && RefreshInv(v, s, PolicyFor(v.core, s))
  {
  }

  lemma ToggleExtendsQueue(w: World, s: Scope, base: Policy, change: Change)
    requires ScopeInv(w, s, base) && CanToggle(w.model, s, change)
    ensures var v := Next(w, Toggle(s, change));
            && s in v.model.queues && v.model.queues[s].revision <= v.model.policyRevision
            && QueueInv(v.model.queues[s], PolicyFor(v.core, s), HistoryOf(v, s))
            && PendingInv(v.model.pending, s, ChangesOf(v.model, s))
  {
    ToggleKeepsQueue(QueueFor(w.model, s), PolicyFor(w.core, s), HistoryOf(w, s), change, w.model.policyRevision + 1);
    ToggleKeepsPending(w.model.pending, s, ChangesOf(w.model, s), change);
  }

  lemma ToggleExtendsHistory(w: World, s: Scope, base: Policy, change: Change)
    requires ScopeInv(w, s, base) && CanToggle(w.model, s, change)
    ensures var v := Next(w, Toggle(s, change));
            var h := HistoryOf(v, s);
            && |h.verdicts| <= |h.toggled|
            && PolicyFor(v.core, s) == Fold(base, Accepted(h.toggled, h.verdicts))
  {
    var h := HistoryOf(w, s);
    AcceptedFrame(h.toggled, [change], h.verdicts);
  }

  lemma ToggleHereKeepsInv(w: World, s: Scope, base: Policy, change: Change)
    requires ScopeInv(w, s, base) && CanToggle(w.model, s, change)
    ensures ScopeInv(Next(w, Toggle(s, change)), s, base)
  {
    ToggleExtendsQueue(w, s, base, change);
    ToggleExtendsHistory(w, s, base, change);
    ToggleKeepsShown(w, s, base, change);
  }

  lemma ToggleKeepsInv(w: World, s: Scope, base: Policy, at: Scope, change: Change)
    requires ScopeInv(w, s, base)
    ensures ScopeInv(Next(w, Toggle(at, change)), s, base)
  {
    if CanToggle(w.model, at, change) {
      if at == s {
        ToggleHereKeepsInv(w, s, base, change);
      } else {
        var v := Next(w, Toggle(at, change));
        PendingFrame(w.model.pending, v.model.pending, s, ChangesOf(w.model, s));
        OtherScopeKeepsInv(w, v, s, base);
      }
    }
  }

  /** The head write of this scope moved on; intents and display did not. */
  lemma HeadMoved(w: World, v: World, s: Scope, base: Policy)
    requires ScopeInv(w, s, base) && s in w.model.queues && s in v.model.queues
    requires v.model.queues[s].(tail := w.model.queues[s].tail) == w.model.queues[s]
    requires v.model.queues[s].changes != []
    requires QueueInv(v.model.queues[s], PolicyFor(v.core, s), HistoryOf(v, s))
    requires var h := HistoryOf(v, s); PolicyFor(v.core, s) == Fold(base, Accepted(h.toggled, h.verdicts))
    requires v.model.snapshot == w.model.snapshot && v.model.pending == w.model.pending
    requires v.model.policyRevision == w.model.policyRevision && v.refresh == w.refresh
    ensures ScopeInv(v, s, base)
  {
  }

  lemma BeginKeepsInv(w: World, s: Scope, base: Policy, at: Scope, i: nat)
    requires ScopeInv(w, s, base) && Enabled(w, Begin(at, i))
    ensures ScopeInv(Next(w, Begin(at, i)), s, base)
  {
    var v := Next(w, Begin(at, i));
    if at == s {
      var q := w.model.queues[s];
      OnlyHeadActs(q, i);
      PhaseKeepsChain(q, i, Sent(ApplyPolicyChange(q.committed, q.tail[i].change)));
      HeadMoved(w, v, s, base);
    } else {
      OtherScopeKeepsInv(w, v, s, base);
    }
  }

  /** A verdict moves one intent from unanswered to answered. */
  lemma VerdictKeepsHistory(q: Queue, h: History, base: Policy, stored: Policy, accepted: bool)
    requires HistoryInv(q, h) && q.changes != [] && !HeadPhase(q).Answered?
    requires stored == Fold(base, Accepted(h.toggled, h.verdicts))
    ensures |h.verdicts| < |h.toggled| && h.toggled[|h.verdicts| + 1..] == q.changes[1..]
    ensures Fold(base, Accepted(h.toggled, h.verdicts + [accepted])) ==
            if accepted then ApplyPolicyChange(stored, q.changes[0]) else stored
  {
    assert h.toggled[|h.verdicts|] == q.changes[0];
    assert h.toggled[|h.verdicts|..][1..] == h.toggled[|h.verdicts| + 1..];
    assert (h.verdicts + [accepted])[..|h.verdicts|] == h.verdicts;
    var before := Accepted(h.toggled, h.verdicts);
    FoldAppend(base, before, [q.changes[0]]);
    assert before + [] == before;
  }

  lemma AnswerKeepsQueue(q: Queue, base: Policy, stored: Policy, h: History, i: nat, accepted: bool)
    requires QueueInv(q, stored, h) && i < |q.tail| && q.tail[i].phase.Sent?
    requires stored == Fold(base, Accepted(h.toggled, h.verdicts))
    ensures var p := q.tail[i].phase.policy;
            var now := if accepted then p else stored;
            var verdicts := h.verdicts + [accepted];
            && q.changes != [] && |verdicts| <= |h.toggled|
            && now == Fold(base, Accepted(h.toggled, verdicts))
            && QueueInv(q.(tail := q.tail[i := q.tail[i].(phase := Answered(accepted, p))]), now,
                        History(h.toggled, verdicts))
  {
    OnlyHeadActs(q, i);
    PhaseKeepsChain(q, i, Answered(accepted, q.tail[i].phase.policy));
    VerdictKeepsHistory(q, h, base, stored, accepted);
  }

  lemma AnswerKeepsInv(w: World, s: Scope, base: Policy, at: Scope, i: nat, accepted: bool)
    requires ScopeInv(w, s, base) && Enabled(w, Answer(at, i, accepted))
    ensures ScopeInv(Next(w, Answer(at, i, accepted)), s, base)
  {
    var v := Next(w, Answer(at, i, accepted));
    if at == s {
      AnswerKeepsQueue(w.model.queues[s], base, PolicyFor(w.core, s), HistoryOf(w, s), i, accepted);
      HeadMoved(w, v, s, base);
    } else {
      OtherScopeKeepsInv(w, v, s, base);
    }
  }

  /** The settled intent was the head, and Core stores what it settled on. */
  lemma SettleShortensQueue(w: World, s: Scope, base: Policy, i: nat)
    requires ScopeInv(w, s, base) && Enabled(w, Settle(s, i))
    ensures w.model.queues[s].changes != []
    ensures var q := w.model.queues[s];
            var stored := PolicyFor(w.core, s);
            var v := Next(w, Settle(s, i));
            && s in v.model.queues && v.model.queues[s] == Shortened(q, stored, i, w.model.policyRevision + 1)
            && QueueInv(v.model.queues[s], stored, HistoryOf(v, s))
            && v.model.pending == w.model.pending - {Key(s, q.changes[0].grant)}
  {
    OnlyHeadActs(w.model.queues[s], i);
    SettleKeepsQueue(w.model.queues[s], PolicyFor(w.core, s), HistoryOf(w, s), i, w.model.policyRevision + 1);
  }

  lemma SettleShows(w: World, s: Scope, base: Policy, i: nat)
    requires ScopeInv(w, s, base) && Enabled(w, Settle(s, i)) && w.model.queues[s].changes != []
    requires Next(w, Settle(s, i)).model.queues[s].committed == PolicyFor(w.core, s)
    ensures var v := Next(w, Settle(s, i));
            && ShownInv(v.model, s, PolicyFor(v.core, s)) && RefreshInv(v, s, PolicyFor(v.core, s))
            && v.model.queues[s].revision <= v.model.policyRevision
  {
  }

  lemma SettleFreesControl(w: World, s: Scope, base: Policy, i: nat)
    requires ScopeInv(w, s, base) && Enabled(w, Settle(s, i))
    ensures var v := Next(w, Settle(s, i)); PendingInv(v.model.pending, s, ChangesOf(v.model, s))
  {
    SettleShortensQueue(w, s, base, i);
    SettleKeepsPending(w.model.pending, s, w.model.queues[s].changes);
  }

  lemma SettleHereKeepsInv(w: World, s: Scope, base: Policy, i: nat)
    requires ScopeInv(w, s, base) && Enabled(w, Settle(s, i))
    ensures ScopeInv(Next(w, Settle(s, i)), s, base)
  {
    SettleShortensQueue(w, s, base, i);
    SettleFreesControl(w, s, base, i);
    SettleShows(w, s, base, i);
  }

  lemma SettleKeepsInv(w: World, s: Scope, base: Policy, at: Scope, i: nat)
    requires ScopeInv(w, s, base) && Enabled(w, Settle(at, i))
    ensures ScopeInv(Next(w, Settle(at, i)), s, base)
  {
    if at == s {
      SettleHereKeepsInv(w, s, base, i);
    } else {
      var v := Next(w, Settle(at, i));
      PendingFrame(w.model.pending, v.model.pending, s, ChangesOf(w.model, s));
      OtherScopeKeepsInv(w, v, s, base);
    }
  }

  lemma FinishKeepsInv(w: World, s: Scope, base: Policy)
    requires ScopeInv(w, s, base) && Enabled(w, FinishRefresh)
    ensures ScopeInv(Next(w, FinishRefresh), s, base)
  {
  }

  lemma StepKeepsInv(w: World, s: Scope, base: Policy, step: Step)
    requires ScopeInv(w, s, base) && Enabled(w, step)
    requires step.Elsewhere? ==> PolicyFor(step.core, s) == PolicyFor(w.core, s)
    ensures ScopeInv(Next(w, step), s, base)
  {
    match step
    case Toggle(at, change) => ToggleKeepsInv(w, s, base, at, change);
    case Begin(at, i) => BeginKeepsInv(w, s, base, at, i);
    case Answer(at, i, accepted) => AnswerKeepsInv(w, s, base, at, i, accepted);
    case Settle(at, i) => SettleKeepsInv(w, s, base, at, i);
    case FinishRefresh => FinishKeepsInv(w, s, base);
    case _ =>
  }

  // ---- Whole runs ----

  predicate Follows(w: World, step: Step, v: World) {
    Enabled(w, step) && v == Next(w, step)
  }

  /** A run: worlds joined by steps, from a Manager that has loaded nothing yet. */
  ghost predicate IsRun(ws: seq<World>, steps: seq<Step>) {
    && |ws| == |steps| + 1
    && ws[0].model == Model(Snapshot({}, {}, map[]), map[], map[], 0)
    && ws[0].refresh.None? && ws[0].history == map[]
    && forall i :: 0 <= i < |steps| ==> Follows(ws[i], steps[i], ws[i + 1])
  }

  /** Nobody but this Manager changes the scope's stored policy. */
  ghost predicate SoleWriter(ws: seq<World>, steps: seq<Step>, s: Scope)
    requires |ws| == |steps| + 1
  {
    forall i :: 0 <= i < |steps| && steps[i].Elsewhere? ==>
      PolicyFor(steps[i].core, s) == PolicyFor(ws[i].core, s)
  }

  lemma {:induction false} RunKeepsInv(ws: seq<World>, steps: seq<Step>, s: Scope, n: nat)
    requires IsRun(ws, steps) && SoleWriter(ws, steps, s) && n < |ws|
    ensures ScopeInv(ws[n], s, PolicyFor(ws[0].core, s))
  {
    if n > 0 {
      RunKeepsInv(ws, steps, s, n - 1);
      assert Follows(ws[n - 1], steps[n - 1], ws[n]);
      StepKeepsInv(ws[n - 1], s, PolicyFor(ws[0].core, s), steps[n - 1]);
    }
  }

  predicate InFlight(w: Write) {
    w.phase.Sent? || w.phase.Answered?
  }

  /** Main theorem: whatever the interleaving, Core stores the fold of exactly the accepted intents
      in the order they were made, at most one write of the scope is in flight, and `desired` is the
      fold of the unsettled intents over the last confirmed policy. */
  lemma NoLostUpdate(ws: seq<World>, steps: seq<Step>, s: Scope, n: nat)
    requires IsRun(ws, steps) && SoleWriter(ws, steps, s) && n < |ws|
    ensures var w := ws[n]; var h := HistoryOf(w, s);
            && |h.verdicts| <= |h.toggled|
            && PolicyFor(w.core, s) == Fold(PolicyFor(ws[0].core, s), Accepted(h.toggled, h.verdicts))
            && (s in w.model.queues ==>
                  var q := w.model.queues[s];
                  && q.desired == Fold(q.committed, q.changes)
                  && (forall i, j :: 0 <= i < j < |q.tail| ==> !InFlight(q.tail[i]) || !InFlight(q.tail[j])))
  {
    RunKeepsInv(ws, steps, s, n);
    if s in ws[n].model.queues {
      OneInFlight(ws[n].model.queues[s]);
    }
  }

  // ---- What the stored and the desired policy show ----

  /** The k-th intent was accepted and concerns the control. */
  predicate AcceptedOn(h: History, control: Option<string>, k: nat) {
    k < |h.verdicts| <= |h.toggled| && h.verdicts[k] && h.toggled[k].grant == control
  }

  /** The k-th intent is the last accepted one on the control. */
  ghost predicate Decides(h: History, control: Option<string>, k: nat) {
    AcceptedOn(h, control, k) && forall j: nat :: AcceptedOn(h, control, j) ==> j <= k
  }

  /** How the policy shows a control after the accepted intents. */
  ghost predicate Decided(h: History, control: Option<string>, before: bool, now: bool)
    requires |h.verdicts| <= |h.toggled|
  {
    && (forall k: nat :: Decides(h, control, k) ==> now == h.toggled[k].checked)
    && ((forall k: nat :: !AcceptedOn(h, control, k)) ==> now == before)
  }

  lemma VerdictDecides(h: History, control: Option<string>, before: bool, was: bool, accepted: bool)
    requires |h.verdicts| < |h.toggled| && Decided(h, control, before, was)
    ensures var change := h.toggled[|h.verdicts|];
            Decided(h.(verdicts := h.verdicts + [accepted]), control, before,
                    if accepted && change.grant == control then change.checked else was)
  {
    var last := |h.verdicts|;
    var after := h.(verdicts := h.verdicts + [accepted]);
    assert forall k: nat :: k != last ==> (AcceptedOn(after, control, k) <==> AcceptedOn(h, control, k));
    if AcceptedOn(after, control, last) {
      assert forall k: nat :: Decides(after, control, k) ==> k == last;
    } else {
      assert forall k: nat :: Decides(after, control, k) ==> Decides(h, control, k);
    }
  }

  lemma {:induction false} AcceptedDecide(
    base: Policy, toggled: seq<Change>, verdicts: seq<bool>, control: Option<string>)
    requires |verdicts| <= |toggled|
    ensures Decided(History(toggled, verdicts), control, Holds(base, control),
                    Holds(Fold(base, Accepted(toggled, verdicts)), control))
  {
    if verdicts != [] {
      var last := |verdicts| - 1;
      AcceptedDecide(base, toggled, verdicts[..last], control);
      VerdictDecides(History(toggled, verdicts[..last]), control, Holds(base, control),
                     Holds(Fold(base, Accepted(toggled, verdicts[..last])), control), verdicts[last]);
      assert verdicts[..last] + [verdicts[last]] == verdicts;
      VerdictFolds(base, toggled, verdicts, control);
    }
  }

  lemma VerdictFolds(base: Policy, toggled: seq<Change>, verdicts: seq<bool>, control: Option<string>)
    requires 0 < |verdicts| <= |toggled|
    ensures var last := |verdicts| - 1;
            Holds(Fold(base, Accepted(toggled, verdicts)), control) ==
            if verdicts[last] && toggled[last].grant == control then toggled[last].checked
            else Holds(Fold(base, Accepted(toggled, verdicts[..last])), control)
  {
    var last := |verdicts| - 1;
    var before := Accepted(toggled, verdicts[..last]);
    if verdicts[last] {
      FoldAppend(base, before, [toggled[last]]);
      ChangeMeans(Fold(base, before), toggled[last]);
    } else {
      assert before + [] == before;
    }
  }

  lemma {:induction false} FoldDecides(base: Policy, changes: seq<Change>, control: Option<string>)
    requires forall i, j :: 0 <= i < j < |changes| ==> changes[i].grant != changes[j].grant
    ensures forall i :: 0 <= i < |changes| && changes[i].grant == control ==>
              Holds(Fold(base, changes), control) == changes[i].checked
    ensures !Waits(changes, control) ==> Holds(Fold(base, changes), control) == Holds(base, control)
    decreases |changes|
  {
    if changes != [] {
      var rest := changes[1..];
      assert forall i :: 0 <= i < |rest| ==> rest[i] == changes[i + 1];
      FoldDecides(ApplyPolicyChange(base, changes[0]), rest, control);
      ChangeMeans(base, changes[0]);
    }
  }

  /** Main theorem in terms of controls: in every interleaving Core's policy shows for each control, the
      switch or a grant, what the last accepted intent on it chose, or what it showed at the start when
      there was none; and `desired` shows what the unsettled intent on it chose, or what was last
      confirmed when there is none. */
  lemma LastAcceptedIntentDecides(ws: seq<World>, steps: seq<Step>, s: Scope, n: nat, control: Option<string>)
    requires IsRun(ws, steps) && SoleWriter(ws, steps, s) && n < |ws|
    ensures var w := ws[n]; var h := HistoryOf(w, s); var now := Holds(PolicyFor(w.core, s), control);
            && |h.verdicts| <= |h.toggled|
            && (forall k: nat :: Decides(h, control, k) ==> now == h.toggled[k].checked)
            && ((forall k: nat :: !AcceptedOn(h, control, k)) ==> now == Holds(PolicyFor(ws[0].core, s), control))
    ensures s in ws[n].model.queues ==>
              var q := ws[n].model.queues[s];
              && (forall i :: 0 <= i < |q.changes| && q.changes[i].grant == control ==>
                    Holds(q.desired, control) == q.changes[i].checked)
              && (Key(s, control) !in ws[n].model.pending ==> Holds(q.desired, control) == Holds(q.committed, control))
  {
    RunKeepsInv(ws, steps, s, n);
    var h := HistoryOf(ws[n], s);
    AcceptedDecide(PolicyFor(ws[0].core, s), h.toggled, h.verdicts, control);
    if s in ws[n].model.queues {
      FoldDecides(ws[n].model.queues[s].committed, ws[n].model.queues[s].changes, control);
    }
  }

  lemma OneInFlight(q: Queue)
    requires ChainInv(q)
    ensures forall i, j :: 0 <= i < j < |q.tail| ==> !InFlight(q.tail[i]) || !InFlight(q.tail[j])
  {
    forall i, j | 0 <= i < j < |q.tail| ensures !InFlight(q.tail[i]) || !InFlight(q.tail[j]) {
      assert LinkInv(q, i) && LinkInv(q, j);
    }
  }

  /** Once a scope's queue has drained, Core, the display and the queue agree, every intent has its
      verdict, and no control of the scope is pending. */
  lemma DrainedQueueAgrees(ws: seq<World>, steps: seq<Step>, s: Scope, n: nat)
    requires IsRun(ws, steps) && SoleWriter(ws, steps, s) && n < |ws|
    requires ChangesOf(ws[n].model, s) == []
    ensures var w := ws[n]; var stored := PolicyFor(w.core, s);
            && |HistoryOf(w, s).verdicts| == |HistoryOf(w, s).toggled|
            && (s in w.model.queues ==> w.model.queues[s].committed == w.model.queues[s].desired == stored)
            && (Present(w.model.snapshot, s) ==> PolicyFor(w.model.snapshot, s) == stored)
            && (forall g :: Key(s, g) !in w.model.pending)
  {
    RunKeepsInv(ws, steps, s, n);
    var h := HistoryOf(ws[n], s);
    assert h.toggled[|h.verdicts|..] == [];
  }

  /** A queue with intents is never stuck: its head can begin, awaits Core, or can settle. */
  lemma HeadCanMove(ws: seq<World>, steps: seq<Step>, s: Scope, n: nat)
    requires IsRun(ws, steps) && SoleWriter(ws, steps, s) && n < |ws|
    requires ChangesOf(ws[n].model, s) != []
    ensures var i := Settledness(ws[n].model.queues[s]);
            && i >= 0
            && (CanBegin(ws[n].model, s, i) || Enabled(ws[n], Answer(s, i, true)) || CanSettle(ws[n].model, s, i))
  {
    RunKeepsInv(ws, steps, s, n);
    var q := ws[n].model.queues[s];
    var i := Settledness(q);
    assert LinkInv(q, i);
    assert i > 0 ==> LinkInv(q, i - 1);
  }

  // ---- Refreshes never undo what was confirmed later ----

  ghost predicate Shielded(w: World, s: Scope) {
    w.refresh.Some? && s in w.model.queues && Protected(w.model.queues[s], w.refresh.value.revisionAtStart)
  }

  predicate Touches(w: World, step: Step, s: Scope) {
    match step
    case Settle(at, _) => at == s
    case Toggle(at, change) => at == s && CanToggle(w.model, s, change)
    case _ => false
  }

  lemma ShieldHolds(w: World, s: Scope, step: Step)
    requires w.refresh.Some? && w.refresh.value.revisionAtStart <= w.model.policyRevision
    requires s in w.model.queues ==> ChainInv(w.model.queues[s])
    requires Enabled(w, step) && !step.FinishRefresh? && !step.FailRefresh?
    requires Shielded(w, s) || Touches(w, step, s)
    ensures Shielded(Next(w, step), s)
  {
  }

  lemma {:induction false} RefreshPersists(ws: seq<World>, steps: seq<Step>, s: Scope, low: nat, high: nat)
    requires IsRun(ws, steps) && low <= high <= |steps| && ws[low].refresh.Some?
    requires forall i :: low <= i < high ==> !steps[i].FinishRefresh? && !steps[i].FailRefresh?
    ensures ws[high].refresh.Some?
    decreases high
  {
    if low < high {
      RefreshPersists(ws, steps, s, low, high - 1);
      assert Follows(ws[high - 1], steps[high - 1], ws[high]);
    }
  }

  /** What a shield needs of a state. */
  ghost predicate Shieldable(w: World, s: Scope) {
    && (w.refresh.Some? ==> w.refresh.value.revisionAtStart <= w.model.policyRevision)
    && (s in w.model.queues ==> ChainInv(w.model.queues[s]))
  }

  lemma ShieldableAt(ws: seq<World>, steps: seq<Step>, s: Scope, n: nat)
    requires IsRun(ws, steps) && SoleWriter(ws, steps, s) && n < |ws|
    ensures Shieldable(ws[n], s)
  {
    RunKeepsInv(ws, steps, s, n);
  }

  ghost predicate StepShields(ws: seq<World>, s: Scope, i: nat)
    requires i + 1 < |ws|
  {
    Shielded(ws[i], s) ==> Shielded(ws[i + 1], s)
  }

  lemma ShieldStep(ws: seq<World>, steps: seq<Step>, s: Scope, low: nat, i: nat)
    requires IsRun(ws, steps) && SoleWriter(ws, steps, s) && low <= i < |steps| && ws[low].refresh.Some?
    requires forall k :: low <= k <= i ==> !steps[k].FinishRefresh? && !steps[k].FailRefresh?
    ensures StepShields(ws, s, i)
    ensures Touches(ws[i], steps[i], s) ==> Shielded(ws[i + 1], s)
  {
    ShieldableAt(ws, steps, s, i);
    RefreshPersists(ws, steps, s, low, i);
    assert Follows(ws[i], steps[i], ws[i + 1]);
    if Shielded(ws[i], s) || Touches(ws[i], steps[i], s) {
      ShieldHolds(ws[i], s, steps[i]);
    }
  }

  lemma {:induction false} ShieldChain(ws: seq<World>, s: Scope, low: nat, high: nat)
    requires low <= high < |ws| && Shielded(ws[low], s)
    requires forall i :: low <= i < high ==> StepShields(ws, s, i)
    ensures Shielded(ws[high], s)
  {
    if low < high {
      ShieldChain(ws, s, low, high - 1);
      assert StepShields(ws, s, high - 1);
    }
  }

  lemma ShieldLasts(ws: seq<World>, steps: seq<Step>, s: Scope, low: nat, high: nat)
    requires IsRun(ws, steps) && SoleWriter(ws, steps, s) && low < high <= |steps|
    requires ws[low].refresh.Some? && Touches(ws[low], steps[low], s)
    requires forall i :: low <= i < high ==> !steps[i].FinishRefresh? && !steps[i].FailRefresh?
    ensures Shielded(ws[high], s)
  {
    forall i | low <= i < high
      ensures StepShields(ws, s, i)
    {
      ShieldStep(ws, steps, s, low, i);
    }
    ShieldStep(ws, steps, s, low, low);
    ShieldChain(ws, s, low + 1, high);
  }

  /** A snapshot requested before a toggle or a settlement never replaces what the scope shows: after
      the refresh the queue is still there and the confirmed policy is still the one displayed. */
  lemma EarlierSnapshotIsIgnored(ws: seq<World>, steps: seq<Step>, s: Scope, touched: nat, finish: nat)
    requires IsRun(ws, steps) && SoleWriter(ws, steps, s) && touched < finish < |steps|
    requires ws[touched].refresh.Some? && Touches(ws[touched], steps[touched], s)
    requires forall i :: touched <= i < finish ==> !steps[i].FinishRefresh? && !steps[i].FailRefresh?
    requires steps[finish].FinishRefresh?
    ensures s in ws[finish].model.queues && s in ws[finish + 1].model.queues
    ensures ws[finish + 1].model.queues[s] == ws[finish].model.queues[s]
    ensures s.pluginId in ws[finish + 1].model.snapshot.plugins ==>
              PolicyFor(ws[finish + 1].model.snapshot, s) == ws[finish].model.queues[s].committed
  {
    ShieldLasts(ws, steps, s, touched, finish);
    assert Follows(ws[finish], steps[finish], ws[finish + 1]);
  }
}
