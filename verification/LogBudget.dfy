/** The rolling per-application log budget: a pruned queue that decides as the full history would. */
module LogBudget {
  import opened Sequences

  /** Times are in one monotonic unit, with SECOND of them in a second. */
  const SECOND := 1_000_000_000
  const RATE_WINDOW := 60_000_000_000
  const RATE_IDLE_RESET := 600_000_000_000
  const RATE_MAX_EVENTS := 120

  /** `last` is the last activity; `events` the commit times still kept, oldest first. */
  datatype Rate = Rate(last: int, events: seq<int>)

  // ---- Decisions by the full history ----

  predicate SortedUpTo(times: seq<int>, n: nat)
    requires n <= |times|
  {
    n <= 1 || (times[n - 2] <= times[n - 1] && SortedUpTo(times, n - 1))
  }

  predicate Sorted(times: seq<int>) {
    SortedUpTo(times, |times|)
  }

  /** From index i on, the first time after the cutoff. */
  function StaleFrom(times: seq<int>, cutoff: int, i: nat): (n: nat)
    requires i <= |times|
    ensures i <= n <= |times|
    ensures n > i ==> times[n - 1] <= cutoff
    ensures n < |times| ==> times[n] > cutoff
    decreases |times| - i
  {
    if i == |times| || times[i] > cutoff then i else StaleFrom(times, cutoff, i + 1)
  }

  /** How many leading times are at or before the cutoff. */
  function Stale(times: seq<int>, cutoff: int): (n: nat)
    ensures n <= |times|
    ensures n > 0 ==> times[n - 1] <= cutoff
    ensures n < |times| ==> times[n] > cutoff
  {
    StaleFrom(times, cutoff, 0)
  }

  function Recent(times: seq<int>, cutoff: int): seq<int> {
    times[Stale(times, cutoff)..]
  }

  /** How many events of the history are live at a reading of the clock. */
  function Live(history: seq<int>, at: int): nat {
    |history| - Stale(history, at - RATE_WINDOW)
  }

  /** What the budget promises: the batch fits beside the events of the last window. */
  predicate Fits(history: seq<int>, now: int, count: nat) {
    Live(history, now) + count <= RATE_MAX_EVENTS
  }

  /** No half-open window of 60 seconds holds more than 120 events. */
  ghost predicate Paced(history: seq<int>) {
    forall i, j :: 0 <= i && i + 120 <= j < |history| ==> history[i] + 60 * SECOND <= history[j]
  }

  // ---- The kept queue ----

  predicate Resets(rate: Rate, later: int) {
    later - rate.last > RATE_IDLE_RESET
  }

  /** The check reads the clock twice: at `now` for the window, at `later` for idleness. */
  function AfterCheck(rate: Rate, now: int, later: int): Rate {
    var awake := if Resets(rate, later) then Rate(now, []) else rate;
    Rate(awake.last, Recent(awake.events, now - RATE_WINDOW))
  }

  function Repeat(time: int, count: nat): seq<int> {
    seq(count, _ => time)
  }

  function AfterCommit(rate: Rate, now: int, count: nat): Rate {
    Rate(now, rate.events + Repeat(now, count))
  }

  function RateOf(rates: map<string, Rate>, app: string, now: int): Rate {
    if app in rates then rates[app] else Rate(now, [])
  }

  class Budget {
    var rates: map<string, Rate>

    constructor ()
      ensures rates == map[]
    {
      rates := map[];
    }

    method Available(app: string, count: nat, now: int, later: int) returns (ok: bool)
      modifies this
      ensures rates == old(rates)[app := AfterCheck(RateOf(old(rates), app, now), now, later)]
      ensures ok == (|rates[app].events| + count <= RATE_MAX_EVENTS)
    {
      var rate := RateOf(rates, app, now);
      var last, events := rate.last, rate.events;
      if later - last > RATE_IDLE_RESET {
        last, events := now, [];
      }
      ghost var kept := events;
      ghost var popped := 0;
      while events != [] && events[0] <= now - RATE_WINDOW
        invariant 0 <= popped <= |kept| && events == kept[popped..]
        invariant Stale(kept, now - RATE_WINDOW) == StaleFrom(kept, now - RATE_WINDOW, popped)
      {
        popped := popped + 1;
        events := events[1..];
      }
      rates := rates[app := Rate(last, events)];
      ok := |events| + count <= RATE_MAX_EVENTS;
    }

    /** Commits are recorded at the current time behind the events kept, for a checked application. */
    method Commit(app: string, count: nat, now: int)
      modifies this
      ensures rates.Keys == old(rates).Keys
      ensures forall other :: other in rates && other != app ==> rates[other] == old(rates)[other]
      ensures app in rates ==>
                var kept, events := old(rates)[app].events, rates[app].events;
                && rates[app].last == now && kept <= events && |events| == |kept| + count
                && forall k :: |kept| <= k < |events| ==> events[k] == now
      ensures rates ==
              if app in old(rates) then old(rates)[app := AfterCommit(old(rates)[app], now, count)] else old(rates)
    {
      if app in rates {
        rates := rates[app := AfterCommit(rates[app], now, count)];
      }
    }
  }

  // ---- The queue follows the history ----

  /** Whether every time of a sorted history is at or before `time`. */
  predicate UpTo(history: seq<int>, time: int) {
    history == [] || history[|history| - 1] <= time
  }

  /** The kept events are the history without a stale prefix, seen at time `clock` or after. */
  predicate Follows(rate: Rate, history: seq<int>, clock: int) {
    && Sorted(history)
    && |rate.events| <= |history|
    && rate.events == history[|history| - |rate.events|..]
    && UpTo(history[..|history| - |rate.events|], clock - RATE_WINDOW)
    && UpTo(history, rate.last)
    && rate.last <= clock
  }

  lemma {:induction false} OrderUpTo(times: seq<int>, n: nat, i: nat, j: nat)
    requires i <= j < n <= |times| && SortedUpTo(times, n)
    ensures times[i] <= times[j]
  {
    if i < j {
      OrderUpTo(times, n - 1, i, if j < n - 1 then j else j - 1);
    }
  }

  lemma SortedOrder(times: seq<int>, i: nat, j: nat)
    requires Sorted(times) && i <= j < |times|
    ensures times[i] <= times[j]
  {
    OrderUpTo(times, |times|, i, j);
  }

  lemma {:induction false} SortedPrefix(times: seq<int>, more: seq<int>, n: nat)
    requires n <= |times| && SortedUpTo(times, n)
    ensures SortedUpTo(times + more, n)
  {
    if n > 1 {
      SortedPrefix(times, more, n - 1);
    }
  }

  lemma {:induction false} SortedAppendUpTo(history: seq<int>, time: int, count: nat, n: nat)
    requires Sorted(history) && UpTo(history, time) && n <= count
    ensures SortedUpTo(history + Repeat(time, count), |history| + n)
  {
    if n == 0 {
      SortedPrefix(history, Repeat(time, count), |history|);
    } else {
      SortedAppendUpTo(history, time, count, n - 1);
    }
  }

  lemma SortedAppend(history: seq<int>, time: int, count: nat)
    requires Sorted(history) && UpTo(history, time)
    ensures Sorted(history + Repeat(time, count)) && UpTo(history + Repeat(time, count), time)
  {
    SortedAppendUpTo(history, time, count, count);
  }

  lemma StaleIs(times: seq<int>, cutoff: int, n: nat)
    requires Sorted(times) && n <= |times|
    requires n > 0 ==> times[n - 1] <= cutoff
    requires n < |times| ==> times[n] > cutoff
    ensures Stale(times, cutoff) == n
  {
    var s := Stale(times, cutoff);
    if s < n {
      SortedOrder(times, s, n - 1);
    } else if n < s {
      SortedOrder(times, n, s - 1);
    }
  }

  /** Dropping a stale prefix first does not change which times are stale. */
  lemma StaleOfSuffix(history: seq<int>, from: nat, cutoff: int)
    requires Sorted(history) && from <= |history| && UpTo(history[..from], cutoff)
    ensures Stale(history, cutoff) == from + Stale(history[from..], cutoff)
  {
    var n := Stale(history[from..], cutoff);
    SuffixIndex(history, from, n);
    StaleIs(history, cutoff, from + n);
  }

  /** The boundary of a suffix's first n elements, seen in the whole. */
  lemma SuffixIndex(history: seq<int>, from: nat, n: nat)
    requires from + n <= |history|
    ensures n > 0 ==> history[from..][n - 1] == history[from + n - 1]
    ensures from + n < |history| ==> history[from..][n] == history[from + n]
    ensures from > 0 ==> history[..from][from - 1] == history[from - 1]
  {
  }

  lemma RecentFollows(history: seq<int>, last: int, now: int)
    requires Sorted(history) && UpTo(history, last) && last <= now
    ensures Follows(Rate(last, Recent(history, now - RATE_WINDOW)), history, now)
  {
  }

  lemma FollowsLater(rate: Rate, history: seq<int>, clock: int, later: int)
    requires Follows(rate, history, clock) && clock <= later
    ensures Follows(rate, history, later)
  {
  }

  lemma EmptyRecentExactlyWhen(history: seq<int>, cutoff: int)
    requires Sorted(history)
    ensures Recent(history, cutoff) == [] <==> UpTo(history, cutoff)
  {
    if UpTo(history, cutoff) {
      StaleIs(history, cutoff, |history|);
    }
  }

  /** The reading of the clock for which the check decides: an idle reset forgets what is still live at
      the first reading, but nothing live at the second. */
  function DecidedAt(rate: Rate, now: int, later: int): int {
    if Resets(rate, later) then later else now
  }

  lemma ResetIsEmpty(rate: Rate, history: seq<int>, clock: int, later: int)
    requires Follows(rate, history, clock) && clock <= later
    ensures Resets(rate, later) ==> Recent(history, later - RATE_WINDOW) == []
  {
    EmptyRecentExactlyWhen(history, later - RATE_WINDOW);
  }

  lemma AfterCheckIs(rate: Rate, now: int, later: int)
    ensures AfterCheck(rate, now, later) ==
            if Resets(rate, later) then Rate(now, []) else Rate(rate.last, Recent(rate.events, now - RATE_WINDOW))
  {
    assert Recent([], now - RATE_WINDOW) == [];
  }

  lemma KeptStale(rate: Rate, history: seq<int>, clock: int, cutoff: int)
    requires Follows(rate, history, clock) && clock - RATE_WINDOW <= cutoff
    ensures Stale(history, cutoff) == |history| - |rate.events| + Stale(rate.events, cutoff)
  {
    var from := |history| - |rate.events|;
    UpToLater(history[..from], clock - RATE_WINDOW, cutoff);
    StaleOfSuffix(history, from, cutoff);
  }

  lemma KeptAreRecent(rate: Rate, history: seq<int>, clock: int, cutoff: int)
    requires Follows(rate, history, clock) && clock - RATE_WINDOW <= cutoff
    ensures Recent(rate.events, cutoff) == Recent(history, cutoff)
  {
    KeptStale(rate, history, clock, cutoff);
    DropTwice(history, |history| - |rate.events|, Stale(rate.events, cutoff));
  }

  lemma UpToLater(times: seq<int>, time: int, later: int)
    requires UpTo(times, time) && time <= later
    ensures UpTo(times, later)
  {
  }

  lemma CheckCount(rate: Rate, now: int, later: int)
    ensures |AfterCheck(rate, now, later).events| == if Resets(rate, later) then 0 else Live(rate.events, now)
  {
    AfterCheckIs(rate, now, later);
  }

  lemma KeptCount(rate: Rate, history: seq<int>, clock: int, now: int)
    requires Follows(rate, history, clock) && clock <= now
    ensures Live(rate.events, now) == Live(history, now)
  {
    KeptStale(rate, history, clock, now - RATE_WINDOW);
  }

  lemma ResetCount(rate: Rate, history: seq<int>, clock: int, later: int)
    requires Follows(rate, history, clock) && clock <= later
    ensures Resets(rate, later) ==> Live(history, later) == 0
  {
    ResetIsEmpty(rate, history, clock, later);
  }

  /** However long the check is suspended between its readings, it keeps as many events as are live at
      the reading for which it decides. */
  lemma CheckKeepsLive(rate: Rate, history: seq<int>, clock: int, now: int, later: int)
    requires Follows(rate, history, clock) && clock <= now <= later
    ensures |AfterCheck(rate, now, later).events| == Live(history, DecidedAt(rate, now, later))
  {
    CheckCount(rate, now, later);
    KeptCount(rate, history, clock, now);
    ResetCount(rate, history, clock, later);
  }

  lemma ResetFollows(rate: Rate, history: seq<int>, clock: int, now: int, later: int)
    requires Follows(rate, history, clock) && clock <= now <= later && Resets(rate, later)
    ensures Follows(Rate(now, []), history, later)
  {
    assert history[|history|..] == [] && history[..|history|] == history;
  }

  lemma PrunedFollows(rate: Rate, history: seq<int>, clock: int, now: int, later: int)
    requires Follows(rate, history, clock) && clock <= now <= later
    ensures Follows(Rate(rate.last, Recent(rate.events, now - RATE_WINDOW)), history, later)
  {
    KeptAreRecent(rate, history, clock, now - RATE_WINDOW);
    RecentFollows(history, rate.last, now);
    FollowsLater(Rate(rate.last, Recent(history, now - RATE_WINDOW)), history, now, later);
  }

  lemma CheckFollows(rate: Rate, history: seq<int>, clock: int, now: int, later: int)
    requires Follows(rate, history, clock) && clock <= now <= later
    ensures Follows(AfterCheck(rate, now, later), history, later)
  {
    AfterCheckIs(rate, now, later);
    if Resets(rate, later) {
      ResetFollows(rate, history, clock, now, later);
    } else {
      PrunedFollows(rate, history, clock, now, later);
    }
  }

  lemma UnsuspendedLeavesRecent(rate: Rate, history: seq<int>, clock: int, now: int, later: int)
    requires Follows(rate, history, clock) && clock <= now <= later
    requires later - now <= RATE_IDLE_RESET - RATE_WINDOW
    ensures AfterCheck(rate, now, later).events == Recent(history, now - RATE_WINDOW)
  {
    AfterCheckIs(rate, now, later);
    if Resets(rate, later) {
      EmptyRecentExactlyWhen(history, now - RATE_WINDOW);
    } else {
      KeptAreRecent(rate, history, clock, now - RATE_WINDOW);
    }
  }

  /** The check decides as the full history does, idle reset included. */
  lemma CheckDecidesByHistory(rate: Rate, history: seq<int>, clock: int, now: int, later: int, count: nat)
    requires Follows(rate, history, clock) && clock <= now <= later
    requires later - now <= RATE_IDLE_RESET - RATE_WINDOW
    ensures |AfterCheck(rate, now, later).events| + count <= RATE_MAX_EVENTS <==> Fits(history, now, count)
    ensures Follows(AfterCheck(rate, now, later), history, now)
  {
    UnsuspendedLeavesRecent(rate, history, clock, now, later);
    RecentFollows(history, AfterCheck(rate, now, later).last, now);
  }

  lemma CommitFollows(rate: Rate, history: seq<int>, clock: int, now: int, count: nat)
    requires Follows(rate, history, clock) && clock <= now
    ensures Follows(AfterCommit(rate, now, count), history + Repeat(now, count), now)
  {
    var h := history + Repeat(now, count);
    var r := AfterCommit(rate, now, count);
    SortedAppend(history, now, count);
    assert r.events == h[|h| - |r.events|..];
    assert h[..|h| - |r.events|] == history[..|history| - |rate.events|];
  }

  /** A batch that fits at `checked` keeps every window within the budget when committed later. */
  lemma FittingBatchKeepsPace(history: seq<int>, checked: int, now: int, count: nat)
    requires Sorted(history) && Paced(history) && checked <= now
    requires Fits(history, checked, count)
    ensures Paced(history + Repeat(now, count))
  {
    var h := history + Repeat(now, count);
    var n := Stale(history, checked - RATE_WINDOW);
    assert |history| - n + count <= RATE_MAX_EVENTS;
    forall i, j | 0 <= i && i + RATE_MAX_EVENTS <= j < |h|
      ensures h[i] + RATE_WINDOW <= h[j]
    {
      if j >= |history| {
        SortedOrder(history, i, n - 1);
        assert h[i] == history[i] && h[j] == now;
      } else {
        assert h[i] == history[i] && h[j] == history[j];
      }
    }
  }

  // ---- Whole runs ----

  /** One ingest request: checked at `now` and `later`, and when every record was stored, committed. */
  datatype Ingest = Ingest(app: string, count: nat, now: int, later: int, stored: bool, commit: int)

  predicate Accepts(rates: map<string, Rate>, q: Ingest) {
    |AfterCheck(RateOf(rates, q.app, q.now), q.now, q.later).events| + q.count <= RATE_MAX_EVENTS
  }

  function Next(rates: map<string, Rate>, q: Ingest): map<string, Rate> {
    var checked := AfterCheck(RateOf(rates, q.app, q.now), q.now, q.later);
    rates[q.app := if Accepts(rates, q) && q.stored then AfterCommit(checked, q.commit, q.count) else checked]
  }

  function Run(qs: seq<Ingest>): map<string, Rate> {
    if qs == [] then map[] else Next(Run(qs[..|qs| - 1]), qs[|qs| - 1])
  }

  /** The history after one request, given the history before. */
  function Extended(history: seq<int>, rates: map<string, Rate>, q: Ingest): seq<int> {
    if Accepts(rates, q) && q.stored then history + Repeat(q.commit, q.count) else history
  }

  /** Every event ever committed for the application, with nothing pruned. */
  function History(qs: seq<Ingest>, app: string): seq<int> {
    if qs == [] then []
    else
      var q := qs[|qs| - 1];
      var before := History(qs[..|qs| - 1], app);
      if q.app == app then Extended(before, Run(qs[..|qs| - 1]), q) else before
  }

  /** The clock does not run backwards. */
  ghost predicate Timely(qs: seq<Ingest>, start: int) {
    forall i :: 0 <= i < |qs| ==> TimelyAt(qs, i, start)
  }

  predicate TimelyAt(qs: seq<Ingest>, i: nat, start: int)
    requires i < |qs|
  {
    && qs[i].now <= qs[i].later <= qs[i].commit
    && (if i == 0 then start else qs[i - 1].commit) <= qs[i].now
  }

  function Clock(qs: seq<Ingest>, start: int): int {
    if qs == [] then start else qs[|qs| - 1].commit
  }

  ghost predicate Followed(rates: map<string, Rate>, app: string, history: seq<int>, clock: int) {
    if app in rates then Follows(rates[app], history, clock) else history == []
  }

  /** What committing the batch does to queue and history together. */
  lemma AcceptedKeepsPace(checked: Rate, history: seq<int>, decided: int, later: int, commit: int, count: nat)
    requires Follows(checked, history, later) && Paced(history) && decided <= later <= commit
    requires Fits(history, decided, count)
    ensures Follows(AfterCommit(checked, commit, count), history + Repeat(commit, count), commit)
    ensures Paced(history + Repeat(commit, count))
  {
    CommitFollows(checked, history, later, commit, count);
    FittingBatchKeepsPace(history, decided, commit, count);
  }

  lemma FollowedRate(rates: map<string, Rate>, app: string, history: seq<int>, clock: int, now: int)
    requires Followed(rates, app, history, clock) && clock <= now
    ensures Follows(RateOf(rates, app, now), history, now)
  {
  }

  /** The reading for which the request is decided. */
  function DecisionTime(rates: map<string, Rate>, q: Ingest): int {
    DecidedAt(RateOf(rates, q.app, q.now), q.now, q.later)
  }

  lemma AcceptsIs(rates: map<string, Rate>, history: seq<int>, q: Ingest)
    requires var rate := RateOf(rates, q.app, q.now);
             |AfterCheck(rate, q.now, q.later).events| == Live(history, DecidedAt(rate, q.now, q.later))
    ensures Accepts(rates, q) <==> Fits(history, DecisionTime(rates, q), q.count)
  {
  }

  /** However long the check was suspended between its readings, it decides as the full history does at
      one of them. */
  lemma AcceptsByHistory(rates: map<string, Rate>, history: seq<int>, q: Ingest)
    requires Follows(RateOf(rates, q.app, q.now), history, q.now) && q.now <= q.later
    ensures Accepts(rates, q) <==> Fits(history, DecisionTime(rates, q), q.count)
    ensures Follows(AfterCheck(RateOf(rates, q.app, q.now), q.now, q.later), history, q.later)
  {
    var rate := RateOf(rates, q.app, q.now);
    CheckKeepsLive(rate, history, q.now, q.now, q.later);
    AcceptsIs(rates, history, q);
    CheckFollows(rate, history, q.now, q.now, q.later);
  }

  lemma UnsuspendedAccepts(rates: map<string, Rate>, history: seq<int>, q: Ingest)
    requires Follows(RateOf(rates, q.app, q.now), history, q.now) && q.now <= q.later
    requires q.later - q.now <= RATE_IDLE_RESET - RATE_WINDOW
    ensures Accepts(rates, q) <==> Fits(history, q.now, q.count)
  {
    CheckDecidesByHistory(RateOf(rates, q.app, q.now), history, q.now, q.now, q.later, q.count);
  }

  lemma NextKeepsPace(rates: map<string, Rate>, history: seq<int>, q: Ingest)
    requires Follows(RateOf(rates, q.app, q.now), history, q.now) && Paced(history) && q.now <= q.later <= q.commit
    ensures Follows(Next(rates, q)[q.app], Extended(history, rates, q), q.commit)
    ensures Paced(Extended(history, rates, q))
  {
    AcceptsByHistory(rates, history, q);
    var checked := AfterCheck(RateOf(rates, q.app, q.now), q.now, q.later);
    if Accepts(rates, q) && q.stored {
      AcceptedKeepsPace(checked, history, DecisionTime(rates, q), q.later, q.commit, q.count);
    } else {
      FollowsLater(checked, history, q.later, q.commit);
    }
  }

  lemma {:induction false} RunFollows(qs: seq<Ingest>, app: string, start: int)
    requires Timely(qs, start)
    ensures Followed(Run(qs), app, History(qs, app), Clock(qs, start))
    ensures Paced(History(qs, app))
  {
    if qs != [] {
      var before := qs[..|qs| - 1];
      var q := qs[|qs| - 1];
      forall i | 0 <= i < |before|
        ensures TimelyAt(before, i, start)
      {
        assert TimelyAt(qs, i, start);
      }
      RunFollows(before, app, start);
      assert TimelyAt(qs, |before|, start);
      if q.app == app {
        FollowedRate(Run(before), app, History(before, app), Clock(before, start), q.now);
        NextKeepsPace(Run(before), History(before, app), q);
      } else {
        assert History(qs, app) == History(before, app);
        if app in Run(before) {
          FollowsLater(Run(before)[app], History(before, app), Clock(before, start), q.commit);
        }
      }
    }
  }

  lemma RunFollowsRate(qs: seq<Ingest>, q: Ingest, start: int)
    requires Timely(qs, start) && Clock(qs, start) <= q.now
    ensures Follows(RateOf(Run(qs), q.app, q.now), History(qs, q.app), q.now)
  {
    RunFollows(qs, q.app, start);
    FollowedRate(Run(qs), q.app, History(qs, q.app), Clock(qs, start), q.now);
  }

  /** Main theorem: over any run, however long its checks are suspended, no 60-second window holds more
      than 120 committed events of one application. The next batch is refused exactly when the full
      history leaves no room at the reading for which the check decides, which is the first one unless
      the check is suspended for 540 seconds before the second. */
  lemma BudgetIsExact(qs: seq<Ingest>, q: Ingest, start: int)
    requires Timely(qs, start) && Clock(qs, start) <= q.now <= q.later
    ensures Paced(History(qs, q.app))
    ensures Accepts(Run(qs), q) <==> Fits(History(qs, q.app), DecisionTime(Run(qs), q), q.count)
    ensures q.later - q.now <= 540 * SECOND ==>
              (Accepts(Run(qs), q) <==> Fits(History(qs, q.app), q.now, q.count))
  {
    RunFollows(qs, q.app, start);
    RunFollowsRate(qs, q, start);
    AcceptsByHistory(Run(qs), History(qs, q.app), q);
    if q.later - q.now <= RATE_IDLE_RESET - RATE_WINDOW {
      UnsuspendedAccepts(Run(qs), History(qs, q.app), q);
    }
  }

  /** A check suspended between its two readings can forget live events: the reset drops an event still
      inside the window exactly when these two comparisons hold. */
  lemma ResetForgetsExactlyWhen(rate: Rate, history: seq<int>, clock: int, now: int, later: int)
    requires Follows(rate, history, clock) && clock <= now <= later && rate.events != []
    ensures AfterCheck(rate, now, later).events != Recent(history, now - RATE_WINDOW) <==>
            later - rate.last > 600 * SECOND && rate.events[|rate.events| - 1] > now - 60 * SECOND
  {
    AfterCheckIs(rate, now, later);
    LiveExactlyWhen(rate, history, clock, now - RATE_WINDOW);
    KeptAreRecent(rate, history, clock, now - RATE_WINDOW);
  }

  /** What that means for a decision: in any run a batch is accepted that the full history refuses at the
      check's first reading exactly when the check resets, the batch alone is within the budget, and
      with the events of the last minute it is not. No batch is refused that the history has room for. */
  lemma ResetAdmitsExactlyWhen(qs: seq<Ingest>, q: Ingest, start: int)
    requires Timely(qs, start) && Clock(qs, start) <= q.now <= q.later
    ensures Fits(History(qs, q.app), q.now, q.count) ==> Accepts(Run(qs), q)
    ensures Accepts(Run(qs), q) && !Fits(History(qs, q.app), q.now, q.count) <==>
            && q.later - RateOf(Run(qs), q.app, q.now).last > 600 * SECOND
            && q.count <= 120 && Live(History(qs, q.app), q.now) + q.count > 120
  {
    RunFollowsRate(qs, q, start);
    AcceptsByHistory(Run(qs), History(qs, q.app), q);
    ResetHasRoom(Run(qs), History(qs, q.app), q);
    AdmitsIs(Run(qs), History(qs, q.app), q);
  }

  lemma AdmitsIs(rates: map<string, Rate>, history: seq<int>, q: Ingest)
    requires Accepts(rates, q) <==> Fits(history, DecisionTime(rates, q), q.count)
    requires Resets(RateOf(rates, q.app, q.now), q.later) ==> Live(history, q.later) == 0
    ensures Fits(history, q.now, q.count) ==> Accepts(rates, q)
    ensures Accepts(rates, q) && !Fits(history, q.now, q.count) <==>
            && q.later - RateOf(rates, q.app, q.now).last > RATE_IDLE_RESET
            && q.count <= RATE_MAX_EVENTS
            && Live(history, q.now) + q.count > RATE_MAX_EVENTS
  {
  }

  lemma ResetHasRoom(rates: map<string, Rate>, history: seq<int>, q: Ingest)
    requires Follows(RateOf(rates, q.app, q.now), history, q.now) && q.now <= q.later
    ensures Resets(RateOf(rates, q.app, q.now), q.later) ==> Live(history, q.later) == 0
  {
    ResetCount(RateOf(rates, q.app, q.now), history, q.now, q.later);
  }

  /** A full batch, and a second later another whose check is suspended for more than ten minutes. */
  function SuspendedRun(app: string): (seq<Ingest>, Ingest) {
    ([Ingest(app, RATE_MAX_EVENTS, 0, 0, true, 0)],
     Ingest(app, RATE_MAX_EVENTS, SECOND, SECOND + RATE_IDLE_RESET, true, SECOND + RATE_IDLE_RESET))
  }

  /** A run in which that happens. */
  lemma ResetCanAdmit(app: string)
    ensures var (qs, q) := SuspendedRun(app);
            Timely(qs, 0) && Accepts(Run(qs), q) && !Fits(History(qs, app), q.now, q.count)
  {
    var (qs, q) := SuspendedRun(app);
    var batch := Repeat(0, RATE_MAX_EVENTS);
    FirstBatch(app);
    assert TimelyAt(qs, 0, 0);
    assert [] + batch == batch;
    StaleIs([], -RATE_WINDOW, 0);
    SortedAppend([], 0, RATE_MAX_EVENTS);
    StaleIs(batch, SECOND - RATE_WINDOW, 0);
    ResetAdmitsExactlyWhen(qs, q, 0);
  }

  lemma FirstBatch(app: string)
    ensures var qs := SuspendedRun(app).0;
            var batch := Repeat(0, RATE_MAX_EVENTS);
            Run(qs) == map[app := Rate(0, batch)] && History(qs, app) == batch
  {
    var q := SuspendedRun(app).0[0];
    var batch := Repeat(0, RATE_MAX_EVENTS);
    assert [q][..0] == [] && [] + batch == batch;
    assert AfterCheck(Rate(0, []), 0, 0) == Rate(0, []);
    assert Accepts(map[], q);
  }

  lemma LiveExactlyWhen(rate: Rate, history: seq<int>, clock: int, cutoff: int)
    requires Follows(rate, history, clock) && rate.events != []
    ensures Recent(history, cutoff) != [] <==> rate.events[|rate.events| - 1] > cutoff
  {
    NewestOf(rate, history, clock);
    EmptyRecentExactlyWhen(history, cutoff);
  }

  lemma NewestOf(rate: Rate, history: seq<int>, clock: int)
    requires Follows(rate, history, clock) && rate.events != []
    ensures history != [] && rate.events[|rate.events| - 1] == history[|history| - 1]
  {
  }

  /** The bound is on half-open windows: 240 events fit in a closed window of exactly 60 seconds. */
  lemma ClosedWindowMayHoldTwice()
    ensures var h := Repeat(0, RATE_MAX_EVENTS);
            Paced(h) && Fits(h, RATE_WINDOW, RATE_MAX_EVENTS) &&
            Paced(h + Repeat(RATE_WINDOW, RATE_MAX_EVENTS))
  {
    var h := Repeat(0, RATE_MAX_EVENTS);
    assert [] + h == h;
    SortedAppend([], 0, RATE_MAX_EVENTS);
    StaleIs(h, 0, RATE_MAX_EVENTS);
    FittingBatchKeepsPace(h, RATE_WINDOW, RATE_WINDOW, RATE_MAX_EVENTS);
  }

  /** No closed window of 60 seconds holds more than 120 events. */
  ghost predicate ClosedPaced(history: seq<int>) {
    forall i, j :: 0 <= i && i + 120 <= j < |history| ==> history[i] + 60 * SECOND < history[j]
  }

  /** The events of the closed window that ends now. */
  function ClosedWindow(history: seq<int>, now: int): seq<int> {
    Recent(history, now - RATE_WINDOW - 1)
  }

  lemma OverfullClosedWindow(history: seq<int>, now: int, count: nat)
    requires Sorted(history) && UpTo(history, now)
    requires |ClosedWindow(history, now)| + count > RATE_MAX_EVENTS
    ensures !ClosedPaced(history + Repeat(now, count))
  {
    var h := history + Repeat(now, count);
    var n := Stale(history, now - RATE_WINDOW - 1);
    var m := n + RATE_MAX_EVENTS;
    SortedAppend(history, now, count);
    SortedOrder(h, m, |h| - 1);
    assert h[|h| - 1] <= now && h[n] >= now - RATE_WINDOW;
  }

  lemma RoomyClosedWindow(history: seq<int>, now: int, count: nat)
    requires Sorted(history) && ClosedPaced(history)
    requires |ClosedWindow(history, now)| + count <= RATE_MAX_EVENTS
    ensures ClosedPaced(history + Repeat(now, count))
  {
    var h := history + Repeat(now, count);
    var n := Stale(history, now - RATE_WINDOW - 1);
    forall i, j | 0 <= i && i + RATE_MAX_EVENTS <= j < |h|
      ensures h[i] + RATE_WINDOW < h[j]
    {
      if j >= |history| {
        SortedOrder(history, i, n - 1);
        assert h[i] == history[i] && h[j] == now;
      } else {
        assert h[i] == history[i] && h[j] == history[j];
      }
    }
  }

  /** Closed windows stay within the budget exactly when the batch fits beside the events of the closed
      window; the check leaves out those exactly 60 seconds old. */
  lemma ClosedPaceExactlyWhen(history: seq<int>, now: int, count: nat)
    requires Sorted(history) && UpTo(history, now) && ClosedPaced(history)
    ensures ClosedPaced(history + Repeat(now, count)) <==>
            |ClosedWindow(history, now)| + count <= RATE_MAX_EVENTS
  {
    if |ClosedWindow(history, now)| + count <= RATE_MAX_EVENTS {
      RoomyClosedWindow(history, now, count);
    } else {
      OverfullClosedWindow(history, now, count);
    }
  }
}
