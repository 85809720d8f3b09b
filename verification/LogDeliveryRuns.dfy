/** Every run of the log queue: order and uniqueness of acknowledgements, batches Core accepts, and
    an account of every event. */
module LogDeliveryRuns {
  import opened Wrappers
  import opened Sequences
  import opened LogMessages
  import opened LogDelivery

  datatype Step = Log(stream: Stream, raw: Text) | Start | Ack | Failure

  function Next(s: State, step: Step): State {
    match step
    case Log(stream, raw) => AfterLog(s, stream, Bounded(raw))
    case Start => AfterStart(s)
    case Ack => AfterAck(s)
    case Failure => AfterFailure(s)
  }

  function Run(steps: seq<Step>): State {
    if steps == [] then START else Next(Run(steps[..|steps| - 1]), steps[|steps| - 1])
  }

  // ---- Order ----

  /** Different objects, and ordinary items of one stream in the order they were enqueued. */
  predicate Earlier(x: Item, y: Item) {
    x.id != y.id && (x.ordinary && y.ordinary && x.stream == y.stream ==> x.id < y.id)
  }

  predicate Before(a: seq<Item>, b: seq<Item>) {
    forall x, y :: x in a && y in b ==> Earlier(x, y)
  }

  predicate Ordered(items: seq<Item>) {
    items == [] || (Before([items[0]], items[1..]) && Ordered(items[1..]))
  }

  lemma {:induction false} OrderedConcat(a: seq<Item>, b: seq<Item>)
    ensures Ordered(a + b) <==> Ordered(a) && Ordered(b) && Before(a, b)
  {
    if a == [] {
      assert a + b == b;
    } else {
      DropOfAppend(a, b, 1);
      OrderedConcat(a[1..], b);
      BeforeConcat(a[0], a[1..], b);
    }
  }

  lemma BeforeConcat(x: Item, a: seq<Item>, b: seq<Item>)
    ensures Before([x], a + b) <==> Before([x], a) && Before([x], b)
    ensures Before([x] + a, b) <==> Before([x], b) && Before(a, b)
  {
  }

  lemma {:induction false} OrderedAt(items: seq<Item>, i: nat, j: nat)
    requires Ordered(items) && i < j < |items|
    ensures Earlier(items[i], items[j])
  {
    if i == 0 {
      assert items[j] == items[1..][j - 1];
    } else {
      OrderedAt(items[1..], i - 1, j - 1);
    }
  }

  lemma HeadIsEarlier(items: seq<Item>, y: Item)
    requires Ordered(items) && items != [] && y in items[1..]
    ensures Earlier(items[0], y)
  {
    assert items[0] in [items[0]];
  }

  lemma {:induction false} SameId(items: seq<Item>, x: Item, y: Item)
    requires Ordered(items) && x in items && y in items && x.id == y.id
    ensures x == y
  {
    if x in items[1..] && y in items[1..] {
      SameId(items[1..], x, y);
    } else if x in items[1..] {
      HeadIsEarlier(items, x);
    } else if y in items[1..] {
      HeadIsEarlier(items, y);
    }
  }

  // ---- Removing and selecting ----

  lemma {:induction false} RemoveFirstIs(items: seq<Item>, item: Item)
    requires Ordered(items)
    ensures Ordered(RemoveFirst(items, item))
    ensures forall x :: x in RemoveFirst(items, item) <==> x in items && x != item
    ensures |RemoveFirst(items, item)| == if item in items then |items| - 1 else |items|
  {
    if items != [] && items[0] == item {
      assert forall x :: x in items[1..] ==> Earlier(item, x);
    } else if items != [] {
      RemoveFirstIs(items[1..], item);
      var rest := RemoveFirst(items[1..], item);
      assert ([items[0]] + rest)[1..] == rest;
    }
  }

  lemma {:induction false} RemoveEachIs(items: seq<Item>, gone: seq<Item>)
    requires Ordered(items)
    ensures Ordered(RemoveEach(items, gone))
    ensures forall x :: x in RemoveEach(items, gone) <==> x in items && x !in gone
    ensures |RemoveEach(items, gone)| <= |items|
    ensures |RemoveEach(items, gone)| == |items| <==> forall x :: x in gone ==> x !in items
  {
    if gone != [] {
      var init, last := gone[..|gone| - 1], gone[|gone| - 1];
      RemoveEachIs(items, init);
      RemoveFirstIs(RemoveEach(items, init), last);
      assert gone == init + [last];
    }
  }

  lemma {:induction false} OfStreamIs(items: seq<Item>, stream: Stream)
    requires Ordered(items)
    ensures Ordered(OfStream(items, stream))
    ensures forall x :: x in OfStream(items, stream) <==> x in items && x.stream == stream
  {
    if items != [] {
      OfStreamIs(items[1..], stream);
      var rest := OfStream(items[1..], stream);
      assert ([items[0]] + rest)[1..] == rest;
      assert [] + rest == rest;
      assert Before([items[0]], rest);
    }
  }

  /** A batch, and what it leaves: other items of its stream all come later. */
  predicate IsBatch(batch: seq<Item>, queue: seq<Item>) {
    && 1 <= |batch| <= MAX_LOG_BATCH
    && Ordered(batch)
    && (forall x, y :: x in batch && y in batch ==> x.stream == y.stream)
    && (forall x, y :: x in batch && y in queue ==> y in batch || Earlier(x, y))
  }

  lemma BatchIs(queue: seq<Item>)
    requires Ordered(queue) && queue != []
    ensures IsBatch(Batch(queue), queue)
    ensures forall x :: x in Batch(queue) ==> x in queue
  {
    var stream := queue[0].stream;
    var same := OfStream(queue, stream);
    OfStreamIs(queue, stream);
    assert queue[0] in same;
    var batch := Batch(queue);
    var later := same[|batch|..];
    assert same == batch + later;
    OrderedConcat(batch, later);
    forall x, y | x in batch && y in queue && y !in batch
      ensures Earlier(x, y)
    {
      if y.stream == stream {
        assert y in later;
      } else if x.id == y.id {
        SameId(queue, x, y);
      }
    }
  }

  // ---- The invariant ----

  predicate Below(items: seq<Item>, n: nat) {
    forall x :: x in items ==> x.id < n
  }

  function Ids(items: seq<Item>): set<nat> {
    set x | x in items :: x.id
  }

  predicate OrderInv(s: State) {
    && Ordered(s.queue) && Ordered(s.acked) && Before(s.acked, s.queue)
    && Below(s.queue, s.nextId) && Below(s.acked, s.nextId)
  }

  predicate FlightInv(s: State) {
    s.inFlight.Some? ==>
      var batch := s.inFlight.value;
      IsBatch(batch, s.queue) && Before(s.acked, batch) && Below(batch, s.nextId)
  }

  predicate SizeInv(s: State) {
    && AllBounded(s.queue) && s.dropped <= MAX_COUNT
    && (s.inFlight.Some? ==> AllBounded(s.inFlight.value))
  }

  /** Every object ever enqueued is still queued, or was acknowledged, or was shifted out. */
  predicate CoverInv(s: State) {
    forall id: nat :: id < s.nextId ==> Covered(s, id)
  }

  predicate Covered(s: State, id: nat) {
    id in Ids(s.queue) || id in Ids(s.acked) || id in Ids(s.lost)
  }

  /** As long as a JavaScript number can count them, shifted-out items are counted until reported. */
  predicate CountInv(s: State) {
    |s.lost| < MAX_COUNT ==> |s.lost| == s.dropped + s.reported
  }

  lemma LogKeepsOrder(s: State, stream: Stream, message: Text)
    requires OrderInv(s)
    ensures OrderInv(AfterLog(s, stream, message))
  {
    var full := |s.queue| >= MAX_QUEUED_LOGS;
    var kept := if full then s.queue[1..] else s.queue;
    var item := Item(s.nextId, stream, true, message);
    assert Ordered(kept) && forall x :: x in kept ==> x in s.queue;
    OneIsOrdered(item);
    assert Before(kept, [item]) && Before(s.acked, kept + [item]);
    OrderedConcat(kept, [item]);
  }

  lemma OneIsOrdered(item: Item)
    ensures Ordered([item])
  {
    assert [item][1..] == [];
  }

  lemma LogKeepsFlight(s: State, stream: Stream, message: Text)
    requires FlightInv(s)
    ensures FlightInv(AfterLog(s, stream, message))
  {
    if s.inFlight.Some? {
      var batch := s.inFlight.value;
      var next := AfterLog(s, stream, message);
      forall x, y | x in batch && y in next.queue
        ensures y in batch || Earlier(x, y)
      {
        assert y in s.queue || y.id == s.nextId;
      }
    }
  }

  lemma StartKeepsOrder(s: State)
    requires OrderInv(s) && FlightInv(s)
    ensures OrderInv(AfterStart(s)) && FlightInv(AfterStart(s))
  {
    if s.inFlight.None? && s.queue != [] {
      BatchIs(s.queue);
    }
  }

  lemma AckKeepsOrder(s: State)
    requires OrderInv(s) && FlightInv(s)
    ensures OrderInv(AfterAck(s)) && FlightInv(AfterAck(s))
  {
    if s.inFlight.Some? {
      var batch := s.inFlight.value;
      var rest := RemoveEach(s.queue, batch);
      RemoveEachIs(s.queue, batch);
      OrderedConcat(s.acked, batch);
      assert Before(s.acked + batch, rest);
      var notice := [Item(s.nextId, Runtime, false, NoticeText(s.dropped))];
      OrderedConcat(notice, rest);
    }
  }

  lemma StepKeepsOrder(s: State, step: Step)
    requires OrderInv(s) && FlightInv(s)
    ensures OrderInv(Next(s, step)) && FlightInv(Next(s, step))
  {
    match step
    case Log(stream, raw) =>
      LogKeepsOrder(s, stream, Bounded(raw));
      LogKeepsFlight(s, stream, Bounded(raw));
    case Start => StartKeepsOrder(s);
    case Ack => AckKeepsOrder(s);
    case Failure =>
  }

  lemma StepKeepsSizes(s: State, step: Step)
    requires OrderInv(s) && SizeInv(s)
    ensures SizeInv(Next(s, step))
  {
    match step
    case Log(stream, raw) => BoundedFits(raw);
    case Start =>
      if s.queue != [] {
        BatchIs(s.queue);
      }
    case Ack =>
      NoticeFits(s.dropped);
      if s.inFlight.Some? {
        RemoveEachIs(s.queue, s.inFlight.value);
      }
    case Failure =>
  }

  lemma CoveredBy(s: State, x: Item)
    requires x in s.queue || x in s.acked || x in s.lost
    ensures Covered(s, x.id)
  {
  }

  lemma LogKeepsCover(s: State, stream: Stream, message: Text)
    requires CoverInv(s)
    ensures CoverInv(AfterLog(s, stream, message))
  {
    var next := AfterLog(s, stream, message);
    forall id: nat | id < next.nextId
      ensures Covered(next, id)
    {
      if id == s.nextId {
        CoveredBy(next, next.queue[|next.queue| - 1]);
      } else {
        assert Covered(s, id);
        var x :| (x in s.queue || x in s.acked || x in s.lost) && x.id == id;
        CoveredBy(next, x);
      }
    }
  }

  lemma AckKeepsCover(s: State)
    requires OrderInv(s) && CoverInv(s)
    ensures CoverInv(AfterAck(s))
  {
    if s.inFlight.Some? {
      var next := AfterAck(s);
      RemoveEachIs(s.queue, s.inFlight.value);
      forall id: nat | id < next.nextId
        ensures Covered(next, id)
      {
        if id == s.nextId {
          CoveredBy(next, next.queue[0]);
        } else {
          assert Covered(s, id);
          var x :| (x in s.queue || x in s.acked || x in s.lost) && x.id == id;
          CoveredBy(next, x);
        }
      }
    }
  }

  lemma StepKeepsAccount(s: State, step: Step)
    requires OrderInv(s) && CoverInv(s) && CountInv(s)
    ensures CoverInv(Next(s, step)) && CountInv(Next(s, step))
  {
    match step
    case Log(stream, raw) => LogKeepsCover(s, stream, Bounded(raw));
    case Start => SameCover(s, AfterStart(s));
    case Ack => AckKeepsCover(s);
    case Failure => SameCover(s, AfterFailure(s));
  }

  lemma SameCover(s: State, next: State)
    requires CoverInv(s) && next == s.(inFlight := next.inFlight)
    ensures CoverInv(next)
  {
    forall id: nat | id < s.nextId
      ensures Covered(next, id)
    {
      assert Covered(s, id);
    }
  }

  lemma {:induction false} RunKeepsInv(steps: seq<Step>)
    ensures OrderInv(Run(steps)) && FlightInv(Run(steps)) && SizeInv(Run(steps))
    ensures CoverInv(Run(steps)) && CountInv(Run(steps))
  {
    if steps != [] {
      var before := steps[..|steps| - 1];
      RunKeepsInv(before);
      StepKeepsOrder(Run(before), steps[|steps| - 1]);
      StepKeepsSizes(Run(before), steps[|steps| - 1]);
      StepKeepsAccount(Run(before), steps[|steps| - 1]);
    }
  }

  // ---- Main results ----

  /** Core's check of a batch: not empty, at most 16 messages, each of at most 1024 bytes. */
  predicate ValidLogBatch(messages: seq<Text>) {
    && messages != [] && |messages| <= 16
    && forall i :: 0 <= i < |messages| ==> ByteLength(messages[i]) <= 1024
  }

  function Messages(items: seq<Item>): seq<Text> {
    seq(|items|, i requires 0 <= i < |items| => items[i].message)
  }

  /** Core takes a batch that decodes, which no lone surrogate does, and passes its check. */
  predicate CoreAccepts(messages: seq<Text>) {
    ValidLogBatch(messages) && forall i :: 0 <= i < |messages| ==> WellFormed(messages[i])
  }

  /** A well-formed message that is not cut inside a surrogate pair. */
  ghost predicate Survives(raw: Text) {
    WellFormed(raw) && !(ByteLength(raw) > 1024 && exists p: nat :: PairAfterBudget(raw, p))
  }

  ghost predicate AllSurvive(steps: seq<Step>) {
    forall i :: 0 <= i < |steps| && steps[i].Log? ==> Survives(steps[i].raw)
  }

  predicate AllWellFormed(items: seq<Item>) {
    forall x :: x in items ==> WellFormed(x.message)
  }

  predicate TextInv(s: State) {
    AllWellFormed(s.queue) && (s.inFlight.Some? ==> AllWellFormed(s.inFlight.value))
  }

  lemma StepKeepsTexts(s: State, step: Step)
    requires OrderInv(s) && s.dropped <= MAX_COUNT && TextInv(s) && (step.Log? ==> Survives(step.raw))
    ensures TextInv(Next(s, step))
  {
    match step
    case Log(stream, raw) => BoundedIsWellFormedExactlyWhen(raw);
    case Start =>
      if s.queue != [] {
        BatchIs(s.queue);
      }
    case Ack =>
      NoticeFits(s.dropped);
      if s.inFlight.Some? {
        RemoveEachIs(s.queue, s.inFlight.value);
      }
    case Failure =>
  }

  lemma {:induction false} RunKeepsTexts(steps: seq<Step>)
    requires AllSurvive(steps)
    ensures TextInv(Run(steps))
  {
    if steps != [] {
      var before := steps[..|steps| - 1];
      RunKeepsInv(before);
      RunKeepsTexts(before);
      StepKeepsTexts(Run(before), steps[|steps| - 1]);
    }
  }

  /** In every run each batch sent is of one stream and within Core's limits; and Core takes every
      batch if no message was ill-formed or cut inside a surrogate pair. */
  lemma EveryBatchIsValid(steps: seq<Step>)
    requires Run(steps).inFlight.Some?
    ensures var batch := Run(steps).inFlight.value;
            && ValidLogBatch(Messages(batch)) && (forall x, y :: x in batch && y in batch ==> x.stream == y.stream)
            && (AllSurvive(steps) ==> CoreAccepts(Messages(batch)))
  {
    RunKeepsInv(steps);
    var batch := Run(steps).inFlight.value;
    assert forall i :: 0 <= i < |batch| ==> batch[i] in batch;
    if AllSurvive(steps) {
      RunKeepsTexts(steps);
    }
  }

  /** A well-formed message that Core never takes: bounding it leaves half a pair. */
  lemma SplitMessageIsRefused()
    ensures var batch := Run([Log(Plugin, SplitExample())] + [Start]).inFlight;
            WellFormed(SplitExample()) && batch.Some? && !CoreAccepts(Messages(batch.value))
  {
    var message := SplitExample();
    BoundingCanBreakAPair();
    FirstInFlight(message);
    assert Messages([Item(0, Plugin, true, Bounded(message))])[0] == Bounded(message);
  }

  function RunFrom(s: State, steps: seq<Step>): State {
    if steps == [] then s else Next(RunFrom(s, steps[..|steps| - 1]), steps[|steps| - 1])
  }

  /** Core acknowledges only batches it accepts. */
  predicate CoreDecides(s: State, steps: seq<Step>) {
    steps == [] ||
    var before := RunFrom(s, steps[..|steps| - 1]);
    && CoreDecides(s, steps[..|steps| - 1])
    && (steps[|steps| - 1].Ack? && before.inFlight.Some? ==> CoreAccepts(Messages(before.inFlight.value)))
  }

  /** The head of the queue does not decode, and is part of any batch in flight. */
  predicate Blocked(s: State, head: Item) {
    && OrderInv(s) && FlightInv(s)
    && s.queue != [] && s.queue[0] == head && !WellFormed(head.message)
    && (s.inFlight.Some? ==> head in s.inFlight.value)
  }

  lemma BatchHasHead(queue: seq<Item>)
    requires queue != []
    ensures queue[0] in Batch(queue)
  {
    assert OfStream(queue, queue[0].stream)[0] == queue[0];
  }

  lemma BlockedBatchIsRefused(s: State, head: Item)
    requires Blocked(s, head) && s.inFlight.Some?
    ensures !CoreAccepts(Messages(s.inFlight.value))
  {
    var batch := s.inFlight.value;
    var i :| 0 <= i < |batch| && batch[i] == head;
    assert Messages(batch)[i] == head.message;
  }

  lemma BlockedStep(s: State, head: Item, step: Step)
    requires Blocked(s, head)
    requires step.Ack? && s.inFlight.Some? ==> CoreAccepts(Messages(s.inFlight.value))
    ensures var next := Next(s, step);
            s.lost <= next.lost && (next.lost == s.lost ==> Blocked(next, head) && next.acked == s.acked)
  {
    StepKeepsOrder(s, step);
    if step.Start? {
      BatchHasHead(s.queue);
    }
    if step.Ack? && s.inFlight.Some? {
      BlockedBatchIsRefused(s, head);
    }
  }

  /** A head that does not decode blocks delivery: nothing is acknowledged until a full queue shifts
      an item out. */
  lemma {:induction false} MalformedHeadBlocks(s: State, head: Item, steps: seq<Step>)
    requires Blocked(s, head) && CoreDecides(s, steps)
    ensures var next := RunFrom(s, steps);
            s.lost <= next.lost && (next.lost == s.lost ==> Blocked(next, head) && next.acked == s.acked)
  {
    if steps != [] {
      var init := steps[..|steps| - 1];
      MalformedHeadBlocks(s, head, init);
      var before := RunFrom(s, init);
      if before.lost == s.lost {
        BlockedStep(before, head, steps[|steps| - 1]);
      } else {
        LostGrows(before, steps[|steps| - 1]);
      }
    }
  }

  lemma LostGrows(s: State, step: Step)
    ensures s.lost <= Next(s, step).lost
  {
  }

  /** In every run no object is acknowledged twice, and per stream ordinary events are acknowledged in
      the order they were enqueued, whatever was shifted out, retried or announced in between. */
  lemma AcknowledgedOnceInOrder(steps: seq<Step>, i: nat, j: nat)
    requires i < j < |Run(steps).acked|
    ensures var acked := Run(steps).acked;
            && acked[i].id != acked[j].id
            && (acked[i].ordinary && acked[j].ordinary && acked[i].stream == acked[j].stream ==>
                  acked[i].id < acked[j].id)
  {
    RunKeepsInv(steps);
    OrderedAt(Run(steps).acked, i, j);
  }

  // ---- Shifted out, and acknowledged all the same ----

  /** After n steps the event has been shifted out while its batch, still unanswered, is in flight. */
  predicate LostInFlight(steps: seq<Step>, n: nat, id: nat)
    requires n <= |steps|
  {
    && n > 0
    && match steps[n - 1]
       case Log(_, _) =>
         var s := Run(steps[..n - 1]);
         || (|s.queue| >= MAX_QUEUED_LOGS && s.queue[0].id == id && s.inFlight.Some? && id in Ids(s.inFlight.value))
         || LostInFlight(steps, n - 1, id)
       case Start => LostInFlight(steps, n - 1, id)
       case _ => false
  }

  /** Its batch was acknowledged after that. */
  predicate AckedAfterLoss(steps: seq<Step>, n: nat, id: nat)
    requires n <= |steps|
  {
    n > 0 && ((steps[n - 1].Ack? && LostInFlight(steps, n - 1, id)) || AckedAfterLoss(steps, n - 1, id))
  }

  /** What is shifted out does not come back. */
  predicate GoneInv(s: State) {
    Below(s.lost, s.nextId) && forall x, y :: x in s.lost && y in s.queue ==> x.id != y.id
  }

  lemma StepKeepsGone(s: State, step: Step)
    requires OrderInv(s) && GoneInv(s)
    ensures GoneInv(Next(s, step))
  {
    match step
    case Log(stream, raw) =>
      if s.queue != [] {
        forall y | y in s.queue[1..]
          ensures y.id != s.queue[0].id
        {
          HeadIsEarlier(s.queue, y);
        }
      }
    case Ack =>
      if s.inFlight.Some? {
        RemoveEachIs(s.queue, s.inFlight.value);
      }
    case _ =>
  }

  predicate HasId(items: seq<Item>, id: nat) {
    id in Ids(items)
  }

  predicate FlyingLost(s: State, id: nat) {
    s.inFlight.Some? && HasId(s.inFlight.value, id) && HasId(s.lost, id)
  }

  predicate Both(s: State, id: nat) {
    HasId(s.acked, id) && HasId(s.lost, id)
  }

  lemma IdsConcat(a: seq<Item>, b: seq<Item>, id: nat)
    ensures HasId(a + b, id) <==> HasId(a, id) || HasId(b, id)
  {
  }

  lemma LogLoses(s: State, stream: Stream, message: Text, id: nat)
    requires OrderInv(s)
    ensures var next := AfterLog(s, stream, message);
            var shifted := |s.queue| >= MAX_QUEUED_LOGS && s.queue[0].id == id;
            && (FlyingLost(next, id) <==>
                  (shifted && s.inFlight.Some? && HasId(s.inFlight.value, id)) || FlyingLost(s, id))
            && (Both(next, id) <==> Both(s, id))
  {
    if |s.queue| >= MAX_QUEUED_LOGS {
      IdsConcat(s.lost, [s.queue[0]], id);
      NotBoth(s.acked, s.queue);
      assert s.queue[0] in s.queue && s.queue[0].id in Ids(s.queue);
    }
  }

  lemma StartLosesNothing(s: State, id: nat)
    requires OrderInv(s) && GoneInv(s)
    ensures FlyingLost(AfterStart(s), id) <==> FlyingLost(s, id)
    ensures Both(AfterStart(s), id) <==> Both(s, id)
  {
    if s.inFlight.None? && s.queue != [] {
      BatchIs(s.queue);
    }
  }

  lemma AckMakesBoth(s: State, id: nat)
    ensures Both(AfterAck(s), id) <==> Both(s, id) || FlyingLost(s, id)
    ensures !FlyingLost(AfterAck(s), id)
  {
    if s.inFlight.Some? {
      IdsConcat(s.acked, s.inFlight.value, id);
    }
  }

  lemma {:induction false} LossesAre(steps: seq<Step>, n: nat, id: nat)
    requires n <= |steps|
    ensures GoneInv(Run(steps[..n]))
    ensures FlyingLost(Run(steps[..n]), id) <==> LostInFlight(steps, n, id)
    ensures Both(Run(steps[..n]), id) <==> AckedAfterLoss(steps, n, id)
  {
    if n > 0 {
      LossesAre(steps, n - 1, id);
      var s, step := Run(steps[..n - 1]), steps[n - 1];
      assert steps[..n][..n - 1] == steps[..n - 1];
      RunKeepsInv(steps[..n - 1]);
      StepKeepsGone(s, step);
      match step
      case Log(stream, raw) => LogLoses(s, stream, Bounded(raw), id);
      case Start => StartLosesNothing(s, id);
      case Ack => AckMakesBoth(s, id);
      case Failure =>
    }
  }

  /** The k-th step made the item: a logged event bounded, or a notice of the losses so far. */
  predicate MadeAt(steps: seq<Step>, k: nat, x: Item) {
    && k < |steps| && x.id == Run(steps[..k]).nextId
    && match steps[k]
       case Log(stream, raw) => x.ordinary && x.stream == stream && x.message == Bounded(raw)
       case Ack =>
         !x.ordinary && x.stream == Runtime && Run(steps[..k]).dropped > 0 &&
         x.message == NoticeText(Run(steps[..k]).dropped)
       case _ => false
  }

  predicate Present(s: State, x: Item) {
    x in s.queue || x in s.acked || x in s.lost || (s.inFlight.Some? && x in s.inFlight.value)
  }

  lemma {:induction false} RemoveEachKeeps(items: seq<Item>, gone: seq<Item>, x: Item)
    ensures x in RemoveEach(items, gone) ==> x in items
  {
    if gone != [] {
      RemoveEachKeeps(items, gone[..|gone| - 1], x);
      RemoveFirstKeeps(RemoveEach(items, gone[..|gone| - 1]), gone[|gone| - 1], x);
    }
  }

  lemma {:induction false} RemoveFirstKeeps(items: seq<Item>, item: Item, x: Item)
    ensures x in RemoveFirst(items, item) ==> x in items
  {
    if items != [] && items[0] != item {
      RemoveFirstKeeps(items[1..], item, x);
    }
  }

  /** An item present after a step was there before, or the step made it. */
  lemma StepMakes(s: State, step: Step, x: Item)
    requires Present(Next(s, step), x) && !Present(s, x)
    ensures match step
            case Log(stream, raw) => x == Item(s.nextId, stream, true, Bounded(raw))
            case Ack => s.dropped > 0 && x == Item(s.nextId, Runtime, false, NoticeText(s.dropped))
            case _ => false
  {
    match step
    case Ack =>
      if s.inFlight.Some? {
        RemoveEachKeeps(s.queue, s.inFlight.value, x);
      }
    case Start =>
      if s.queue != [] {
        OfStreamInOrder(s.queue, s.queue[0].stream);
      }
    case _ =>
  }

  /** What is queued, sent, acknowledged or lost is what was logged, bounded, or a notice that names the
      losses there were. */
  lemma {:induction false} ItemsCarryTheirEvents(steps: seq<Step>, x: Item) returns (k: nat)
    requires Present(Run(steps), x)
    ensures MadeAt(steps, k, x)
  {
    assert steps != [];
    var before := steps[..|steps| - 1];
    if Present(Run(before), x) {
      k := ItemsCarryTheirEvents(before, x);
      assert before[..k] == steps[..k];
    } else {
      k := |steps| - 1;
      StepMakes(Run(before), steps[k], x);
    }
  }

  /** In every run each event is queued, acknowledged or shifted out, and never queued again once
      acknowledged or shifted out. Every shifted-out item is counted in a notice or about to be; those
      acknowledged nevertheless are exactly those shifted out of a batch in flight that was acknowledged
      afterwards, and for these the notice counts one too many. */
  lemma EveryEventIsAccountedFor(steps: seq<Step>, id: nat)
    requires id < Run(steps).nextId
    ensures var s := Run(steps);
            && Covered(s, id)
            && !(id in Ids(s.queue) && (id in Ids(s.acked) || id in Ids(s.lost)))
            && (|s.lost| < MAX_COUNT ==> |s.lost| == s.dropped + s.reported)
            && (id in Ids(s.acked) && id in Ids(s.lost) <==> AckedAfterLoss(steps, |steps|, id))
  {
    RunKeepsInv(steps);
    LossesAre(steps, |steps|, id);
    assert steps[..|steps|] == steps;
    var s := Run(steps);
    assert Covered(s, id);
    NotBoth(s.acked, s.queue);
    assert Both(s, id) <==> id in Ids(s.acked) && id in Ids(s.lost);
  }

  lemma NotBoth(acked: seq<Item>, queue: seq<Item>)
    requires Before(acked, queue)
    ensures Ids(queue) !! Ids(acked)
  {
    forall x, y | x in acked && y in queue
      ensures x.id != y.id
    {
      assert Earlier(x, y);
    }
  }

  /** A step makes the queue longer than 256 and longer than it was exactly when it acknowledges a
      batch of which nothing is left in a full queue while losses are to be announced. */
  lemma QueueExceedsExactlyWhen(s: State, step: Step)
    requires OrderInv(s)
    ensures |Next(s, step).queue| > MAX_QUEUED_LOGS && |Next(s, step).queue| > |s.queue| <==>
            step.Ack? && s.inFlight.Some? && s.dropped > 0 && |s.queue| >= MAX_QUEUED_LOGS &&
            forall x :: x in s.inFlight.value ==> x !in s.queue
  {
    if step.Ack? && s.inFlight.Some? {
      RemoveEachIs(s.queue, s.inFlight.value);
    }
  }

  /** Log once, start a delivery, and log k more. */
  function Flood(message: Text, k: nat): seq<Step> {
    if k == 0 then [Log(Plugin, message)] + [Start] else Flood(message, k - 1) + [Log(Plugin, message)]
  }

  predicate IsFilling(s: State, message: Text, k: nat) {
    && |s.queue| == k + 1 && s.dropped == 0 && s.lost == [] && s.reported == 0
    && s.queue[0] == Item(0, Plugin, true, Bounded(message)) && s.inFlight == Some([s.queue[0]])
  }

  lemma FillingNext(steps: seq<Step>, message: Text, k: nat)
    requires IsFilling(Run(steps), message, k) && k + 1 < MAX_QUEUED_LOGS
    ensures IsFilling(Run(steps + [Log(Plugin, message)]), message, k + 1)
  {
    RunAppend(steps, Log(Plugin, message));
  }

  lemma {:induction false} Filling(message: Text, k: nat)
    requires k < MAX_QUEUED_LOGS
    ensures IsFilling(Run(Flood(message, k)), message, k)
  {
    if k == 0 {
      FirstInFlight(message);
    } else {
      Filling(message, k - 1);
      FillingNext(Flood(message, k - 1), message, k - 1);
    }
  }

  lemma RunAppend(steps: seq<Step>, step: Step)
    ensures Run(steps + [step]) == Next(Run(steps), step)
  {
    assert (steps + [step])[..|steps|] == steps;
  }

  lemma FirstInFlight(message: Text)
    ensures var item := Item(0, Plugin, true, Bounded(message));
            Run([Log(Plugin, message)] + [Start]) == State([item], 0, Some([item]), [], [], 0, 1)
  {
    var item := Item(0, Plugin, true, Bounded(message));
    RunAppend([], Log(Plugin, message));
    RunAppend([Log(Plugin, message)], Start);
    assert [] + [Log(Plugin, message)] == [Log(Plugin, message)];
    var logged := AfterLog(START, Plugin, Bounded(message));
    assert logged.queue == [item];
    assert OfStream([item], Plugin) == [item] + OfStream([item][1..], Plugin);
    assert Batch([item]) == [item];
    assert AfterStart(logged) == State([item], 0, Some([item]), [], [], 0, 1);
  }

  /** The cap of 256 does not hold of every run. */
  lemma QueueCanExceedCap(message: Text)
    ensures exists steps :: |Run(steps).queue| == MAX_QUEUED_LOGS + 1
  {
    var full := Flood(message, MAX_QUEUED_LOGS - 1);
    Filling(message, MAX_QUEUED_LOGS - 1);
    RunKeepsInv(full);
    OneLostThenAcked(Run(full), message);
    RunAppend(full, Log(Plugin, message));
    RunAppend(full + [Log(Plugin, message)], Ack);
    assert |Run(full + [Log(Plugin, message)] + [Ack]).queue| == MAX_QUEUED_LOGS + 1;
  }

  lemma OneLostThenAcked(s: State, message: Text)
    requires OrderInv(s) && |s.queue| == MAX_QUEUED_LOGS && s.dropped == 0 && s.inFlight == Some([s.queue[0]])
    ensures |Next(Next(s, Log(Plugin, message)), Ack).queue| == MAX_QUEUED_LOGS + 1
  {
    var next := Next(s, Log(Plugin, message));
    LogKeepsOrder(s, Plugin, Bounded(message));
    assert forall x :: x in s.queue[1..] ==> Earlier(s.queue[0], x);
    RemoveEachIs(next.queue, [s.queue[0]]);
  }

  /** An event that is acknowledged and yet reported as dropped. */
  lemma LostCanBeAcknowledged(message: Text)
    ensures exists steps, id: nat :: id < Run(steps).nextId && Both(Run(steps), id) && Run(steps).reported == 1
  {
    var full := Flood(message, MAX_QUEUED_LOGS - 1);
    Filling(message, MAX_QUEUED_LOGS - 1);
    var steps := full + [Log(Plugin, message)] + [Ack];
    RunAppend(full, Log(Plugin, message));
    RunAppend(full + [Log(Plugin, message)], Ack);
    HeadIsBoth(Run(full), message);
    assert 0 < Run(steps).nextId && Both(Run(steps), 0) && Run(steps).reported == 1;
  }

  lemma HeadIsBoth(s: State, message: Text)
    requires |s.queue| == MAX_QUEUED_LOGS && s.dropped == 0 && s.reported == 0 && s.lost == []
    requires s.queue[0].id == 0 && s.inFlight == Some([s.queue[0]])
    ensures var next := Next(Next(s, Log(Plugin, message)), Ack);
            next.nextId > 0 && Both(next, 0) && next.reported == 1
  {
    var logged := Next(s, Log(Plugin, message));
    assert logged.lost == [s.queue[0]];
    assert s.queue[0] in logged.lost && s.queue[0] in s.inFlight.value;
    AckMakesBoth(logged, 0);
  }
}
