/** The injected client's log queue: batches in flight, items shifted out, and what Core acknowledged. */
module LogDelivery {
  import opened Wrappers
  import opened Sequences
  import opened LogMessages
  import Strings

  const MAX_QUEUED_LOGS := 256
  const MAX_LOG_BATCH := 16

  /** The largest count a JavaScript number still increments. */
  const MAX_COUNT := 0x20_0000_0000_0000

  datatype Stream = Runtime | Plugin

  /** A queued object; `id` is its identity, and `ordinary` tells it from a recovery notice. */
  datatype Item = Item(id: nat, stream: Stream, ordinary: bool, message: Text)

  /** The queue, the batch in flight, and the history: acknowledged items, shifted-out items, and the
      dropped events that notices have reported. */
  datatype State = State(
    queue: seq<Item>, dropped: nat, inFlight: Option<seq<Item>>,
    acked: seq<Item>, lost: seq<Item>, reported: nat, nextId: nat)

  const START := State([], 0, None, [], [], 0, 0)

  // ---- Steps ----

  function OfStream(items: seq<Item>, stream: Stream): seq<Item> {
    if items == [] then []
    else (if items[0].stream == stream then [items[0]] else []) + OfStream(items[1..], stream)
  }

  function Batch(queue: seq<Item>): seq<Item> {
    if queue == [] then []
    else
      var same := OfStream(queue, queue[0].stream);
      if |same| <= MAX_LOG_BATCH then same else same[..MAX_LOG_BATCH]
  }

  /** `indexOf` and `splice`: the first occurrence, if any, is removed. */
  function RemoveFirst(items: seq<Item>, item: Item): seq<Item> {
    if items == [] then []
    else if items[0] == item then items[1..]
    else [items[0]] + RemoveFirst(items[1..], item)
  }

  function RemoveEach(items: seq<Item>, gone: seq<Item>): seq<Item> {
    if gone == [] then items else RemoveFirst(RemoveEach(items, gone[..|gone| - 1]), gone[|gone| - 1])
  }

  function Digits(n: nat): Text {
    if n < 10 then [48 + n] else Digits(n / 10) + [48 + n % 10]
  }

  function Ascii(s: string): Text {
    seq(|s|, i requires 0 <= i < |s| => if s[i] as int < 0x80 then s[i] as int else 63)
  }

  function NoticeText(count: nat): Text {
    Ascii("Logging recovered after dropping ") + Digits(count) + Ascii(" event(s)")
  }

  function Increment(n: nat): nat {
    if n == MAX_COUNT then n else n + 1
  }

  function AfterLog(s: State, stream: Stream, message: Text): State {
    var full := |s.queue| >= MAX_QUEUED_LOGS;
    var kept := if full then s.queue[1..] else s.queue;
    s.(queue := kept + [Item(s.nextId, stream, true, message)],
       dropped := if full then Increment(s.dropped) else s.dropped,
       lost := if full then s.lost + [s.queue[0]] else s.lost,
       nextId := s.nextId + 1)
  }

  function AfterStart(s: State): State {
    if s.inFlight.Some? || s.queue == [] then s else s.(inFlight := Some(Batch(s.queue)))
  }

  function AfterAck(s: State): State {
    if s.inFlight.None? then s
    else
      var rest := RemoveEach(s.queue, s.inFlight.value);
      var settled := s.(queue := rest, inFlight := None, acked := s.acked + s.inFlight.value);
      if s.dropped == 0 then settled
      else settled.(queue := [Item(s.nextId, Runtime, false, NoticeText(s.dropped))] + rest,
                    dropped := 0, reported := s.reported + s.dropped, nextId := s.nextId + 1)
  }

  function AfterFailure(s: State): State {
    s.(inFlight := None)
  }

  class LogSink {
    var logQueue: seq<Item>
    var droppedLogs: nat
    var deliveringLogs: bool
    var selected: seq<Item>
    var nextId: nat
    ghost var acked: seq<Item>
    ghost var lost: seq<Item>
    ghost var reported: nat

    ghost function Now(): State
      reads this
    {
      State(logQueue, droppedLogs, if deliveringLogs then Some(selected) else None, acked, lost, reported, nextId)
    }

    constructor ()
      ensures Now() == START
    {
      logQueue, droppedLogs, deliveringLogs, selected, nextId := [], 0, false, [], 0;
      acked, lost, reported := [], [], 0;
    }

    method Log(stream: Stream, raw: Text)
      modifies this
      ensures Now() == AfterLog(old(Now()), stream, Bounded(raw))
    {
      var message := BoundedMessage(raw);
      if |logQueue| >= MAX_QUEUED_LOGS {
        lost := lost + [logQueue[0]];
        logQueue := logQueue[1..];
        droppedLogs := Increment(droppedLogs);
      }
      logQueue := logQueue + [Item(nextId, stream, true, message)];
      nextId := nextId + 1;
    }

    method DeliverLogs()
      modifies this
      ensures Now() == AfterStart(old(Now()))
    {
      if deliveringLogs || logQueue == [] {
        return;
      }
      deliveringLogs := true;
      selected := Batch(logQueue);
    }

    /** The reply arrived: with an acknowledgement the batch leaves the queue and losses are announced. */
    method Settle(accepted: bool)
      requires deliveringLogs
      modifies this
      ensures Now() == if accepted then AfterAck(old(Now())) else AfterFailure(old(Now()))
    {
      deliveringLogs := false;
      if !accepted {
        return;
      }
      ghost var before := logQueue;
      for k := 0 to |selected|
        invariant logQueue == RemoveEach(before, selected[..k])
        modifies this`logQueue
      {
        logQueue := RemoveFirst(logQueue, selected[k]);
        assert selected[..k + 1][..k] == selected[..k];
      }
      assert selected[..|selected|] == selected;
      acked := acked + selected;
      if droppedLogs > 0 {
        reported := reported + droppedLogs;
        logQueue := [Item(nextId, Runtime, false, NoticeText(droppedLogs))] + logQueue;
        nextId := nextId + 1;
        droppedLogs := 0;
      }
    }
  }

  // ---- What is sent ----

  lemma {:induction false} OfStreamInOrder(items: seq<Item>, stream: Stream)
    ensures Subsequence(OfStream(items, stream), items)
    ensures forall x :: x in OfStream(items, stream) <==> x in items && x.stream == stream
  {
    if items != [] {
      OfStreamInOrder(items[1..], stream);
      var rest := OfStream(items[1..], stream);
      if items[0].stream == stream {
        assert OfStream(items, stream) == [items[0]] + rest;
        assert OfStream(items, stream)[1..] == rest;
      } else if rest != [] {
        assert OfStream(items, stream) == rest && rest[0] in rest;
      }
    }
  }

  lemma {:induction false} OfStreamUpTo(items: seq<Item>, stream: Stream, k: nat) returns (n: nat)
    requires k <= |OfStream(items, stream)|
    ensures n <= |items| && OfStream(items[..n], stream) == OfStream(items, stream)[..k]
    ensures k == |OfStream(items, stream)| ==> n == |items|
  {
    if k == |OfStream(items, stream)| {
      n := |items|;
      assert items[..n] == items;
    } else if items[0].stream == stream && k == 0 {
      n := 0;
    } else {
      var m := OfStreamUpTo(items[1..], stream, if items[0].stream == stream then k - 1 else k);
      n := m + 1;
      TailOfPrefix(items, n);
    }
  }

  /** A batch is of one stream and takes its items in order from the front of the queue: all those among
      the first n, which are the whole queue unless the batch is full. */
  lemma BatchIsFirst(queue: seq<Item>) returns (n: nat)
    requires queue != []
    ensures var batch := Batch(queue);
            && n <= |queue| && 1 <= |batch| <= 16 && Subsequence(batch, queue[..n])
            && (forall x :: x in batch <==> x in queue[..n] && x.stream == queue[0].stream)
            && (n < |queue| ==> |batch| == 16)
  {
    var stream := queue[0].stream;
    var same := OfStream(queue, stream);
    n := OfStreamUpTo(queue, stream, if |same| <= 16 then |same| else 16);
    OfStreamInOrder(queue[..n], stream);
    assert same[..|same|] == same;
  }

  lemma {:induction false} DigitsAreDecimal(n: nat)
    ensures Digits(n) == Ascii(Strings.Decimal(n))
  {
    if n >= 10 {
      DigitsAreDecimal(n / 10);
    }
  }

  /** The notice names the count in decimal. */
  lemma NoticeNamesCount(count: nat) returns (digits: string)
    ensures Strings.AllDigits(digits) && Strings.Value(digits) == count
    ensures var text := "Logging recovered after dropping " + digits + " event(s)";
            |NoticeText(count)| == |text| && forall i :: 0 <= i < |text| ==> NoticeText(count)[i] == text[i] as int
  {
    digits := Strings.Decimal(count);
    Strings.DecimalValue(count);
    DigitsAreDecimal(count);
    var text := "Logging recovered after dropping " + digits + " event(s)";
    AsciiText("Logging recovered after dropping ", digits, " event(s)");
    assert forall i :: 0 <= i < |digits| ==> Strings.IsDigit(digits[i]);
  }

  lemma AsciiText(a: string, b: string, c: string)
    ensures Ascii(a) + Ascii(b) + Ascii(c) == Ascii(a + b + c)
  {
  }

  // ---- Message sizes ----

  predicate AllBounded(items: seq<Item>) {
    forall x :: x in items ==> ByteLength(x.message) <= MAX_LOG_MESSAGE_BYTES
  }

  function Power10(k: nat): nat {
    if k == 0 then 1 else 10 * Power10(k - 1)
  }

  lemma {:induction false} DigitsAreFew(n: nat, k: nat)
    requires k > 0 && n < Power10(k)
    ensures 1 <= |Digits(n)| <= k
    ensures forall i :: 0 <= i < |Digits(n)| ==> Digits(n)[i] < 0x80
  {
    if n >= 10 {
      assert k > 1;
      DigitsAreFew(n / 10, k - 1);
    }
  }

  lemma NoticeFits(count: nat)
    requires count <= MAX_COUNT
    ensures ByteLength(NoticeText(count)) <= MAX_LOG_MESSAGE_BYTES && WellFormed(NoticeText(count))
  {
    assert Power10(8) == 1_0000_0000;
    assert Power10(16) == 1_0000_0000_0000_0000;
    DigitsAreFew(count, 16);
    AsciiLength(NoticeText(count));
    AsciiIsWellFormed(NoticeText(count));
  }
}
