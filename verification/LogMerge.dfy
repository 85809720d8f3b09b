/** How the Manager folds a further page of log events into the ones it shows. */
module LogMerge {
  import opened Wrappers
  import opened LogFormat
  import opened LogPaging

  /** JavaScript's `Map.set` keyed by sequence: a known key keeps its place, a new one goes last. */
  function Put(entries: seq<LogRecord>, event: LogRecord): seq<LogRecord> {
    if entries == [] then [event]
    else if entries[0].sequence == event.sequence then [event] + entries[1..]
    else [entries[0]] + Put(entries[1..], event)
  }

  function PutAll(entries: seq<LogRecord>, events: seq<LogRecord>): seq<LogRecord>
    decreases |events|
  {
    if events == [] then entries else PutAll(Put(entries, events[0]), events[1..])
  }

  /** The display order: newest timestamp first, then newest sequence. */
  predicate ShownBefore(a: LogRecord, b: LogRecord) {
    a.timestampMs > b.timestampMs || (a.timestampMs == b.timestampMs && a.sequence >= b.sequence)
  }

  function InsertShown(event: LogRecord, events: seq<LogRecord>): seq<LogRecord> {
    if events == [] || ShownBefore(event, events[0]) then [event] + events
    else [events[0]] + InsertShown(event, events[1..])
  }

  function SortLogEvents(events: seq<LogRecord>): seq<LogRecord> {
    if events == [] then [] else InsertShown(events[0], SortLogEvents(events[1..]))
  }

  function MergeLogEvents(current: seq<LogRecord>, incoming: seq<LogRecord>): seq<LogRecord> {
    SortLogEvents(PutAll(PutAll([], current), incoming))
  }

  ghost predicate HasSequence(events: seq<LogRecord>, sequence: U64) {
    exists i :: 0 <= i < |events| && events[i].sequence == sequence
  }

  ghost predicate Sorted(events: seq<LogRecord>) {
    forall i, j :: 0 <= i < j < |events| ==> ShownBefore(events[i], events[j])
  }

  lemma {:induction false} PutReplaces(entries: seq<LogRecord>, event: LogRecord)
    requires Distinct(entries)
    ensures Distinct(Put(entries, event))
    ensures forall r :: r in Put(entries, event) <==>
                        r == event || (r in entries && r.sequence != event.sequence)
  {
    if entries != [] {
      var first, rest := entries[0], entries[1..];
      assert entries == [first] + rest;
      assert forall i :: 0 <= i < |rest| ==> rest[i] == entries[i + 1];
      if first.sequence != event.sequence {
        PutReplaces(rest, event);
        var after := Put(rest, event);
        forall k | 0 <= k < |after| ensures after[k].sequence != first.sequence {
          assert after[k] in after;
        }
      }
    }
  }

  /** The last event with each sequence wins, and no sequence occurs twice. */
  lemma {:induction false} PutAllKeepsLatest(entries: seq<LogRecord>, events: seq<LogRecord>)
    requires Distinct(entries)
    ensures Distinct(PutAll(entries, events))
    ensures forall r :: r in PutAll(entries, events) ==> r in entries || r in events
    ensures forall r :: r in entries && !HasSequence(events, r.sequence) ==> r in PutAll(entries, events)
    ensures forall r :: r in PutAll(entries, events) && HasSequence(events, r.sequence) ==> r in events
    ensures forall r :: r in events ==> HasSequence(PutAll(entries, events), r.sequence)
    decreases |events|
  {
    if events != [] {
      var first, rest := events[0], events[1..];
      assert events == [first] + rest;
      PutReplaces(entries, first);
      var next := Put(entries, first);
      PutAllKeepsLatest(next, rest);
      var result := PutAll(next, rest);
      forall r | r in entries && !HasSequence(events, r.sequence) ensures r in result {
        assert events[0].sequence != r.sequence;
        forall i | 0 <= i < |rest| ensures rest[i].sequence != r.sequence {
          assert events[i + 1] == rest[i];
        }
      }
      forall r | r in events ensures HasSequence(result, r.sequence) {
        if r !in rest && !HasSequence(rest, r.sequence) {
          assert r in result;
        } else if r !in rest {
          var i :| 0 <= i < |rest| && rest[i].sequence == r.sequence;
          assert rest[i] in rest;
        }
      }
      forall r | r in result && HasSequence(events, r.sequence) ensures r in events {
        if !HasSequence(rest, r.sequence) {
          assert forall i :: 1 <= i < |events| ==> events[i] == rest[i - 1];
          assert first.sequence == r.sequence;
          assert r in next;
        }
      }
    }
  }

  lemma {:induction false} InsertShownKeeps(event: LogRecord, events: seq<LogRecord>)
    requires Sorted(events) && Distinct(events) && !HasSequence(events, event.sequence)
    ensures Sorted(InsertShown(event, events)) && Distinct(InsertShown(event, events))
    ensures forall r :: r in InsertShown(event, events) <==> r == event || r in events
  {
    if events != [] && !ShownBefore(event, events[0]) {
      var first, rest := events[0], events[1..];
      assert events == [first] + rest;
      assert forall i :: 0 <= i < |rest| ==> rest[i] == events[i + 1];
      InsertShownKeeps(event, rest);
      var after := InsertShown(event, rest);
      forall k | 0 <= k < |after| ensures ShownBefore(first, after[k]) && first.sequence != after[k].sequence {
        assert after[k] in after;
      }
    }
  }

  lemma {:induction false} SortShowsAll(events: seq<LogRecord>)
    requires Distinct(events)
    ensures Sorted(SortLogEvents(events)) && Distinct(SortLogEvents(events))
    ensures forall r :: r in SortLogEvents(events) <==> r in events
  {
    if events != [] {
      var first, rest := events[0], events[1..];
      assert events == [first] + rest;
      assert forall i :: 0 <= i < |rest| ==> rest[i] == events[i + 1];
      SortShowsAll(rest);
      var sorted := SortLogEvents(rest);
      forall k | 0 <= k < |sorted| ensures sorted[k].sequence != first.sequence {
        assert sorted[k] in sorted;
      }
      InsertShownKeeps(first, sorted);
    }
  }

  /** Merging shows every sequence once, by newest time and then by newest sequence, and the incoming
      event where both have one. */
  lemma MergeShowsEachSequenceOnce(current: seq<LogRecord>, incoming: seq<LogRecord>)
    ensures var merged := MergeLogEvents(current, incoming);
            && Distinct(merged)
            && (forall i, j :: 0 <= i < j < |merged| ==>
                  merged[i].timestampMs > merged[j].timestampMs ||
                  (merged[i].timestampMs == merged[j].timestampMs && merged[i].sequence > merged[j].sequence))
            && (forall r :: r in merged ==> r in current || r in incoming)
            && (forall r :: r in merged && HasSequence(incoming, r.sequence) ==> r in incoming)
            && (forall s: U64 :: HasSequence(merged, s) <==> HasSequence(current, s) || HasSequence(incoming, s))
  {
    var shown := PutAll([], current);
    PutAllKeepsLatest([], current);
    PutAllKeepsLatest(shown, incoming);
    var all := PutAll(shown, incoming);
    SortShowsAll(all);
    var merged := MergeLogEvents(current, incoming);
    forall s: U64 ensures HasSequence(merged, s) <==> HasSequence(current, s) || HasSequence(incoming, s) {
      SameSequences(merged, all, s);
      if HasSequence(all, s) {
        SequenceComesFrom(all, shown, incoming, s);
        if !HasSequence(incoming, s) {
          SequenceComesFrom(shown, [], current, s);
        }
      }
      if HasSequence(incoming, s) {
        var i :| 0 <= i < |incoming| && incoming[i].sequence == s;
        assert incoming[i] in incoming;
      } else if HasSequence(current, s) {
        var i :| 0 <= i < |current| && current[i].sequence == s;
        assert current[i] in current;
        var k :| 0 <= k < |shown| && shown[k].sequence == s;
        assert shown[k] in all;
      }
    }
  }

  lemma SameSequences(a: seq<LogRecord>, b: seq<LogRecord>, s: U64)
    requires forall r :: r in a <==> r in b
    ensures HasSequence(a, s) <==> HasSequence(b, s)
  {
    SequenceComesFrom(a, b, [], s);
    SequenceComesFrom(b, a, [], s);
  }

  lemma SequenceComesFrom(all: seq<LogRecord>, a: seq<LogRecord>, b: seq<LogRecord>, s: U64)
    requires forall r :: r in all ==> r in a || r in b
    ensures HasSequence(all, s) ==> HasSequence(a, s) || HasSequence(b, s)
  {
    if HasSequence(all, s) {
      var i :| 0 <= i < |all| && all[i].sequence == s;
      assert all[i] in all;
    }
  }
}
