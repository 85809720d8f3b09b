/** Runs of the log store on bytes: they are runs on whole records, so those theorems hold of the
    bytes on disk. */
module LogRuns {
  import opened Wrappers
  import opened LogFormat
  import opened LogFiles
  import opened LogStore
  import H = LogHistory

  /** The disk and, while a store is open, its next sequence. */
  datatype State = State(slots: Slots<Bytes>, next: Option<U64>)

  /** What can happen. `Append` names the record built for the event, `Reopen` the disk that startup
      left. */
  datatype Event =
    | Append(event: NewLogRecord, clock: U64, record: LogRecord, end: AppendEnd)
    | Crash
    | Reopen(after: Slots<Bytes>, completed: bool)

  predicate Enabled(c: Codec, max: nat, s: State, e: Event) {
    match e
    case Append(event, clock, record, end) =>
      && s.next.Some? && Built(event, s.next.value, clock) == Some(record) && ValidRecord(record)
      && |c.encode(record)| <= MAX_RECORD_BYTES
      && !end.Refused? && PossibleEnd(c, s.slots, record, max, end)
    case Crash => true
    case Reopen(after, completed) =>
      && s.next.None?
      && (forall i :: 0 <= i < 5 ==> SlotOutcome(c, i, s.slots[i], after[i]))
      && (completed ==> after[0] == RecoveredSlot(c, 0, s.slots[0]))
  }

  /** The store's own methods make these steps. A failed write ends the process. */
  function Next(c: Codec, max: nat, s: State, e: Event): State
    requires Enabled(c, max, s, e)
  {
    match e
    case Append(_, _, record, end) =>
      State(AfterAppend(c, s.slots, record, max, end),
            if end.WriteStopped? then None
            else if end.Acknowledged? then Some(SaturatingSucc(s.next.value))
            else s.next)
    case Crash => State(s.slots, None)
    case Reopen(after, completed) =>
      State(after, if completed then Some(SaturatingSucc(RecoveredMaximum(c, s.slots, 5))) else None)
  }

  // ---- From bytes to records ----

  function ViewFile(c: Codec, f: Bytes): H.FileView {
    H.FileView(Scan(c, f), if Clean(c, f) then H.NoTail else if TornOnly(c, f) then H.TornTail else H.BadTail)
  }

  function ViewSlot(c: Codec, slot: Option<Bytes>): Option<H.FileView> {
    if slot.None? then None else Some(ViewFile(c, slot.value))
  }

  function View(c: Codec, s: Slots<Bytes>): Slots<H.FileView> {
    [ViewSlot(c, s[0]), ViewSlot(c, s[1]), ViewSlot(c, s[2]), ViewSlot(c, s[3]), ViewSlot(c, s[4])]
  }

  /** The records on disk, reading archives 4 to 1 and then the active file. */
  function Visible(c: Codec, s: Slots<Bytes>): seq<LogRecord> {
    H.Above(View(c, s), 0)
  }

  ghost predicate Matches(c: Codec, s: State, h: H.History) {
    View(c, s.slots) == h.files && s.next == h.next
  }

  function StepOf(c: Codec, max: nat, s: State, e: Event): H.Step
    requires Enabled(c, max, s, e)
  {
    match e
    case Append(_, _, record, end) =>
      var rotates := NeedsRotation(c, s.slots, record, max);
      (match end
       case RotateStopped(k) => H.Rotate(k)
       case WriteStopped(n) =>
         H.Write(record, rotates,
                 if n == 0 then H.Nothing else if n < |Encoded(c, record)| then H.Piece else H.Whole)
       case Acknowledged => H.Write(record, rotates, H.Acked)
       case _ => H.Rotate(if rotates then 5 else 0))
    case Crash => H.Crash
    case Reopen(after, completed) =>
      H.Reopen(after[0] == RecoveredSlot(c, 0, s.slots[0]), completed)
  }

  // ---- Each step on bytes is a step on records ----

  lemma ViewUpdate(c: Codec, s: Slots<Bytes>, i: nat, slot: Option<Bytes>)
    requires i < 5
    ensures View(c, s[i := slot]) == View(c, s)[i := ViewSlot(c, slot)]
    ensures View(c, s)[i] == ViewSlot(c, s[i])
  {
  }

  lemma {:induction false} ViewRotation(c: Codec, s: Slots<Bytes>, k: nat)
    requires k <= 5
    ensures View(c, RotatePrefix(s, k)) == RotatePrefix(View(c, s), k)
  {
    if k > 0 {
      ViewRotation(c, s, k - 1);
      var t := RotatePrefix(s, k - 1);
      if k == 1 {
        ViewUpdate(c, t, 4, None);
      } else if t[5 - k].Some? {
        ViewUpdate(c, t, 6 - k, t[5 - k]);
        ViewUpdate(c, t[6 - k := t[5 - k]], 5 - k, None);
      }
    }
  }

  lemma ViewContents(c: Codec, slot: Option<Bytes>)
    ensures H.Held(ViewSlot(c, slot)) == Scan(c, Contents(slot))
    ensures slot.None? ==> Clean(c, Contents(slot))
  {
    assert ScanLines(c, []) == [];
  }

  lemma NonemptyCleanHasRecords(c: Codec, f: Bytes)
    requires Clean(c, f) && f != []
    ensures Scan(c, f) != []
  {
    assert ScanLines(c, f) == [] ==> Render(ScanLines(c, f)) == [];
  }

  lemma WrittenView(c: Codec, f: Bytes, record: LogRecord, written: nat)
    requires c.Lawful() && ValidRecord(record) && |c.encode(record)| <= MAX_RECORD_BYTES
    requires Clean(c, f) && written <= |Encoded(c, record)|
    ensures ViewFile(c, f + Encoded(c, record)[..written]) ==
            if written == |Encoded(c, record)| then H.FileView(Scan(c, f) + [record], H.NoTail)
            else H.FileView(Scan(c, f), if written == 0 then H.NoTail else H.TornTail)
  {
    var piece := Encoded(c, record)[..written];
    if written == |Encoded(c, record)| {
      assert piece == c.encode(record) + [LF];
      AppendedWhole(c, f, record);
    } else {
      assert piece == c.encode(record)[..written];
      AppendedTorn(c, f, piece);
      assert written == 0 ==> f + piece == f;
    }
  }

  lemma WriteIsSimulated(c: Codec, s: Slots<Bytes>, h: H.History, record: LogRecord, written: nat, acked: bool)
    requires c.Lawful() && ValidRecord(record) && |c.encode(record)| <= MAX_RECORD_BYTES
    requires Clean(c, Contents(s[0])) && View(c, s) == h.files && h.next.Some?
    requires written <= |Encoded(c, record)| && (acked ==> written == |Encoded(c, record)|)
    ensures var outcome := if acked then H.Acked else if written == 0 then H.Nothing
                           else if written < |Encoded(c, record)| then H.Piece else H.Whole;
            View(c, s[0 := Some(Contents(s[0]) + Encoded(c, record)[..written])])
            == H.AfterWrite(h, record, outcome).files
  {
    var f := Contents(s[0]);
    ViewContents(c, s[0]);
    WrittenView(c, f, record, written);
    ViewUpdate(c, s, 0, Some(f + Encoded(c, record)[..written]));
    assert Scan(c, f) + [] == Scan(c, f);
  }

  lemma RunningIsClean(c: Codec, s: State, h: H.History)
    requires Matches(c, s, h) && H.Consistent(h) && s.next.Some?
    ensures Clean(c, Contents(s.slots[0]))
    ensures Contents(s.slots[0]) != [] ==> H.Held(h.files[0]) != []
  {
    ViewContents(c, s.slots[0]);
    if Contents(s.slots[0]) != [] {
      NonemptyCleanHasRecords(c, Contents(s.slots[0]));
    }
  }

  lemma RotateIsSimulated(c: Codec, max: nat, s: State, h: H.History, e: Event)
    requires Matches(c, s, h) && H.Consistent(h) && e.Append? && e.end.RotateStopped? && Enabled(c, max, s, e)
    ensures H.Enabled(h, StepOf(c, max, s, e))
    ensures Matches(c, Next(c, max, s, e), H.Next(h, StepOf(c, max, s, e)))
  {
    RunningIsClean(c, s, h);
    ViewRotation(c, s.slots, e.end.operations);
  }

  lemma RotatedView(c: Codec, max: nat, s: State, h: H.History, record: LogRecord)
    requires Matches(c, s, h) && H.Consistent(h) && s.next.Some?
    ensures var rotates := NeedsRotation(c, s.slots, record, max);
            var r := Rotated(c, s.slots, record, max);
            && (rotates ==> H.Held(h.files[0]) != [])
            && Clean(c, Contents(r[0]))
            && View(c, r) == (if rotates then H.AfterRotation(h, 5) else h).files
  {
    RunningIsClean(c, s, h);
    ViewRotation(c, s.slots, 5);
    RotatedIsClean(c, s.slots, record, max);
  }

  lemma AppendIsSimulated(c: Codec, max: nat, s: State, h: H.History, e: Event)
    requires c.Lawful() && Matches(c, s, h) && H.Consistent(h) && e.Append? && Enabled(c, max, s, e)
    ensures H.Enabled(h, StepOf(c, max, s, e))
    ensures Matches(c, Next(c, max, s, e), H.Next(h, StepOf(c, max, s, e)))
  {
    if e.end.RotateStopped? {
      RotateIsSimulated(c, max, s, h, e);
    } else {
      var record := e.record;
      RotatedView(c, max, s, h, record);
      var r := Rotated(c, s.slots, record, max);
      var g := if NeedsRotation(c, s.slots, record, max) then H.AfterRotation(h, 5) else h;
      match e.end
      case WriteStopped(n) =>
        WriteIsSimulated(c, r, g, record, n, false);
      case Acknowledged =>
        WriteIsSimulated(c, r, g, record, |Encoded(c, record)|, true);
        assert Encoded(c, record)[..|Encoded(c, record)|] == Encoded(c, record);
      case _ =>
    }
  }

  lemma RotatedIsClean(c: Codec, s: Slots<Bytes>, record: LogRecord, max: nat)
    requires Clean(c, Contents(s[0]))
    ensures Clean(c, Contents(Rotated(c, s, record, max)[0]))
  {
    if NeedsRotation(c, s, record, max) {
      RotationNeverOverwrites(s, 5);
      ViewContents(c, None);
    }
  }

  lemma RecoveredView(c: Codec, index: nat, was: Option<Bytes>, now: Option<Bytes>)
    requires SlotOutcome(c, index, was, now)
    requires index > 0 && was.Some? ==> ViewFile(c, was.value).tail.NoTail?
    ensures index > 0 ==> now == was && RecoveredRecords(c, index, was) == H.Held(ViewSlot(c, was))
    ensures index == 0 ==> RecoveredRecords(c, index, was) == H.Held(ViewSlot(c, was))
    ensures index == 0 && was.Some? && now == RecoveredSlot(c, 0, was) ==>
              ViewSlot(c, now) == Some(H.FileView(Scan(c, was.value), H.NoTail))
  {
    if was.Some? {
      RecoveryIsIdempotent(c, was.value);
    }
  }

  lemma {:induction false} MaximumView(c: Codec, s: Slots<Bytes>, n: nat)
    requires n <= 5 && H.ArchivesClean(View(c, s))
    ensures RecoveredMaximum(c, s, n) == H.MaxHeld(View(c, s), n)
  {
    if n > 0 {
      MaximumView(c, s, n - 1);
      ViewUpdate(c, s, n - 1, s[n - 1]);
      RecoveredView(c, n - 1, s[n - 1], s[n - 1]);
      assert RecoveredRecords(c, n - 1, s[n - 1]) == H.Held(View(c, s)[n - 1]);
    }
  }

  /** Startup changes no file but the active one. */
  lemma ArchivesStay(c: Codec, s: Slots<Bytes>, after: Slots<Bytes>)
    requires H.ArchivesClean(View(c, s))
    requires forall i :: 0 <= i < 5 ==> SlotOutcome(c, i, s[i], after[i])
    ensures after == s[0 := after[0]]
  {
    forall i | 1 <= i < 5
      ensures after[i] == s[i]
    {
      assert View(c, s)[i] == ViewSlot(c, s[i]);
      RecoveredView(c, i, s[i], after[i]);
    }
  }

  lemma ReopenIsSimulated(c: Codec, max: nat, s: State, h: H.History, e: Event)
    requires Matches(c, s, h) && H.Consistent(h) && e.Reopen? && Enabled(c, max, s, e)
    ensures H.Enabled(h, StepOf(c, max, s, e))
    ensures Matches(c, Next(c, max, s, e), H.Next(h, StepOf(c, max, s, e)))
  {
    ArchivesStay(c, s.slots, e.after);
    ViewUpdate(c, s.slots, 0, e.after[0]);
    RecoveredView(c, 0, s.slots[0], e.after[0]);
    MaximumView(c, s.slots, 5);
  }

  lemma StepIsSimulated(c: Codec, max: nat, s: State, h: H.History, e: Event)
    requires c.Lawful() && Matches(c, s, h) && H.Consistent(h) && Enabled(c, max, s, e)
    ensures H.Enabled(h, StepOf(c, max, s, e))
    ensures Matches(c, Next(c, max, s, e), H.Next(h, StepOf(c, max, s, e)))
  {
    match e
    case Append(_, _, _, _) => AppendIsSimulated(c, max, s, h, e);
    case Crash =>
    case Reopen(_, _) => ReopenIsSimulated(c, max, s, h, e);
  }

  // ---- Whole runs ----

  predicate Follows(c: Codec, max: nat, s: State, e: Event, t: State) {
    Enabled(c, max, s, e) && t == Next(c, max, s, e)
  }

  /** A run: states ss joined by events. */
  ghost predicate IsRun(c: Codec, max: nat, ss: seq<State>, events: seq<Event>) {
    && |ss| == |events| + 1
    && forall i :: 0 <= i < |events| ==> Follows(c, max, ss[i], events[i], ss[i + 1])
  }

  const EMPTY := State([None, None, None, None, None], None)

  ghost predicate Explained(c: Codec, s: State, h: H.History, i: nat) {
    Matches(c, s, h) && H.Consistent(h) && |h.log| <= i
  }

  ghost predicate Mirrors(c: Codec, max: nat, s: State, e: Event, step: H.Step) {
    Enabled(c, max, s, e) && step == StepOf(c, max, s, e)
  }

  /** The first n events of a run from an empty disk, explained by a history. */
  ghost predicate Explains(
    c: Codec, max: nat, ss: seq<State>, events: seq<Event>, hs: seq<H.History>, steps: seq<H.Step>, n: nat)
    requires n < |ss| == |events| + 1
  {
    && |hs| == n + 1 && |steps| == n && H.IsRun(hs, steps)
    && hs[0] == H.FRESH
    && (forall i :: 0 <= i <= n ==> Explained(c, ss[i], hs[i], i))
    && (forall i :: 0 <= i < n ==> Mirrors(c, max, ss[i], events[i], steps[i]))
  }

  lemma StepIsExplained(c: Codec, max: nat, s: State, e: Event, t: State, h: H.History, i: nat)
    returns (step: H.Step, v: H.History)
    requires c.Lawful() && Follows(c, max, s, e, t) && Explained(c, s, h, i)
    ensures Mirrors(c, max, s, e, step) && H.Follows(h, step, v) && Explained(c, t, v, i + 1)
  {
    StepIsSimulated(c, max, s, h, e);
    step := StepOf(c, max, s, e);
    v := H.Next(h, step);
    H.StepGrowsByOne(h, step);
    H.StepKeepsConsistent(h, step);
  }

  /** Every run from an empty disk has a consistent history. */
  lemma {:induction false} RunIsExplained(c: Codec, max: nat, ss: seq<State>, events: seq<Event>, n: nat)
    returns (hs: seq<H.History>, steps: seq<H.Step>)
    requires c.Lawful() && IsRun(c, max, ss, events) && ss[0] == EMPTY
    requires n <= |events|
    ensures Explains(c, max, ss, events, hs, steps, n)
  {
    if n == 0 {
      H.FreshIsConsistent();
      hs, steps := [H.FRESH], [];
    } else {
      hs, steps := RunIsExplained(c, max, ss, events, n - 1);
      assert Follows(c, max, ss[n - 1], events[n - 1], ss[n]) && Explained(c, ss[n - 1], hs[n - 1], n - 1);
      var step, v := StepIsExplained(c, max, ss[n - 1], events[n - 1], ss[n], hs[n - 1], n - 1);
      H.RunGrows(hs, steps, step, v);
      ExplanationGrows(c, max, ss, events, hs, steps, n - 1, v, step);
      hs, steps := hs + [v], steps + [step];
    }
  }

  lemma ExplanationGrows(
    c: Codec, max: nat, ss: seq<State>, events: seq<Event>, hs: seq<H.History>, steps: seq<H.Step>, n: nat,
    v: H.History, step: H.Step)
    requires n < |events| && |ss| == |events| + 1
    requires Explains(c, max, ss, events, hs, steps, n) && H.IsRun(hs + [v], steps + [step])
    requires Explained(c, ss[n + 1], v, n + 1) && Mirrors(c, max, ss[n], events[n], step)
    ensures Explains(c, max, ss, events, hs + [v], steps + [step], n + 1)
  {
    var more, all := hs + [v], steps + [step];
    forall i | 0 <= i <= n + 1 ensures Explained(c, ss[i], more[i], i) {
      assert i <= n ==> Explained(c, ss[i], hs[i], i);
    }
    forall i | 0 <= i < n + 1 ensures Mirrors(c, max, ss[i], events[i], all[i]) {
      assert i < n ==> Mirrors(c, max, ss[i], events[i], steps[i]);
    }
  }

  /** Main theorem: at every point of every run, the files hold consecutive sequences ending just
      below the next one. The successor of 2^64 - 1 is itself. */
  lemma LogIsContiguous(c: Codec, max: nat, ss: seq<State>, events: seq<Event>, j: nat)
    requires c.Lawful() && IsRun(c, max, ss, events) && ss[0] == EMPTY
    requires j < |ss|
    ensures var v := Visible(c, ss[j].slots);
            && (forall k :: 0 <= k < |v| - 1 ==> v[k + 1].sequence == SaturatingSucc(v[k].sequence))
            && (ss[j].next.Some? ==>
                  ss[j].next.value == if v == [] then 1 else SaturatingSucc(v[|v| - 1].sequence))
  {
    var hs, steps := RunIsExplained(c, max, ss, events, |events|);
    assert Explained(c, ss[j], hs[j], j);
    H.ConsistentLogIsContiguous(hs[j]);
  }

  /** A record acknowledged at event i is still readable at every later state j, unless it is older
      than everything that is, or has the last sequence as everything that is. */
  lemma AcknowledgedRecordsSurvive(
    c: Codec, max: nat, ss: seq<State>, events: seq<Event>, i: nat, j: nat)
    requires c.Lawful() && IsRun(c, max, ss, events) && ss[0] == EMPTY
    requires i < j < |ss| && events[i].Append? && events[i].end.Acknowledged?
    ensures var v := Visible(c, ss[j].slots);
            && v != []
            && (events[i].record in v || events[i].record.sequence < v[0].sequence ||
                events[i].record.sequence == v[0].sequence == U64_MAX)
  {
    var hs, steps := RunIsExplained(c, max, ss, events, |events|);
    assert Explained(c, ss[j], hs[j], j) && Explained(c, ss[0], hs[0], 0);
    assert Mirrors(c, max, ss[i], events[i], steps[i]);
    H.AckedIsVisibleOrOlder(hs, steps, i, j);
  }

  /** An acknowledged event is read back as it was: the last record the files then hold has its stream,
      level, code, application, plugin and time, and its message with each control character blanked. */
  lemma AcknowledgedEventIsReadBack(c: Codec, max: nat, ss: seq<State>, events: seq<Event>, i: nat)
    requires c.Lawful() && IsRun(c, max, ss, events) && ss[0] == EMPTY
    requires i < |events| && events[i].Append? && events[i].end.Acknowledged?
    ensures var v := Visible(c, ss[i + 1].slots); var event := events[i].event;
            && v != []
            && var r := v[|v| - 1];
            && r.stream == event.stream && r.level == event.level && r.code == event.code
            && r.applicationId == event.applicationId && r.pluginId == event.pluginId
            && r.timestampMs == events[i].clock && Some(r.sequence) == ss[i].next && |r.message| == |event.message|
            && forall k :: 0 <= k < |event.message| ==>
                 var n := event.message[k] as int;
                 r.message[k] == if n < 32 || 127 <= n < 160 then ' ' else event.message[k]
  {
    var hs, steps := RunIsExplained(c, max, ss, events, |events|);
    assert Explained(c, ss[i], hs[i], i) && Explained(c, ss[i + 1], hs[i + 1], i + 1);
    assert Mirrors(c, max, ss[i], events[i], steps[i]) && Follows(c, max, ss[i], events[i], ss[i + 1]);
    H.AckedIsNewest(hs, steps, i);
    BuiltExactlyWhen(events[i].event, ss[i].next.value, events[i].clock, events[i].record);
  }

  /** Acknowledged sequences increase, whatever crashes and restarts lie in between; only the last
      one of 64 bits is issued again. */
  lemma SequencesAreNotReused(c: Codec, max: nat, ss: seq<State>, events: seq<Event>, i: nat, j: nat)
    requires c.Lawful() && IsRun(c, max, ss, events) && ss[0] == EMPTY
    requires i < j < |events|
    requires events[i].Append? && events[i].end.Acknowledged?
    requires events[j].Append? && events[j].end.Acknowledged?
    ensures events[i].record.sequence <= events[j].record.sequence
    ensures events[i].record.sequence == events[j].record.sequence <==> events[i].record.sequence == U64_MAX
  {
    var hs, steps := RunIsExplained(c, max, ss, events, |events|);
    assert Mirrors(c, max, ss[i], events[i], steps[i]) && Mirrors(c, max, ss[j], events[j], steps[j]);
    H.SequencesIncrease(hs, steps, i, j);
  }

  /** Each step drops nothing, or exactly the records of the oldest archive, and adds at the end. */
  lemma EvictionIsWholeArchive(c: Codec, max: nat, ss: seq<State>, events: seq<Event>, i: nat)
    returns (gone: nat, added: seq<LogRecord>)
    requires c.Lawful() && IsRun(c, max, ss, events) && ss[0] == EMPTY
    requires i < |events|
    ensures gone <= |Visible(c, ss[i].slots)| && |added| <= 1
    ensures gone == 0 || Visible(c, ss[i].slots)[..gone] == Scan(c, Contents(ss[i].slots[4]))
    ensures Visible(c, ss[i + 1].slots) == Visible(c, ss[i].slots)[gone..] + added
  {
    var hs, steps := RunIsExplained(c, max, ss, events, |events|);
    assert Explained(c, ss[i], hs[i], i) && Explained(c, ss[i + 1], hs[i + 1], i + 1);
    assert H.FollowsAt(hs, steps, i);
    gone, added := H.EvictionIsWholeArchive(hs[i], steps[i]);
    ViewContents(c, ss[i].slots[4]);
  }

  // ---- How large the files grow ----

  /** The configured size, or one record with its line feed if that is larger. */
  function FileBound(max: nat): nat {
    if max > MAX_RECORD_BYTES + 1 then max else MAX_RECORD_BYTES + 1
  }

  predicate Within(s: Slots<Bytes>, bound: nat) {
    forall i :: 0 <= i < 5 ==> |Contents(s[i])| <= bound
  }

  lemma {:induction false} RotationStaysWithin(s: Slots<Bytes>, k: nat, bound: nat)
    requires k <= 5 && Within(s, bound)
    ensures Within(RotatePrefix(s, k), bound)
  {
    if k > 0 {
      RotationStaysWithin(s, k - 1, bound);
    }
  }

  lemma WriteFits(c: Codec, s: Slots<Bytes>, record: LogRecord, max: nat, written: nat)
    requires Within(s, FileBound(max)) && |c.encode(record)| <= MAX_RECORD_BYTES && written <= |Encoded(c, record)|
    ensures Within(Rotated(c, s, record, max), FileBound(max))
    ensures |Contents(Rotated(c, s, record, max)[0]) + Encoded(c, record)[..written]| <= FileBound(max)
  {
    RotationStaysWithin(s, 5, FileBound(max));
    if NeedsRotation(c, s, record, max) {
      RotationNeverOverwrites(s, 5);
    }
  }

  lemma RecoveryShrinks(c: Codec, index: nat, was: Option<Bytes>, now: Option<Bytes>)
    requires SlotOutcome(c, index, was, now)
    ensures |Contents(now)| <= |Contents(was)|
  {
    if was.Some? {
      var tail := ScanSplits(c, was.value);
    }
  }

  lemma AppendStaysWithin(c: Codec, max: nat, s: State, e: Event)
    requires e.Append? && Enabled(c, max, s, e) && Within(s.slots, FileBound(max))
    ensures Within(Next(c, max, s, e).slots, FileBound(max))
  {
    var record := e.record;
    match e.end
    case RotateStopped(k) => RotationStaysWithin(s.slots, k, FileBound(max));
    case WriteStopped(n) => WriteFits(c, s.slots, record, max, n);
    case Acknowledged =>
      WriteFits(c, s.slots, record, max, |Encoded(c, record)|);
      assert Encoded(c, record)[..|Encoded(c, record)|] == Encoded(c, record);
    case NotOpened => WriteFits(c, s.slots, record, max, 0);
    case Refused =>
  }

  lemma StepStaysWithin(c: Codec, max: nat, s: State, e: Event)
    requires Enabled(c, max, s, e) && Within(s.slots, FileBound(max))
    ensures Within(Next(c, max, s, e).slots, FileBound(max))
  {
    match e
    case Append(_, _, _, _) => AppendStaysWithin(c, max, s, e);
    case Crash =>
    case Reopen(after, _) =>
      forall i | 0 <= i < 5
        ensures |Contents(after[i])| <= FileBound(max)
      {
        RecoveryShrinks(c, i, s.slots[i], after[i]);
      }
  }

  /** At every point of every run each file holds at most the configured number of bytes, or one record
      if that is larger. */
  lemma FilesStayWithin(c: Codec, max: nat, ss: seq<State>, events: seq<Event>, j: nat)
    requires IsRun(c, max, ss, events) && ss[0] == EMPTY && j < |ss|
    ensures forall i :: 0 <= i < 5 ==> |Contents(ss[j].slots[i])| <= if max > 3073 then max else 3073
  {
    var p := (s: State) => Within(s.slots, FileBound(max));
    forall s, e ensures Kept(c, max, p, s, e) {
      if p(s) && Enabled(c, max, s, e) {
        StepStaysWithin(c, max, s, e);
      }
    }
    RunKeeps(c, max, ss, events, p, j);
  }

  predicate Kept(c: Codec, max: nat, p: State -> bool, s: State, e: Event) {
    p(s) && Enabled(c, max, s, e) ==> p(Next(c, max, s, e))
  }

  lemma {:induction false} RunKeeps(
    c: Codec, max: nat, ss: seq<State>, events: seq<Event>, p: State -> bool, j: nat)
    requires IsRun(c, max, ss, events) && j < |ss|
    requires p(ss[0]) && forall s, e :: Kept(c, max, p, s, e)
    ensures p(ss[j])
  {
    if j > 0 {
      RunKeeps(c, max, ss, events, p, j - 1);
      assert Follows(c, max, ss[j - 1], events[j - 1], ss[j]);
      assert Kept(c, max, p, ss[j - 1], events[j - 1]);
    }
  }

  // ---- Where the code stops short ----

  /** A store that kept running after a failed write would still be sound exactly when the write
      left no byte behind. */
  lemma RestartIsNeededAfterAnyByte(c: Codec, max: nat, s: State, h: H.History, e: Event)
    requires c.Lawful() && Matches(c, s, h) && H.Consistent(h) && |h.log| + 1 < U64_MAX
    requires Enabled(c, max, s, e) && e.Append? && e.end.WriteStopped?
    ensures H.Consistent(H.Next(h, StepOf(c, max, s, e)).(next := s.next)) <==> e.end.written == 0
  {
    AppendIsSimulated(c, max, s, h, e);
    H.AliveAfterFailedWrite(h, StepOf(c, max, s, e));
  }

  /** No part of a record's text and another record's text together make a record, as with JSON objects. */
  ghost predicate NothingGlues(c: Codec) {
    forall a: LogRecord, b: LogRecord, n: nat :: 0 < n <= |c.encode(a)| ==> !ValidLine(c, Glued(c, a, n, b))
  }

  function Glued(c: Codec, a: LogRecord, n: nat, b: LogRecord): Bytes
    requires n <= |c.encode(a)|
  {
    c.encode(a)[..n] + c.encode(b)
  }

  lemma GluedLineIsUnreadable(c: Codec, f: Bytes, a: LogRecord, n: nat, b: LogRecord)
    requires c.Lawful() && NothingGlues(c) && Clean(c, f) && 0 < n <= |c.encode(a)|
    ensures var after := f + Encoded(c, a)[..n] + Encoded(c, b);
            Scan(c, after) == Scan(c, f) && ReadRecords(c, after).None?
  {
    var line := Glued(c, a, n, b);
    var after := f + Encoded(c, a)[..n] + Encoded(c, b);
    assert LF !in line;
    assert Encoded(c, a)[..n] == c.encode(a)[..n];
    assert after == f + (line + [LF] + []);
    ScanStep(c, line, []);
    ScannedLinesAreValid(c, f);
    ScanRendered(c, ScanLines(c, f), line + [LF] + []);
    assert ScanLines(c, f) + [] == ScanLines(c, f);
    assert after[|f|..] == line + [LF] + [];
    assert after[|f|..][|line|] == LF;
    ReadAgreesWithScan(c, after);
  }

  lemma {:induction false} UnreadableFileFailsQueries(c: Codec, s: Slots<Bytes>, i: nat, n: nat)
    requires i < n <= 5 && ReadRecords(c, Contents(s[i])).None?
    ensures ReadSlots(c, s, n).None?
  {
    if i < n - 1 {
      UnreadableFileFailsQueries(c, s, i, n - 1);
    }
  }

  /** What a reader would see if the store went on after a failed write of `written` bytes and the next
      append, to the same file, were acknowledged. Nothing written: all is well. A piece: the
      acknowledged record is not read back, and every query fails. The whole record: both are read
      back, with the same sequence. */
  lemma GoingOnAfterFailedWrite(c: Codec, max: nat, s: State, first: Event, second: Event, q: LogQuery)
    requires c.Lawful() && NothingGlues(c) && first.Append? && second.Append?
    requires Enabled(c, max, s, first) && first.end.WriteStopped?
    requires Clean(c, Contents(Rotated(c, s.slots, first.record, max)[0]))
    requires var t := Next(c, max, s, first).(next := s.next);
             Enabled(c, max, t, second) && second.end.Acknowledged? && !NeedsRotation(c, t.slots, second.record, max)
    ensures var before := Scan(c, Contents(Rotated(c, s.slots, first.record, max)[0]));
            var t := Next(c, max, s, first).(next := s.next);
            var u := Next(c, max, t, second);
            var after := Scan(c, Contents(u.slots[0]));
            var written := first.end.written;
            && second.record.sequence == first.record.sequence
            && (written == 0 ==> after == before + [second.record])
            && (0 < written <= |c.encode(first.record)| ==> after == before && Answer(c, u.slots, q).None?)
            && (written > |c.encode(first.record)| ==> after == before + [first.record, second.record])
  {
    var a, b, written := first.record, second.record, first.end.written;
    var f := Contents(Rotated(c, s.slots, a, max)[0]);
    var u := Next(c, max, Next(c, max, s, first).(next := s.next), second);
    assert Contents(u.slots[0]) == f + Encoded(c, a)[..written] + Encoded(c, b);
    if written == 0 {
      assert f + Encoded(c, a)[..0] == f;
      AppendedWhole(c, f, b);
    } else if written <= |c.encode(a)| {
      GluedLineIsUnreadable(c, f, a, written, b);
      UnreadableFileFailsQueries(c, u.slots, 0, 5);
    } else {
      assert Encoded(c, a)[..written] == Encoded(c, a);
      AppendedWhole(c, f, a);
      AppendedWhole(c, f + Encoded(c, a), b);
      assert Scan(c, f) + [a] + [b] == Scan(c, f) + [a, b];
    }
  }
}
