/** The log at the level of whole records: what any run of appends, rotations, crashes and restarts
    does to the records in the five files. */
module LogHistory {
  import opened Wrappers
  import opened Sequences
  import opened LogFormat
  import opened LogFiles

  /** What ends a file after its valid records. */
  datatype Tail = NoTail | TornTail | BadTail

  datatype FileView = FileView(records: seq<LogRecord>, tail: Tail)

  /** The files, the running store's next sequence (None between a crash and a restart), and
      history: every record ever completely written, how many of those were evicted, and which
      (by position) were acknowledged. */
  datatype History = History(
    files: Slots<FileView>, next: Option<U64>, log: seq<LogRecord>, evicted: nat, acked: set<nat>)

  datatype Outcome = Nothing | Piece | Whole | Acked

  datatype Step =
    | Rotate(operations: nat)
    | Write(record: LogRecord, rotated: bool, outcome: Outcome)
    | Crash
    | Reopen(cut: bool, completed: bool)

  function Held(file: Option<FileView>): seq<LogRecord> {
    if file.None? then [] else file.value.records
  }

  /** The records of archives 4 down to n (0 being the active file), oldest first. */
  function Above(s: Slots<FileView>, n: nat): seq<LogRecord>
    requires n <= 5
    decreases 5 - n
  {
    if n == 5 then [] else Above(s, n + 1) + Held(s[n])
  }

  function MaxHeld(s: Slots<FileView>, count: nat): U64
    requires count <= 5
  {
    if count == 0 then 0
    else
      var before := MaxHeld(s, count - 1);
      var here := MaxSequence(Held(s[count - 1]));
      if here > before then here else before
  }

  // ---- Steps ----

  predicate Enabled(h: History, step: Step) {
    match step
    case Rotate(k) => k <= 5 && h.next.Some? && (k > 0 ==> Held(h.files[0]) != [])
    case Write(record, rotated, _) =>
      h.next == Some(record.sequence) && (rotated ==> Held(h.files[0]) != [])
    case Crash => true
    case Reopen(cut, completed) => h.next.None? && (completed ==> cut)
  }

  /** After k rotation operations; the first one gives up the oldest archive. */
  function AfterRotation(h: History, k: nat): History
    requires k <= 5
  {
    h.(files := RotatePrefix(h.files, k),
       evicted := h.evicted + if k > 0 then |Held(h.files[4])| else 0)
  }

  function AfterWrite(h: History, record: LogRecord, outcome: Outcome): History
    requires h.next.Some?
  {
    var whole := outcome.Whole? || outcome.Acked?;
    var active := FileView(Held(h.files[0]) + if whole then [record] else [],
                           if outcome.Piece? then TornTail else NoTail);
    History(
      h.files[0 := Some(active)],
      if outcome.Acked? then Some(SaturatingSucc(h.next.value)) else None,
      h.log + if whole then [record] else [],
      h.evicted,
      h.acked + if outcome.Acked? then {|h.log|} else {})
  }

  function AfterReopen(h: History, cut: bool, completed: bool): History {
    h.(files := if cut && h.files[0].Some? then h.files[0 := Some(FileView(Held(h.files[0]), NoTail))]
                else h.files,
       next := if completed then Some(SaturatingSucc(MaxHeld(h.files, 5))) else None)
  }

  function Next(h: History, step: Step): History
    requires Enabled(h, step)
  {
    match step
    case Rotate(k) => AfterRotation(h, k)
    case Write(record, rotated, outcome) =>
      AfterWrite(if rotated then AfterRotation(h, 5) else h, record, outcome)
    case Crash => h.(next := None)
    case Reopen(cut, completed) => AfterReopen(h, cut, completed)
  }

  // ---- The invariant ----

  ghost predicate ArchivesClean(s: Slots<FileView>) {
    forall i :: 1 <= i < 5 && s[i].Some? ==> s[i].value.tail.NoTail?
  }

  /** The n-th sequence issued, from 1 on; the last one is repeated. */
  function Nth(n: nat): U64 {
    if n > U64_MAX then U64_MAX else n
  }

  /** Sequences are 1, 2, 3, ... over the whole history. */
  ghost predicate Numbered(log: seq<LogRecord>) {
    forall i :: 0 <= i < |log| ==> log[i].sequence == Nth(i + 1)
  }

  /** Archives are undamaged; only a crash leaves a torn tail, and only in the active file. */
  ghost predicate Sound(s: Slots<FileView>, running: bool) {
    && ArchivesClean(s)
    && (s[0].Some? ==> !s[0].value.tail.BadTail? && (running ==> s[0].value.tail.NoTail?))
  }

  /** The files hold the most recent part of the history, and a running store knows its end. */
  predicate Aligned(h: History) {
    && h.evicted <= |h.log|
    && (|h.log| > 0 ==> h.evicted < |h.log|)
    && (h.next.Some? ==> h.next.value == Nth(|h.log| + 1))
    && Above(h.files, 0) == h.log[h.evicted..]
  }

  /** Sound files that hold the most recent part of a numbered history. */
  ghost predicate Consistent(h: History) {
    && Aligned(h)
    && (forall i :: i in h.acked ==> 0 <= i < |h.log|)
    && Numbered(h.log)
    && Sound(h.files, h.next.Some?)
  }

  const FRESH := History([None, None, None, None, None], None, [], 0, {})

  lemma FreshIsConsistent()
    ensures Consistent(FRESH)
  {
    assert Above(FRESH.files, 0) == [];
  }

  // ---- How file operations move records ----

  lemma {:induction false} AboveFrame(s: Slots<FileView>, t: Slots<FileView>, n: nat)
    requires n <= 5 && forall i :: n <= i < 5 ==> Held(s[i]) == Held(t[i])
    ensures Above(s, n) == Above(t, n)
    decreases 5 - n
  {
    if n < 5 {
      AboveFrame(s, t, n + 1);
    }
  }

  lemma {:induction false} EvictionDropsOldest(s: Slots<FileView>, n: nat)
    requires n <= 4
    ensures Held(s[4]) <= Above(s, n)
    ensures Above(s[4 := None], n) == Above(s, n)[|Held(s[4])|..]
    decreases 4 - n
  {
    var k := |Held(s[4])|;
    if n < 4 {
      EvictionDropsOldest(s, n + 1);
      DropOfAppend(Above(s, n + 1), Held(s[n]), k);
    } else {
      assert Above(s, 4) == Held(s[4]);
    }
  }

  lemma {:induction false} MoveKeepsRecords(s: Slots<FileView>, from: nat, n: nat)
    requires n <= from < 4 && s[from + 1].None?
    ensures Above(Move(s, from, from + 1), n) == Above(s, n)
    decreases from - n
  {
    var t := Move(s, from, from + 1);
    if n < from {
      MoveKeepsRecords(s, from, n + 1);
    } else if s[from].Some? {
      AboveFrame(s, t, from + 2);
      assert Above(t, from + 1) == Above(s, from + 2) + Held(s[from]);
      assert Above(s, from + 1) == Above(s, from + 2);
    }
  }

  /** Any number of rotation operations loses exactly the oldest archive. */
  lemma {:induction false} RotationKeepsRecords(s: Slots<FileView>, k: nat)
    requires 1 <= k <= 5
    ensures Held(s[4]) <= Above(s, 0)
    ensures Above(RotatePrefix(s, k), 0) == Above(s, 0)[|Held(s[4])|..]
  {
    if k == 1 {
      assert RotatePrefix(s, 0) == s;
      EvictionDropsOldest(s, 0);
    } else {
      RotationKeepsRecords(s, k - 1);
      RotationNeverOverwrites(s, k - 1);
      MoveKeepsRecords(RotatePrefix(s, k - 1), 5 - k, 0);
    }
  }

  lemma {:induction false} RotationKeepsClean(s: Slots<FileView>, k: nat)
    requires k <= 5 && ArchivesClean(s) && (s[0].Some? ==> s[0].value.tail.NoTail?)
    ensures ArchivesClean(RotatePrefix(s, k))
    ensures RotatePrefix(s, k)[0].Some? ==> RotatePrefix(s, k)[0].value.tail.NoTail?
  {
    if k > 0 {
      RotationKeepsClean(s, k - 1);
    }
  }

  /** The newest record is in the active file, so evicting the oldest archive never empties the log. */
  lemma NewestSurvives(s: Slots<FileView>)
    requires Held(s[0]) != []
    ensures |Held(s[4])| < |Above(s, 0)|
  {
    EvictionDropsOldest(s, 1);
  }

  // ---- Each step keeps the invariant ----

  lemma RotationKeepsAligned(h: History, k: nat)
    requires Aligned(h) && 1 <= k <= 5 && Held(h.files[0]) != []
    ensures Aligned(AfterRotation(h, k))
  {
    RotationKeepsRecords(h.files, k);
    NewestSurvives(h.files);
    DropTwice(h.log, h.evicted, |Held(h.files[4])|);
  }

  lemma RotationKeepsConsistent(h: History, k: nat)
    requires Consistent(h) && Enabled(h, Rotate(k))
    ensures Consistent(AfterRotation(h, k))
  {
    if k > 0 {
      RotationKeepsAligned(h, k);
      RotationKeepsClean(h.files, k);
    }
  }

  lemma WriteKeepsConsistent(h: History, record: LogRecord, outcome: Outcome)
    requires Consistent(h) && h.next == Some(record.sequence)
    ensures Consistent(AfterWrite(h, record, outcome))
  {
    var v := AfterWrite(h, record, outcome);
    var added := if outcome.Whole? || outcome.Acked? then [record] else [];
    assert v.log == h.log + added;
    NumberedAppend(h.log, record);
    WriteKeepsSound(h, record, outcome);
    assert Above(v.files, 0) == v.log[v.evicted..] by {
      WriteAddsToEnd(h.files, v.files[0].value, added);
      DropOfAppend(h.log, added, h.evicted);
    }
  }

  lemma NumberedAppend(log: seq<LogRecord>, record: LogRecord)
    requires Numbered(log)
    ensures record.sequence == Nth(|log| + 1) ==> Numbered(log + [record])
  {
  }

  lemma WriteKeepsSound(h: History, record: LogRecord, outcome: Outcome)
    requires Sound(h.files, true) && h.next.Some?
    ensures var v := AfterWrite(h, record, outcome); Sound(v.files, v.next.Some?)
  {
  }

  lemma WriteAddsToEnd(s: Slots<FileView>, active: FileView, added: seq<LogRecord>)
    requires active.records == Held(s[0]) + added
    ensures Above(s[0 := Some(active)], 0) == Above(s, 0) + added
  {
    var t := s[0 := Some(active)];
    AboveFrame(s, t, 1);
    Assoc(Above(s, 1), Held(s[0]), added);
  }

  ghost predicate AtMost(rs: seq<LogRecord>, bound: nat) {
    forall i :: 0 <= i < |rs| ==> rs[i].sequence <= bound
  }

  lemma {:induction false} MaxSequenceAtMost(rs: seq<LogRecord>, bound: nat)
    requires AtMost(rs, bound)
    ensures MaxSequence(rs) <= bound
  {
    if rs != [] {
      MaxSequenceAtMost(rs[1..], bound);
    }
  }

  lemma {:induction false} MaxSequenceAtLeast(rs: seq<LogRecord>, i: nat)
    requires i < |rs|
    ensures rs[i].sequence <= MaxSequence(rs)
  {
    if i > 0 {
      MaxSequenceAtLeast(rs[1..], i - 1);
    }
  }

  lemma {:induction false} MaxHeldAtMost(s: Slots<FileView>, n: nat, bound: nat)
    requires n <= 5 && forall i :: 0 <= i < n ==> AtMost(Held(s[i]), bound)
    ensures MaxHeld(s, n) <= bound
  {
    if n > 0 {
      MaxHeldAtMost(s, n - 1, bound);
      MaxSequenceAtMost(Held(s[n - 1]), bound);
    }
  }

  lemma {:induction false} MaxHeldAtLeast(s: Slots<FileView>, n: nat, i: nat, j: nat)
    requires i < n <= 5 && j < |Held(s[i])|
    ensures Held(s[i])[j].sequence <= MaxHeld(s, n)
  {
    if i < n - 1 {
      MaxHeldAtLeast(s, n - 1, i, j);
    } else {
      MaxSequenceAtLeast(Held(s[i]), j);
    }
  }

  lemma {:induction false} HeldIsAbove(s: Slots<FileView>, n: nat, i: nat, j: nat)
    requires n <= i < 5 && j < |Held(s[i])|
    ensures Held(s[i])[j] in Above(s, n)
    decreases i - n
  {
    if n < i {
      HeldIsAbove(s, n + 1, i, j);
    }
  }

  lemma {:induction false} LastIsHeld(s: Slots<FileView>, n: nat) returns (i: nat)
    requires n <= 5 && Above(s, n) != []
    ensures n <= i < 5 && Held(s[i]) != []
    ensures Held(s[i])[|Held(s[i])| - 1] == Above(s, n)[|Above(s, n)| - 1]
    decreases 5 - n
  {
    if Held(s[n]) != [] {
      i := n;
    } else {
      assert Above(s, n) == Above(s, n + 1);
      i := LastIsHeld(s, n + 1);
    }
  }

  lemma HeldIsNumbered(h: History, i: nat)
    requires Aligned(h) && Numbered(h.log) && i < 5
    ensures AtMost(Held(h.files[i]), Nth(|h.log|))
  {
    forall j | 0 <= j < |Held(h.files[i])|
      ensures Held(h.files[i])[j].sequence <= Nth(|h.log|)
    {
      HeldIsAbove(h.files, 0, i, j);
    }
  }

  lemma LastIsNumbered(h: History) returns (i: nat)
    requires Aligned(h) && Numbered(h.log) && |h.log| > 0
    ensures i < 5 && Held(h.files[i]) != []
    ensures Held(h.files[i])[|Held(h.files[i])| - 1].sequence == Nth(|h.log|)
  {
    i := LastIsHeld(h.files, 0);
    assert h.log[h.evicted..][|h.log| - h.evicted - 1] == h.log[|h.log| - 1];
  }

  lemma MaxHeldIsNumbered(h: History)
    requires Aligned(h) && Numbered(h.log)
    ensures MaxHeld(h.files, 5) <= Nth(|h.log|)
  {
    forall i | 0 <= i < 5 ensures AtMost(Held(h.files[i]), Nth(|h.log|)) {
      HeldIsNumbered(h, i);
    }
    MaxHeldAtMost(h.files, 5, Nth(|h.log|));
  }

  /** Startup finds the number of the last record ever written. */
  lemma MaxHeldIsLast(h: History)
    requires Aligned(h) && Numbered(h.log)
    ensures MaxHeld(h.files, 5) == Nth(|h.log|)
  {
    MaxHeldIsNumbered(h);
    if |h.log| > 0 {
      var i := LastIsNumbered(h);
      MaxHeldAtLeast(h.files, 5, i, |Held(h.files[i])| - 1);
    }
  }

  lemma ReopenKeepsAligned(h: History, cut: bool, completed: bool)
    requires Aligned(h) && Numbered(h.log)
    ensures Aligned(AfterReopen(h, cut, completed))
  {
    AboveFrame(h.files, AfterReopen(h, cut, completed).files, 0);
    MaxHeldIsLast(h);
  }

  lemma ReopenKeepsConsistent(h: History, cut: bool, completed: bool)
    requires Consistent(h) && (completed ==> cut)
    ensures Consistent(AfterReopen(h, cut, completed))
  {
    ReopenKeepsAligned(h, cut, completed);
  }

  lemma RotateAndWriteKeepsConsistent(h: History, record: LogRecord, rotated: bool, outcome: Outcome)
    requires Consistent(h) && Enabled(h, Write(record, rotated, outcome))
    ensures Consistent(Next(h, Write(record, rotated, outcome)))
  {
    if rotated {
      RotationKeepsConsistent(h, 5);
      WriteKeepsConsistent(AfterRotation(h, 5), record, outcome);
    } else {
      WriteKeepsConsistent(h, record, outcome);
    }
  }

  lemma StepKeepsConsistent(h: History, step: Step)
    requires Consistent(h) && Enabled(h, step)
    ensures Consistent(Next(h, step))
  {
    match step
    case Rotate(k) => RotationKeepsConsistent(h, k);
    case Write(record, rotated, outcome) => RotateAndWriteKeepsConsistent(h, record, rotated, outcome);
    case Crash =>
    case Reopen(cut, completed) => ReopenKeepsConsistent(h, cut, completed);
  }

  /** History is only ever extended, and nothing comes back once evicted. */
  ghost predicate Extends(h: History, v: History) {
    h.log <= v.log && h.acked <= v.acked && h.evicted <= v.evicted
  }

  lemma StepExtends(h: History, step: Step)
    requires Enabled(h, step)
    ensures Extends(h, Next(h, step))
    ensures var gone := Next(h, step).evicted - h.evicted;
            gone == 0 || (gone == |Held(h.files[4])| && Held(h.files[0]) != [])
  {
  }

  lemma StepGrowsByOne(h: History, step: Step)
    requires Enabled(h, step)
    ensures |h.log| <= |Next(h, step).log| <= |h.log| + 1
  {
  }

  lemma AckedIsLast(h: History, step: Step)
    requires Enabled(h, step) && step.Write? && step.outcome.Acked?
    ensures Next(h, step).log == h.log + [step.record] && |h.log| in Next(h, step).acked
  {
  }

  // ---- Whole runs ----

  predicate Follows(h: History, step: Step, v: History) {
    Enabled(h, step) && v == Next(h, step)
  }

  predicate FollowsAt(hs: seq<History>, steps: seq<Step>, i: nat)
    requires i < |steps| && |hs| == |steps| + 1
  {
    Follows(hs[i], steps[i], hs[i + 1])
  }

  /** A run: states hs joined by steps. */
  ghost predicate IsRun(hs: seq<History>, steps: seq<Step>) {
    && |hs| == |steps| + 1
    && forall i :: 0 <= i < |steps| ==> FollowsAt(hs, steps, i)
  }

  lemma RunGrows(hs: seq<History>, steps: seq<Step>, step: Step, v: History)
    requires IsRun(hs, steps) && Follows(hs[|steps|], step, v)
    ensures IsRun(hs + [v], steps + [step])
  {
    var more, all := hs + [v], steps + [step];
    forall i | 0 <= i < |all| ensures FollowsAt(more, all, i) {
      assert i < |steps| ==> FollowsAt(hs, steps, i);
    }
  }

  predicate Kept(p: History -> bool, h: History, step: Step) {
    p(h) && Enabled(h, step) ==> p(Next(h, step))
  }

  lemma {:induction false} RunKeeps(hs: seq<History>, steps: seq<Step>, p: History -> bool, j: nat)
    requires IsRun(hs, steps) && j < |hs|
    requires p(hs[0]) && forall h, step :: Kept(p, h, step)
    ensures p(hs[j])
  {
    if j > 0 {
      RunKeeps(hs, steps, p, j - 1);
      assert FollowsAt(hs, steps, j - 1);
      assert Kept(p, hs[j - 1], steps[j - 1]);
    }
  }

  lemma RunKeepsConsistent(hs: seq<History>, steps: seq<Step>, j: nat)
    requires IsRun(hs, steps) && Consistent(hs[0]) && j < |hs|
    ensures Consistent(hs[j])
  {
    forall h, step ensures Kept(Consistent, h, step) {
      if Consistent(h) && Enabled(h, step) {
        StepKeepsConsistent(h, step);
      }
    }
    RunKeeps(hs, steps, Consistent, j);
  }

  lemma {:induction false} RunExtends(hs: seq<History>, steps: seq<Step>, i: nat, j: nat)
    requires IsRun(hs, steps) && i <= j < |hs|
    ensures Extends(hs[i], hs[j])
    decreases j
  {
    if i < j {
      RunExtends(hs, steps, i, j - 1);
      assert FollowsAt(hs, steps, j - 1);
      StepExtends(hs[j - 1], steps[j - 1]);
    }
  }

  /** In every reachable state the files hold consecutive sequences ending just below the next one,
      and every acknowledged record that was not evicted. */
  lemma ConsistentLogIsContiguous(h: History)
    requires Consistent(h)
    ensures var v := Above(h.files, 0);
            && (forall i :: 0 <= i < |v| - 1 ==> v[i + 1].sequence == SaturatingSucc(v[i].sequence))
            && (h.next.Some? && v != [] ==> h.next.value == SaturatingSucc(v[|v| - 1].sequence))
            && (v == [] ==> h.log == [] && (h.next.Some? ==> h.next.value == 1))
  {
  }

  /** A record ever written is in the files, or is older than everything there. */
  lemma RecordIsVisibleOrOlder(h: History, i: nat)
    requires Consistent(h) && i < |h.log|
    ensures var v := Above(h.files, 0);
            && v != []
            && (h.log[i] in v || h.log[i].sequence < v[0].sequence ||
                h.log[i].sequence == v[0].sequence == U64_MAX)
  {
    if i >= h.evicted {
      InTail(h.log, h.evicted, i);
    } else {
      BeforeTail(h.log, h.evicted, i);
    }
  }

  lemma InTail(log: seq<LogRecord>, from: nat, i: nat)
    requires from <= i < |log|
    ensures log[from..] != [] && log[i] in log[from..]
  {
    assert log[from..][i - from] == log[i];
  }

  lemma BeforeTail(log: seq<LogRecord>, from: nat, i: nat)
    requires Numbered(log) && i < from < |log|
    ensures log[from..] != [] && (log[i].sequence < log[from..][0].sequence ||
                                  log[i].sequence == log[from..][0].sequence == U64_MAX)
  {
    assert log[from..][0] == log[from];
  }

  /** A store that stayed alive after a failed write is consistent exactly when nothing was written. */
  lemma AliveAfterFailedWrite(h: History, step: Step)
    requires Consistent(h) && |h.log| + 1 < U64_MAX
    requires Enabled(h, step) && step.Write? && !step.outcome.Acked?
    ensures Consistent(Next(h, step).(next := h.next)) <==> step.outcome.Nothing?
  {
    var started := if step.rotated then AfterRotation(h, 5) else h;
    if step.rotated {
      RotationKeepsConsistent(h, 5);
    }
    FailedWriteAlive(started, step.record, step.outcome);
  }

  lemma FailedWriteAlive(h: History, record: LogRecord, outcome: Outcome)
    requires Consistent(h) && |h.log| + 1 < U64_MAX && h.next == Some(record.sequence) && !outcome.Acked?
    ensures Consistent(AfterWrite(h, record, outcome).(next := h.next)) <==> outcome.Nothing?
  {
    match outcome
    case Nothing => NothingWrittenAlive(h, record);
    case Piece => TornIsUnsound(AfterWrite(h, record, outcome).files);
    case Whole => StaleNextIsUnaligned(h, AfterWrite(h, record, outcome).(next := h.next));
    case Acked =>
  }

  lemma NothingWrittenAlive(h: History, record: LogRecord)
    requires Consistent(h) && h.next == Some(record.sequence)
    ensures Consistent(AfterWrite(h, record, Nothing).(next := h.next))
  {
    WriteKeepsConsistent(h, record, Nothing);
  }

  lemma TornIsUnsound(s: Slots<FileView>)
    requires s[0].Some? && s[0].value.tail.TornTail?
    ensures !Sound(s, true)
  {
  }

  lemma StaleNextIsUnaligned(h: History, v: History)
    requires Aligned(h) && h.next.Some? && v.next == h.next && |v.log| == |h.log| + 1 < U64_MAX
    ensures !Aligned(v)
  {
  }

  /** A record leaves the files only together with the whole oldest archive; new ones join at the end. */
  lemma EvictionIsWholeArchive(h: History, step: Step) returns (gone: nat, added: seq<LogRecord>)
    requires Consistent(h) && Enabled(h, step)
    ensures gone <= |Above(h.files, 0)| && |added| <= 1
    ensures gone == 0 || Above(h.files, 0)[..gone] == Held(h.files[4])
    ensures Above(Next(h, step).files, 0) == Above(h.files, 0)[gone..] + added
  {
    var v := Next(h, step);
    StepKeepsConsistent(h, step);
    StepExtends(h, step);
    StepGrowsByOne(h, step);
    EvictionDropsOldest(h.files, 0);
    gone, added := SuffixEvicted(h, v);
    if gone > 0 {
      NewestSurvives(h.files);
    }
  }

  lemma SuffixEvicted(h: History, v: History) returns (gone: nat, added: seq<LogRecord>)
    requires Aligned(h) && Aligned(v) && h.log <= v.log && |v.log| <= |h.log| + 1
    requires v.evicted >= h.evicted && v.evicted - h.evicted <= |Above(h.files, 0)|
    ensures gone == v.evicted - h.evicted && |added| <= 1
    ensures Above(v.files, 0) == Above(h.files, 0)[gone..] + added
  {
    gone, added := v.evicted - h.evicted, v.log[|h.log|..];
    SuffixGrows(h.log, v.log, h.evicted, gone);
  }

  lemma SuffixGrows(before: seq<LogRecord>, after: seq<LogRecord>, from: nat, gone: nat)
    requires before <= after && from + gone <= |before|
    ensures after[from + gone..] == before[from..][gone..] + after[|before|..]
  {
    var added := after[|before|..];
    assert after == before + added;
    DropOfAppend(before, added, from + gone);
    DropTwice(before, from, gone);
  }

  /** An acknowledged write of a run takes the number after all records written before it. */
  lemma AckedIsNumbered(hs: seq<History>, steps: seq<Step>, i: nat)
    requires IsRun(hs, steps) && Consistent(hs[0]) && i < |steps|
    requires steps[i].Write? && steps[i].outcome.Acked?
    ensures steps[i].record.sequence == Nth(|hs[i].log| + 1)
  {
    assert FollowsAt(hs, steps, i);
    RunKeepsConsistent(hs, steps, i);
  }

  /** Its record keeps its place in the history from then on. */
  lemma AckedIsWritten(hs: seq<History>, steps: seq<Step>, i: nat, j: nat)
    requires IsRun(hs, steps) && i < |steps| && i < j < |hs|
    requires steps[i].Write? && steps[i].outcome.Acked?
    ensures |hs[i].log| < |hs[j].log| && hs[j].log[|hs[i].log|] == steps[i].record
  {
    assert FollowsAt(hs, steps, i);
    AckedIsLast(hs[i], steps[i]);
    RunExtends(hs, steps, i + 1, j);
  }

  lemma AckedIsNewest(hs: seq<History>, steps: seq<Step>, i: nat)
    requires IsRun(hs, steps) && Consistent(hs[0]) && i < |steps|
    requires steps[i].Write? && steps[i].outcome.Acked?
    ensures var v := Above(hs[i + 1].files, 0); v != [] && v[|v| - 1] == steps[i].record
  {
    assert FollowsAt(hs, steps, i);
    AckedIsLast(hs[i], steps[i]);
    RunKeepsConsistent(hs, steps, i + 1);
    LastOfTail(hs[i + 1].log, hs[i + 1].evicted);
  }

  lemma LastOfTail(log: seq<LogRecord>, from: nat)
    requires from < |log|
    ensures log[from..] != [] && log[from..][|log| - from - 1] == log[|log| - 1]
  {
  }

  /** It is in the files of every later state, or older than everything there. */
  lemma AckedIsVisibleOrOlder(hs: seq<History>, steps: seq<Step>, i: nat, j: nat)
    requires IsRun(hs, steps) && Consistent(hs[0]) && i < |steps| && i < j < |hs|
    requires steps[i].Write? && steps[i].outcome.Acked?
    ensures var v := Above(hs[j].files, 0);
            && v != []
            && (steps[i].record in v || steps[i].record.sequence < v[0].sequence ||
                steps[i].record.sequence == v[0].sequence == U64_MAX)
  {
    AckedIsWritten(hs, steps, i, j);
    RunKeepsConsistent(hs, steps, j);
    RecordIsVisibleOrOlder(hs[j], |hs[i].log|);
  }

  /** Two acknowledged writes of one run carry increasing sequences, up to the last one. */
  lemma SequencesIncrease(hs: seq<History>, steps: seq<Step>, i: nat, j: nat)
    requires IsRun(hs, steps) && Consistent(hs[0]) && i < j < |steps|
    requires steps[i].Write? && steps[i].outcome.Acked?
    requires steps[j].Write? && steps[j].outcome.Acked?
    ensures steps[i].record.sequence < steps[j].record.sequence ||
            steps[i].record.sequence == steps[j].record.sequence == U64_MAX
  {
    AckedIsNumbered(hs, steps, i);
    AckedIsNumbered(hs, steps, j);
    AckedIsWritten(hs, steps, i, j);
    NthIncreases(|hs[i].log| + 1, |hs[j].log| + 1);
  }

  lemma NthIncreases(m: nat, n: nat)
    requires 0 < m < n
    ensures Nth(m) < Nth(n) || Nth(m) == Nth(n) == U64_MAX
  {
  }
}
