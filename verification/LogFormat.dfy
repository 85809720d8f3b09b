/** Log records, their validation, and the newline-terminated line format of one log file. */
module LogFormat {
  import opened Wrappers
  import opened Sequences
  import Strings

  const SCHEMA_VERSION := 1
  const MAX_MESSAGE_BYTES := 1024
  const MAX_RECORD_BYTES := 3072

  datatype LogStream = Core | Runtime | Plugin

  datatype LogLevel = Info | Warn | Error

  datatype LogRecord = LogRecord(
    schemaVersion: nat, sequence: U64, timestampMs: U64, stream: LogStream, level: LogLevel,
    code: string, applicationId: string, pluginId: Option<string>, message: string)

  datatype NewLogRecord = NewLogRecord(
    stream: LogStream, level: LogLevel, code: string, applicationId: string,
    pluginId: Option<string>, message: string)

  /** The JSON codec: decoding inverts encoding, and an encoded record has no line feed. */
  datatype Codec = Codec(encode: LogRecord -> Bytes, decode: Bytes -> Option<LogRecord>) {
    ghost predicate Lawful() {
      forall r: LogRecord {:trigger encode(r)} :: decode(encode(r)) == Some(r) && LF !in encode(r)
    }
  }

  // ---- Messages ----

  predicate IsControl(c: char) {
    c as int < 0x20 || 0x7F <= c as int <= 0x9F
  }

  function BlankControls(s: string): (r: string)
    ensures |r| == |s|
    ensures forall i :: 0 <= i < |s| ==> r[i] == if IsControl(s[i]) then ' ' else s[i]
  {
    seq(|s|, i requires 0 <= i < |s| => if IsControl(s[i]) then ' ' else s[i])
  }

  function NormalizeMessage(message: string): Option<string> {
    var normalized := BlankControls(message);
    if Strings.Utf8Size(normalized) > MAX_MESSAGE_BYTES then None else Some(normalized)
  }

  /** A normalized message is a fixed point: normalizing again accepts it and changes nothing. */
  lemma NormalizedIsStable(message: string)
    requires NormalizeMessage(message).Some?
    ensures NormalizeMessage(NormalizeMessage(message).value) == NormalizeMessage(message)
    ensures forall i :: 0 <= i < |message| ==> !IsControl(NormalizeMessage(message).value[i])
  {
    var once := BlankControls(message);
    assert BlankControls(once) == once;
  }

  // ---- Record validation ----

  const CORE_CODES: set<string> := {
    "core.application.registered", "core.application.removed", "core.plugin.installed",
    "core.plugin.removed", "core.plugin.scan_failed", "core.plugin_config.updated",
    "core.policy.updated", "core.developerMode.updated", "core.launch_session.created",
    "core.storage.migrate_failed", "core.autostart.register_failed", "core.iefo.registered",
    "core.iefo.unregistered", "core.iefo.write_failed", "core.renderer.script_required"}

  /** The codes and plugin attribution each stream may carry. */
  predicate PermittedShape(stream: LogStream, code: string, pluginId: Option<string>) {
    match stream
    case Runtime => code == "runtime.message" && pluginId.None?
    case Plugin => code in {"plugin.message", "network.request"} && pluginId.Some?
    case Core => code in CORE_CODES
  }

  predicate ValidRecord(r: LogRecord) {
    && r.schemaVersion == SCHEMA_VERSION && r.sequence != 0 && r.timestampMs != 0
    && NormalizeMessage(r.message) == Some(r.message)
    && PermittedShape(r.stream, r.code, r.pluginId)
    && r.applicationId != ""
  }

  /** The record `append` builds for an event, given the next sequence number and the clock; None if
      its message is too long. */
  function Built(event: NewLogRecord, sequence: U64, clock: U64): Option<LogRecord> {
    match NormalizeMessage(event.message)
    case None => None
    case Some(message) =>
      Some(LogRecord(SCHEMA_VERSION, sequence, clock, event.stream, event.level, event.code,
                     event.applicationId, event.pluginId, message))
  }

  /** The record holds the event as it was, under this sequence and time; only the control characters
      of its message (U+0000 to U+001F and U+007F to U+009F) have become blanks. */
  ghost predicate Describes(r: LogRecord, event: NewLogRecord, sequence: U64, clock: U64) {
    && r.schemaVersion == 1 && r.sequence == sequence && r.timestampMs == clock
    && r.stream == event.stream && r.level == event.level && r.code == event.code
    && r.applicationId == event.applicationId && r.pluginId == event.pluginId
    && |r.message| == |event.message|
    && forall i :: 0 <= i < |event.message| ==>
         var n := event.message[i] as int;
         r.message[i] == if n < 32 || 127 <= n < 160 then ' ' else event.message[i]
  }

  /** Exactly the records that describe the event in at most 1024 bytes of message are built for it. */
  lemma BuiltExactlyWhen(event: NewLogRecord, sequence: U64, clock: U64, r: LogRecord)
    ensures Built(event, sequence, clock) == Some(r) <==>
            Describes(r, event, sequence, clock) && Strings.Utf8Size(r.message) <= 1024
  {
    if Describes(r, event, sequence, clock) {
      assert r.message == BlankControls(event.message);
    }
  }

  /** What the writer builds, the reader accepts, exactly when the caller kept these four rules. */
  lemma BuiltRecordIsValid(event: NewLogRecord, sequence: U64, clock: U64)
    requires Built(event, sequence, clock).Some?
    ensures ValidRecord(Built(event, sequence, clock).value) <==>
            sequence != 0 && clock != 0 && event.applicationId != "" &&
            PermittedShape(event.stream, event.code, event.pluginId)
  {
    NormalizedIsStable(event.message);
  }

  function MaxSequence(rs: seq<LogRecord>): U64 {
    if rs == [] then 0
    else
      var rest := MaxSequence(rs[1..]);
      if rs[0].sequence > rest then rs[0].sequence else rest
  }

  // ---- Lines ----

  predicate ValidLine(c: Codec, line: Bytes) {
    |line| <= MAX_RECORD_BYTES && c.decode(line).Some? && ValidRecord(c.decode(line).value)
  }

  ghost predicate ValidLines(c: Codec, lines: seq<Bytes>) {
    forall l :: l in lines ==> LF !in l && ValidLine(c, l)
  }

  /** The lines before the first anomaly. */
  function ScanLines(c: Codec, f: Bytes): seq<Bytes>
    decreases |f|
  {
    var n := LineEnd(f);
    if n == |f| || !ValidLine(c, f[..n]) then [] else [f[..n]] + ScanLines(c, f[n + 1..])
  }

  /** The bytes of a file holding exactly these lines. */
  function Render(lines: seq<Bytes>): Bytes {
    if lines == [] then [] else lines[0] + [LF] + Render(lines[1..])
  }

  function RecordsOf(c: Codec, lines: seq<Bytes>): (rs: seq<LogRecord>)
    requires forall l :: l in lines ==> c.decode(l).Some?
    ensures |rs| == |lines|
    ensures forall i :: 0 <= i < |lines| ==> rs[i] == c.decode(lines[i]).value
  {
    seq(|lines|, i requires 0 <= i < |lines| => c.decode(lines[i]).value)
  }

  lemma ScannedLinesAreValid(c: Codec, f: Bytes)
    ensures ValidLines(c, ScanLines(c, f))
    decreases |f|
  {
    var n := LineEnd(f);
    if n < |f| && ValidLine(c, f[..n]) {
      ScannedLinesAreValid(c, f[n + 1..]);
    }
  }

  function Scan(c: Codec, f: Bytes): (rs: seq<LogRecord>)
    ensures forall r :: r in rs ==> ValidRecord(r)
  {
    ScannedLinesAreValid(c, f);
    var lines := ScanLines(c, f);
    var records := RecordsOf(c, lines);
    assert forall i :: 0 <= i < |records| ==> lines[i] in lines && ValidRecord(records[i]);
    records
  }

  lemma RenderAppend(a: seq<Bytes>, b: seq<Bytes>)
    ensures Render(a + b) == Render(a) + Render(b)
  {
    if a == [] {
      assert a + b == b;
    } else {
      assert (a + b)[1..] == a[1..] + b;
      RenderAppend(a[1..], b);
    }
  }

  /** A line feed splits off the first line whatever follows it. */
  lemma LineEndOfLine(line: Bytes, rest: Bytes)
    requires LF !in line
    ensures LineEnd(line + [LF] + rest) == |line|
  {
    var f := line + [LF] + rest;
    assert f[|line|] == LF;
    assert forall i :: 0 <= i < |line| ==> f[i] == line[i];
  }

  /** One step of the scan. */
  lemma ScanStep(c: Codec, line: Bytes, rest: Bytes)
    requires LF !in line
    ensures ScanLines(c, line + [LF] + rest) ==
            if ValidLine(c, line) then [line] + ScanLines(c, rest) else []
  {
    var f := line + [LF] + rest;
    LineEndOfLine(line, rest);
    assert f[..|line|] == line && f[|line| + 1..] == rest;
  }

  /** A file is either one unterminated piece or a first line and the rest. */
  lemma FirstLine(f: Bytes) returns (line: Bytes, rest: Bytes)
    ensures LineEnd(f) == |f| ==> LF !in f
    ensures LineEnd(f) < |f| ==>
              line == f[..LineEnd(f)] && rest == f[LineEnd(f) + 1..] && LF !in line &&
              f == line + [LF] + rest
  {
    var n := LineEnd(f);
    line := f[..n];
    rest := if n < |f| then f[n + 1..] else [];
    if n < |f| {
      assert f == line + [LF] + rest;
    }
  }

  lemma RenderFirst(line: Bytes, lines: seq<Bytes>)
    ensures Render([line] + lines) == line + [LF] + Render(lines)
  {
    assert ([line] + lines)[1..] == lines;
  }

  /** Scanning reads back rendered lines, whatever bytes come after them. */
  lemma {:induction false} ScanRendered(c: Codec, lines: seq<Bytes>, rest: Bytes)
    requires ValidLines(c, lines)
    ensures ScanLines(c, Render(lines) + rest) == lines + ScanLines(c, rest)
  {
    if lines == [] {
      assert Render(lines) + rest == rest;
    } else {
      var line, others := lines[0], lines[1..];
      assert lines == [line] + others && line in lines;
      ScanRendered(c, others, rest);
      RenderFirst(line, others);
      Assoc(line + [LF], Render(others), rest);
      ScanStep(c, line, Render(others) + rest);
      Assoc([line], others, ScanLines(c, rest));
    }
  }

  /** A file is its valid lines followed by a tail that starts with an anomaly or is empty. */
  lemma {:induction false} ScanSplits(c: Codec, f: Bytes) returns (tail: Bytes)
    ensures f == Render(ScanLines(c, f)) + tail
    ensures ScanLines(c, tail) == []
    decreases |f|
  {
    var line, rest := FirstLine(f);
    if LineEnd(f) < |f| && ValidLine(c, line) {
      tail := ScanSplits(c, rest);
      ScanStep(c, line, rest);
      RenderFirst(line, ScanLines(c, rest));
      Assoc(line + [LF], Render(ScanLines(c, rest)), tail);
    } else {
      tail := f;
    }
  }

  lemma TornTailScansEmpty(c: Codec, tail: Bytes)
    requires LF !in tail
    ensures ScanLines(c, tail) == []
  {
  }

  /** Recovery's cut: the scanned lines form the longest prefix made of valid complete records. */
  lemma {:induction false} ScanIsLongest(c: Codec, f: Bytes, lines: seq<Bytes>)
    requires ValidLines(c, lines) && Render(lines) <= f
    ensures lines <= ScanLines(c, f)
    ensures Render(lines) <= Render(ScanLines(c, f)) <= f
  {
    var tail := ScanSplits(c, f);
    var rest := f[|Render(lines)|..];
    assert f == Render(lines) + rest;
    ScanRendered(c, lines, rest);
    RenderAppend(lines, ScanLines(c, rest));
  }

  // ---- Whole files ----

  /** The active file after recovery truncates it. */
  function Truncated(c: Codec, f: Bytes): Bytes {
    Render(ScanLines(c, f))
  }

  predicate Clean(c: Codec, f: Bytes) {
    Truncated(c, f) == f
  }

  /** Valid records followed by an unterminated tail only. */
  predicate TornOnly(c: Codec, f: Bytes) {
    |Truncated(c, f)| <= |f| && LF !in f[|Truncated(c, f)|..]
  }

  /** Where `repair_active_tail` cuts: just after the last line feed. */
  function CompleteLength(f: Bytes): (n: nat)
    ensures n <= |f| && LF !in f[n..]
    ensures n > 0 ==> f[n - 1] == LF
  {
    if f == [] then 0
    else if f[|f| - 1] == LF then |f|
    else
      var n := CompleteLength(f[..|f| - 1]);
      assert f[n..] == f[..|f| - 1][n..] + [f[|f| - 1]];
      n
  }

  lemma {:induction false} RenderEndsInLineFeed(lines: seq<Bytes>)
    ensures lines != [] ==> Render(lines) != [] && Render(lines)[|Render(lines)| - 1] == LF
  {
    if |lines| == 1 {
      assert Render(lines[1..]) == [];
    } else if |lines| > 1 {
      RenderEndsInLineFeed(lines[1..]);
    }
  }

  /** One restart is enough: recovery is idempotent, keeps the records, and leaves no tail to repair. */
  lemma RecoveryIsIdempotent(c: Codec, f: Bytes)
    ensures Clean(c, Truncated(c, f))
    ensures Scan(c, Truncated(c, f)) == Scan(c, f)
    ensures CompleteLength(Truncated(c, f)) == |Truncated(c, f)|
  {
    ScannedLinesAreValid(c, f);
    var lines := ScanLines(c, f);
    assert Render(lines) + [] == Render(lines);
    ScanRendered(c, lines, []);
    assert lines + [] == lines;
    RenderEndsInLineFeed(lines);
  }

  /** The strict reader used by queries: an invalid complete line is an error, a torn tail is not. */
  function ReadRecords(c: Codec, f: Bytes): Option<seq<LogRecord>>
    decreases |f|
  {
    var n := LineEnd(f);
    if n == |f| then Some([])
    else if !ValidLine(c, f[..n]) then None
    else
      match ReadRecords(c, f[n + 1..])
      case None => None
      case Some(rest) => Some([c.decode(f[..n]).value] + rest)
  }

  /** Queries succeed on a file exactly when nothing but a torn tail follows its valid records. */
  lemma {:induction false} ReadAgreesWithScan(c: Codec, f: Bytes)
    ensures ReadRecords(c, f).Some? <==> TornOnly(c, f)
    ensures ReadRecords(c, f).Some? ==> ReadRecords(c, f).value == Scan(c, f)
    decreases |f|
  {
    var line, rest := FirstLine(f);
    if LineEnd(f) == |f| {
      assert f[0..] == f;
    } else if !ValidLine(c, line) {
      assert f[0..] == f && f[|line|] == LF;
    } else {
      ReadAgreesWithScan(c, rest);
      ScanStep(c, line, rest);
      TornStep(c, line, rest);
      ScanCons(c, f, line, rest);
    }
  }

  lemma ScanCons(c: Codec, f: Bytes, line: Bytes, rest: Bytes)
    requires ValidLine(c, line) && ScanLines(c, f) == [line] + ScanLines(c, rest)
    ensures Scan(c, f) == [c.decode(line).value] + Scan(c, rest)
  {
    ScannedLinesAreValid(c, rest);
    RecordsAppend(c, [line], ScanLines(c, rest));
    assert RecordsOf(c, [line]) == [c.decode(line).value];
  }

  lemma RecordsAppend(c: Codec, a: seq<Bytes>, b: seq<Bytes>)
    requires forall l :: l in a ==> c.decode(l).Some?
    requires forall l :: l in b ==> c.decode(l).Some?
    ensures forall l :: l in a + b ==> c.decode(l).Some?
    ensures RecordsOf(c, a + b) == RecordsOf(c, a) + RecordsOf(c, b)
  {
  }

  lemma TornStep(c: Codec, line: Bytes, rest: Bytes)
    requires LF !in line && ValidLine(c, line)
    ensures TornOnly(c, line + [LF] + rest) <==> TornOnly(c, rest)
  {
    var f := line + [LF] + rest;
    var tail := ScanSplits(c, rest);
    ScanStep(c, line, rest);
    RenderFirst(line, ScanLines(c, rest));
    Assoc(line + [LF], Truncated(c, rest), tail);
    assert f[|Truncated(c, f)|..] == tail;
    assert rest[|Truncated(c, rest)|..] == tail;
  }

  /** Appending one encoded record to a clean file. */
  lemma AppendedWhole(c: Codec, f: Bytes, record: LogRecord)
    requires c.Lawful() && ValidRecord(record) && |c.encode(record)| <= MAX_RECORD_BYTES
    requires Clean(c, f)
    ensures Clean(c, f + (c.encode(record) + [LF]))
    ensures Scan(c, f + (c.encode(record) + [LF])) == Scan(c, f) + [record]
  {
    var line := c.encode(record);
    ScannedLinesAreValid(c, f);
    AppendedLine(c, ScanLines(c, f), line);
    RecordsAppend(c, ScanLines(c, f), [line]);
    assert RecordsOf(c, [line]) == [record];
  }

  lemma AppendedLine(c: Codec, lines: seq<Bytes>, line: Bytes)
    requires ValidLines(c, lines) && LF !in line && ValidLine(c, line)
    ensures ScanLines(c, Render(lines) + (line + [LF])) == lines + [line]
    ensures Render(lines + [line]) == Render(lines) + (line + [LF])
  {
    ScanStep(c, line, []);
    assert line + [LF] + [] == line + [LF] && [line] + ScanLines(c, []) == [line];
    ScanRendered(c, lines, line + [LF]);
    RenderFirst(line, []);
    assert [line] + [] == [line] && line + [LF] + Render([]) == line + [LF];
    RenderAppend(lines, [line]);
  }

  /** Appending part of an encoded record to a clean file loses nothing and only leaves a torn tail. */
  lemma AppendedTorn(c: Codec, f: Bytes, piece: Bytes)
    requires Clean(c, f) && LF !in piece
    ensures TornOnly(c, f + piece)
    ensures ScanLines(c, f + piece) == ScanLines(c, f)
    ensures Scan(c, f + piece) == Scan(c, f)
  {
    ScannedLinesAreValid(c, f);
    ScanRendered(c, ScanLines(c, f), piece);
    TornTailScansEmpty(c, piece);
    assert ScanLines(c, f) + [] == ScanLines(c, f);
    assert (f + piece)[|f|..] == piece;
  }
}
