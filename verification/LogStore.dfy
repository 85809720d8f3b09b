/** The rotating log on disk: the active file, four archives, and the store that owns them. */
module LogStore {
  import opened Wrappers
  import opened LogFormat
  import opened LogFiles

  // ---- One append ----

  /** How the environment let an append end. */
  datatype AppendEnd =
    | Refused
    | RotateStopped(operations: nat)
    | NotOpened
    | WriteStopped(written: nat)
    | Acknowledged

  function Contents(s: Option<Bytes>): Bytes {
    if s.None? then [] else s.value
  }

  function Encoded(c: Codec, record: LogRecord): Bytes {
    c.encode(record) + [LF]
  }

  predicate NeedsRotation(c: Codec, s: Slots<Bytes>, record: LogRecord, max: nat) {
    var size := |Contents(s[0])|;
    size > 0 && size + |Encoded(c, record)| > max
  }

  function Rotated(c: Codec, s: Slots<Bytes>, record: LogRecord, max: nat): Slots<Bytes> {
    if NeedsRotation(c, s, record, max) then RotatePrefix(s, 5) else s
  }

  predicate PossibleEnd(c: Codec, s: Slots<Bytes>, record: LogRecord, max: nat, end: AppendEnd) {
    match end
    case RotateStopped(k) => NeedsRotation(c, s, record, max) && k < 5
    case WriteStopped(n) => n <= |Encoded(c, record)|
    case _ => true
  }

  function AfterAppend(c: Codec, s: Slots<Bytes>, record: LogRecord, max: nat, end: AppendEnd): Slots<Bytes>
    requires PossibleEnd(c, s, record, max, end)
  {
    var r := Rotated(c, s, record, max);
    match end
    case Refused => s
    case RotateStopped(k) => RotatePrefix(s, k)
    case NotOpened => r
    case WriteStopped(n) => r[0 := Some(Contents(r[0]) + Encoded(c, record)[..n])]
    case Acknowledged => r[0 := Some(Contents(r[0]) + Encoded(c, record))]
  }

  // ---- Recovery ----

  /** One file after startup: the active file is cut, a damaged archive is moved aside. */
  function RecoveredSlot(c: Codec, index: nat, slot: Option<Bytes>): Option<Bytes> {
    match slot
    case None => None
    case Some(f) =>
      if index == 0 then Some(Truncated(c, f))
      else if Clean(c, f) then slot else None
  }

  /** The records startup accepts from one file. */
  function RecoveredRecords(c: Codec, index: nat, slot: Option<Bytes>): seq<LogRecord> {
    match slot
    case None => []
    case Some(f) => if index == 0 || Clean(c, f) then Scan(c, f) else []
  }

  function RecoveredMaximum(c: Codec, s: Slots<Bytes>, count: nat): U64
    requires count <= 5
  {
    if count == 0 then 0
    else
      var before := RecoveredMaximum(c, s, count - 1);
      var here := MaxSequence(RecoveredRecords(c, count - 1, s[count - 1]));
      if here > before then here else before
  }

  // ---- Queries ----

  datatype LogQuery = LogQuery(
    applicationId: Option<string>, stream: Option<LogStream>,
    beforeSequence: Option<U64>, limit: nat)
  {
    predicate Matches(r: LogRecord) {
      && (applicationId.Some? ==> r.applicationId == applicationId.value)
      && (stream.Some? ==> r.stream == stream.value)
      && (beforeSequence.Some? ==> r.sequence < beforeSequence.value)
    }
  }

  function Retain(q: LogQuery, rs: seq<LogRecord>): (kept: seq<LogRecord>)
    ensures forall r :: r in kept <==> r in rs && q.Matches(r)
  {
    if rs == [] then []
    else (if q.Matches(rs[0]) then [rs[0]] else []) + Retain(q, rs[1..])
  }

  function InsertDescending(r: LogRecord, rs: seq<LogRecord>): seq<LogRecord> {
    if rs == [] || r.sequence >= rs[0].sequence then [r] + rs
    else [rs[0]] + InsertDescending(r, rs[1..])
  }

  function SortDescending(rs: seq<LogRecord>): seq<LogRecord> {
    if rs == [] then [] else InsertDescending(rs[0], SortDescending(rs[1..]))
  }

  function Take<T>(rs: seq<T>, limit: nat): seq<T> {
    if |rs| <= limit then rs else rs[..limit]
  }

  function ReadSlots(c: Codec, s: Slots<Bytes>, count: nat): Option<seq<LogRecord>>
    requires count <= 5
  {
    if count == 0 then Some([])
    else
      match ReadSlots(c, s, count - 1)
      case None => None
      case Some(before) =>
        match ReadRecords(c, Contents(s[count - 1]))
        case None => None
        case Some(here) => Some(before + here)
  }

  /** The answer to a query over the whole disk, or None when a file is damaged. */
  function Answer(c: Codec, s: Slots<Bytes>, q: LogQuery): Option<seq<LogRecord>> {
    match ReadSlots(c, s, 5)
    case None => None
    case Some(all) => Some(Take(SortDescending(Retain(q, all)), q.limit))
  }

  // ---- The file system ----

  /** The log directory. Every operation may fail, and then changes nothing. */
  class Disk {
    var slots: Slots<Bytes>

    constructor (s: Slots<Bytes>)
      ensures slots == s
    {
      slots := s;
    }

    method Remove(index: nat) returns (ok: bool)
      requires index < 5
      modifies this
      ensures slots == if ok then old(slots)[index := None] else old(slots)
    {
      ok := *;
      if ok {
        slots := slots[index := None];
      }
    }

    /** A rename here is only ever asked for when it destroys nothing. */
    method Rename(from: nat, to: nat) returns (ok: bool)
      requires from < 5 && to < 5 && slots[from].Some? && slots[to].None?
      modifies this
      ensures slots == if ok then Move(old(slots), from, to) else old(slots)
    {
      ok := *;
      if ok {
        slots := slots[to := slots[from]][from := None];
      }
    }

    method SetLength(index: nat, length: nat) returns (ok: bool)
      requires index < 5 && slots[index].Some? && length <= |slots[index].value|
      modifies this
      ensures slots == if ok then old(slots)[index := Some(old(slots)[index].value[..length])] else old(slots)
    {
      ok := *;
      if ok {
        slots := slots[index := Some(slots[index].value[..length])];
      }
    }

    /** Opening creates the file; a failed or interrupted write leaves any prefix behind. */
    method Write(bytes: Bytes) returns (began: bool, written: nat, synced: bool)
      modifies this
      ensures written <= |bytes| && (synced ==> began && written == |bytes|)
      ensures slots == if began then old(slots)[0 := Some(Contents(old(slots)[0]) + bytes[..written])]
                       else old(slots)
    {
      began, written, synced := *, 0, false;
      if began {
        written :| 0 <= written <= |bytes|;
        synced := *;
        synced := synced && written == |bytes|;
        slots := slots[0 := Some(Contents(slots[0]) + bytes[..written])];
      }
    }
  }

  // ---- The store ----

  /** The first `pos` bytes of a file are these lines, which decode to these records. */
  ghost predicate ScannedTo(c: Codec, f: Bytes, lines: seq<Bytes>, records: seq<LogRecord>, pos: nat) {
    && pos <= |f| && ValidLines(c, lines)
    && Render(lines) == f[..pos]
    && records == RecordsOf(c, lines)
  }

  lemma ScanAdvances(c: Codec, f: Bytes, lines: seq<Bytes>, records: seq<LogRecord>, pos: nat, line: Bytes)
    requires ScannedTo(c, f, lines, records, pos)
    requires LF !in line && ValidLine(c, line) && line + [LF] <= f[pos..]
    ensures ScannedTo(c, f, lines + [line], records + [c.decode(line).value], pos + |line| + 1)
  {
    RenderFirst(line, []);
    assert [line] + [] == [line] && line + [LF] + Render([]) == line + [LF];
    RenderAppend(lines, [line]);
    PrefixGrows(f, pos, line + [LF]);
    RecordsAppend(c, lines, [line]);
    assert RecordsOf(c, [line]) == [c.decode(line).value];
  }

  lemma PrefixGrows(f: Bytes, pos: nat, piece: Bytes)
    requires pos <= |f| && piece <= f[pos..]
    ensures f[..pos] + piece == f[..pos + |piece|]
  {
    assert f == f[..pos] + f[pos..];
  }

  /** An anomaly, or the end of the file, ends the scan. */
  lemma ScanStops(c: Codec, f: Bytes, lines: seq<Bytes>, records: seq<LogRecord>, pos: nat)
    requires ScannedTo(c, f, lines, records, pos)
    requires ScanLines(c, f[pos..]) == []
    ensures Scan(c, f) == records && Truncated(c, f) == f[..pos]
    ensures ReadRecords(c, f) == if LF in f[pos..] then None else Some(records)
  {
    ScanRendered(c, lines, f[pos..]);
    assert f == f[..pos] + f[pos..];
    assert lines + [] == lines;
    ReadAgreesWithScan(c, f);
  }

  /** Files below `index` went through recovery, the others are untouched. */
  ghost predicate Recovering(c: Codec, was: Slots<Bytes>, now: Slots<Bytes>, index: nat) {
    && (forall i :: 0 <= i < 5 ==> SlotOutcome(c, i, was[i], now[i]))
    && (forall i :: index <= i < 5 ==> now[i] == was[i])
    && (index > 0 ==> now[0] == RecoveredSlot(c, 0, was[0]))
  }

  lemma RecoveredActiveIsClean(c: Codec, slot: Option<Bytes>)
    ensures slot.Some? ==> Clean(c, RecoveredSlot(c, 0, slot).value)
  {
    if slot.Some? {
      RecoveryIsIdempotent(c, slot.value);
    }
  }

  /** What an I/O failure or a completed recovery may leave of one file. */
  predicate SlotOutcome(c: Codec, index: nat, was: Option<Bytes>, now: Option<Bytes>) {
    now == was || now == RecoveredSlot(c, index, was)
  }

  class LogStore {
    const codec: Codec
    const disk: Disk
    const maxActiveBytes: nat
    var nextSequence: U64

    constructor (codec: Codec, disk: Disk, maxActiveBytes: nat, nextSequence: U64)
      ensures this.codec == codec && this.disk == disk
      ensures this.maxActiveBytes == maxActiveBytes && this.nextSequence == nextSequence
    {
      this.codec, this.disk := codec, disk;
      this.maxActiveBytes, this.nextSequence := maxActiveBytes, nextSequence;
    }

    /** Startup. Fails only with the file system, leaving each file untouched or recovered. */
    static method Open(codec: Codec, disk: Disk, maxActiveBytes: nat) returns (store: LogStore?)
      modifies disk
      ensures forall i :: 0 <= i < 5 ==> SlotOutcome(codec, i, old(disk.slots)[i], disk.slots[i])
      ensures store != null ==> fresh(store) && store.codec == codec && store.disk == disk
      ensures store != null ==> store.maxActiveBytes == maxActiveBytes
      ensures store != null ==> disk.slots[0] == RecoveredSlot(codec, 0, old(disk.slots)[0])
      ensures store != null ==>
                store.nextSequence == SaturatingSucc(RecoveredMaximum(codec, old(disk.slots), 5))
    {
      var maximum := RecoverAll(codec, disk);
      if maximum.None? {
        return null;
      }
      RecoveredActiveIsClean(codec, old(disk.slots)[0]);
      var repaired := RepairActiveTail(codec, disk);
      if !repaired {
        return null;
      }
      store := new LogStore(codec, disk, maxActiveBytes, SaturatingSucc(maximum.value));
    }

    /** Recover the active file and then archives 1 to 4; the newest sequence found. */
    static method RecoverAll(codec: Codec, disk: Disk) returns (result: Option<U64>)
      modifies disk
      ensures forall i :: 0 <= i < 5 ==> SlotOutcome(codec, i, old(disk.slots)[i], disk.slots[i])
      ensures result.Some? ==> disk.slots[0] == RecoveredSlot(codec, 0, old(disk.slots)[0])
      ensures result.Some? ==> result.value == RecoveredMaximum(codec, old(disk.slots), 5)
    {
      var maximum: U64 := 0;
      ghost var was := disk.slots;
      for index := 0 to 5
        invariant maximum == RecoveredMaximum(codec, was, index)
        invariant Recovering(codec, was, disk.slots, index)
      {
        var records := RecoverRecords(codec, disk, index);
        if records.None? {
          return None;
        }
        var here := MaxSequence(records.value);
        maximum := if here > maximum then here else maximum;
      }
      return Some(maximum);
    }

    /** Scan one file; at the first anomaly cut the active file or move an archive aside. */
    static method RecoverRecords(codec: Codec, disk: Disk, index: nat)
      returns (result: Option<seq<LogRecord>>)
      requires index < 5
      modifies disk
      ensures forall i :: 0 <= i < 5 && i != index ==> disk.slots[i] == old(disk.slots)[i]
      ensures SlotOutcome(codec, index, old(disk.slots)[index], disk.slots[index])
      ensures result.Some? ==> result.value == RecoveredRecords(codec, index, old(disk.slots)[index])
      ensures result.Some? && index == 0 ==>
                disk.slots[0] == RecoveredSlot(codec, 0, old(disk.slots)[0])
    {
      if disk.slots[index].None? {
        return Some([]);
      }
      var readable: bool := *;
      if !readable {
        return None;
      }
      var f := disk.slots[index].value;
      var records, validBytes := ScanFile(codec, f);
      if validBytes != |f| {
        if index == 0 {
          var cut := disk.SetLength(0, validBytes);
          if !cut {
            return None;
          }
        } else {
          var moved := disk.Remove(index);
          records := [];
        }
      }
      return Some(records);
    }

    /** The valid records at the start of a file, and how many bytes they fill. */
    static method ScanFile(c: Codec, f: Bytes) returns (records: seq<LogRecord>, validBytes: nat)
      ensures validBytes <= |f|
      ensures records == Scan(c, f) && f[..validBytes] == Truncated(c, f)
      ensures validBytes == |f| <==> Clean(c, f)
    {
      records, validBytes := [], 0;
      ghost var lines := [];
      while validBytes < |f|
        invariant ScannedTo(c, f, lines, records, validBytes)
      {
        var line, rest := NextLine(f, validBytes);
        if line.None? || !ValidLine(c, line.value) {
          break;
        }
        ScanAdvances(c, f, lines, records, validBytes, line.value);
        lines := lines + [line.value];
        records := records + [c.decode(line.value).value];
        validBytes := validBytes + |line.value| + 1;
      }
      ScanStops(c, f, lines, records, validBytes);
    }

    /** Read up to the next line feed; None at the end of the file or on an unterminated tail. */
    static method NextLine(f: Bytes, pos: nat) returns (line: Option<Bytes>, ghost rest: Bytes)
      requires pos <= |f|
      ensures rest == f[pos..]
      ensures line.None? ==> LF !in rest && forall c: Codec :: ScanLines(c, rest) == []
      ensures line.Some? ==> LF !in line.value && line.value + [LF] <= rest
      ensures line.Some? ==> forall c: Codec ::
                (ScanLines(c, rest) == [] <==> !ValidLine(c, line.value))
    {
      rest := f[pos..];
      var n := LineEnd(f[pos..]);
      if n == |f| - pos {
        return None, rest;
      }
      line := Some(f[pos..pos + n]);
      assert line.value == rest[..n] && line.value + [LF] == rest[..n + 1];
    }

    /** Cut the active file after its last line feed. After recovery this never changes anything. */
    static method RepairActiveTail(codec: Codec, disk: Disk) returns (ok: bool)
      modifies disk
      ensures disk.slots == old(disk.slots) ||
              (disk.slots[0].Some? && old(disk.slots)[0].Some? &&
               var f := old(disk.slots)[0].value;
               disk.slots == old(disk.slots)[0 := Some(f[..CompleteLength(f)])])
      ensures ok && disk.slots[0].Some? ==> CompleteLength(disk.slots[0].value) == |disk.slots[0].value|
      ensures old(disk.slots)[0].Some? && Clean(codec, old(disk.slots)[0].value) ==>
                disk.slots == old(disk.slots)
    {
      if disk.slots[0].None? {
        return true;
      }
      var f := disk.slots[0].value;
      RecoveryIsIdempotent(codec, f);
      var complete := CompleteLength(f);
      if complete != |f| {
        assert complete > 0 ==> f[..complete][complete - 1] == LF;
        ok := disk.SetLength(0, complete);
      } else {
        ok := *;
      }
    }

    /** Shift every file one name up. On failure the disk is one of the states on the way. */
    method Rotate() returns (ok: bool, ghost operations: nat)
      modifies disk
      ensures operations <= 5 && disk.slots == RotatePrefix(old(disk.slots), operations)
      ensures ok <==> operations == 5
    {
      operations := 0;
      if disk.slots[4].Some? {
        ok := disk.Remove(4);
        if !ok {
          return;
        }
      }
      operations := 1;
      assert RotatePrefix(old(disk.slots), 0) == old(disk.slots);
      var index := 3;
      while index >= 0
        invariant -1 <= index <= 3 && operations == 4 - index
        invariant disk.slots == RotatePrefix(old(disk.slots), operations)
      {
        RotationNeverOverwrites(old(disk.slots), operations);
        if disk.slots[index].Some? {
          ok := disk.Rename(index, index + 1);
          if !ok {
            return;
          }
        }
        operations := operations + 1;
        index := index - 1;
      }
      ok := true;
    }

    /** Append one event. The record is acknowledged only after the whole line is written and synced. */
    method Append(event: NewLogRecord, clock: Option<U64>)
      returns (result: Option<LogRecord>, ghost end: AppendEnd)
      modifies this, disk
      ensures result.Some? <==> end.Acknowledged?
      ensures end.Refused? ==> disk.slots == old(disk.slots)
      ensures clock.None? ==> end.Refused?
      ensures clock.Some? ==>
                match Built(event, old(nextSequence), clock.value)
                case None => end.Refused?
                case Some(record) =>
                  && (end.Refused? <==> |codec.encode(record)| > MAX_RECORD_BYTES)
                  && PossibleEnd(codec, old(disk.slots), record, maxActiveBytes, end)
                  && disk.slots == AfterAppend(codec, old(disk.slots), record, maxActiveBytes, end)
      ensures result.Some? ==>
                && clock.Some? && Describes(result.value, event, old(nextSequence), clock.value)
                && disk.slots == AfterAppend(codec, old(disk.slots), result.value, maxActiveBytes, Acknowledged)
      ensures nextSequence == if end.Acknowledged? then SaturatingSucc(old(nextSequence))
                              else old(nextSequence)
    {
      var message := NormalizeMessage(event.message);
      if message.None? || clock.None? {
        return None, Refused;
      }
      var record := LogRecord(SCHEMA_VERSION, nextSequence, clock.value, event.stream, event.level, event.code,
                              event.applicationId, event.pluginId, message.value);
      BuiltExactlyWhen(event, nextSequence, clock.value, record);
      var encoded := codec.encode(record);
      if |encoded| > MAX_RECORD_BYTES {
        return None, Refused;
      }
      encoded := encoded + [LF];
      var currentSize := |Contents(disk.slots[0])|;
      if currentSize > 0 && currentSize + |encoded| > maxActiveBytes {
        var rotated, operations := Rotate();
        if !rotated {
          return None, RotateStopped(operations);
        }
      }
      var began, written, synced := disk.Write(encoded);
      if !synced {
        return None, if began then WriteStopped(written) else NotOpened;
      }
      assert encoded[..written] == encoded;
      nextSequence := SaturatingSucc(nextSequence);
      return Some(record), Acknowledged;
    }

    /** Newest first, filtered, at most `limit` records. */
    method Query(q: LogQuery) returns (result: Option<seq<LogRecord>>)
      ensures result == Answer(codec, disk.slots, q)
    {
      var all := [];
      for index := 0 to 5
        invariant ReadSlots(codec, disk.slots, index) == Some(all)
      {
        var records := ReadFile(codec, Contents(disk.slots[index]));
        if records.None? {
          ReadSlotsFails(codec, disk.slots, index + 1, 5);
          return None;
        }
        all := all + records.value;
      }
      return Some(Take(SortDescending(Retain(q, all)), q.limit));
    }

    static lemma ReadSlotsFails(c: Codec, s: Slots<Bytes>, low: nat, high: nat)
      requires low <= high <= 5 && ReadSlots(c, s, low).None?
      ensures ReadSlots(c, s, high).None?
    {
      if low < high {
        ReadSlotsFails(c, s, low, high - 1);
      }
    }

    static method ReadFile(c: Codec, f: Bytes) returns (result: Option<seq<LogRecord>>)
      ensures result == ReadRecords(c, f)
    {
      var records, pos := [], 0;
      ghost var lines := [];
      while pos < |f|
        invariant ScannedTo(c, f, lines, records, pos)
      {
        var line, rest := NextLine(f, pos);
        if line.None? {
          break;
        }
        if !ValidLine(c, line.value) {
          ScanStops(c, f, lines, records, pos);
          assert rest[|line.value|] == LF;
          return None;
        }
        ScanAdvances(c, f, lines, records, pos, line.value);
        lines := lines + [line.value];
        records := records + [c.decode(line.value).value];
        pos := pos + |line.value| + 1;
      }
      ScanStops(c, f, lines, records, pos);
      return Some(records);
    }
  }
}
