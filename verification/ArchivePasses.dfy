/** The checks made on every archive entry before anything is written, by extraction and inspection. */
module ArchivePasses {
  import opened Wrappers
  import opened Strings
  import opened ArchiveNames

  const MAX_ENTRIES := 1000
  const MAX_SINGLE_FILE := 16 * 1024 * 1024
  const MAX_TOTAL_SIZE := 64 * 1024 * 1024
  const MAX_COMPRESSION_RATIO := 100

  /** Name, size and compressed size as the archive's directory states them. */
  datatype ZipEntry = ZipEntry(name: string, size: U64, compressed: U64)

  type Dest = seq<string>

  function SaturatingRatio(n: U64): U64 {
    if MAX_COMPRESSION_RATIO * n > U64_MAX then U64_MAX else MAX_COMPRESSION_RATIO * n
  }

  function AtLeastOne(n: U64): U64 {
    if n == 0 then 1 else n
  }

  /** The sum of compressed sizes is not capped and wraps in a release build. */
  function WrappingAdd(a: U64, b: U64): U64 {
    (a + b) % (U64_MAX + 1)
  }

  // ---- What the passes accept ----

  function TotalSize(entries: seq<ZipEntry>, n: nat): nat
    requires n <= |entries|
  {
    if n == 0 then 0 else TotalSize(entries, n - 1) + entries[n - 1].size
  }

  function TotalCompressed(entries: seq<ZipEntry>, n: nat): U64
    requires n <= |entries|
  {
    if n == 0 then 0 else WrappingAdd(TotalCompressed(entries, n - 1), entries[n - 1].compressed)
  }

  predicate WithinLimits(entry: ZipEntry, total: nat, compressed: U64) {
    && entry.size <= MAX_SINGLE_FILE && total <= MAX_TOTAL_SIZE
    && entry.size <= SaturatingRatio(AtLeastOne(entry.compressed))
    && (compressed > 0 ==> total <= SaturatingRatio(compressed))
  }

  function Keys(entries: seq<ZipEntry>, n: nat): set<string>
    requires n <= |entries|
  {
    if n == 0 then {}
    else
      var key := NameKey(entries[n - 1].name);
      Keys(entries, n - 1) + if key.Some? then {key.value} else {}
  }

  predicate Accepts(entries: seq<ZipEntry>, n: nat)
    requires n < |entries|
  {
    && WithinLimits(entries[n], TotalSize(entries, n + 1), TotalCompressed(entries, n + 1))
    && NameKey(entries[n].name).Some?
    && NameKey(entries[n].name).value !in Keys(entries, n)
  }

  predicate EntriesAcceptedUpTo(entries: seq<ZipEntry>, n: nat)
    requires n <= |entries|
  {
    forall k :: 0 <= k < n ==> Accepts(entries, k)
  }

  /** Few enough entries, each accepted after those before it. */
  predicate Accepted(entries: seq<ZipEntry>) {
    |entries| <= MAX_ENTRIES && EntriesAcceptedUpTo(entries, |entries|)
  }

  function Planned(dest: Dest, entries: seq<ZipEntry>, n: nat): seq<Dest>
    requires n <= |entries|
  {
    if n == 0 then [] else Planned(dest, entries, n - 1) + [dest + Segments(entries[n - 1].name)]
  }

  function Names(entries: seq<ZipEntry>, n: nat): seq<string>
    requires n <= |entries|
  {
    if n == 0 then [] else Names(entries, n - 1) + [entries[n - 1].name]
  }

  // ---- The passes ----

  /** Totals and keys, kept while the entries are checked in order. */
  class EntryCheck {
    var seen: map<string, string>
    var total: nat
    var totalCompressed: U64

    constructor ()
      ensures seen == map[] && total == 0 && totalCompressed == 0
    {
      seen, total, totalCompressed := map[], 0, 0;
    }

    ghost predicate Follows(entries: seq<ZipEntry>, n: nat)
      requires n <= |entries|
      reads this
    {
      seen.Keys == Keys(entries, n) && total == TotalSize(entries, n) && totalCompressed == TotalCompressed(entries, n)
    }

    /** `track_entry_name`. */
    method Track(key: string, name: string) returns (ok: bool)
      modifies this`seen
      ensures ok <==> key !in old(seen)
      ensures seen == if ok then old(seen)[key := name] else old(seen)
    {
      if key in seen {
        return false;
      }
      seen := seen[key := name];
      ok := true;
    }

    method Check(ghost entries: seq<ZipEntry>, ghost n: nat, entry: ZipEntry) returns (ok: bool)
      requires n < |entries| && entry == entries[n] && Follows(entries, n)
      modifies this
      ensures ok <==> Accepts(entries, n)
      ensures ok ==> Follows(entries, n + 1)
    {
      if entry.size > MAX_SINGLE_FILE {
        return false;
      }
      total := total + entry.size;
      if total > MAX_TOTAL_SIZE || entry.size > SaturatingRatio(AtLeastOne(entry.compressed)) {
        return false;
      }
      totalCompressed := WrappingAdd(totalCompressed, entry.compressed);
      if totalCompressed > 0 && total > SaturatingRatio(totalCompressed) {
        return false;
      }
      var key := ValidateArchiveEntryName(entry.name);
      if key.None? {
        return false;
      }
      ok := Track(key.value, entry.name);
    }
  }

  /** The check before extraction: the paths to write, or a rejection. */
  method PlanExtraction(entries: seq<ZipEntry>, dest: Dest) returns (planned: Option<seq<Dest>>)
    ensures planned == if Accepted(entries) then Some(Planned(dest, entries, |entries|)) else None
  {
    if |entries| > MAX_ENTRIES {
      return None;
    }
    var check := new EntryCheck();
    var paths: seq<Dest> := [];
    for k := 0 to |entries|
      invariant EntriesAcceptedUpTo(entries, k) && check.Follows(entries, k)
      invariant fresh(check) && paths == Planned(dest, entries, k)
    {
      var ok := check.Check(entries, k, entries[k]);
      if !ok {
        return None;
      }
      ValidatedNameJoins(dest, entries[k].name);
      var path := SafeJoin(dest, entries[k].name);
      paths := paths + [path.value];
    }
    planned := Some(paths);
  }

  /** The check made by inspection: the entry names, or a rejection. */
  method InspectEntries(entries: seq<ZipEntry>) returns (names: Option<seq<string>>)
    ensures names == if Accepted(entries) then Some(Names(entries, |entries|)) else None
  {
    if |entries| > MAX_ENTRIES {
      return None;
    }
    var check := new EntryCheck();
    var found: seq<string> := [];
    for k := 0 to |entries|
      invariant EntriesAcceptedUpTo(entries, k) && check.Follows(entries, k)
      invariant fresh(check) && found == Names(entries, k)
    {
      var ok := check.Check(entries, k, entries[k]);
      if !ok {
        return None;
      }
      ValidatedNameJoins([], entries[k].name);
      var _ := SafeJoin([], entries[k].name);
      found := found + [entries[k].name];
    }
    names := Some(found);
  }

  // ---- Main results ----

  function SumCompressed(entries: seq<ZipEntry>, n: nat): nat
    requires n <= |entries|
  {
    if n == 0 then 0 else SumCompressed(entries, n - 1) + entries[n - 1].compressed
  }

  lemma WrappingAdds(sum: nat, n: U64)
    ensures WrappingAdd(sum % 0x1_0000_0000_0000_0000, n) == (sum + n) % 0x1_0000_0000_0000_0000
  {
    var q := sum / 0x1_0000_0000_0000_0000;
    var r := sum % 0x1_0000_0000_0000_0000;
    assert sum == 0x1_0000_0000_0000_0000 * q + r;
    if r + n >= 0x1_0000_0000_0000_0000 {
      assert sum + n == 0x1_0000_0000_0000_0000 * (q + 1) + (r + n - 0x1_0000_0000_0000_0000);
    }
  }

  /** The running compressed total is the sum modulo 2^64. */
  lemma {:induction false} CompressedWraps(entries: seq<ZipEntry>, n: nat)
    requires n <= |entries|
    ensures TotalCompressed(entries, n) == SumCompressed(entries, n) % 0x1_0000_0000_0000_0000
  {
    if n > 0 {
      CompressedWraps(entries, n - 1);
      WrappingAdds(SumCompressed(entries, n - 1), entries[n - 1].compressed);
    }
  }

  lemma {:induction false} KeyFrom(entries: seq<ZipEntry>, n: nat, key: string) returns (i: nat)
    requires n <= |entries| && key in Keys(entries, n)
    ensures i < n && NameKey(entries[i].name) == Some(key)
  {
    i := n - 1;
    if NameKey(entries[i].name) != Some(key) {
      i := KeyFrom(entries, n - 1, key);
    }
  }

  /** No entry before it has the key of this one. */
  ghost predicate NewKey(entries: seq<ZipEntry>, k: nat)
    requires k < |entries|
  {
    && NameKey(entries[k].name).Some?
    && forall j :: 0 <= j < k ==> NameKey(entries[j].name) != NameKey(entries[k].name)
  }

  lemma NewKeyExactlyWhen(entries: seq<ZipEntry>, k: nat)
    requires k < |entries| && NameKey(entries[k].name).Some?
    ensures NameKey(entries[k].name).value !in Keys(entries, k) <==> NewKey(entries, k)
  {
    var key := NameKey(entries[k].name).value;
    if key in Keys(entries, k) {
      var i := KeyFrom(entries, k, key);
    } else {
      forall j | 0 <= j < k ensures NameKey(entries[j].name) != Some(key) {
        if NameKey(entries[j].name) == Some(key) {
          KeyIn(entries, k, j);
        }
      }
    }
  }

  /** At most 16 MiB and at most a hundred times the compressed size, 0 counting as 1, with a valid name
      and a new key; the running total at most 64 MiB and, unless the running compressed total, which
      wraps at 2^64, is 0, at most a hundred times that. */
  ghost predicate Allowed(entries: seq<ZipEntry>, k: nat)
    requires k < |entries|
  {
    var size, own := entries[k].size, entries[k].compressed;
    var total, compressed := TotalSize(entries, k + 1), SumCompressed(entries, k + 1) % 0x1_0000_0000_0000_0000;
    && size <= 0x100_0000 && total <= 0x400_0000
    && (size <= 100 || size <= 100 * own) && (compressed == 0 || total <= 100 * compressed)
    && NewKey(entries, k)
  }

  /** What both passes accept: at most 1000 entries, each allowed after those before it. */
  lemma AcceptedExactlyWhen(entries: seq<ZipEntry>)
    ensures Accepted(entries) <==> |entries| <= 1000 && forall k :: 0 <= k < |entries| ==> Allowed(entries, k)
  {
    forall k | 0 <= k < |entries| ensures Accepts(entries, k) <==> Allowed(entries, k) {
      CompressedWraps(entries, k + 1);
      if NameKey(entries[k].name).Some? {
        NewKeyExactlyWhen(entries, k);
      }
    }
  }

  lemma {:induction false} KeyIn(entries: seq<ZipEntry>, n: nat, i: nat)
    requires i < n <= |entries| && NameKey(entries[i].name).Some?
    ensures NameKey(entries[i].name).value in Keys(entries, n)
  {
    if i < n - 1 {
      KeyIn(entries, n - 1, i);
    }
  }

  lemma AcceptedKeysDiffer(entries: seq<ZipEntry>, i: nat, j: nat)
    requires i < j < |entries| && Accepts(entries, i) && Accepts(entries, j)
    ensures LowerAll(Segments(entries[i].name)) != LowerAll(Segments(entries[j].name))
  {
    KeyIn(entries, j, i);
    KeysIdentifyPaths(entries[i].name, entries[j].name);
  }

  lemma {:induction false} PlannedAt(dest: Dest, entries: seq<ZipEntry>, n: nat, i: nat)
    requires i < n <= |entries|
    ensures |Planned(dest, entries, n)| == n && Planned(dest, entries, n)[i] == dest + Segments(entries[i].name)
  {
    if n > 1 && i < n - 1 {
      PlannedAt(dest, entries, n - 1, i);
    } else if n > 1 {
      PlannedAt(dest, entries, n - 1, 0);
    }
  }

  lemma LowerAllConcat(a: seq<string>, b: seq<string>)
    ensures LowerAll(a + b) == LowerAll(a) + LowerAll(b)
  {
  }

  lemma AcceptedSegmentsAreOrdinary(entries: seq<ZipEntry>, i: nat, k: nat)
    requires i < |entries| && Accepts(entries, i)
    ensures Segments(entries[i].name) != []
    ensures k < |Segments(entries[i].name)| ==> Ordinary(Segments(entries[i].name)[k])
  {
    if k < |Segments(entries[i].name)| {
      ValidatedSegmentsAreOrdinary(entries[i].name, k);
    }
  }

  /** Every planned path lies below the destination in ordinary segments. */
  lemma PlannedPathIsBelow(dest: Dest, entries: seq<ZipEntry>, i: nat, k: nat)
    requires Accepted(entries) && i < |entries|
    ensures |Planned(dest, entries, |entries|)| == |entries|
    ensures var path := Planned(dest, entries, |entries|)[i];
            dest < path && (|dest| <= k < |path| ==> Ordinary(path[k]))
  {
    PlannedAt(dest, entries, |entries|, i);
    assert Accepts(entries, i);
    AcceptedSegmentsAreOrdinary(entries, i, if k >= |dest| then k - |dest| else 0);
  }

  /** Planned paths are pairwise different even when ASCII case is ignored. */
  lemma PlannedPathsDiffer(dest: Dest, entries: seq<ZipEntry>, i: nat, j: nat)
    requires Accepted(entries) && i < j < |entries|
    ensures |Planned(dest, entries, |entries|)| == |entries|
    ensures LowerAll(Planned(dest, entries, |entries|)[i]) != LowerAll(Planned(dest, entries, |entries|)[j])
  {
    PlannedAt(dest, entries, |entries|, i);
    PlannedAt(dest, entries, |entries|, j);
    assert Accepts(entries, i) && Accepts(entries, j);
    AcceptedKeysDiffer(entries, i, j);
    SameTails(dest, Segments(entries[i].name), Segments(entries[j].name));
  }

  lemma SameTails(dest: Dest, a: seq<string>, b: seq<string>)
    ensures LowerAll(dest + a) == LowerAll(dest + b) <==> LowerAll(a) == LowerAll(b)
  {
    LowerAllConcat(dest, a);
    LowerAllConcat(dest, b);
    var front := LowerAll(dest);
    assert (front + LowerAll(a))[|front|..] == LowerAll(a);
    assert (front + LowerAll(b))[|front|..] == LowerAll(b);
  }

  /** The per-entry checks bound the whole archive: its entries declare at most 64 MiB, and
      at most a hundred times the compressed total. */
  lemma AcceptedArchiveIsBounded(entries: seq<ZipEntry>)
    requires entries != [] && Accepted(entries)
    ensures TotalSize(entries, |entries|) <= 64 * 1024 * 1024
    ensures TotalCompressed(entries, |entries|) > 0 ==>
              TotalSize(entries, |entries|) <= 100 * TotalCompressed(entries, |entries|)
  {
    assert Accepts(entries, |entries| - 1);
  }

  // ---- What the check does not see ----

  lemma PlainName(name: string)
    requires name == "a" || name == "b"
    ensures SegmentAccepted(name) && Slashes(name) == name && Split(name, '/') == [name]
  {
    SplitFirst(name, '/', "");
    SplitFirst(name, '.', "");
    assert |Upper(name)| == 1;
  }

  lemma PlainKeys()
    ensures Segments("a") == ["a"] && Segments("a/b") == ["a", "b"]
    ensures NameKey("a").Some? && NameKey("a/b").Some? && NameKey("a") != NameKey("a/b")
  {
    PlainName("a");
    PlainName("b");
    assert "a/b" == "a" + ['/'] + "b";
    assert Slashes("a/b") == "a/b";
    SplitFirst("a", '/', "b");
    var both := ["a", "b"];
    assert AcceptedUpTo(["a"], 0) && AcceptedUpTo(both, 1);
    KeysIdentifyPaths("a", "a/b");
    assert LowerAll(["a"]) != LowerAll(both);
  }

  lemma TinyEntryIsAccepted(entries: seq<ZipEntry>, n: nat)
    requires n < |entries| && entries[n].size == 1 && entries[n].compressed == 1
    requires TotalSize(entries, n) <= 1 && TotalCompressed(entries, n) <= 1
    requires NameKey(entries[n].name).Some? && NameKey(entries[n].name).value !in Keys(entries, n)
    ensures Accepts(entries, n)
  {
  }

  /** A file and an entry below it are both accepted, though no directory can hold both. */
  lemma FileBelowFileIsAccepted(dest: Dest)
    ensures var entries := [ZipEntry("a", 1, 1), ZipEntry("a/b", 1, 1)];
            Accepted(entries) && Planned(dest, entries, 2) == [dest + ["a"], dest + ["a", "b"]]
  {
    var entries := [ZipEntry("a", 1, 1), ZipEntry("a/b", 1, 1)];
    PlainKeys();
    assert Keys(entries, 0) == {} && Keys(entries, 1) == {NameKey("a").value};
    assert TotalSize(entries, 1) == 1 && TotalCompressed(entries, 1) == 1;
    TinyEntryIsAccepted(entries, 0);
    TinyEntryIsAccepted(entries, 1);
    assert Planned(dest, entries, 1) == [dest + ["a"]];
  }
}
