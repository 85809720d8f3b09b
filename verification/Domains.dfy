/** Domain whitelist entries: normalization when a package is checked, matching when Core serves it. */
module Domains {
  import opened Wrappers
  import opened Strings

  const MAX_NETWORK_DOMAINS := 64

  // ---- Trimming ----

  /** Unicode White_Space. */
  predicate IsSpace(c: char) {
    var n := c as int;
    || 9 <= n <= 13 || n == 32 || n == 0x85 || n == 0xA0 || n == 0x1680 || 0x2000 <= n <= 0x200A
    || n == 0x2028 || n == 0x2029 || n == 0x202F || n == 0x205F || n == 0x3000
  }

  function TrimStart(s: string): string {
    if s != "" && IsSpace(s[0]) then TrimStart(s[1..]) else s
  }

  function TrimEnd(s: string): string {
    if s != "" && IsSpace(s[|s| - 1]) then TrimEnd(s[..|s| - 1]) else s
  }

  function Trim(s: string): string {
    TrimEnd(TrimStart(s))
  }

  // ---- Numbers ----

  function ParseU16(s: string): Option<nat> {
    ParseUnsigned(s, 65535)
  }

  // ---- Package: normalization ----

  predicate LabelAccepted(name: string) {
    && 1 <= |name| <= 63
    && IsAlphanumeric(name[0]) && IsAlphanumeric(name[|name| - 1])
    && forall i :: 0 <= i < |name| ==> IsAlphanumeric(name[i]) || name[i] == '-'
  }

  predicate LabelsAccepted(labels: seq<string>) {
    forall i :: 0 <= i < |labels| ==> LabelAccepted(labels[i])
  }

  predicate HostnameAccepted(host: string) {
    |host| <= 253 && LabelsAccepted(Split(host, '.'))
  }

  predicate OctetAccepted(octet: string) {
    1 <= |octet| <= 3 && AllDigits(octet) && Value(octet) <= 255
  }

  predicate OctetsAccepted(octets: seq<string>) {
    |octets| == 4 && forall i :: 0 <= i < |octets| ==> OctetAccepted(octets[i])
  }

  predicate LooksNumeric(base: string) {
    '.' in base && forall i :: 0 <= i < |base| ==> IsDigit(base[i]) || base[i] == '.'
  }

  predicate IsWildcard(host: string) {
    |host| >= 2 && host[0] == '*' && host[1] == '.'
  }

  predicate HostAccepted(host: string) {
    var base := if IsWildcard(host) then host[2..] else host;
    && '*' !in base
    && (IsWildcard(host) ==> base != "" && '.' in base)
    && if !IsWildcard(host) && LooksNumeric(base) then
         OctetsAccepted(Split(base, '.'))
       else HostnameAccepted(base)
  }

  predicate PortAccepted(port: string) {
    1 <= |port| <= 5 && AllDigits(port) && 1 <= Value(port) <= 65535
  }

  /** `normalize_network_domain`, with its error texts left out. */
  function NormalizeDomain(raw: string): Option<string> {
    var entry := Trim(raw);
    if entry == "" || '/' in entry || '@' in entry || entry[0] == '[' then None
    else
      var segments := Split(entry, ':');
      if |segments| > 2 || segments[0] == "" then None
      else
        var host := Lower(segments[0]);
        if !HostAccepted(host) then None
        else if |segments| == 1 then Some(host)
        else if !PortAccepted(segments[1]) then None
        else Some(host + ":" + segments[1])
  }

  function Forms(entries: seq<string>): (forms: seq<Option<string>>)
    ensures |forms| == |entries|
    ensures forall i :: 0 <= i < |entries| ==> forms[i] == NormalizeDomain(entries[i])
  {
    seq(|entries|, i requires 0 <= i < |entries| => NormalizeDomain(entries[i]))
  }

  /** The normal forms among the first k. */
  function Seen(forms: seq<Option<string>>, k: nat): set<string>
    requires k <= |forms|
  {
    if k == 0 then {} else Seen(forms, k - 1) + if forms[k - 1].Some? then {forms[k - 1].value} else {}
  }

  /** The loop's verdict on the first k. */
  predicate AcceptedUpTo(forms: seq<Option<string>>, k: nat)
    requires k <= |forms|
  {
    k == 0 || (AcceptedUpTo(forms, k - 1) && forms[k - 1].Some? && forms[k - 1].value !in Seen(forms, k - 1))
  }

  lemma {:induction false} AcceptedUpToStays(forms: seq<Option<string>>, k: nat, n: nat)
    requires k <= n <= |forms| && AcceptedUpTo(forms, n)
    ensures AcceptedUpTo(forms, k)
  {
    if k < n {
      AcceptedUpToStays(forms, k, n - 1);
    }
  }

  lemma AcceptedStep(forms: seq<Option<string>>, k: nat)
    requires k < |forms| && AcceptedUpTo(forms, k) && forms[k].Some? && forms[k].value !in Seen(forms, k)
    ensures AcceptedUpTo(forms, k + 1) && Seen(forms, k + 1) == Seen(forms, k) + {forms[k].value}
  {
  }

  lemma RejectedAt(forms: seq<Option<string>>, k: nat)
    requires k < |forms| && (forms[k].None? || forms[k].value in Seen(forms, k))
    ensures !AcceptedUpTo(forms, |forms|)
  {
    if AcceptedUpTo(forms, |forms|) {
      AcceptedUpToStays(forms, k + 1, |forms|);
    }
  }

  /** In order, the first that is refused or already seen ends the check. */
  method ValidateForms(forms: seq<Option<string>>) returns (ok: bool)
    ensures ok <==> AcceptedUpTo(forms, |forms|)
  {
    var seen: set<string> := {};
    for k := 0 to |forms|
      invariant AcceptedUpTo(forms, k) && seen == Seen(forms, k)
    {
      var normalized := forms[k];
      if normalized.None? || normalized.value in seen {
        RejectedAt(forms, k);
        return false;
      }
      AcceptedStep(forms, k);
      seen := seen + {normalized.value};
    }
    ok := true;
  }

  lemma {:induction false} SeenIs(forms: seq<Option<string>>, k: nat, form: string)
    requires k <= |forms|
    ensures form in Seen(forms, k) <==> exists i :: 0 <= i < k && forms[i] == Some(form)
  {
    if k > 0 {
      SeenIs(forms, k - 1, form);
    }
  }

  /** The check passes exactly when every entry is accepted and no two have one normal form. */
  lemma {:induction false} AcceptedWhenDistinct(forms: seq<Option<string>>, k: nat)
    requires k <= |forms|
    ensures AcceptedUpTo(forms, k) <==>
            (forall i :: 0 <= i < k ==> forms[i].Some?) && (forall i, j :: 0 <= i < j < k ==> forms[i] != forms[j])
  {
    if k > 0 {
      AcceptedWhenDistinct(forms, k - 1);
      if forms[k - 1].Some? {
        SeenIs(forms, k - 1, forms[k - 1].value);
      }
    }
  }

  /** The entry check of a manifest: few enough entries, each accepted, no two with one normal form. */
  method ValidateDomains(entries: seq<string>) returns (ok: bool)
    ensures ok <==>
            && |entries| <= 64
            && (forall i :: 0 <= i < |entries| ==> NormalizeDomain(entries[i]).Some?)
            && (forall i, j :: 0 <= i < j < |entries| ==> NormalizeDomain(entries[i]) != NormalizeDomain(entries[j]))
  {
    if |entries| > MAX_NETWORK_DOMAINS {
      return false;
    }
    ok := ValidateForms(Forms(entries));
    AcceptedWhenDistinct(Forms(entries), |entries|);
  }

  /** What the parsed manifest holds for a checked entry: lowercased, not trimmed. */
  function Stored(raw: string): string {
    Lower(raw)
  }

  // ---- Core: matching ----

  function SplitEntry(entry: string): (string, Option<nat>) {
    var n := FindLast(entry, ':');
    if n < |entry| then (entry[..n], ParseU16(entry[n + 1..])) else (entry, None)
  }

  predicate EndsWith(s: string, suffix: string) {
    |s| >= |suffix| && s[|s| - |suffix|..] == suffix
  }

  predicate EndsAfterDot(host: string, base: string) {
    |host| > |base| && EndsWith(host, base) && host[|host| - |base| - 1] == '.'
  }

  predicate EntryAllows(entry: string, host: string, port: nat) {
    var (entryHost, entryPort) := SplitEntry(entry);
    PartsAllow(entryHost, entryPort, host, port)
  }

  predicate PartsAllow(entryHost: string, entryPort: Option<nat>, host: string, port: nat) {
    && (entryPort.Some? ==> entryPort.value == port)
    && if IsWildcard(entryHost) then
         EndsAfterDot(host, entryHost[2..])
       else entryHost == host
  }

  predicate DomainAllows(host: string, port: nat, whitelist: seq<string>) {
    whitelist != [] && (EntryAllows(whitelist[0], host, port) || DomainAllows(host, port, whitelist[1..]))
  }

  // ---- What an entry means ----

  /** Labels of the trimmed, lowercased host text; a leading `*` name stands for one or more labels. */
  function Labels(raw: string): seq<string> {
    Split(Split(Lower(Trim(raw)), ':')[0], '.')
  }

  predicate PortMatches(raw: string, port: nat) {
    var segments := Split(Lower(Trim(raw)), ':');
    |segments| == 2 && AllDigits(segments[1]) ==> Value(segments[1]) == port
  }

  ghost predicate EndsInLabels(host: string, base: seq<string>) {
    exists front: seq<string> :: front != [] && Split(host, '.') == front + base
  }

  ghost predicate HostMatches(labels: seq<string>, host: string) {
    if labels != [] && labels[0] == "*"
    then EndsInLabels(host, labels[1..])
    else Split(host, '.') == labels
  }

  // ---- Trimming lemmas ----

  lemma LowerSpace(c: char)
    ensures IsSpace(LowerChar(c)) == IsSpace(c)
    ensures LowerChar(c) == ':' <==> c == ':'
    ensures LowerChar(c) == '.' <==> c == '.'
  {
  }

  lemma {:induction false} TrimStartLower(s: string)
    ensures TrimStart(Lower(s)) == Lower(TrimStart(s))
  {
    if s != "" {
      LowerSpace(s[0]);
      assert Lower(s)[1..] == Lower(s[1..]);
      TrimStartLower(s[1..]);
    }
  }

  lemma {:induction false} TrimEndLower(s: string)
    ensures TrimEnd(Lower(s)) == Lower(TrimEnd(s))
  {
    if s != "" {
      LowerSpace(s[|s| - 1]);
      assert Lower(s)[..|s| - 1] == Lower(s[..|s| - 1]);
      TrimEndLower(s[..|s| - 1]);
    }
  }

  predicate AllSpace(s: string) {
    forall i :: 0 <= i < |s| ==> IsSpace(s[i])
  }

  lemma {:induction false} TrimStartIs(s: string) returns (left: string)
    ensures s == left + TrimStart(s) && AllSpace(left)
    ensures TrimStart(s) != "" ==> !IsSpace(TrimStart(s)[0])
  {
    left := "";
    if s != "" && IsSpace(s[0]) {
      left := TrimStartIs(s[1..]);
      left := [s[0]] + left;
    }
  }

  lemma {:induction false} TrimEndIs(s: string) returns (right: string)
    ensures s == TrimEnd(s) + right && AllSpace(right)
    ensures TrimEnd(s) != "" ==> !IsSpace(TrimEnd(s)[|TrimEnd(s)| - 1])
  {
    right := "";
    if s != "" && IsSpace(s[|s| - 1]) {
      right := TrimEndIs(s[..|s| - 1]);
      right := right + [s[|s| - 1]];
    }
  }

  /** A text is whitespace, its trimmed form, whitespace. */
  lemma TrimSplits(s: string) returns (left: string, right: string)
    ensures s == left + Trim(s) + right && AllSpace(left) && AllSpace(right)
    ensures left == "" <==> TrimStart(s) == s
    ensures Trim(s) != "" ==> !IsSpace(Trim(s)[0]) && !IsSpace(Trim(s)[|Trim(s)| - 1])
  {
    left := TrimStartIs(s);
    right := TrimEndIs(TrimStart(s));
  }

  lemma TrimIsStable(s: string)
    ensures Trim(Trim(s)) == Trim(s)
  {
    var _, _ := TrimSplits(s);
  }

  lemma TrimLower(s: string)
    ensures Trim(Lower(s)) == Lower(Trim(s))
  {
    TrimStartLower(s);
    TrimEndLower(TrimStart(s));
  }

  // ---- Splitting lemmas ----

  lemma LowerSepFree(s: string, sep: char)
    requires (sep == ':' || sep == '.') && sep !in s
    ensures sep !in Lower(s)
  {
    forall i | 0 <= i < |s|
      ensures Lower(s)[i] != sep
    {
      LowerSpace(s[i]);
      assert s[i] in s;
    }
  }

  lemma LowerConcat(a: string, sep: char, b: string)
    requires sep == ':' || sep == '.'
    ensures Lower(a + [sep] + b) == Lower(a) + [sep] + Lower(b)
  {
    LowerSpace(sep);
  }

  lemma LowerAllCons(first: string, rest: seq<string>)
    ensures LowerAll([first] + rest) == [Lower(first)] + LowerAll(rest)
  {
  }

  lemma {:induction false} SplitLower(s: string, sep: char)
    requires sep == ':' || sep == '.'
    ensures Split(Lower(s), sep) == LowerAll(Split(s, sep))
    decreases |s|
  {
    var n := Find(s, sep);
    var first := s[..n];
    LowerSepFree(first, sep);
    if n < |s| {
      var rest := s[n + 1..];
      assert s == first + [sep] + rest;
      LowerConcat(first, sep, rest);
      SplitFirst(first, sep, rest);
      SplitFirst(Lower(first), sep, Lower(rest));
      SplitLower(rest, sep);
      LowerAllCons(first, Split(rest, sep));
    } else {
      assert first == s;
      SplitFirst(s, sep, "");
      SplitFirst(Lower(s), sep, "");
    }
  }

  /** Every character other than the separator is in some part. */
  lemma {:induction false} CharInPart(s: string, sep: char, c: char) returns (k: nat)
    requires c in s && c != sep
    ensures k < |Split(s, sep)| && c in Split(s, sep)[k]
    decreases |s|
  {
    var n := Find(s, sep);
    if n == |s| || c in s[..n] {
      k := 0;
    } else {
      var j := CharInPart(s[n + 1..], sep, c);
      k := j + 1;
    }
  }

  function EntryText(host: string, port: Option<string>): string {
    if port.Some? then host + [':'] + port.value else host
  }

  function Segments(host: string, port: Option<string>): seq<string> {
    if port.Some? then [host, port.value] else [host]
  }

  lemma SegmentsOf(host: string, port: Option<string>)
    requires ':' !in host && (port.Some? ==> ':' !in port.value)
    ensures Split(EntryText(host, port), ':') == Segments(host, port)
  {
    if port.Some? {
      SplitFirst(host, ':', port.value);
      SplitFirst(port.value, ':', "");
    } else {
      SplitFirst(host, ':', "");
    }
  }

  lemma PartsOf(text: string)
    requires |Split(text, ':')| <= 2
    ensures var segments := Split(text, ':');
            text == EntryText(segments[0], if |segments| == 2 then Some(segments[1]) else None) &&
            forall i :: 0 <= i < |segments| ==> ':' !in segments[i]
  {
    var segments := Split(text, ':');
    JoinOfSplit(text, ':');
    SplitIsFree(text, ':');
    if |segments| == 2 {
      assert Join(segments[1..], ':') == segments[1];
    }
  }

  lemma AcceptedParts(raw: string)
    requires NormalizeDomain(raw).Some?
    ensures var segments := Split(Trim(raw), ':');
            && |segments| <= 2 && segments[0] != "" && HostAccepted(Lower(segments[0]))
            && (|segments| == 2 ==> PortAccepted(segments[1]))
            && NormalizeDomain(raw).value ==
               EntryText(Lower(segments[0]), if |segments| == 2 then Some(segments[1]) else None)
  {
  }

  lemma LowerEntryText(host: string, port: Option<string>)
    requires port.Some? ==> AllDigits(port.value)
    ensures Lower(EntryText(host, port)) == EntryText(Lower(host), port)
  {
  }

  /** An accepted entry in normal form is its trimmed text in lower case, an accepted host with at
      most an accepted port. */
  lemma NormalParts(raw: string) returns (host: string, port: Option<string>)
    requires NormalizeDomain(raw).Some?
    ensures NormalizeDomain(raw).value == EntryText(host, port) == Lower(Trim(raw))
    ensures HostAccepted(host) && host != "" && ':' !in host
    ensures port.Some? ==> PortAccepted(port.value) && ':' !in port.value
    ensures Split(Lower(Trim(raw)), ':') == Segments(host, port)
  {
    AcceptedParts(raw);
    var segments := Split(Trim(raw), ':');
    PartsOf(Trim(raw));
    host := Lower(segments[0]);
    port := if |segments| == 2 then Some(segments[1]) else None;
    LowerSepFree(segments[0], ':');
    LowerEntryText(segments[0], port);
    SegmentsOf(host, port);
  }

  lemma LowerKeepsMarks(t: string)
    requires t != "" && '/' !in t && '@' !in t && t[0] != '['
    ensures '/' !in Lower(t) && '@' !in Lower(t) && Lower(t)[0] != '['
  {
  }

  /** Normalization is idempotent. */
  lemma NormalizeIsIdempotent(raw: string)
    requires NormalizeDomain(raw).Some?
    ensures NormalizeDomain(NormalizeDomain(raw).value) == NormalizeDomain(raw)
  {
    var t := Trim(raw);
    var n := Lower(t);
    var host, port := NormalParts(raw);
    TrimLower(t);
    TrimIsStable(raw);
    LowerKeepsMarks(t);
    LowerTwice(Split(t, ':')[0]);
    SplitLower(t, ':');
    assert Segments(host, port)[0] == Lower(host);
  }

  // ---- What is accepted ----

  /** A small letter or a digit. */
  predicate Plain(c: char) {
    'a' <= c <= 'z' || '0' <= c <= '9'
  }

  /** Up to 63 small letters, digits and inner hyphens, as section 2.3.1 of RFC 1035 has them. */
  predicate Label(s: string) {
    && 1 <= |s| <= 63 && s[0] != '-' && s[|s| - 1] != '-'
    && forall i :: 0 <= i < |s| ==> Plain(s[i]) || s[i] == '-'
  }

  predicate Octet(s: string) {
    AllDigits(s) && 1 <= |s| <= 3 && Value(s) <= 255
  }

  ghost predicate AllOctets(labels: seq<string>) {
    forall i :: 0 <= i < |labels| ==> Octet(labels[i])
  }

  ghost predicate AllNumbers(labels: seq<string>) {
    forall i :: 0 <= i < |labels| ==> AllDigits(labels[i])
  }

  /** A host of at most 253 characters: labels, behind a star at least two of them; several labels of
      digits alone are four octets. */
  ghost predicate Grammar(host: string) {
    var labels := Split(host, '.');
    if labels[0] == "*" then
      |labels| >= 3 && |host| <= 255 && AllLabels(labels[1..])
    else if |labels| >= 2 && AllNumbers(labels) then
      |labels| == 4 && AllOctets(labels)
    else
      |host| <= 253 && AllLabels(labels)
  }

  lemma LabelIs(s: string)
    requires Lower(s) == s
    ensures LabelAccepted(s) <==> Label(s)
  {
    assert forall i :: 0 <= i < |s| ==> LowerChar(s[i]) == s[i];
  }

  /** The parts of a lower-case text are lower-case. */
  lemma PartsAreLower(s: string, sep: char, i: nat)
    requires (sep == ':' || sep == '.') && Lower(s) == s && i < |Split(s, sep)|
    ensures Lower(Split(s, sep)[i]) == Split(s, sep)[i]
  {
    SplitLower(s, sep);
  }

  ghost predicate AllLabels(labels: seq<string>) {
    forall i :: 0 <= i < |labels| ==> Label(labels[i])
  }

  lemma LabelsAre(labels: seq<string>)
    requires forall i :: 0 <= i < |labels| ==> Lower(labels[i]) == labels[i]
    ensures LabelsAccepted(labels) <==> AllLabels(labels)
  {
    forall i | 0 <= i < |labels| ensures LabelAccepted(labels[i]) <==> Label(labels[i]) {
      LabelIs(labels[i]);
    }
  }

  lemma HostnameIs(base: string)
    requires Lower(base) == base
    ensures HostnameAccepted(base) <==> |base| <= 253 && AllLabels(Split(base, '.'))
  {
    var labels := Split(base, '.');
    forall i | 0 <= i < |labels| ensures Lower(labels[i]) == labels[i] {
      PartsAreLower(base, '.', i);
    }
    LabelsAre(labels);
  }

  lemma {:induction false} PartCharsAreIn(s: string, sep: char, i: nat)
    requires i < |Split(s, sep)|
    ensures forall c :: c in Split(s, sep)[i] ==> c in s && c != sep
    decreases |s|
  {
    var n := Find(s, sep);
    if n < |s| && i > 0 {
      PartCharsAreIn(s[n + 1..], sep, i - 1);
    }
  }

  lemma SeveralParts(s: string, sep: char)
    ensures |Split(s, sep)| >= 2 <==> sep in s
  {
    SplitIsFree(s, sep);
    assert s[..Find(s, sep)] == s || sep in s;
  }

  lemma NumericIs(base: string)
    ensures LooksNumeric(base) <==> |Split(base, '.')| >= 2 && AllNumbers(Split(base, '.'))
  {
    var labels := Split(base, '.');
    SeveralParts(base, '.');
    if LooksNumeric(base) {
      forall i, k | 0 <= i < |labels| && 0 <= k < |labels[i]| ensures IsDigit(labels[i][k]) {
        PartCharsAreIn(base, '.', i);
        assert labels[i][k] in labels[i];
        var at :| 0 <= at < |base| && base[at] == labels[i][k];
      }
    } else if AllNumbers(labels) {
      forall k | 0 <= k < |base| ensures IsDigit(base[k]) || base[k] == '.' {
        if base[k] != '.' {
          var i := CharInPart(base, '.', base[k]);
        }
      }
    }
  }

  lemma NoStar(base: string)
    requires AllLabels(Split(base, '.')) || AllNumbers(Split(base, '.'))
    ensures '*' !in base
  {
    if '*' in base {
      var i := CharInPart(base, '.', '*');
    }
  }

  lemma WildcardAcceptedExactlyWhen(host: string)
    requires Lower(host) == host && IsWildcard(host)
    ensures HostAccepted(host) <==> Grammar(host)
  {
    var base := host[2..];
    assert Lower(base) == base;
    StarLeads(host);
    HostnameIs(base);
    SeveralParts(base, '.');
    assert Split(host, '.')[1..] == Split(base, '.');
    if AllLabels(Split(base, '.')) {
      NoStar(base);
    }
  }

  lemma HostAcceptedExactlyWhen(host: string)
    requires Lower(host) == host
    ensures HostAccepted(host) <==> Grammar(host)
  {
    if IsWildcard(host) {
      WildcardAcceptedExactlyWhen(host);
    } else {
      PlainHostAcceptedExactlyWhen(host);
    }
  }

  lemma PlainHostAcceptedExactlyWhen(host: string)
    requires Lower(host) == host && !IsWildcard(host)
    ensures HostAccepted(host) <==> Grammar(host)
  {
    var labels := Split(host, '.');
    StarLeads(host);
    HostnameIs(host);
    NumericIs(host);
    LoneStar(host);
    if AllLabels(labels) || AllNumbers(labels) {
      NoStar(host);
    }
    assert OctetsAccepted(labels) <==> |labels| == 4 && AllOctets(labels);
  }

  lemma LoneStar(host: string)
    ensures Split(host, '.')[0] == "*" ==> '*' in host
  {
    assert Split(host, '.')[0] == host[..Find(host, '.')];
    assert Split(host, '.')[0] == "*" ==> host[0] == '*';
  }

  lemma StarLeads(host: string)
    ensures IsWildcard(host) ==> Split(host, '.') == ["*"] + Split(host[2..], '.')
    ensures Split(host, '.')[0] == "*" && |Split(host, '.')| >= 2 ==> IsWildcard(host)
  {
    if IsWildcard(host) {
      assert host == "*" + ['.'] + host[2..];
      SplitFirst("*", '.', host[2..]);
    }
    var n := Find(host, '.');
    assert Split(host, '.')[0] == host[..n];
  }

  /** The text is an accepted host, and at most a port from 1 to 65535 in up to five digits. */
  ghost predicate EntryGrammar(form: string) {
    var segments := Split(form, ':');
    && |segments| <= 2 && Grammar(segments[0])
    && (|segments| == 2 ==> AllDigits(segments[1]) && 1 <= |segments[1]| <= 5 && 1 <= Value(segments[1]) <= 65535)
  }

  predicate EntryChar(c: char) {
    Plain(c) || c in "-.*:"
  }

  lemma GrammarChars(host: string, c: char)
    requires Grammar(host) && c in host
    ensures host != "" && EntryChar(c)
  {
    if c != '.' {
      var i := CharInPart(host, '.', c);
      var labels := Split(host, '.');
      assert labels[0] == "*" && i > 0 ==> labels[i] == labels[1..][i - 1];
    }
  }

  lemma EntryChars(form: string, c: char)
    requires EntryGrammar(form) && c in form
    ensures EntryChar(c)
  {
    if c != ':' {
      var i := CharInPart(form, ':', c);
      if i == 0 {
        GrammarChars(Split(form, ':')[0], c);
      }
    }
  }

  lemma UnmarkedText(t: string)
    requires EntryGrammar(Lower(t))
    ensures t != "" && '/' !in t && '@' !in t && t[0] != '['
  {
    assert t == "" ==> Split(Lower(t), ':') == [""] && Split("", '.') == [""] by {
      SplitFirst("", ':', "");
      SplitFirst("", '.', "");
    }
    forall i | 0 <= i < |t| ensures t[i] !in "/@[" {
      assert Lower(t)[i] in Lower(t);
      EntryChars(Lower(t), Lower(t)[i]);
    }
  }

  lemma LowerDigits(s: string)
    ensures AllDigits(Lower(s)) ==> Lower(s) == s
  {
    assert AllDigits(Lower(s)) ==> forall i :: 0 <= i < |s| ==> IsDigit(LowerChar(s[i]));
  }

  /** Main theorem on acceptance: an entry has a normal form exactly when that is its trimmed text in
      lower case and this text is a host with at most a port. */
  lemma EntryAcceptedExactlyWhen(raw: string, form: string)
    ensures NormalizeDomain(raw) == Some(form) <==> form == Lower(Trim(raw)) && EntryGrammar(form)
  {
    var t := Trim(raw);
    if NormalizeDomain(raw).Some? {
      var host, port := NormalParts(raw);
      AcceptedParts(raw);
      LowerTwice(Split(t, ':')[0]);
      SplitLower(t, ':');
      HostAcceptedExactlyWhen(host);
    } else if EntryGrammar(Lower(t)) {
      RefusedText(raw);
    }
  }

  lemma GrammarParts(t: string)
    requires EntryGrammar(Lower(t))
    ensures var segments := Split(t, ':');
            && |segments| <= 2 && segments[0] != "" && HostAccepted(Lower(segments[0]))
            && (|segments| == 2 ==> PortAccepted(segments[1]))
  {
    SplitLower(t, ':');
    var segments := Split(t, ':');
    LowerTwice(segments[0]);
    HostAcceptedExactlyWhen(Lower(segments[0]));
    assert segments[0] == "" ==> Split(Lower(segments[0]), '.') == [""] by {
      SplitFirst("", '.', "");
    }
    if |segments| == 2 {
      LowerDigits(segments[1]);
    }
  }

  lemma RefusedText(raw: string)
    requires EntryGrammar(Lower(Trim(raw)))
    ensures NormalizeDomain(raw).Some?
  {
    UnmarkedText(Trim(raw));
    GrammarParts(Trim(raw));
  }

  // ---- Matching lemmas ----

  lemma SplitEntryText(host: string, port: Option<string>)
    requires port.None? ==> ':' !in host
    requires port.Some? ==> ':' !in port.value
    ensures SplitEntry(EntryText(host, port)) == (host, if port.Some? then ParseU16(port.value) else None)
  {
    var entry := EntryText(host, port);
    if port.Some? {
      FindLastIn(host, ':', port.value);
      assert entry[..|host|] == host && entry[|host| + 1..] == port.value;
    } else {
      FindLastMissing(host, ':');
    }
  }

  lemma AcceptedPortParses(port: string)
    requires PortAccepted(port)
    ensures ParseU16(port) == Some(Value(port))
  {
    assert IsDigit(port[0]);
  }

  /** Splitting an entry in normal form recovers its host and its port, a number from 1 to 65535. */
  lemma SplitRecovers(raw: string)
    requires NormalizeDomain(raw).Some?
    ensures var segments := Split(Lower(Trim(raw)), ':');
            var parsed := SplitEntry(NormalizeDomain(raw).value);
            && parsed.0 == segments[0] && HostAccepted(parsed.0)
            && (if |segments| == 2
                then PortAccepted(segments[1]) && parsed.1 == Some(Value(segments[1])) && 1 <= parsed.1.value <= 65535
                else parsed.1 == None)
  {
    var host, port := NormalParts(raw);
    SplitEntryText(host, port);
    if port.Some? {
      AcceptedPortParses(port.value);
    }
  }

  /** The only star is that of a leading wildcard. */
  predicate StarOnlyLeads(host: string) {
    '*' !in if IsWildcard(host) then host[2..] else host
  }

  lemma WildcardLabels(host: string)
    requires StarOnlyLeads(host)
    ensures IsWildcard(host) <==> Split(host, '.')[0] == "*"
    ensures IsWildcard(host) ==> Split(host, '.') == ["*"] + Split(host[2..], '.')
  {
    if IsWildcard(host) {
      assert host == "*" + ['.'] + host[2..];
      SplitFirst("*", '.', host[2..]);
    } else {
      var first := Split(host, '.')[0];
      assert first == host[..Find(host, '.')];
      assert first != "" ==> first[0] in host;
    }
  }

  lemma EndsAfterDotIs(front: string, base: string)
    ensures EndsAfterDot(front + ['.'] + base, base)
  {
  }

  lemma FrontOf(host: string, base: string) returns (front: string)
    requires EndsAfterDot(host, base)
    ensures host == front + ['.'] + base
  {
    front := host[..|host| - |base| - 1];
  }

  lemma LabelsGiveText(host: string, base: string, front: seq<string>)
    requires front != [] && Split(host, '.') == front + Split(base, '.')
    ensures host == Join(front, '.') + ['.'] + base
  {
    JoinAppend(front, Split(base, '.'), '.');
    JoinOfSplit(host, '.');
    JoinOfSplit(base, '.');
  }

  /** Core's byte-suffix test is the test on labels. */
  lemma SuffixIsLabels(host: string, base: string)
    ensures EndsAfterDot(host, base) <==> EndsInLabels(host, Split(base, '.'))
  {
    if EndsAfterDot(host, base) {
      var front := FrontOf(host, base);
      SplitAppend(front, base, '.');
    }
    if front: seq<string> :| front != [] && Split(host, '.') == front + Split(base, '.') {
      LabelsGiveText(host, base, front);
      EndsAfterDotIs(Join(front, '.'), base);
    }
  }

  lemma SplitIsInjective(a: string, b: string, sep: char)
    ensures Split(a, sep) == Split(b, sep) <==> a == b
  {
    JoinOfSplit(a, sep);
    JoinOfSplit(b, sep);
  }

  lemma PartsMeanLabels(entryHost: string, entryPort: Option<nat>, host: string, port: nat)
    requires StarOnlyLeads(entryHost)
    ensures PartsAllow(entryHost, entryPort, host, port) <==>
            (entryPort.None? || entryPort.value == port) && HostMatches(Split(entryHost, '.'), host)
  {
    WildcardLabels(entryHost);
    if IsWildcard(entryHost) {
      SuffixIsLabels(host, entryHost[2..]);
      assert Split(entryHost, '.')[1..] == Split(entryHost[2..], '.');
    } else {
      SplitIsInjective(entryHost, host, '.');
    }
  }

  /** Main theorem: a normalized entry allows exactly the hosts whose labels it names: its own, or
      for a wildcard any non-empty run of labels followed by the base's, and only its own port. */
  lemma EntryMeansItsLabels(raw: string, host: string, port: nat)
    requires NormalizeDomain(raw).Some?
    ensures EntryAllows(NormalizeDomain(raw).value, host, port) <==>
            PortMatches(raw, port) && HostMatches(Labels(raw), host)
  {
    SplitRecovers(raw);
    var parsed := SplitEntry(NormalizeDomain(raw).value);
    PartsMeanLabels(parsed.0, parsed.1, host, port);
  }

  // ---- The stored form ----

  lemma LabelHasNoSpace(name: string, c: char)
    requires LabelAccepted(name) && c in name
    ensures !IsSpace(c)
  {
  }

  lemma HostnameHasNoSpace(host: string)
    requires HostnameAccepted(host)
    ensures SpaceFree(host)
  {
    forall i | 0 <= i < |host|
      ensures !IsSpace(host[i])
    {
      if host[i] != '.' {
        var k := CharInPart(host, '.', host[i]);
        LabelHasNoSpace(Split(host, '.')[k], host[i]);
      }
    }
  }

  lemma HostHasNoSpace(host: string)
    requires HostAccepted(host)
    ensures SpaceFree(host)
  {
    if IsWildcard(host) {
      HostnameHasNoSpace(host[2..]);
      assert forall i :: 2 <= i < |host| ==> host[i] == host[2..][i - 2];
    } else if !LooksNumeric(host) {
      HostnameHasNoSpace(host);
    }
  }

  predicate SpaceFree(s: string) {
    forall i :: 0 <= i < |s| ==> !IsSpace(s[i])
  }

  lemma SpaceAtEnd(host: string, base: string)
    requires SpaceFree(host) && base != "" && IsSpace(base[|base| - 1])
    ensures !EndsWith(host, base) && host != base
  {
    assert |host| >= |base| ==> host[|host| - |base|..][|base| - 1] == host[|host| - 1];
  }

  /** An entry whose host part has a space at its start or its end allows no request. */
  lemma PaddedHostAllowsNothing(entryHost: string, host: string)
    requires SpaceFree(host) && entryHost != ""
    requires IsSpace(entryHost[0]) || IsSpace(entryHost[|entryHost| - 1])
    ensures if IsWildcard(entryHost) then !EndsWith(host, entryHost[2..]) else entryHost != host
  {
    if IsSpace(entryHost[|entryHost| - 1]) {
      if IsWildcard(entryHost) {
        assert entryHost[|entryHost| - 1] == entryHost[2..][|entryHost| - 3];
        SpaceAtEnd(host, entryHost[2..]);
      } else {
        SpaceAtEnd(host, entryHost);
      }
    }
  }

  lemma LowerSpaces(s: string)
    requires AllSpace(s)
    ensures AllSpace(Lower(s)) && ':' !in Lower(s)
  {
    forall i | 0 <= i < |s|
      ensures IsSpace(Lower(s)[i]) && Lower(s)[i] != ':'
    {
      LowerSpace(s[i]);
      assert IsSpace(s[i]);
    }
  }

  /** How the stored form of a padded entry splits, without a port and with one. */
  lemma PaddedSplit(raw: string, left: string, right: string, host: string)
    requires AllSpace(left) && AllSpace(right) && ':' !in host
    requires Lower(raw) == Lower(left) + host + Lower(right)
    ensures SplitEntry(Stored(raw)) == (Lower(left) + host + Lower(right), None)
  {
    LowerSpaces(left);
    LowerSpaces(right);
    SplitEntryText(Lower(left) + host + Lower(right), None);
  }

  lemma PaddedSplitPort(raw: string, left: string, right: string, host: string, port: string)
    requires AllSpace(right) && PortAccepted(port)
    requires Lower(raw) == Lower(left) + (host + [':'] + port) + Lower(right)
    ensures SplitEntry(Stored(raw)) == (Lower(left) + host, if right == "" then Some(Value(port)) else None)
  {
    LowerSpaces(right);
    var text := port + Lower(right);
    assert Lower(raw) == EntryText(Lower(left) + host, Some(text));
    SplitEntryText(Lower(left) + host, Some(text));
    if right == "" {
      AcceptedPortParses(port);
      assert text == port;
    } else {
      PaddedPortDoesNotParse(port, Lower(right));
    }
  }

  lemma PaddedPortDoesNotParse(port: string, right: string)
    requires PortAccepted(port) && AllSpace(right) && right != ""
    ensures ParseU16(port + right) == None
  {
    var text := port + right;
    assert text[0] == port[0] && IsDigit(port[0]);
    assert text[|port|] == right[0] && IsSpace(right[0]);
  }

  /** A host the entry covers. */
  function Sample(entryHost: string): string {
    if IsWildcard(entryHost) then "a" + entryHost[1..] else entryHost
  }

  lemma SampleIsCovered(entryHost: string)
    ensures IsWildcard(entryHost) ==> EndsAfterDot(Sample(entryHost), entryHost[2..])
  {
  }

  /** What a sample request gets from an entry's own parts, with another port, and from a padded host. */
  lemma SampleAnswers(entryHost: string, entryPort: Option<nat>, padded: string, paddedPort: Option<nat>, port: nat)
    requires SpaceFree(entryHost) && padded != ""
    requires IsSpace(padded[0]) || IsSpace(padded[|padded| - 1])
    ensures PartsAllow(entryHost, None, Sample(entryHost), port)
    ensures PartsAllow(entryHost, entryPort, Sample(entryHost), port) <==> entryPort == None || entryPort == Some(port)
    ensures !PartsAllow(padded, paddedPort, Sample(entryHost), port)
  {
    SampleIsCovered(entryHost);
    PaddedHostAllowsNothing(padded, Sample(entryHost));
  }

  lemma PaddedEnds(left: string, host: string, right: string)
    requires AllSpace(left) && AllSpace(right) && (left != "" || right != "")
    ensures var padded := Lower(left) + host + Lower(right);
            padded != "" && (IsSpace(padded[0]) || IsSpace(padded[|padded| - 1]))
  {
    LowerSpaces(left);
    LowerSpaces(right);
    var padded := Lower(left) + host + Lower(right);
    assert left != "" ==> padded[0] == Lower(left)[0];
    assert right != "" ==> padded[|padded| - 1] == Lower(right)[|right| - 1];
  }

  lemma PaddingOf(raw: string) returns (left: string, right: string)
    requires Trim(raw) != raw
    ensures AllSpace(left) && AllSpace(right) && (left != "" || right != "")
    ensures Lower(raw) == Lower(left) + Lower(Trim(raw)) + Lower(right)
    ensures left == "" <==> TrimStart(raw) == raw
  {
    left, right := TrimSplits(raw);
    LowerAround(left, Trim(raw), right);
    assert "" + Trim(raw) + "" == Trim(raw);
  }

  lemma LowerAround(left: string, text: string, right: string)
    ensures Lower(left + text + right) == Lower(left) + Lower(text) + Lower(right)
  {
  }

  /** A request that a padded entry's normal form and its stored form answer differently: with a port
      and whitespace only after it, the stored entry allows another port; otherwise it allows nothing. */
  lemma PaddedEntryDiffers(raw: string) returns (host: string, port: nat)
    requires NormalizeDomain(raw).Some? && Trim(raw) != raw
    ensures SpaceFree(host) && 1 <= port <= 65535
    ensures EntryAllows(Stored(raw), host, port) != EntryAllows(NormalizeDomain(raw).value, host, port)
  {
    var entryHost, entryText := NormalParts(raw);
    HostHasNoSpace(entryHost);
    var left, right := PaddingOf(raw);
    host, port := PaddedPartsDiffer(raw, left, right, entryHost, entryText);
  }

  /** The host part of a padded entry's stored form, unless the padding only follows a port. */
  lemma PaddedHostPart(raw: string, left: string, right: string, host: string, port: Option<string>)
    requires AllSpace(left) && AllSpace(right) && ':' !in host && (port.Some? ==> PortAccepted(port.value))
    requires Lower(raw) == Lower(left) + EntryText(host, port) + Lower(right)
    requires left != "" || (port.None? && right != "")
    ensures var padded := SplitEntry(Stored(raw)).0;
            padded != "" && (IsSpace(padded[0]) || IsSpace(padded[|padded| - 1]))
  {
    if port.Some? {
      PaddedSplitPort(raw, left, right, host, port.value);
      PaddedEnds(left, host, "");
      assert Lower(left) + host + Lower("") == Lower(left) + host;
    } else {
      PaddedSplit(raw, left, right, host);
      PaddedEnds(left, host, right);
    }
  }

  lemma PaddedPartsDiffer(raw: string, left: string, right: string, entryHost: string, entryText: Option<string>)
    returns (host: string, port: nat)
    requires AllSpace(left) && AllSpace(right) && (left != "" || right != "")
    requires SpaceFree(entryHost) && ':' !in entryHost
    requires entryText.Some? ==> PortAccepted(entryText.value) && ':' !in entryText.value
    requires Lower(raw) == Lower(left) + EntryText(entryHost, entryText) + Lower(right)
    ensures SpaceFree(host) && 1 <= port <= 65535
    ensures EntryAllows(Stored(raw), host, port) != EntryAllows(EntryText(entryHost, entryText), host, port)
  {
    SplitEntryText(entryHost, entryText);
    host := Sample(entryHost);
    var entryPort := if entryText.Some? then Some(Value(entryText.value)) else None;
    if entryText.Some? {
      AcceptedPortParses(entryText.value);
    }
    if entryText.Some? && left == "" {
      PaddedSplitPort(raw, left, right, entryHost, entryText.value);
      assert Lower(left) + entryHost == entryHost;
      port := if entryPort.value == 1 then 2 else 1;
      SampleAnswers(entryHost, entryPort, " ", None, port);
    } else {
      port := if entryPort.Some? then entryPort.value else 80;
      PaddedHostPart(raw, left, right, entryHost, entryText);
      var parts := SplitEntry(Stored(raw));
      SampleAnswers(entryHost, entryPort, parts.0, parts.1, port);
    }
  }

  /** The stored entry answers every request as the checked entry does exactly when the manifest
      text has no surrounding whitespace. */
  lemma StoredAgreesExactlyWhenTrimmed(raw: string)
    requires NormalizeDomain(raw).Some?
    ensures Trim(raw) == raw <==>
            forall host: string, port: nat :: SpaceFree(host) && 1 <= port <= 65535 ==>
              EntryAllows(Stored(raw), host, port) == EntryAllows(NormalizeDomain(raw).value, host, port)
  {
    var _, _ := NormalParts(raw);
    if Trim(raw) != raw {
      var host, port := PaddedEntryDiffers(raw);
    }
  }

  lemma PaddedAllows(raw: string, entryHost: string, entryText: Option<string>, host: string, port: nat)
    requires Trim(raw) != raw && Lower(Trim(raw)) == EntryText(entryHost, entryText)
    requires ':' !in entryHost && (entryText.Some? ==> PortAccepted(entryText.value)) && SpaceFree(host)
    ensures EntryAllows(Stored(raw), host, port) <==>
            TrimStart(raw) == raw && entryText.Some? && PartsAllow(entryHost, None, host, port)
  {
    var left, right := PaddingOf(raw);
    if left == "" && entryText.Some? {
      PaddedSplitPort(raw, left, right, entryHost, entryText.value);
      assert Lower(left) + entryHost == entryHost;
    } else {
      PaddedHostPart(raw, left, right, entryHost, entryText);
      PaddedHostAllowsNothing(SplitEntry(Stored(raw)).0, host);
    }
  }

  /** What the stored form of an accepted entry allows. Without surrounding whitespace: what the normal
      form allows. With whitespace only behind a port: the entry's hosts, on every port. With any other
      whitespace: nothing. */
  lemma StoredAllowsExactly(raw: string, host: string, port: nat)
    requires NormalizeDomain(raw).Some? && SpaceFree(host)
    ensures var normal := SplitEntry(NormalizeDomain(raw).value);
            EntryAllows(Stored(raw), host, port) <==>
            if Trim(raw) == raw then PartsAllow(normal.0, normal.1, host, port)
            else if TrimStart(raw) == raw && normal.1.Some? then PartsAllow(normal.0, None, host, port)
            else false
  {
    var entryHost, entryText := NormalParts(raw);
    SplitEntryText(entryHost, entryText);
    if entryText.Some? {
      AcceptedPortParses(entryText.value);
    }
    if Trim(raw) != raw {
      PaddedAllows(raw, entryHost, entryText, host, port);
    }
  }

  lemma {:induction false} DomainAllowsExactlyWhen(host: string, port: nat, whitelist: seq<string>)
    ensures DomainAllows(host, port, whitelist) <==>
            exists i :: 0 <= i < |whitelist| && EntryAllows(whitelist[i], host, port)
  {
    if whitelist != [] {
      var rest := whitelist[1..];
      DomainAllowsExactlyWhen(host, port, rest);
      assert forall i :: 0 <= i < |rest| ==> rest[i] == whitelist[i + 1];
      if i :| 0 <= i < |whitelist| && EntryAllows(whitelist[i], host, port) && i > 0 {
        assert rest[i - 1] == whitelist[i];
      }
    }
  }

  /** The entry names the host and, as stored, applies to the port. */
  ghost predicate Covers(raw: string, host: string, port: nat) {
    && HostMatches(Labels(raw), host)
    && if Trim(raw) == raw then PortMatches(raw, port) else TrimStart(raw) == raw && ':' in raw
  }

  lemma StoredCovers(raw: string, host: string, port: nat)
    requires NormalizeDomain(raw).Some? && SpaceFree(host)
    ensures EntryAllows(Stored(raw), host, port) <==> Covers(raw, host, port)
  {
    StoredAllowsExactly(raw, host, port);
    EntryMeansItsLabels(raw, host, port);
    SplitRecovers(raw);
    var normal := SplitEntry(NormalizeDomain(raw).value);
    PartsMeanLabels(normal.0, None, host, port);
    PortIsThere(raw);
  }

  lemma PortIsThere(raw: string)
    requires NormalizeDomain(raw).Some?
    ensures |Split(Lower(Trim(raw)), ':')| == 2 <==> ':' in raw
  {
    var left, right := TrimSplits(raw);
    var t := Trim(raw);
    var _, _ := NormalParts(raw);
    SplitLower(t, ':');
    SeveralParts(t, ':');
    assert ':' !in left && ':' !in right by {
      assert !IsSpace(':');
    }
  }

  /** Main theorem on whitelists: the list Core keeps for accepted entries allows a host and a port
      exactly when one of the entries covers them. */
  lemma WhitelistAllowsExactly(raws: seq<string>, host: string, port: nat)
    requires SpaceFree(host) && forall i :: 0 <= i < |raws| ==> NormalizeDomain(raws[i]).Some?
    ensures DomainAllows(host, port, seq(|raws|, i requires 0 <= i < |raws| => Stored(raws[i]))) <==>
            exists i :: 0 <= i < |raws| && Covers(raws[i], host, port)
  {
    var stored := seq(|raws|, i requires 0 <= i < |raws| => Stored(raws[i]));
    DomainAllowsExactlyWhen(host, port, stored);
    forall i | 0 <= i < |raws| ensures EntryAllows(stored[i], host, port) <==> Covers(raws[i], host, port) {
      StoredCovers(raws[i], host, port);
    }
  }

  /** The stored entry allows a request that its normal form refuses exactly when the manifest text has
      a port with whitespace behind it and none in front, and the request is to a host of the entry on
      another port. */
  lemma StoredWidensExactlyWhen(raw: string, host: string, port: nat)
    requires NormalizeDomain(raw).Some? && SpaceFree(host)
    ensures var normal := NormalizeDomain(raw).value; var entryPort := SplitEntry(normal).1;
            EntryAllows(Stored(raw), host, port) && !EntryAllows(normal, host, port) <==>
            && TrimStart(raw) == raw && TrimEnd(raw) != raw
            && entryPort.Some? && EntryAllows(normal, host, entryPort.value) && port != entryPort.value
  {
    StoredAllowsExactly(raw, host, port);
  }

  lemma NormalFormOf(raw: string, host: string, port: string)
    requires Trim(raw) == host + [':'] + port && host != "" && ':' !in host && ':' !in port
    requires '/' !in Trim(raw) && '@' !in Trim(raw) && host[0] != '['
    requires HostAccepted(Lower(host)) && PortAccepted(port)
    ensures NormalizeDomain(raw) == Some(Lower(host) + ":" + port)
  {
    SegmentsOf(host, Some(port));
  }

  lemma OneLetterTrims()
    ensures TrimStart("a:1 ") == "a:1 " && TrimEnd("a:1 ") == "a:1" == "a" + [':'] + "1"
  {
    assert "a:1 "[..3] == "a:1";
  }

  lemma OneLetterHost()
    ensures HostAccepted("a") && Lower("a") == "a" && PortAccepted("1") && SpaceFree("a")
  {
    SplitFirst("a", '.', "");
    assert Value("1") == 1;
  }

  lemma OneLetterSplits()
    ensures SplitEntry("a:1") == ("a", Some(1))
  {
    assert EntryText("a", Some("1")) == "a:1";
    SplitEntryText("a", Some("1"));
    AcceptedPortParses("1");
  }

  lemma WidenedAt(raw: string, normal: string, host: string, port: nat, other: nat)
    requires NormalizeDomain(raw) == Some(normal) && SpaceFree(host) && TrimStart(raw) == raw && TrimEnd(raw) != raw
    requires SplitEntry(normal) == (host, Some(port)) && !IsWildcard(host) && other != port
    ensures EntryAllows(Stored(raw), host, other) && !EntryAllows(normal, host, other)
  {
    StoredWidensExactlyWhen(raw, host, other);
  }

  /** One entry whose stored form allows another port than the one checked. */
  lemma StoredCanWiden()
    ensures NormalizeDomain("a:1 ") == Some("a:1")
    ensures EntryAllows(Stored("a:1 "), "a", 2) && !EntryAllows("a:1", "a", 2)
  {
    OneLetterTrims();
    OneLetterHost();
    NormalFormOf("a:1 ", "a", "1");
    assert "a" + ":" + "1" == "a:1";
    OneLetterSplits();
    WidenedAt("a:1 ", "a:1", "a", 1, 2);
  }
}
