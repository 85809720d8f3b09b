/** Entry names of a package archive: hardening, the collision key, and the path a name plans. */
module ArchiveNames {
  import opened Wrappers
  import opened Strings

  // ---- Names ----

  function Slashes(name: string): (r: string)
    ensures |r| == |name|
    ensures forall i :: 0 <= i < |name| ==> r[i] == if name[i] == '\\' then '/' else name[i]
  {
    seq(|name|, i requires 0 <= i < |name| => if name[i] == '\\' then '/' else name[i])
  }

  function SuperscriptDigit(c: char): Option<char> {
    match c
    case '\U{B9}' => Some('1')
    case '\U{B2}' => Some('2')
    case '\U{B3}' => Some('3')
    case '\U{2074}' => Some('4')
    case '\U{2075}' => Some('5')
    case '\U{2076}' => Some('6')
    case '\U{2077}' => Some('7')
    case '\U{2078}' => Some('8')
    case '\U{2079}' => Some('9')
    case _ => None
  }

  predicate Starts(s: string, a: char, b: char, c: char) {
    |s| >= 3 && s[0] == a && s[1] == b && s[2] == c
  }

  /** CON, PRN, AUX, NUL, CONIN$ and CONOUT$. */
  predicate IsDevice(stem: string) {
    || (|stem| == 3 && (Starts(stem, 'C', 'O', 'N') || Starts(stem, 'P', 'R', 'N') ||
                        Starts(stem, 'A', 'U', 'X') || Starts(stem, 'N', 'U', 'L')))
    || (|stem| == 6 && Starts(stem, 'C', 'O', 'N') && Starts(stem[3..], 'I', 'N', '$'))
    || (|stem| == 7 && Starts(stem, 'C', 'O', 'N') && Starts(stem[3..], 'O', 'U', 'T') && stem[6] == '$')
  }

  /** COM1 to COM9 and LPT1 to LPT9, with a superscript digit as well. */
  predicate IsPort(stem: string) {
    && |stem| == 4 && (Starts(stem, 'C', 'O', 'M') || Starts(stem, 'L', 'P', 'T'))
    && (SuperscriptDigit(stem[3]).Some? || '1' <= stem[3] <= '9')
  }

  predicate IsWindowsReservedName(segment: string) {
    var stem := Upper(Split(segment, '.')[0]);
    IsDevice(stem) || IsPort(stem)
  }

  predicate SegmentAccepted(segment: string) {
    && segment != "" && ':' !in segment
    && segment[|segment| - 1] != '.' && segment[|segment| - 1] != ' '
    && !IsWindowsReservedName(segment)
  }

  /** The stem before the first dot, in upper case, is CON, PRN, AUX, NUL, CONIN$ or CONOUT$, or COM or
      LPT with a digit from 1 to 9, superscript or not. */
  predicate NamesDevice(segment: string) {
    var stem := Upper(segment[..Find(segment, '.')]);
    || stem in {"CON", "PRN", "AUX", "NUL", "CONIN$", "CONOUT$"}
    || (|stem| == 4 && stem[..3] in {"COM", "LPT"} &&
        stem[3] in "123456789\U{B9}\U{B2}\U{B3}\U{2074}\U{2075}\U{2076}\U{2077}\U{2078}\U{2079}")
  }

  lemma ReservedExactlyWhen(segment: string)
    ensures IsWindowsReservedName(segment) <==> NamesDevice(segment)
  {
    var stem := Upper(segment[..Find(segment, '.')]);
    assert Split(segment, '.')[0] == segment[..Find(segment, '.')];
    DeviceExactlyWhen(stem);
    PortExactlyWhen(stem);
  }

  lemma DeviceExactlyWhen(stem: string)
    ensures IsDevice(stem) <==> stem in {"CON", "PRN", "AUX", "NUL", "CONIN$", "CONOUT$"}
  {
    assert IsDevice(stem) && |stem| == 3 ==> stem == [stem[0], stem[1], stem[2]];
    assert IsDevice(stem) && |stem| == 6 ==> stem == "CONIN$";
    assert IsDevice(stem) && |stem| == 7 ==> stem == "CONOUT$";
  }

  lemma PortExactlyWhen(stem: string)
    ensures IsPort(stem) <==>
            |stem| == 4 && stem[..3] in {"COM", "LPT"} &&
            stem[3] in "123456789\U{B9}\U{B2}\U{B3}\U{2074}\U{2075}\U{2076}\U{2077}\U{2078}\U{2079}"
  {
    if |stem| == 4 {
      assert stem[..3] == [stem[0], stem[1], stem[2]];
    }
  }

  /** What a segment may be. */
  predicate Permitted(segment: string) {
    && segment != "" && ':' !in segment && segment[|segment| - 1] !in ". " && !NamesDevice(segment)
  }

  lemma SegmentAcceptedExactlyWhen(segment: string)
    ensures SegmentAccepted(segment) <==> Permitted(segment)
  {
    ReservedExactlyWhen(segment);
  }

  /** The path segments of a name; one trailing separator only marks a directory. */
  function Segments(name: string): seq<string> {
    var parts := Split(Slashes(name), '/');
    if parts[|parts| - 1] == "" then parts[..|parts| - 1] else parts
  }

  /** The first n segments are acceptable. */
  predicate AcceptedUpTo(segments: seq<string>, n: nat)
    requires n <= |segments|
  {
    n == 0 || (AcceptedUpTo(segments, n - 1) && SegmentAccepted(segments[n - 1]))
  }

  /** The canonical key of an acceptable name. */
  function NameKey(name: string): Option<string> {
    var segments := Segments(name);
    if name == "" || segments == [] || !AcceptedUpTo(segments, |segments|) then None
    else Some(Join(LowerAll(segments), '/'))
  }

  /** The key as the loop builds it. */
  function KeyUpTo(segments: seq<string>, n: nat): string
    requires n <= |segments|
  {
    if n == 0 then "" else (if n > 1 then KeyUpTo(segments, n - 1) + ['/'] else "") + Lower(segments[n - 1])
  }

  lemma {:induction false} KeyUpToIsJoin(segments: seq<string>, n: nat)
    requires 0 < n <= |segments|
    ensures KeyUpTo(segments, n) == Join(LowerAll(segments[..n]), '/')
  {
    var last := Lower(segments[n - 1]);
    if n == 1 {
      assert LowerAll(segments[..1]) == [last];
      assert "" + last == last;
    } else {
      KeyUpToIsJoin(segments, n - 1);
      assert LowerAll(segments[..n]) == LowerAll(segments[..n - 1]) + [last];
      JoinAppend(LowerAll(segments[..n - 1]), [last], '/');
    }
  }

  lemma {:induction false} AcceptedAt(segments: seq<string>, n: nat, i: nat)
    requires i < n <= |segments| && AcceptedUpTo(segments, n)
    ensures SegmentAccepted(segments[i])
  {
    if i < n - 1 {
      AcceptedAt(segments, n - 1, i);
    }
  }

  lemma RejectedSegment(segments: seq<string>, i: nat)
    requires i < |segments| && !SegmentAccepted(segments[i])
    ensures !AcceptedUpTo(segments, |segments|)
  {
    if AcceptedUpTo(segments, |segments|) {
      AcceptedAt(segments, |segments|, i);
    }
  }

  /** Segment by segment, the key grows; the first bad segment rejects the name. */
  method BuildKey(segments: seq<string>) returns (key: Option<string>)
    ensures key == if AcceptedUpTo(segments, |segments|) then Some(KeyUpTo(segments, |segments|)) else None
  {
    var text := "";
    for i := 0 to |segments|
      invariant AcceptedUpTo(segments, i) && text == KeyUpTo(segments, i)
    {
      var accepted := SegmentAccepted(segments[i]);
      if !accepted {
        RejectedSegment(segments, i);
        return None;
      }
      if i > 0 {
        text := text + ['/'];
      }
      text := text + Lower(segments[i]);
    }
    key := Some(text);
  }

  method ValidateArchiveEntryName(name: string) returns (key: Option<string>)
    ensures key == NameKey(name)
  {
    if name == "" {
      return None;
    }
    var segments := Segments(name);
    if segments == [] {
      return None;
    }
    key := BuildKey(segments);
    KeyUpToIsJoin(segments, |segments|);
    assert segments[..|segments|] == segments;
  }

  /** The name is these segments joined by either separator, with one more at the end or not. */
  ghost predicate Spells(name: string, segments: seq<string>) {
    && segments != [] && FreeOf(segments, '/')
    && (Slashes(name) == Join(segments, '/') || Slashes(name) == Join(segments, '/') + ['/'])
  }

  lemma SegmentsSpell(name: string)
    requires Segments(name) != []
    ensures Spells(name, Segments(name))
  {
    var parts := Split(Slashes(name), '/');
    SplitIsFree(Slashes(name), '/');
    JoinOfSplit(Slashes(name), '/');
    if parts[|parts| - 1] == "" {
      assert parts == Segments(name) + [""];
      JoinAppend(Segments(name), [""], '/');
    }
  }

  lemma SpelledSegments(name: string, segments: seq<string>)
    requires Spells(name, segments) && segments[|segments| - 1] != ""
    ensures Segments(name) == segments && name != ""
  {
    var parts := Split(Slashes(name), '/');
    if Slashes(name) == Join(segments, '/') {
      SplitOfJoin(segments, '/');
      assert parts == segments;
    } else {
      JoinAppend(segments, [""], '/');
      assert Slashes(name) == Join(segments + [""], '/');
      SplitOfJoin(segments + [""], '/');
      assert parts == segments + [""] && parts[..|segments|] == segments;
    }
    SplitFirst("", '/', "");
    assert Slashes("") == "";
  }

  lemma {:induction false} AcceptedAll(segments: seq<string>, n: nat)
    requires n <= |segments| && forall i :: 0 <= i < n ==> Permitted(segments[i])
    ensures AcceptedUpTo(segments, n)
  {
    if n > 0 {
      AcceptedAll(segments, n - 1);
      SegmentAcceptedExactlyWhen(segments[n - 1]);
    }
  }

  ghost predicate AllPermitted(segments: seq<string>) {
    forall i :: 0 <= i < |segments| ==> Permitted(segments[i])
  }

  lemma AcceptedSegments(name: string)
    requires NameKey(name).Some?
    ensures Spells(name, Segments(name)) && AllPermitted(Segments(name))
  {
    var segments := Segments(name);
    SegmentsSpell(name);
    forall i | 0 <= i < |segments| ensures Permitted(segments[i]) {
      AcceptedAt(segments, |segments|, i);
      SegmentAcceptedExactlyWhen(segments[i]);
    }
  }

  lemma SpelledKey(name: string, segments: seq<string>)
    requires Spells(name, segments) && AllPermitted(segments)
    ensures NameKey(name) == Some(Join(LowerAll(segments), '/'))
  {
    SpelledSegments(name, segments);
    AcceptedAll(segments, |segments|);
  }

  /** A name is accepted with a key exactly when it spells permitted segments and the key is those
      segments in lower case, joined by slashes. */
  lemma NameAcceptedExactlyWhen(name: string, key: string)
    ensures NameKey(name) == Some(key) <==>
            exists segments ::
              Spells(name, segments) && AllPermitted(segments) && key == Join(LowerAll(segments), '/')
  {
    if NameKey(name) == Some(key) {
      AcceptedSegments(name);
    }
    if segments :| Spells(name, segments) && AllPermitted(segments) && key == Join(LowerAll(segments), '/') {
      SpelledKey(name, segments);
    }
  }

  // ---- Paths ----

  datatype Component = Root | Drive | Current | Parent | Normal(text: string)

  /** One component of a path; empty segments and inner dots vanish. */
  function ComponentOf(segment: string, first: bool): seq<Component> {
    if segment == "" then (if first then [Root] else [])
    else if segment == "." then (if first then [Current] else [])
    else if segment == ".." then [Parent]
    else if first && |segment| >= 2 && segment[1] == ':' then [Drive]
    else [Normal(segment)]
  }

  function ComponentsUpTo(segments: seq<string>, n: nat): seq<Component>
    requires n <= |segments|
  {
    if n == 0 then [] else ComponentsUpTo(segments, n - 1) + ComponentOf(segments[n - 1], n == 1)
  }

  predicate AllNormal(components: seq<Component>) {
    forall i :: 0 <= i < |components| ==> components[i].Normal?
  }

  function Texts(components: seq<Component>): seq<string>
    requires AllNormal(components)
  {
    seq(|components|, i requires 0 <= i < |components| => components[i].text)
  }

  /** Zip-slip guard: only normal components may be joined to the destination. */
  function SafeJoin(dest: seq<string>, name: string): Option<seq<string>> {
    var parts := Split(Slashes(name), '/');
    var components := ComponentsUpTo(parts, |parts|);
    if name == "" then Some(dest)
    else if AllNormal(components) then Some(dest + Texts(components))
    else None
  }

  lemma NormalConcat(a: seq<Component>, b: seq<Component>)
    ensures AllNormal(a + b) <==> AllNormal(a) && AllNormal(b)
  {
    assert forall i :: 0 <= i < |a| ==> (a + b)[i] == a[i];
    assert forall i :: 0 <= i < |b| ==> (a + b)[|a| + i] == b[i];
  }

  lemma {:induction false} NormalExactlyWhen(segments: seq<string>, n: nat)
    requires n <= |segments|
    ensures AllNormal(ComponentsUpTo(segments, n)) <==>
            forall i :: 0 <= i < n ==> AllNormal(ComponentOf(segments[i], i == 0))
  {
    if n > 0 {
      NormalExactlyWhen(segments, n - 1);
      NormalConcat(ComponentsUpTo(segments, n - 1), ComponentOf(segments[n - 1], n == 1));
    }
  }

  /** The guard alone refuses names that are rooted, begin with a dot or a drive, or step up anywhere. */
  lemma GuardExactlyWhen(dest: seq<string>, name: string)
    ensures var parts := Split(Slashes(name), '/');
            SafeJoin(dest, name).Some? <==>
            name == "" ||
            (&& parts[0] != "" && parts[0] != "." && !(|parts[0]| >= 2 && parts[0][1] == ':')
             && forall i :: 0 <= i < |parts| ==> parts[i] != "..")
  {
    var parts := Split(Slashes(name), '/');
    NormalExactlyWhen(parts, |parts|);
    forall i | 0 <= i < |parts|
      ensures AllNormal(ComponentOf(parts[i], i == 0)) <==>
              && parts[i] != ".."
              && (i == 0 ==> parts[i] != "" && parts[i] != "." && !(|parts[i]| >= 2 && parts[i][1] == ':'))
    {
      var one := ComponentOf(parts[i], i == 0);
      assert |one| == 1 ==> (AllNormal(one) <==> one[0].Normal?);
    }
  }

  predicate Ordinary(segment: string) {
    segment != "" && segment != "." && segment != ".." && '/' !in segment && '\\' !in segment && ':' !in segment
  }

  lemma AcceptedComponent(segment: string, first: bool)
    requires SegmentAccepted(segment)
    ensures ComponentOf(segment, first) == [Normal(segment)]
  {
    assert segment != "." && segment != "..";
    assert |segment| >= 2 ==> segment[1] in segment;
  }

  lemma {:induction false} AcceptedComponents(segments: seq<string>, n: nat)
    requires n <= |segments| && AcceptedUpTo(segments, n)
    ensures |ComponentsUpTo(segments, n)| == n
    ensures forall i :: 0 <= i < n ==> ComponentsUpTo(segments, n)[i] == Normal(segments[i])
  {
    if n > 0 {
      AcceptedComponents(segments, n - 1);
      AcceptedComponent(segments[n - 1], n == 1);
    }
  }

  lemma {:induction false} ComponentsOfPrefix(segments: seq<string>, k: nat, n: nat)
    requires n <= k <= |segments|
    ensures ComponentsUpTo(segments[..k], n) == ComponentsUpTo(segments, n)
  {
    if n > 0 {
      ComponentsOfPrefix(segments, k, n - 1);
    }
  }

  /** Joining never fails after name validation, and plans exactly the name's segments. */
  lemma ValidatedNameJoins(dest: seq<string>, name: string)
    requires NameKey(name).Some?
    ensures SafeJoin(dest, name) == Some(dest + Segments(name))
  {
    var parts := Split(Slashes(name), '/');
    var segments := Segments(name);
    AcceptedComponents(segments, |segments|);
    ComponentsOfPrefix(parts, |segments|, |segments|);
    assert parts[..|segments|] == segments;
    assert ComponentsUpTo(parts, |parts|) == ComponentsUpTo(parts, |segments|);
    TextsAre(ComponentsUpTo(parts, |parts|), segments);
  }

  lemma TextsAre(components: seq<Component>, segments: seq<string>)
    requires |components| == |segments| && forall i :: 0 <= i < |segments| ==> components[i] == Normal(segments[i])
    ensures AllNormal(components) && Texts(components) == segments
  {
  }

  /** Every segment of a validated name is an ordinary file name. */
  lemma ValidatedSegmentsAreOrdinary(name: string, i: nat)
    requires NameKey(name).Some? && i < |Segments(name)|
    ensures Ordinary(Segments(name)[i]) && SegmentAccepted(Segments(name)[i])
  {
    var parts := Split(Slashes(name), '/');
    SplitIsFree(Slashes(name), '/');
    AcceptedAt(Segments(name), |Segments(name)|, i);
    NoBackslash(name, parts[i], i);
  }

  lemma NoBackslash(name: string, part: string, i: nat)
    requires i < |Split(Slashes(name), '/')| && part == Split(Slashes(name), '/')[i]
    ensures '\\' !in part
  {
    PartIsWithin(Slashes(name), '/', i);
  }

  lemma {:induction false} PartIsWithin(s: string, sep: char, i: nat)
    requires i < |Split(s, sep)|
    ensures forall c :: c in Split(s, sep)[i] ==> c in s
    decreases |s|
  {
    var n := Find(s, sep);
    if n < |s| && i > 0 {
      PartIsWithin(s[n + 1..], sep, i - 1);
    }
  }

  lemma LowerHasSlash(s: string)
    requires '/' !in s
    ensures '/' !in Lower(s)
  {
    forall i | 0 <= i < |s|
      ensures Lower(s)[i] != '/'
    {
      assert s[i] in s;
    }
  }

  lemma SegmentsAreFree(name: string)
    requires NameKey(name).Some?
    ensures FreeOf(LowerAll(Segments(name)), '/')
  {
    forall i | 0 <= i < |Segments(name)|
      ensures '/' !in LowerAll(Segments(name))[i]
    {
      ValidatedSegmentsAreOrdinary(name, i);
      LowerHasSlash(Segments(name)[i]);
    }
  }

  /** Two validated names have the same key exactly when their paths are equal under ASCII folding. */
  lemma KeysIdentifyPaths(a: string, b: string)
    requires NameKey(a).Some? && NameKey(b).Some?
    ensures NameKey(a) == NameKey(b) <==> LowerAll(Segments(a)) == LowerAll(Segments(b))
  {
    SegmentsAreFree(a);
    SegmentsAreFree(b);
    JoinIsInjective(LowerAll(Segments(a)), LowerAll(Segments(b)), '/');
  }
}
