/** The binary layout of an archive: four little-endian words, the padded header text, the payload. */
module AsarBytes {
  import opened Wrappers
  import opened Sequences

  const WORD := 0x1_0000_0000

  /** The longest header text whose size words do not wrap. */
  const MAX_JSON := WORD - 12

  function Le32(n: nat): (b: Bytes)
    requires n < WORD
    ensures |b| == 4
  {
    [n % 256, n / 256 % 256, n / 256 / 256 % 256, n / 256 / 256 / 256]
  }

  function FromLe32(b: Bytes): (n: nat)
    requires |b| == 4
  {
    b[0] as int + 256 * (b[1] as int + 256 * (b[2] as int + 256 * b[3] as int))
  }

  lemma WordRoundTrip(n: nat)
    requires n < WORD
    ensures FromLe32(Le32(n)) == n
  {
    var n1 := n / 256;
    var n2 := n1 / 256;
    assert n == 256 * n1 + n % 256 && n1 == 256 * n2 + n1 % 256 && n2 == 256 * (n2 / 256) + n2 % 256;
  }

  // ---- Writing ----

  /** A cast to u32, and the wrapping sums of a release build. */
  function Wrap(n: nat): (w: nat)
    ensures w < WORD
  {
    n % WORD
  }

  function Padding(jsonSize: nat): nat {
    (4 - jsonSize % 4) % 4
  }

  function AlignedSize(jsonLength: nat): nat {
    Wrap(Wrap(jsonLength) + Padding(Wrap(jsonLength)))
  }

  /** `Vec::resize` with zeros: longer is padded, shorter is cut. */
  function Resize(b: Bytes, n: nat): (r: Bytes)
    ensures |r| == n
    ensures forall i :: 0 <= i < n ==> r[i] == if i < |b| then b[i] else 0
  {
    if n <= |b| then b[..n] else b + seq(n - |b|, _ => 0)
  }

  /** A file with these words in its prefix. */
  function Layout(headerSize: nat, pickleSize: nat, jsonSize: nat, text: Bytes, payload: Bytes): Bytes
    requires headerSize < WORD && pickleSize < WORD && jsonSize < WORD
  {
    Flat([Le32(4), Le32(headerSize), Le32(pickleSize), Le32(jsonSize)]) + (text + payload)
  }

  /** The archive as written. */
  function Archive(json: Bytes, payload: Bytes): Bytes {
    var aligned := AlignedSize(|json|);
    Layout(Wrap(aligned + 8), Wrap(aligned + 4), Wrap(|json|), Resize(json, aligned), payload)
  }

  method WriteAsar(json: Bytes, payload: Bytes) returns (file: Bytes, written: nat)
    ensures file == Archive(json, payload) && written == |file|
  {
    var jsonSize := Wrap(|json|);
    var alignedJsonSize := Wrap(jsonSize + (4 - jsonSize % 4) % 4);
    var resized := Resize(json, alignedJsonSize);
    var words := [Le32(4), Le32(Wrap(alignedJsonSize + 8)), Le32(Wrap(alignedJsonSize + 4)), Le32(jsonSize)];
    file, written := [], 0;
    for k := 0 to |words|
      invariant file == Flat(words[..k]) && written == |file|
    {
      assert words[..k + 1] == words[..k] + [words[k]];
      FlatAppend(words[..k], words[k]);
      file := file + words[k];
      written := written + |words[k]|;
    }
    assert words[..|words|] == words;
    Assoc(file, resized, payload);
    file := file + resized + payload;
    written := written + |resized| + |payload|;
  }

  // ---- Reading ----

  /** The header text and the offset where the payload begins. */
  function ParseRegion(bytes: Bytes): Option<(Bytes, nat)> {
    if |bytes| < 16 then None
    else
      var headerSize := FromLe32(bytes[4..8]);
      var jsonSize := FromLe32(bytes[12..16]);
      if 16 + jsonSize > |bytes| then None else Some((bytes[16..16 + jsonSize], headerSize + 8))
  }

  // ---- The round trip ----

  lemma FourParts(a: Bytes, b: Bytes, c: Bytes, d: Bytes, rest: Bytes)
    requires |a| == 4 && |b| == 4 && |c| == 4 && |d| == 4
    ensures var file := Flat([a, b, c, d]) + rest;
            |file| == 16 + |rest| && file[4..8] == b && file[12..16] == d && file[16..] == rest
  {
    assert Flat([d]) == d + Flat([]);
    assert Flat([c, d]) == c + Flat([c, d][1..]) && [c, d][1..] == [d];
    assert Flat([b, c, d]) == b + Flat([b, c, d][1..]) && [b, c, d][1..] == [c, d];
    assert Flat([a, b, c, d]) == a + Flat([a, b, c, d][1..]) && [a, b, c, d][1..] == [b, c, d];
  }

  /** Reading follows the words, whatever they say. */
  lemma LayoutParses(headerSize: nat, pickleSize: nat, jsonSize: nat, text: Bytes, payload: Bytes)
    requires headerSize < WORD && pickleSize < WORD && jsonSize < WORD
    ensures var file := Layout(headerSize, pickleSize, jsonSize, text, payload);
            && |file| == 16 + |text| + |payload| && file[16..] == text + payload
            && ParseRegion(file) ==
               if jsonSize > |text| + |payload| then None else Some(((text + payload)[..jsonSize], headerSize + 8))
  {
    FourParts(Le32(4), Le32(headerSize), Le32(pickleSize), Le32(jsonSize), text + payload);
    WordRoundTrip(headerSize);
    WordRoundTrip(jsonSize);
    var file := Layout(headerSize, pickleSize, jsonSize, text, payload);
    if jsonSize <= |text| + |payload| {
      assert file[16..16 + jsonSize] == file[16..][..jsonSize];
    }
  }

  /** How the sizes come out when nothing wraps, and when something does. */
  lemma Sizes(n: nat)
    ensures n <= MAX_JSON ==>
              var aligned := AlignedSize(n);
              n <= aligned < n + 4 && aligned % 4 == 0 && Wrap(aligned + 8) == aligned + 8 && Wrap(n) == n
    ensures MAX_JSON < n <= WORD - 4 ==> AlignedSize(n) >= n && Wrap(AlignedSize(n) + 8) < 8
    ensures WORD - 4 < n < WORD ==> AlignedSize(n) == 0 && Wrap(n) == n
    ensures n >= WORD ==> Wrap(n) < n
  {
  }

  predicate ReadsBackFrom(file: Bytes, json: Bytes, payload: Bytes) {
    var parsed := ParseRegion(file);
    parsed.Some? && parsed.value.0 == json && parsed.value.1 <= |file| && file[parsed.value.1..] == payload
  }

  predicate ReadsBack(json: Bytes, payload: Bytes) {
    ReadsBackFrom(Archive(json, payload), json, payload)
  }

  lemma LayoutReadsBack(aligned: nat, pickleSize: nat, json: Bytes, payload: Bytes)
    requires |json| <= aligned && aligned + 8 < WORD && pickleSize < WORD
    ensures var file := Layout(aligned + 8, pickleSize, |json|, Resize(json, aligned), payload);
            ParseRegion(file) == Some((json, 16 + aligned)) && |file| == 16 + aligned + |payload| &&
            file[16 + aligned..] == payload
  {
    var text := Resize(json, aligned);
    LayoutParses(aligned + 8, pickleSize, |json|, text, payload);
    var file := Layout(aligned + 8, pickleSize, |json|, text, payload);
    assert (text + payload)[..|json|] == json;
    DropTwice(file, 16, aligned);
    assert (text + payload)[aligned..] == payload;
  }

  /** A header text of at most 2^32 - 12 bytes reads back, with the payload from an aligned offset on. */
  lemma FittingTextReadsBack(json: Bytes, payload: Bytes)
    requires |json| <= MAX_JSON
    ensures var start := 16 + AlignedSize(|json|);
            && ParseRegion(Archive(json, payload)) == Some((json, start)) && start % 4 == 0
            && |Archive(json, payload)| == start + |payload| && Archive(json, payload)[start..] == payload
  {
    Sizes(|json|);
    LayoutReadsBack(AlignedSize(|json|), Wrap(AlignedSize(|json|) + 4), json, payload);
  }

  lemma LayoutMisleads(headerSize: nat, pickleSize: nat, jsonSize: nat, text: Bytes, json: Bytes, payload: Bytes)
    requires headerSize < WORD && pickleSize < WORD && jsonSize < WORD
    requires headerSize + 8 < 16 + |text| || jsonSize != |json|
    ensures !ReadsBackFrom(Layout(headerSize, pickleSize, jsonSize, text, payload), json, payload)
  {
    LayoutParses(headerSize, pickleSize, jsonSize, text, payload);
  }

  lemma LayoutWithoutText(json: Bytes, pickleSize: nat, payload: Bytes)
    requires pickleSize < WORD && |json| < WORD
    ensures ReadsBackFrom(Layout(8, pickleSize, |json|, [], payload), json, payload) <==> json <= payload
  {
    LayoutParses(8, pickleSize, |json|, [], payload);
    assert [] + payload == payload;
    assert |json| <= |payload| ==> (json <= payload <==> payload[..|json|] == json);
  }

  lemma MisleadingSizes(json: Bytes, payload: Bytes)
    requires MAX_JSON < |json| <= WORD - 4 || |json| >= WORD
    ensures !ReadsBack(json, payload)
  {
    var aligned := AlignedSize(|json|);
    Sizes(|json|);
    LayoutMisleads(Wrap(aligned + 8), Wrap(aligned + 4), Wrap(|json|), Resize(json, aligned), json, payload);
  }

  lemma VanishedText(json: Bytes, payload: Bytes)
    requires WORD - 4 < |json| < WORD
    ensures ReadsBack(json, payload) <==> json <= payload
  {
    Sizes(|json|);
    assert Wrap(8) == 8 && Resize(json, 0) == [];
    assert Archive(json, payload) == Layout(8, Wrap(4), |json|, [], payload);
    LayoutWithoutText(json, Wrap(4), payload);
  }

  /** What was written reads back, header text and payload, exactly when the header text is at most
      2^32 - 12 bytes long; or, in the three lengths whose padded size wraps to zero, when the payload
      happens to begin with the header text. */
  lemma ReadsBackExactlyWhen(json: Bytes, payload: Bytes)
    ensures ReadsBack(json, payload) <==>
            |json| <= MAX_JSON || (WORD - 4 < |json| < WORD && json <= payload)
  {
    if |json| <= MAX_JSON {
      FittingTextReadsBack(json, payload);
    } else if WORD - 4 < |json| < WORD {
      VanishedText(json, payload);
    } else {
      MisleadingSizes(json, payload);
    }
  }

  /** Rewriting the header moves the payload without changing what an offset and a size select. */
  lemma RelocationKeepsFiles(before: Bytes, oldStart: nat, newJson: Bytes, offset: nat, size: nat)
    requires ParseRegion(before).Some? && ParseRegion(before).value.1 == oldStart
    requires oldStart + offset + size <= |before| && |newJson| <= MAX_JSON
    ensures var after := Archive(newJson, before[oldStart..]);
            var newStart := 16 + AlignedSize(|newJson|);
            && ParseRegion(after) == Some((newJson, newStart)) && newStart % 4 == 0
            && newStart + offset + size <= |after|
            && after[newStart + offset..newStart + offset + size] == before[oldStart + offset..oldStart + offset + size]
  {
    var payload := before[oldStart..];
    FittingTextReadsBack(newJson, payload);
    SliceAfter(before, oldStart, offset, size);
    SliceAfter(Archive(newJson, payload), 16 + AlignedSize(|newJson|), offset, size);
  }

  lemma SliceAfter(file: Bytes, start: nat, offset: nat, size: nat)
    requires start + offset + size <= |file|
    ensures file[start + offset..start + offset + size] == file[start..][offset..offset + size]
  {
  }
}
