/** Bounding a log message to 1024 UTF-8 bytes by cutting its UTF-16 form. */
module LogMessages {
  import opened Sequences
  import Utf8

  const MAX_LOG_MESSAGE_BYTES := 1024

  /** A UTF-16 code unit, and a JavaScript string. */
  type Unit = n: int | 0 <= n < 0x1_0000
  type Text = seq<Unit>

  predicate IsHigh(u: Unit) { 0xD800 <= u < 0xDC00 }

  predicate IsLow(u: Unit) { 0xDC00 <= u < 0xE000 }

  function UnitSize(u: Unit): nat {
    if u < 0x80 then 1 else if u < 0x800 then 2 else 3
  }

  /** UTF-8 length of a text: four bytes for a surrogate pair, three for a surrogate left alone. */
  function ByteLength(text: Text): nat {
    if text == [] then 0
    else if |text| >= 2 && IsHigh(text[0]) && IsLow(text[1]) then 4 + ByteLength(text[2..])
    else UnitSize(text[0]) + ByteLength(text[1..])
  }

  /** "… [truncated]" */
  const SUFFIX: Text := [0x2026, 32, 91, 116, 114, 117, 110, 99, 97, 116, 101, 100, 93]

  /** What the last unit adds: one byte when it completes a pair. */
  function Added(text: Text): nat
    requires text != []
  {
    var u := text[|text| - 1];
    if IsLow(u) && |text| >= 2 && IsHigh(text[|text| - 2]) then 1 else UnitSize(u)
  }

  lemma {:induction false} LengthOfInit(text: Text)
    requires text != []
    ensures ByteLength(text) == ByteLength(text[..|text| - 1]) + Added(text)
    decreases |text|
  {
    var init := text[..|text| - 1];
    if |text| >= 2 && IsHigh(text[0]) && IsLow(text[1]) {
      if |text| > 2 {
        LengthOfInit(text[2..]);
        InitOfDrop(text, 2);
      }
    } else if |text| > 1 {
      LengthOfInit(text[1..]);
      InitOfDrop(text, 1);
    }
  }

  lemma InitOfDrop(text: Text, k: nat)
    requires k < |text|
    ensures text[k..][..|text| - k - 1] == text[..|text| - 1][k..]
  {
  }

  /** The length of a prefix grows with every unit. */
  lemma {:induction false} LengthGrows(text: Text, i: nat, k: nat)
    requires i <= k <= |text|
    ensures ByteLength(text[..i]) + (k - i) <= ByteLength(text[..k])
  {
    if i < k {
      LengthGrows(text, i, k - 1);
      LengthOfInit(text[..k]);
      assert text[..k][..k - 1] == text[..k - 1];
    }
  }

  lemma {:induction false} LengthOfAppend(a: Text, b: Text)
    requires b != [] ==> !IsLow(b[0])
    ensures ByteLength(a + b) == ByteLength(a) + ByteLength(b)
    decreases |a|
  {
    if a == [] {
      assert a + b == b;
    } else if |a| >= 2 && IsHigh(a[0]) && IsLow(a[1]) {
      DropOfAppend(a, b, 2);
      LengthOfAppend(a[2..], b);
    } else {
      DropOfAppend(a, b, 1);
      LengthOfAppend(a[1..], b);
    }
  }

  predicate IsAscii(text: Text) {
    forall i :: 0 <= i < |text| ==> text[i] < 0x80
  }

  lemma {:induction false} AsciiLength(text: Text)
    requires IsAscii(text)
    ensures ByteLength(text) == |text|
  {
    if text != [] {
      AsciiLength(text[1..]);
    }
  }

  lemma SuffixLength()
    ensures ByteLength(SUFFIX) == 15 && |SUFFIX| == 13 && !IsLow(SUFFIX[0])
  {
    AsciiLength(SUFFIX[1..]);
  }

  const BUDGET := MAX_LOG_MESSAGE_BYTES - 15

  /** The longest prefix within the budget. */
  predicate IsCut(message: Text, k: nat) {
    && k <= |message|
    && ByteLength(message[..k]) <= BUDGET
    && (k < |message| ==> ByteLength(message[..k + 1]) > BUDGET)
  }

  /** The longest prefix of at most n units within the budget, tried from the longest down. */
  function Cut(message: Text, n: nat): (k: nat)
    requires n <= |message|
    ensures k <= n && ByteLength(message[..k]) <= BUDGET
    ensures k < n ==> ByteLength(message[..k + 1]) > BUDGET
  {
    if n == 0 || ByteLength(message[..n]) <= BUDGET then n else Cut(message, n - 1)
  }

  function Bounded(message: Text): Text {
    if ByteLength(message) <= MAX_LOG_MESSAGE_BYTES then message
    else message[..Cut(message, |message|)] + SUFFIX
  }

  /** The cut is unique: every shorter prefix fits and every longer one does not. */
  lemma CutIsExact(message: Text, k: nat, i: nat)
    requires IsCut(message, k) && i <= |message|
    ensures ByteLength(message[..i]) <= BUDGET <==> i <= k
  {
    if i <= k {
      LengthGrows(message, i, k);
    } else {
      LengthGrows(message, k + 1, i);
    }
  }

  lemma CutIsUnique(message: Text, k: nat)
    requires IsCut(message, k)
    ensures k == Cut(message, |message|)
  {
    var n := Cut(message, |message|);
    CutIsExact(message, k, n);
    CutIsExact(message, n, k);
  }

  /** Binary search finds the cut. */
  method BoundedMessage(message: Text) returns (bounded: Text)
    ensures bounded == Bounded(message)
  {
    if ByteLength(message) <= MAX_LOG_MESSAGE_BYTES {
      return message;
    }
    var low, high := 0, |message|;
    while low < high
      invariant low <= high <= |message|
      invariant ByteLength(message[..low]) <= BUDGET
      invariant high < |message| ==> ByteLength(message[..high + 1]) > BUDGET
    {
      var middle := (low + high + 1) / 2;
      if ByteLength(message[..middle]) <= BUDGET {
        low := middle;
      } else {
        high := middle - 1;
      }
    }
    CutIsUnique(message, low);
    bounded := message[..low] + SUFFIX;
  }

  /** A bounded message has at most 1024 bytes; a cut one keeps the longest prefix that leaves room
      for the suffix. */
  lemma BoundedFits(message: Text)
    ensures ByteLength(Bounded(message)) <= MAX_LOG_MESSAGE_BYTES
    ensures ByteLength(message) > MAX_LOG_MESSAGE_BYTES ==>
              exists k: nat :: IsCut(message, k) && Bounded(message) == message[..k] + SUFFIX
  {
    if ByteLength(message) > MAX_LOG_MESSAGE_BYTES {
      var k := Cut(message, |message|);
      SuffixLength();
      LengthOfAppend(message[..k], SUFFIX);
      assert IsCut(message, k);
    }
  }

  /** The cut falls inside a surrogate pair exactly when 1006 bytes precede the pair. */
  lemma SplitsPairExactlyWhen(message: Text, k: nat, pair: nat)
    requires IsCut(message, k) && pair + 1 < |message| && IsHigh(message[pair]) && IsLow(message[pair + 1])
    ensures k == pair + 1 <==> ByteLength(message[..pair]) == BUDGET - 3
  {
    assert message[..pair + 1][..pair] == message[..pair];
    assert message[..pair + 2][..pair + 1] == message[..pair + 1];
    LengthOfInit(message[..pair + 1]);
    LengthOfInit(message[..pair + 2]);
    CutIsExact(message, k, pair + 1);
    CutIsExact(message, k, pair + 2);
  }

  // ---- Texts that survive decoding ----

  /** Every surrogate belongs to a pair, so the text has a UTF-8 form. */
  predicate WellFormed(text: Text) {
    if text == [] then true
    else if |text| >= 2 && IsHigh(text[0]) && IsLow(text[1]) then WellFormed(text[2..])
    else !IsHigh(text[0]) && !IsLow(text[0]) && WellFormed(text[1..])
  }

  /** The characters of a well-formed text; a pair stands for one beyond U+FFFF. */
  function Scalars(text: Text): seq<Utf8.Scalar>
    requires WellFormed(text)
  {
    if text == [] then []
    else if |text| >= 2 && IsHigh(text[0]) && IsLow(text[1]) then
      [0x1_0000 + (text[0] - 0xD800) * 0x400 + (text[1] - 0xDC00)] + Scalars(text[2..])
    else [text[0]] + Scalars(text[1..])
  }

  /** The byte length of a well-formed text is the length of its UTF-8 encoding. */
  lemma {:induction false} ByteLengthIs(text: Text)
    requires WellFormed(text)
    ensures ByteLength(text) == |Utf8.EncodeAll(Scalars(text))|
    decreases |text|
  {
    if text != [] {
      var all := Scalars(text);
      if |text| >= 2 && IsHigh(text[0]) && IsLow(text[1]) {
        ByteLengthIs(text[2..]);
        assert all[1..] == Scalars(text[2..]);
      } else {
        ByteLengthIs(text[1..]);
        assert all[1..] == Scalars(text[1..]);
      }
    }
  }

  lemma {:induction false} WellFormedAppend(a: Text, b: Text)
    requires WellFormed(b) && (b != [] ==> !IsLow(b[0]))
    ensures WellFormed(a + b) <==> WellFormed(a)
    decreases |a|
  {
    if a == [] {
      assert a + b == b;
    } else if |a| >= 2 && IsHigh(a[0]) && IsLow(a[1]) {
      DropOfAppend(a, b, 2);
      WellFormedAppend(a[2..], b);
    } else {
      DropOfAppend(a, b, 1);
      WellFormedAppend(a[1..], b);
    }
  }

  lemma DropOfPrefix(text: Text, k: nat, n: nat)
    requires n <= k <= |text|
    ensures text[..k][n..] == text[n..][..k - n]
  {
  }

  /** A prefix of a well-formed text is well-formed exactly when it does not end inside a pair. */
  lemma {:induction false} WellFormedPrefix(text: Text, k: nat)
    requires WellFormed(text) && k <= |text|
    ensures WellFormed(text[..k]) <==> k == 0 || !IsHigh(text[k - 1])
    decreases |text|
  {
    if k >= 2 && IsHigh(text[0]) {
      WellFormedPrefix(text[2..], k - 2);
      DropOfPrefix(text, k, 2);
    } else if k >= 1 && !IsHigh(text[0]) {
      WellFormedPrefix(text[1..], k - 1);
      DropOfPrefix(text, k, 1);
    }
  }

  lemma {:induction false} HighIsPaired(text: Text, p: nat)
    requires WellFormed(text) && p < |text| && IsHigh(text[p])
    ensures p + 1 < |text| && IsLow(text[p + 1])
    decreases |text|
  {
    if p >= 2 && IsHigh(text[0]) {
      HighIsPaired(text[2..], p - 2);
    } else if p >= 1 && !IsHigh(text[0]) {
      HighIsPaired(text[1..], p - 1);
    }
  }

  /** A surrogate pair that begins after 1006 bytes. */
  predicate PairAfterBudget(message: Text, p: nat) {
    p + 1 < |message| && IsHigh(message[p]) && IsLow(message[p + 1]) && ByteLength(message[..p]) == 1006
  }

  lemma SuffixIsWellFormed()
    ensures WellFormed(SUFFIX) && !IsLow(SUFFIX[0])
  {
    AsciiIsWellFormed(SUFFIX[1..]);
  }

  lemma {:induction false} AsciiIsWellFormed(text: Text)
    requires IsAscii(text)
    ensures WellFormed(text)
  {
    if text != [] {
      AsciiIsWellFormed(text[1..]);
    }
  }

  lemma CutSplits(message: Text, k: nat)
    requires WellFormed(message) && IsCut(message, k)
    ensures k > 0 && IsHigh(message[k - 1]) <==> exists p: nat :: PairAfterBudget(message, p)
  {
    if k > 0 && IsHigh(message[k - 1]) {
      HighIsPaired(message, k - 1);
      SplitsPairExactlyWhen(message, k, k - 1);
      assert PairAfterBudget(message, k - 1);
    } else if p: nat :| PairAfterBudget(message, p) {
      SplitsPairExactlyWhen(message, k, p);
    }
  }

  /** Bounding keeps a well-formed message well-formed unless it is too long and a pair begins after
      its first 1006 bytes. */
  lemma BoundedIsWellFormedExactlyWhen(message: Text)
    requires WellFormed(message)
    ensures WellFormed(Bounded(message)) <==>
            !(ByteLength(message) > 1024 && exists p: nat :: PairAfterBudget(message, p))
  {
    if ByteLength(message) > MAX_LOG_MESSAGE_BYTES {
      var k := Cut(message, |message|);
      SuffixIsWellFormed();
      WellFormedAppend(message[..k], SUFFIX);
      WellFormedPrefix(message, k);
      CutSplits(message, k);
    }
  }

  function Repeat(u: Unit, n: nat): (text: Text)
    ensures |text| == n && forall i :: 0 <= i < n ==> text[i] == u
  {
    if n == 0 then [] else Repeat(u, n - 1) + [u]
  }

  /** 1006 letters, an emoji, and 20 letters more. */
  function SplitExample(): Text {
    Repeat(97, 1006) + ([0xD83D, 0xDE00] + Repeat(97, 20))
  }

  lemma PairBetween(a: Text, pair: Text, c: Text)
    requires IsAscii(a) && IsAscii(c) && |pair| == 2 && IsHigh(pair[0]) && IsLow(pair[1])
    ensures WellFormed(a + (pair + c))
  {
    AsciiIsWellFormed(a);
    AsciiIsWellFormed(c);
    assert pair[2..] == [];
    WellFormedAppend(pair, c);
    WellFormedAppend(a, pair + c);
  }

  lemma PairFollows(a: Text, pair: Text, c: Text)
    requires IsAscii(a) && |a| == 1006 && |pair| == 2 && IsHigh(pair[0]) && IsLow(pair[1]) && |c| > 16
    ensures PairAfterBudget(a + (pair + c), |a|) && ByteLength(a + (pair + c)) > 1024
  {
    var message := a + (pair + c);
    AsciiLength(a);
    LengthGrows(message, 0, |message|);
    assert message[..|message|] == message && message[..|a|] == a;
  }

  /** A well-formed message whose bounded form is not. */
  lemma BoundingCanBreakAPair()
    ensures WellFormed(SplitExample()) && !WellFormed(Bounded(SplitExample()))
  {
    var a, pair, c := Repeat(97, 1006), [0xD83D, 0xDE00], Repeat(97, 20);
    PairBetween(a, pair, c);
    PairFollows(a, pair, c);
    BoundedIsWellFormedExactlyWhen(SplitExample());
  }
}
