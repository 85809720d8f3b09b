/** The UTF-8 encoding of a Unicode scalar value, after section 3 of RFC 3629. */
module Utf8 {
  import opened Wrappers
  import opened Sequences

  type Scalar = n: int | 0 <= n < 0xD800 || 0xE000 <= n < 0x11_0000

  /** Seven bits alone, else a lead byte and six bits in each byte behind it. */
  function Encode(n: Scalar): (b: Bytes)
    ensures 1 <= |b| <= 4
  {
    if n < 0x80 then [n]
    else if n < 0x800 then [0xC0 + n / 64, 0x80 + n % 64]
    else if n < 0x1_0000 then [0xE0 + n / 64 / 64, 0x80 + n / 64 % 64, 0x80 + n % 64]
    else [0xF0 + n / 64 / 64 / 64, 0x80 + n / 64 / 64 % 64, 0x80 + n / 64 % 64, 0x80 + n % 64]
  }

  /** How many bytes the lead byte announces. */
  function Announced(lead: Byte): nat {
    if lead < 0x80 then 1 else if lead < 0xE0 then 2 else if lead < 0xF0 then 3 else 4
  }

  /** The value of a first character read by its lead byte. */
  function Decode(b: Bytes): int
    requires b != [] && |b| >= Announced(b[0])
  {
    match Announced(b[0])
    case 1 => b[0]
    case 2 => Low(Low(0, b[0], 0xC0), b[1], 0x80)
    case 3 => Low(Low(Low(0, b[0], 0xE0), b[1], 0x80), b[2], 0x80)
    case _ => Low(Low(Low(Low(0, b[0], 0xF0), b[1], 0x80), b[2], 0x80), b[3], 0x80)
  }

  /** The bits read so far and those of one more byte. */
  function Low(high: int, byte: Byte, mark: int): int {
    64 * high + byte as int - mark
  }

  /** Round trip: whatever follows, the lead byte announces the encoding's length and the value is read back. */
  lemma DecodesBack(n: Scalar, rest: Bytes)
    ensures var b := Encode(n) + rest; Announced(b[0]) == |Encode(n)| && Decode(b) == n
  {
    var a := n / 64;
    var c := a / 64;
    assert n == 64 * a + n % 64 && a == 64 * c + a % 64 && c == 64 * (c / 64) + c % 64;
  }

  function EncodeAll(text: seq<Scalar>): Bytes {
    if text == [] then [] else Encode(text[0]) + EncodeAll(text[1..])
  }

  lemma {:induction false} EncodingAppends(s: seq<Scalar>, n: Scalar)
    ensures EncodeAll(s + [n]) == EncodeAll(s) + Encode(n)
  {
    if s == [] {
      assert [n][1..] == [] && EncodeAll([]) == [];
    } else {
      EncodingAppends(s[1..], n);
      assert (s + [n])[1..] == s[1..] + [n];
      Assoc(Encode(s[0]), EncodeAll(s[1..]), Encode(n));
    }
  }

  /** No two texts have one encoding. */
  lemma {:induction false} EncodingIsInjective(s: seq<Scalar>, t: seq<Scalar>)
    ensures EncodeAll(s) == EncodeAll(t) <==> s == t
  {
    if s != [] && t != [] {
      DecodesBack(s[0], EncodeAll(s[1..]));
      DecodesBack(t[0], EncodeAll(t[1..]));
      EncodingIsInjective(s[1..], t[1..]);
      assert s == [s[0]] + s[1..] && t == [t[0]] + t[1..];
      assert EncodeAll(s)[|Encode(s[0])|..] == EncodeAll(s[1..]);
      assert EncodeAll(t)[|Encode(t[0])|..] == EncodeAll(t[1..]);
    }
  }
}
