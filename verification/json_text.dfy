/**
 Strings in jsoncpp.cpp: UTF-8, quoting and unescaping.  A C++ char string is a Dafny
 string whose characters are bytes, and the bit operations of the source are written as
 arithmetic on unsigned numbers.
 */
module JsonText {
  import opened Wrappers

  const REPLACEMENT_CHARACTER: nat := 0xFFFD

  lemma Assoc(a: string, b: string, c: string)
    ensures (a + b) + c == a + (b + c)
  {
  }

  // ---------------------------------------------------------------- UTF-8, RFC 3629 section 4

  predicate Between(c: char, lo: int, hi: int) {
    lo <= c as int <= hi
  }

  /** The length of the well-formed UTF-8 character at the front of `s`, or 0 if there is none. */
  function CharLength(s: string): (n: nat)
    ensures n <= 4 && n <= |s|
  {
    if |s| >= 1 && Between(s[0], 0, 0x7F) then 1
    else if |s| >= 2 && Between(s[0], 0xC2, 0xDF) && Between(s[1], 0x80, 0xBF) then 2
    else if |s| >= 3 && Between(s[2], 0x80, 0xBF) &&
            ((s[0] as int == 0xE0 && Between(s[1], 0xA0, 0xBF)) ||
             (Between(s[0], 0xE1, 0xEC) && Between(s[1], 0x80, 0xBF)) ||
             (s[0] as int == 0xED && Between(s[1], 0x80, 0x9F)) ||
             (Between(s[0], 0xEE, 0xEF) && Between(s[1], 0x80, 0xBF))) then 3
    else if |s| >= 4 && Between(s[2], 0x80, 0xBF) && Between(s[3], 0x80, 0xBF) &&
            ((s[0] as int == 0xF0 && Between(s[1], 0x90, 0xBF)) ||
             (Between(s[0], 0xF1, 0xF3) && Between(s[1], 0x80, 0xBF)) ||
             (s[0] as int == 0xF4 && Between(s[1], 0x80, 0x8F))) then 4
    else 0
  }

  predicate ValidUtf8(s: string) {
    s == [] || (CharLength(s) > 0 && ValidUtf8(s[CharLength(s)..]))
  }

  /** The code points UTF-8 can carry. */
  predicate Scalar(cp: int) {
    0 <= cp <= 0x10FFFF && !(0xD800 <= cp <= 0xDFFF)
  }

  function CodePointToUTF8(cp: nat): string {
    if cp <= 0x7F then
      [cp as char]
    else if cp <= 0x7FF then
      [(0xC0 + cp / 64 % 32) as char, (0x80 + cp % 64) as char]
    else if cp <= 0xFFFF then
      [(0xE0 + cp / 4096 % 16) as char, (0x80 + cp / 64 % 64) as char, (0x80 + cp % 64) as char]
    else if cp <= 0x10FFFF then
      [(0xF0 + cp / 262144 % 8) as char, (0x80 + cp / 4096 % 64) as char,
       (0x80 + cp / 64 % 64) as char, (0x80 + cp % 64) as char]
    else
      ""
  }

  /** The code point at the front of `s` as the writer reads it, and how many further bytes it skips. */
  function Utf8ToCodepoint(s: string): (r: (nat, nat))
    requires s != []
    ensures r.1 < |s|
  {
    var first := s[0] as int;
    if first < 0x80 then
      (first, 0)
    else if first < 0xE0 then
      if |s| < 2 then (REPLACEMENT_CHARACTER, 0)
      else
        var cp := first % 32 * 64 + s[1] as int % 64;
        (if cp < 0x80 then REPLACEMENT_CHARACTER else cp, 1)
    else if first < 0xF0 then
      if |s| < 3 then (REPLACEMENT_CHARACTER, 0)
      else
        var cp := first % 16 * 4096 + s[1] as int % 64 * 64 + s[2] as int % 64;
        (if 0xD800 <= cp <= 0xDFFF || cp < 0x800 then REPLACEMENT_CHARACTER else cp, 2)
    else if first < 0xF8 then
      if |s| < 4 then (REPLACEMENT_CHARACTER, 0)
      else
        var cp := first % 8 * 262144 + s[1] as int % 64 * 4096 + s[2] as int % 64 * 64 + s[3] as int % 64;
        (if cp < 0x10000 then REPLACEMENT_CHARACTER else cp, 3)
    else
      (REPLACEMENT_CHARACTER, 0)
  }

  /** The base-64 digits of a code point. */
  lemma Digits64(cp: int, a: int, b: int, c: int, d: int)
    requires 0 <= a && 0 <= b < 64 && 0 <= c < 64 && 0 <= d < 64
    requires cp == a * 262144 + b * 4096 + c * 64 + d
    ensures cp % 64 == d && cp / 64 % 64 == c && cp / 4096 % 64 == b && cp / 262144 == a
    ensures cp / 64 == (a * 64 + b) * 64 + c && cp / 4096 == a * 64 + b
  {
    Divide64((a * 64 + b) * 64 + c, d);
    Divide64(a * 64 + b, c);
    Divide64(a, b);
    Divide4096(a * 64 + b, c * 64 + d);
    Divide262144(a, b * 4096 + c * 64 + d);
  }

  lemma Divide64(q: int, r: int)
    requires 0 <= r < 64
    ensures (q * 64 + r) / 64 == q && (q * 64 + r) % 64 == r
  {
  }

  lemma Divide4096(q: int, r: int)
    requires 0 <= r < 4096
    ensures (q * 4096 + r) / 4096 == q
  {
  }

  lemma Divide262144(q: int, r: int)
    requires 0 <= r < 262144
    ensures (q * 262144 + r) / 262144 == q
  {
  }

  /** Masking the marker bits off a byte. */
  lemma LowBits(x: int, marker: int, low: int, n: int)
    requires (n == 8 && marker == 0xF0) || (n == 16 && marker == 0xE0) || (n == 32
      && marker == 0xC0) || (n == 64 && marker == 0x80)
    requires x == marker + low && 0 <= low < n
    ensures x % n == low
  {
  }

  /** The scalar value of a well-formed character: what its bytes hold above their markers, six bits for each later one. */
  function ScalarOf(s: string): int
    requires CharLength(s) > 0
  {
    match CharLength(s)
    case 1 => s[0] as int
    case 2 => 64 * (s[0] as int - 0xC0) + (s[1] as int - 0x80)
    case 3 => 4096 * (s[0] as int - 0xE0) + 64 * (s[1] as int - 0x80) + (s[2] as int - 0x80)
    case _ =>
      262144 * (s[0] as int - 0xF0) + 4096 * (s[1] as int - 0x80) + 64 * (s[2] as int - 0x80) + (s[3] as int - 0x80)
  }

  /** On a well-formed character the writer reads its scalar value, which encodes to it. */
  lemma CodepointOfChar(s: string)
    requires CharLength(s) > 0
    ensures var (cp, skip) := Utf8ToCodepoint(s);
            skip + 1 == CharLength(s) && cp == ScalarOf(s) && Scalar(cp) && CodePointToUTF8(cp) == s[..CharLength(s)]
  {
    match CharLength(s)
    case 1 => assert s[..1] == [s[0]];
    case 2 => CodepointOfTwo(s[0], s[1], s);
    case 3 => CodepointOfThree(s[0], s[1], s[2], s);
    case 4 => CodepointOfFour(s[0], s[1], s[2], s[3], s);
  }

  lemma CodepointOfTwo(x: char, y: char, s: string)
    requires CharLength(s) == 2 && x == s[0] && y == s[1]
    ensures Utf8ToCodepoint(s) == (ScalarOf(s), 1) && Scalar(ScalarOf(s))
    ensures CodePointToUTF8(Utf8ToCodepoint(s).0) == s[..2]
  {
    var c, d := x as int - 0xC0, y as int - 0x80;
    LowBits(x as int, 0xC0, c, 32);
    LowBits(y as int, 0x80, d, 64);
    assert Utf8ToCodepoint(s) == (c * 64 + d, 1);
    Digits64(c * 64 + d, 0, 0, c, d);
    assert s[..2] == [x, y];
  }

  lemma CodepointOfThree(x: char, y: char, z: char, s: string)
    requires CharLength(s) == 3 && x == s[0] && y == s[1] && z == s[2]
    ensures Utf8ToCodepoint(s) == (ScalarOf(s), 2) && Scalar(ScalarOf(s))
    ensures CodePointToUTF8(Utf8ToCodepoint(s).0) == s[..3]
  {
    var b, c, d := x as int - 0xE0, y as int - 0x80, z as int - 0x80;
    var cp := b * 4096 + c * 64 + d;
    LowBits(x as int, 0xE0, b, 16);
    LowBits(y as int, 0x80, c, 64);
    LowBits(z as int, 0x80, d, 64);
    assert 0x800 <= cp && !(0xD800 <= cp <= 0xDFFF);
    assert Utf8ToCodepoint(s) == (cp, 2);
    Digits64(cp, 0, b, c, d);
    assert s[..3] == [x, y, z];
  }

  lemma CodepointOfFour(x: char, y: char, z: char, w: char, s: string)
    requires CharLength(s) == 4 && x == s[0] && y == s[1] && z == s[2] && w == s[3]
    ensures Utf8ToCodepoint(s) == (ScalarOf(s), 3) && Scalar(ScalarOf(s))
    ensures CodePointToUTF8(Utf8ToCodepoint(s).0) == s[..4]
  {
    var a, b, c, d := x as int - 0xF0, y as int - 0x80, z as int - 0x80, w as int - 0x80;
    var cp := a * 262144 + b * 4096 + c * 64 + d;
    LowBits(x as int, 0xF0, a, 8);
    LowBits(y as int, 0x80, b, 64);
    LowBits(z as int, 0x80, c, 64);
    LowBits(w as int, 0x80, d, 64);
    assert 0x10000 <= cp <= 0x10FFFF;
    assert Utf8ToCodepoint(s) == (cp, 3);
    Digits64(cp, a, b, c, d);
    assert s[..4] == [x, y, z, w];
  }

  /** The encoding of a scalar value is one well-formed character. */
  lemma CharOfCodepoint(cp: nat, t: string)
    requires Scalar(cp)
    ensures CodePointToUTF8(cp) != [] && CharLength(CodePointToUTF8(cp) + t) == |CodePointToUTF8(cp)|
  {
    if cp <= 0x7F {
      assert (CodePointToUTF8(cp) + t)[0] == cp as char;
    } else if cp <= 0x7FF {
      CharOfTwo(cp, t);
    } else if cp <= 0xFFFF {
      CharOfThree(cp, t);
    } else {
      CharOfBigCodepoint(cp, t);
    }
  }

  lemma CharOfTwo(cp: nat, t: string)
    requires 0x80 <= cp <= 0x7FF
    ensures CharLength(CodePointToUTF8(cp) + t) == 2 == |CodePointToUTF8(cp)|
  {
    var s := CodePointToUTF8(cp) + t;
    assert s[0] as int == 0xC0 + cp / 64 && s[1] as int == 0x80 + cp % 64;
  }

  lemma CharOfThree(cp: nat, t: string)
    requires 0x800 <= cp <= 0xFFFF && Scalar(cp)
    ensures CharLength(CodePointToUTF8(cp) + t) == 3 == |CodePointToUTF8(cp)|
  {
    var s := CodePointToUTF8(cp) + t;
    var b, c, d := cp / 4096, cp / 64 % 64, cp % 64;
    assert cp == b * 4096 + c * 64 + d;
    assert s[0] as int == 0xE0 + b && s[1] as int == 0x80 + c && s[2] as int == 0x80 + d;
  }

  lemma CharOfBigCodepoint(cp: nat, t: string)
    requires 0x10000 <= cp <= 0x10FFFF
    ensures CharLength(CodePointToUTF8(cp) + t) == 4
  {
    var s := CodePointToUTF8(cp) + t;
    assert s[0] as int == 0xF0 + cp / 262144 && s[1] as int == 0x80 + cp / 4096 % 64;
    assert s[2] as int == 0x80 + cp / 64 % 64 && s[3] as int == 0x80 + cp % 64;
    assert cp / 262144 == 0 ==> cp / 4096 % 64 >= 0x10;
    assert cp / 262144 == 4 ==> cp / 4096 % 64 <= 0xF;
  }
}
