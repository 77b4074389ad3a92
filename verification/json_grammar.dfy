/**
 The grammar of RFC 8259 as layouts whose tokens are those of its sections 3, 6 and 7: the
 reader answers every such text, and both writers print nothing else.
 */
module JsonGrammar {
  import opened Wrappers
  import opened JsonText
  import opened JsonString
  import opened JsonNumber
  import opened JsonLexer
  import opened JsonValue
  import opened JsonParser
  import opened JsonLayout
  import opened JsonLexemes
  import opened JsonDocuments
  import opened JsonFastWriter
  import opened JsonStyledWriter
  import opened JsonRoundTrip

  // ---------------------------------------------------------------- numbers, section 6

  predicate RfcDigits(d: string) {
    forall i :: 0 <= i < |d| ==> d[i] in "0123456789"
  }

  /** Digits, and no zero in front of others. */
  predicate RfcInt(d: string) {
    d != "" && RfcDigits(d) && (d[0] == '0' ==> |d| == 1)
  }

  /** A fraction, or nothing. */
  predicate RfcFrac(s: string) {
    s == "" || (s[0] == '.' && s[1..] != "" && RfcDigits(s[1..]))
  }

  /** An exponent, or nothing. */
  predicate RfcExp(s: string) {
    s == "" ||
    ((s[0] == 'e' || s[0] == 'E') &&
     var d := if |s| > 1 && (s[1] == '+' || s[1] == '-') then s[2..] else s[1..];
     d != "" && RfcDigits(d))
  }

  /** An optional minus sign, an integer part, and an optional fraction and exponent. */
  ghost predicate RfcNumber(s: string) {
    exists minus, whole, frac, exp ::
      && s == minus + (whole + (frac + exp)) && (minus == "" || minus == "-")
      && RfcInt(whole) && RfcFrac(frac) && RfcExp(exp)
  }

  // ... as the scanner goes over it

  predicate RfcFraction(s: string) {
    if s != "" && s[0] == '.' then
      var n := DigitRun(s[1..]);
      n > 0 && RfcExponent(s[1 + n..])
    else RfcExponent(s)
  }

  predicate RfcExponent(s: string) {
    s == "" ||
    ((s[0] == 'e' || s[0] == 'E') &&
     var d := if |s| > 1 && (s[1] == '+' || s[1] == '-') then s[2..] else s[1..];
     d != "" && DigitRun(d) == |d|)
  }

  predicate NumberScans(s: string) {
    var t := AfterMinus(s);
    var n := DigitRun(t);
    n > 0 && RfcFraction(t[n..])
  }

  lemma {:induction false} DigitsRun(d: string, rest: string)
    requires RfcDigits(d) && (rest == "" || rest[0] !in "0123456789")
    ensures DigitRun(d + rest) == |d|
  {
    if d == "" {
      assert d + rest == rest;
    } else {
      assert d[0] in "0123456789";
      assert (d + rest)[1..] == d[1..] + rest;
      DigitsRun(d[1..], rest);
    }
  }

  lemma ExpScans(exp: string)
    requires RfcExp(exp)
    ensures RfcExponent(exp)
  {
    if exp != "" {
      var d := if |exp| > 1 && (exp[1] == '+' || exp[1] == '-') then exp[2..] else exp[1..];
      assert d + "" == d;
      DigitsRun(d, "");
    }
  }

  lemma FracScans(frac: string, exp: string)
    requires RfcFrac(frac) && RfcExp(exp)
    ensures RfcFraction(frac + exp)
  {
    hide DigitRun, RfcExponent;
    ExpScans(exp);
    if frac == "" {
      assert frac + exp == exp;
    } else {
      DigitsRun(frac[1..], exp);
      assert (frac + exp)[1..] == frac[1..] + exp;
      assert (frac + exp)[|frac|..] == exp;
    }
  }

  lemma NumberIsScanned(s: string)
    requires RfcNumber(s)
    ensures NumberScans(s)
  {
    hide DigitRun, RfcFraction;
    var minus, whole, frac, exp :|
      && s == minus + (whole + (frac + exp)) && (minus == "" || minus == "-")
      && RfcInt(whole) && RfcFrac(frac) && RfcExp(exp);
    var rest := frac + exp;
    FracScans(frac, exp);
    DigitsRun(whole, rest);
    assert (whole + rest)[0] == whole[0] && whole[0] in "0123456789";
    assert AfterMinus(s) == whole + rest by {
      if minus == "" { assert s == whole + rest; } else { assert s[1..] == whole + rest; }
    }
    assert (whole + rest)[|whole|..] == rest;
  }

  lemma ExponentReaches(s: string)
    requires RfcExponent(s)
    ensures ExponentEnd(s) == |s|
  {
    hide DigitRun;
  }

  lemma FractionReaches(t: string)
    requires RfcFraction(t[DigitRun(t)..])
    ensures NumberEnd(t) == |t|
  {
    hide DigitRun, RfcExponent, ExponentEnd, FractionEnd;
    FractionCase(t);
    ExponentReaches(t[FractionEnd(t)..]);
  }

  lemma FractionCase(t: string)
    requires RfcFraction(t[DigitRun(t)..])
    ensures RfcExponent(t[FractionEnd(t)..])
  {
    hide DigitRun, RfcExponent, RfcFraction, FractionEnd;
    var n := DigitRun(t);
    FractionEndIs(t);
    if n < |t| && t[n] == '.' {
      WithPoint(t, n, t[n + 1..]);
    } else {
      WithoutPoint(t, n);
    }
  }

  lemma WithPoint(t: string, n: nat, u: string)
    requires n < |t| && t[n] == '.' && u == t[n + 1..] && RfcFraction(t[n..])
    ensures RfcExponent(t[n + 1 + DigitRun(u)..])
  {
    hide DigitRun, RfcExponent;
    Drops(t, n, 1);
    assert t[n..][1..] == u;
    Drops(t, n, 1 + DigitRun(u));
  }

  lemma WithoutPoint(t: string, n: nat)
    requires n <= |t| && (n < |t| ==> t[n] != '.') && RfcFraction(t[n..])
    ensures RfcExponent(t[n..])
  {
    hide DigitRun, RfcExponent;
    Drops(t, n, 0);
  }

  lemma FractionEndIs(t: string)
    ensures var n := DigitRun(t);
            FractionEnd(t) == if n < |t| && t[n] == '.' then n + 1 + DigitRun(t[n + 1..]) else n
  {
    hide DigitRun;
  }

  lemma Drops(s: string, n: nat, k: nat)
    requires n + k <= |s|
    ensures s[n..][k..] == s[n + k..]
    ensures n < |s| ==> s[n..][0] == s[n]
  {
  }

  lemma DropAppended(s: string, n: nat, q: string)
    requires n <= |s|
    ensures (s + q)[n..] == s[n..] + q
    ensures n < |s| ==> (s + q)[n] == s[n]
  {
  }

  lemma TailOfRun(t: string)
    requires t != "" && IsDigit(t[0])
    ensures DigitRun(t) == 1 + DigitRun(t[1..])
    ensures t[1..][DigitRun(t[1..])..] == t[DigitRun(t)..]
  {
  }

  /** A number of the grammar is one number token. */
  lemma RfcNumberIsWord(s: string)
    requires RfcNumber(s)
    ensures TokenAt(s) == (NumberToken, |s|)
  {
    hide RfcNumber, NumberEnd, RfcFraction, StringEnd, CommentEnd;
    NumberIsScanned(s);
    var t := AfterMinus(s);
    assert t != "" && IsDigit(t[0]) by { StartsWithDigit(t); }
    if s[0] == '-' {
      FractionReaches(t);
      assert s[1] == t[0];
    } else {
      TailOfRun(t);
      FractionReaches(t[1..]);
    }
  }

  lemma StartsWithDigit(t: string)
    requires DigitRun(t) > 0
    ensures t != "" && IsDigit(t[0])
  {
  }

  // ---------------------------------------------------------------- strings, section 7

  const LOWER_HEX: string := "0123456789abcdef"
  const UPPER_HEX: string := "0123456789ABCDEF"

  /** The short escapes, and what they stand for. */
  const ESCAPES: string := "\"\\/bfnrt"
  const MEANINGS: string := "\"\\/\U{8}\U{c}\n\r\t"

  predicate IsHex(c: char) {
    c in LOWER_HEX || c in UPPER_HEX
  }

  /** Four hexadecimal digits in front. */
  predicate Hex4(s: string) {
    |s| >= 4 && IsHex(s[0]) && IsHex(s[1]) && IsHex(s[2]) && IsHex(s[3])
  }

  /** What may stand between the quotes: characters from the space on, and escapes. */
  predicate RfcBody(s: string)
    decreases |s|
  {
    if s == "" then true
    else if s[0] != '\\' then s[0] != '\"' && ' ' <= s[0] && RfcBody(s[1..])
    else if |s| < 2 then false
    else if s[1] == 'u' then Hex4(s[2..]) && RfcBody(s[6..])
    else s[1] in ESCAPES && RfcBody(s[2..])
  }

  function PlaceIn(c: char, s: string): (n: nat)
    ensures n <= |s|
  {
    if s == "" || s[0] == c then 0 else 1 + PlaceIn(c, s[1..])
  }

  /** A digit is worth its place among the sixteen. */
  function HexOf(c: char): nat {
    if c in LOWER_HEX then PlaceIn(c, LOWER_HEX) else PlaceIn(c, UPPER_HEX)
  }

  function Hex4Of(s: string): nat
    requires |s| >= 4
  {
    4096 * HexOf(s[0]) + 256 * HexOf(s[1]) + 16 * HexOf(s[2]) + HexOf(s[3])
  }

  /** The string that such text denotes; a pair of escaped surrogates denotes one code point. */
  function Denotation(s: string): string
    decreases |s|
  {
    if s == "" then ""
    else if s[0] != '\\' then [s[0]] + Denotation(s[1..])
    else if |s| >= 6 && s[1] == 'u' then
      var x := Hex4Of(s[2..]);
      if !(0xD800 <= x <= 0xDBFF) then CodePointToUTF8(x) + Denotation(s[6..])
      else if |s| < 12 then ""
      else CodePointToUTF8(0x10000 + 1024 * (x - 0xD800) + Hex4Of(s[8..]) % 1024) + Denotation(s[12..])
    else if |s| >= 2 && s[1] in ESCAPES then
      [MEANINGS[PlaceIn(s[1], ESCAPES) % 8]] + Denotation(s[2..])
    else ""
  }

  lemma {:induction false} PlaceIs(c: char, s: string, n: nat)
    requires n < |s| && s[n] == c && forall j :: 0 <= j < n ==> s[j] != c
    ensures PlaceIn(c, s) == n
  {
    if n > 0 {
      PlaceIs(c, s[1..], n - 1);
    }
  }

  lemma LowerDigit(n: nat)
    requires n < 16
    ensures LOWER_HEX[n] as int == if n < 10 then '0' as int + n else 'a' as int + n - 10
  {
  }

  lemma UpperDigit(n: nat)
    requires n < 16
    ensures UPPER_HEX[n] as int == if n < 10 then '0' as int + n else 'A' as int + n - 10
  {
  }

  lemma LowerPlace(c: char)
    requires c in LOWER_HEX
    ensures HexValue(c) == Some(PlaceIn(c, LOWER_HEX))
  {
    var n :| 0 <= n < 16 && LOWER_HEX[n] == c;
    LowerDigit(n);
    forall j | 0 <= j < n ensures LOWER_HEX[j] != c { LowerDigit(j); }
    PlaceIs(c, LOWER_HEX, n);
  }

  lemma UpperPlace(c: char)
    requires c in UPPER_HEX
    ensures HexValue(c) == Some(PlaceIn(c, UPPER_HEX))
  {
    var n :| 0 <= n < 16 && UPPER_HEX[n] == c;
    UpperDigit(n);
    forall j | 0 <= j < n ensures UPPER_HEX[j] != c { UpperDigit(j); }
    PlaceIs(c, UPPER_HEX, n);
  }

  lemma NoOtherHex(c: char)
    requires HexValue(c).Some?
    ensures IsHex(c)
  {
    var n := HexValue(c).value;
    LowerDigit(n);
    UpperDigit(n);
  }

  /** The reader's digits are those of the grammar, in either case. */
  lemma HexValueIs(c: char)
    ensures HexValue(c) == if IsHex(c) then Some(HexOf(c)) else None
  {
    if c in LOWER_HEX {
      LowerPlace(c);
    } else if c in UPPER_HEX {
      UpperPlace(c);
    } else if HexValue(c).Some? {
      NoOtherHex(c);
    }
  }

  lemma DecodeHexIs(s: string)
    ensures DecodeHex16(s) == if Hex4(s) then Some(Hex4Of(s)) else None
  {
    hide HexValue, HexOf, IsHex;
    if |s| >= 4 {
      HexValueIs(s[0]);
      HexValueIs(s[1]);
      HexValueIs(s[2]);
      HexValueIs(s[3]);
    }
  }

  lemma EscapeAt(n: nat)
    requires n < 8
    ensures SimpleEscape(ESCAPES[n]) == Some(MEANINGS[n]) && forall j :: 0 <= j < n ==> ESCAPES[j] != ESCAPES[n]
  {
  }

  /** So are its short escapes. */
  lemma SimpleEscapeIs(c: char)
    ensures SimpleEscape(c) == if c in ESCAPES then Some(MEANINGS[PlaceIn(c, ESCAPES) % 8]) else None
  {
    hide PlaceIn, SimpleEscape;
    if c in ESCAPES {
      var n :| 0 <= n < 8 && ESCAPES[n] == c;
      EscapeAt(n);
      PlaceIs(c, ESCAPES, n);
    } else {
      NoOtherEscape(c);
    }
  }

  lemma NoOtherEscape(c: char)
    ensures SimpleEscape(c).Some? ==> c in ESCAPES
  {
    assert ESCAPES[0] == '\"' && ESCAPES[1] == '\\' && ESCAPES[2] == '/' && ESCAPES[3] == 'b' && ESCAPES[4] == 'f'
           && ESCAPES[5] == 'n' && ESCAPES[6] == 'r' && ESCAPES[7] == 't';
  }

  predicate RfcString(s: string) {
    |s| >= 2 && s[0] == '\"' && s[|s| - 1] == '\"' && RfcBody(s[1..|s| - 1])
  }

  lemma HexIsPlain(s: string)
    requires Hex4(s)
    ensures |s| >= 4 && '\\' !in s[..4] && '\"' !in s[..4]
    ensures DecodeHex16(s) == Some(Hex4Of(s))
  {
    hide IsHex, HexOf, DecodeHex16;
    DecodeHexIs(s);
    assert s[..4] == [s[0], s[1], s[2], s[3]];
    PlainHex(s[0]);
    PlainHex(s[1]);
    PlainHex(s[2]);
    PlainHex(s[3]);
  }

  lemma PlainHex(c: char)
    requires IsHex(c)
    ensures c != '\\' && c != '\"'
  {
    HexValueIs(c);
  }

  lemma {:induction false} RfcBodyScans(b: string, t: string)
    requires RfcBody(b)
    ensures StringEnd(b + ("\"" + t)) == Some(|b| + 1)
    decreases |b|
  {
    hide StringEnd, DecodeHex16, SimpleEscape;
    var close := "\"" + t;
    if b == "" {
      assert b + close == close;
      assert StringEnd(close) == Some(1) by { QuoteEnds(close); }
    } else if b[0] != '\\' {
      RfcBodyScans(b[1..], t);
      PlainScans(b[0], b[1..] + close);
      assert b + close == [b[0]] + (b[1..] + close);
    } else if b[1] == 'u' {
      HexIsPlain(b[2..]);
      RfcBodyScans(b[6..], t);
      PlainRunScans(b[2..][..4], b[6..] + close);
      EscapeScans('u', b[2..][..4] + (b[6..] + close));
      SplitUnicode(b, close);
    } else {
      RfcBodyScans(b[2..], t);
      EscapeScans(b[1], b[2..] + close);
      assert b + close == ['\\', b[1]] + (b[2..] + close);
    }
  }

  lemma QuoteEnds(s: string)
    requires s != "" && s[0] == '\"'
    ensures StringEnd(s) == Some(1)
  {
  }

  lemma SplitUnicode(b: string, close: string)
    requires |b| >= 6 && b[0] == '\\' && b[1] == 'u'
    ensures b + close == ['\\', 'u'] + (b[2..][..4] + (b[6..] + close))
  {
    assert b == ['\\', 'u'] + (b[2..][..4] + b[6..]);
    Assoc(['\\', 'u'], b[2..][..4] + b[6..], close);
    Assoc(b[2..][..4], b[6..], close);
  }

  /** A string of the grammar is one string token. */
  lemma RfcStringIsKey(s: string)
    requires RfcString(s)
    ensures IsKey(s)
  {
    hide RfcBody, StringEnd, NumberEnd, CommentEnd;
    var b := s[1..|s| - 1];
    RfcBodyScans(b, "");
    assert s[1..] == b + ("\"" + "");
  }

  /** Every escaped high surrogate is followed by another escape of four hexadecimal digits. */
  predicate Paired(s: string)
    decreases |s|
  {
    if s == "" then true
    else if s[0] != '\\' then Paired(s[1..])
    else if |s| < 2 then true
    else if s[1] == 'u' then
      if !Hex4(s[2..]) then true
      else if 0xD800 <= Hex4Of(s[2..]) <= 0xDBFF then
        |s| >= 12 && s[6] == '\\' && s[7] == 'u' && Hex4(s[8..]) && Paired(s[12..])
      else Paired(s[6..])
    else Paired(s[2..])
  }

  /** A string of the grammar is refused exactly when it has an escaped high surrogate without a partner. */
  lemma RfcStringReads(s: string)
    requires RfcString(s)
    ensures StringOf(s).Some? <==> Paired(s[1..|s| - 1])
  {
    hide RfcBody, DecodeBody, Paired, Denotation;
    RfcBodyDecodes(s[1..|s| - 1]);
  }

  /** Any other denotes what its characters and escapes stand for. */
  lemma RfcStringDenotes(s: string)
    requires RfcString(s) && Paired(s[1..|s| - 1])
    ensures StringOf(s) == Some(Denotation(s[1..|s| - 1]))
  {
    hide RfcBody, DecodeBody, Paired, Denotation;
    RfcBodyDecodes(s[1..|s| - 1]);
  }

  lemma {:induction false} RfcBodyDecodes(s: string)
    requires RfcBody(s)
    ensures DecodeBody(s) == if Paired(s) then Some(Denotation(s)) else None
    decreases |s|
  {
    hide DecodeHex16, SimpleEscape, HexOf, Hex4Of, IsHex, Hex4, PlaceIn, CodePointToUTF8;
    if s == "" {
    } else if s[0] != '\\' {
      RfcBodyDecodes(s[1..]);
    } else if s[1] == 'u' {
      HexIsPlain(s[2..]);
      UnicodeDecodes(s);
      hide DecodeBody;
      if !(0xD800 <= Hex4Of(s[2..]) <= 0xDBFF) {
        RfcBodyDecodes(s[6..]);
      } else if |s| >= 12 && s[6] == '\\' && s[7] == 'u' && Hex4(s[8..]) {
        assert s[6..][2..] == s[8..] && s[6..][6..] == s[12..];
        RfcBodyDecodes(s[12..]);
      }
    } else {
      assert s[1..][0] == s[1] && s[1 + 1..] == s[2..];
      SimpleEscapeIs(s[1]);
      RfcBodyDecodes(s[2..]);
    }
  }

  lemma UnicodeDecodes(s: string)
    requires |s| >= 6 && s[0] == '\\' && s[1] == 'u' && Hex4(s[2..])
    ensures DecodeBody(s) ==
            var x := Hex4Of(s[2..]);
            if !(0xD800 <= x <= 0xDBFF) then Prepend(CodePointToUTF8(x), DecodeBody(s[6..]))
            else if |s| >= 12 && s[6] == '\\' && s[7] == 'u' && Hex4(s[8..]) then
              Prepend(CodePointToUTF8(0x10000 + 1024 * (x - 0xD800) + Hex4Of(s[8..]) % 1024), DecodeBody(s[12..]))
            else None
  {
    hide DecodeHex16, SimpleEscape, CodePointToUTF8, HexOf, Hex4Of, IsHex, Hex4, PlaceIn;
    assert s[1..][0] == 'u' && s[1..][1..] == s[2..];
    DecodeHexIs(s[2..]);
    if |s| >= 12 {
      assert s[2..][6..] == s[8..];
      assert s[2..][4] == s[6] && s[2..][5] == s[7];
      assert s[1 + 11..] == s[12..];
      DecodeHexIs(s[8..]);
    }
    assert s[1 + 5..] == s[6..];
  }

  predicate NoControls(s: string) {
    forall i :: 0 <= i < |s| ==> ' ' <= s[i]
  }

  /** The other way round: a string token that denotes a string is in the grammar unless it has a control character. */
  lemma StringTokens(s: string)
    requires IsKey(s) && StringOf(s).Some? && NoControls(s)
    ensures RfcString(s)
  {
    hide RfcBody, DecodeBody, NumberEnd, CommentEnd, StringEnd;
    var b := s[1..|s| - 1];
    assert s[0] == '\"' && StringEnd(s[1..]) == Some(|s| - 1);
    ClosingQuote(s[1..]);
    assert s[1..] == b + "\"";
    DecodedIsRfc(b);
  }

  lemma {:induction false} ClosingQuote(s: string)
    requires StringEnd(s) == Some(|s|)
    ensures s != "" && s[|s| - 1] == '\"'
    decreases |s|
  {
    if s[0] != '\"' {
      ClosingQuote(s[if s[0] == '\\' then 2 else 1..]);
    }
  }

  lemma {:induction false} DecodedIsRfc(b: string)
    requires StringEnd(b + "\"") == Some(|b| + 1) && DecodeBody(b).Some? && NoControls(b)
    ensures RfcBody(b)
    decreases |b|
  {
    hide DecodeHex16, Hex4, Hex4Of, StringEnd, DecodeBody, CodePointToUTF8;
    if b == "" {
    } else if b[0] != '\\' {
      PlainFront(b);
      DecodedIsRfc(b[1..]);
    } else {
      EscapeFront(b);
      if b[1] != 'u' {
        DecodedIsRfc(b[2..]);
      } else {
        HexIsPlain(b[2..]);
        HexFront(b[2..]);
        UnicodeDecodes(b);
        assert b[2..][4..] == b[6..];
        if !(0xD800 <= Hex4Of(b[2..]) <= 0xDBFF) {
          DecodedIsRfc(b[6..]);
        } else {
          LowSurrogate(b[6..]);
          assert b[6..][6..] == b[12..] && b[6..][2..] == b[8..];
          DecodedIsRfc(b[12..]);
        }
      }
    }
  }

  lemma ScanPlain(s: string)
    requires s != "" && s[0] != '\\' && s[0] != '\"'
    ensures StringEnd(s) == Plus(1, StringEnd(s[1..]))
  {
  }

  lemma ScanEscape(s: string)
    requires |s| >= 2 && s[0] == '\\'
    ensures StringEnd(s) == Plus(2, StringEnd(s[2..]))
  {
  }

  lemma SkipPlain(b: string)
    requires b != "" && b[0] != '\\' && b[0] != '\"' && StringEnd(b + "\"") == Some(|b| + 1)
    ensures StringEnd(b[1..] + "\"") == Some(|b|)
  {
    hide StringEnd;
    DropAppended(b, 0, "\"");
    DropAppended(b, 1, "\"");
    ScanPlain(b + "\"");
  }

  lemma SkipEscape(b: string)
    requires |b| >= 2 && b[0] == '\\' && StringEnd(b + "\"") == Some(|b| + 1)
    ensures StringEnd(b[2..] + "\"") == Some(|b| - 1)
  {
    hide StringEnd;
    DropAppended(b, 0, "\"");
    DropAppended(b, 2, "\"");
    ScanEscape(b + "\"");
  }

  /** Where the scan goes on behind a plain character, an escape, or four hexadecimal digits. */
  lemma PlainFront(b: string)
    requires b != "" && b[0] != '\\' && StringEnd(b + "\"") == Some(|b| + 1) && DecodeBody(b).Some?
    ensures b[0] != '\"' && StringEnd(b[1..] + "\"") == Some(|b|) && DecodeBody(b[1..]).Some?
  {
    hide StringEnd, DecodeEscape;
    DropAppended(b, 0, "\"");
    if b[0] == '\"' {
      QuoteEnds(b + "\"");
    } else {
      SkipPlain(b);
      DecodePlain(b);
    }
  }

  lemma DecodePlain(b: string)
    requires b != "" && b[0] != '\\' && b[0] != '\"'
    ensures DecodeBody(b).Some? ==> DecodeBody(b[1..]).Some?
  {
    hide DecodeEscape;
  }

  lemma EscapeFront(b: string)
    requires b != "" && b[0] == '\\' && StringEnd(b + "\"") == Some(|b| + 1) && DecodeBody(b).Some?
    ensures |b| >= 2 && StringEnd(b[2..] + "\"") == Some(|b| - 1)
    ensures if b[1] == 'u' then Hex4(b[2..]) else b[1] in ESCAPES && DecodeBody(b[2..]).Some?
  {
    hide StringEnd;
    DecodedEscape(b);
    SkipEscape(b);
  }

  lemma DecodedEscape(b: string)
    requires b != "" && b[0] == '\\' && DecodeBody(b).Some?
    ensures |b| >= 2
    ensures if b[1] == 'u' then Hex4(b[2..]) else b[1] in ESCAPES && DecodeBody(b[2..]).Some?
  {
    hide DecodeHex16, SimpleEscape, CodePointToUTF8, Hex4, Hex4Of, PlaceIn;
    if |b| >= 2 {
      Drops(b, 1, 0);
      Drops(b, 1, 1);
      DecodeHexIs(b[2..]);
      SimpleEscapeIs(b[1]);
    }
  }

  lemma HexFront(b: string)
    requires |b| >= 4 && '\\' !in b[..4] && '\"' !in b[..4] && StringEnd(b + "\"") == Some(|b| + 1)
    ensures StringEnd(b[4..] + "\"") == Some(|b| - 3)
  {
    hide StringEnd;
    PlainFour(b);
    SkipPlain(b);
    Drops(b, 1, 1);
    SkipPlain(b[1..]);
    Drops(b, 2, 1);
    SkipPlain(b[2..]);
    Drops(b, 3, 1);
    SkipPlain(b[3..]);
  }

  lemma PlainFour(b: string)
    requires |b| >= 4 && '\\' !in b[..4] && '\"' !in b[..4]
    ensures forall i :: 0 <= i < 4 ==> b[i] != '\\' && b[i] != '\"'
  {
    assert forall i :: 0 <= i < 4 ==> b[i] == b[..4][i];
  }

  /** The second half of a pair, as text. */
  lemma LowSurrogate(b: string)
    requires |b| >= 6 && b[0] == '\\' && b[1] == 'u' && Hex4(b[2..])
    requires StringEnd(b + "\"") == Some(|b| + 1)
    ensures StringEnd(b[6..] + "\"") == Some(|b| - 5)
    ensures RfcBody(b[6..]) ==> RfcBody(b)
  {
    hide Hex4, Hex4Of, StringEnd;
    SkipEscape(b);
    HexIsPlain(b[2..]);
    HexFront(b[2..]);
    assert b[2..][4..] == b[6..];
  }

  // ---------------------------------------------------------------- texts, sections 2 to 5

  ghost predicate RfcWord(s: string) {
    s == "true" || s == "false" || s == "null" || RfcNumber(s) || RfcString(s)
  }

  /** A text of the grammar without the white space around it. */
  ghost predicate RfcLay(lay: Lay) {
    match lay
    case Leaf(lexeme) => RfcWord(lexeme)
    case ArrayLay(gap, slots) => AllSpaces(gap) && RfcSlots(slots)
    case ObjectLay(gap, fields) => AllSpaces(gap) && RfcFields(fields)
  }

  ghost predicate RfcSlots(slots: seq<Slot>) {
    slots == [] ||
    (AllSpaces(slots[0].before) && AllSpaces(slots[0].after) && RfcLay(slots[0].item) && RfcSlots(slots[1..]))
  }

  ghost predicate RfcFields(fields: seq<Field>) {
    fields == [] ||
    (AllSpaces(fields[0].before) && RfcString(fields[0].key) && AllSpaces(fields[0].gap) && AllSpaces(fields[0].slot.before)
     && AllSpaces(fields[0].slot.after) && RfcLay(fields[0].slot.item) && RfcFields(fields[1..]))
  }

  lemma RfcWordIsWord(s: string)
    requires RfcWord(s)
    ensures IsWord(s)
  {
    hide RfcNumber, RfcString, NumberEnd, StringEnd, CommentEnd;
    if RfcNumber(s) {
      RfcNumberIsWord(s);
    } else if RfcString(s) {
      RfcStringIsKey(s);
    } else {
      LiteralWords();
    }
  }

  lemma LiteralWords()
    ensures IsWord("true") && IsWord("false") && IsWord("null")
  {
    assert "true"[1..] == "rue" && "false"[1..] == "alse" && "null"[1..] == "ull";
  }

  lemma {:induction false} RfcIsLayout(lay: Lay)
    requires RfcLay(lay)
    ensures LayOk(lay)
    decreases lay
  {
    hide RfcWord, IsWord;
    match lay
    case Leaf(lexeme) => RfcWordIsWord(lexeme);
    case ArrayLay(_, slots) => RfcSlotsAreOk(slots);
    case ObjectLay(_, fields) => RfcFieldsAreOk(fields);
  }

  lemma {:induction false} RfcSlotsAreOk(slots: seq<Slot>)
    requires RfcSlots(slots)
    ensures SlotsOk(slots)
    decreases slots
  {
    hide RfcLay, LayOk, AllSpaces;
    if slots != [] {
      RfcIsLayout(slots[0].item);
      RfcSlotsAreOk(slots[1..]);
    }
  }

  lemma {:induction false} RfcFieldsAreOk(fields: seq<Field>)
    requires RfcFields(fields)
    ensures FieldsOk(fields)
    decreases fields
  {
    hide RfcLay, LayOk, AllSpaces, RfcString, IsKey;
    if fields != [] {
      RfcStringIsKey(fields[0].key);
      RfcIsLayout(fields[0].slot.item);
      RfcFieldsAreOk(fields[1..]);
      assert SlotOk(fields[0].slot) && FieldOk(fields[0]);
    }
  }

  /** Every text of the grammar is read as its tokens say: it is refused for what ReadLay names, and nothing else. */
  lemma RfcTextIsRead(before: string, lay: Lay, after: string, f: Features)
    requires AllSpaces(before) && RfcLay(lay) && AllSpaces(after)
    ensures var text := before + (Render(lay) + after);
            Answers(ParseDocument(WithoutBom(text, f), f), ReadLay(lay, 1, f), f, |before| + |Render(lay)|)
  {
    hide RfcLay, LayOk, Render, ReadLay, ParseDocument, WithoutBom, Answers;
    RfcIsLayout(lay);
    DocumentIsRead(before, lay, after, f);
  }

  // ---------------------------------------------------------------- the writers print texts of the grammar

  lemma {:induction false} DigitsAreInt(v: nat)
    ensures RfcInt(Digits(v)) && (v > 0 ==> Digits(v)[0] != '0')
  {
    if v >= 10 {
      DigitsAreInt(v / 10);
    }
  }

  lemma DecimalIsRfc(n: int)
    ensures RfcNumber(Decimal(n))
  {
    hide Digits, RfcInt;
    var d := Digits(if n < 0 then -n else n);
    DigitsAreInt(if n < 0 then -n else n);
    var minus := if n < 0 then "-" else "";
    assert Decimal(n) == minus + (d + ("" + ""));
  }

  lemma EscapeIsRfc(c: char, t: string)
    requires SimpleEscape(c).Some? && RfcBody(t)
    ensures RfcBody(['\\', c] + t)
  {
    NoOtherEscape(c);
    hide PlaceIn, IsHex;
    var s := ['\\', c] + t;
    assert s[0] == '\\' && s[1] == c && s[2..] == t;
  }

  lemma PlainIsRfc(c: char, t: string)
    requires c != '\\' && c != '\"' && ' ' <= c && RfcBody(t)
    ensures RfcBody([c] + t)
  {
    assert ([c] + t)[1..] == t;
  }

  lemma HexIsRfc(x: nat, t: string)
    requires x < 0x10000 && RfcBody(t)
    ensures RfcBody(EscapeHex(x) + t)
  {
    hide Hex16, DecodeHex16, Hex4, Hex4Of;
    var s := EscapeHex(x) + t;
    assert s[0] == '\\' && s[1] == 'u' && s[2..] == Hex16(x) + t && s[6..] == t;
    Hex16Decodes(x, t);
    DecodeHexIs(s[2..]);
  }

  lemma CodepointIsRfc(cp: nat, t: string)
    requires cp != '\\' as int && cp != '\"' as int && RfcBody(t)
    ensures RfcBody(EscapeCodepoint(cp) + t)
  {
    hide RfcBody, EscapeHex, Hex16;
    if cp < 0x20 || 0x80 <= cp < 0x10000 {
      HexIsRfc(cp, t);
    } else if cp < 0x80 {
      PlainIsRfc(cp as char, t);
    } else {
      hide EscapeCodepoint;
      var c := cp - 0x10000;
      HexIsRfc(0xDC00 + c % 1024, t);
      HexIsRfc(0xD800 + c / 1024 % 1024, EscapeHex(0xDC00 + c % 1024) + t);
      EscapedPair(cp, t);
    }
  }

  lemma ChunkIsRfc(s: string, t: string)
    requires s != "" && Bytes(s) && RfcBody(t)
    ensures RfcBody(QuoteChunk(s, false).0 + t)
  {
    hide RfcBody, EscapeCodepoint, Utf8ToCodepoint;
    WriterCodepoint(s);
    match s[0]
    case '\"' => EscapeIsRfc('\"', t);
    case '\\' => EscapeIsRfc('\\', t);
    case '\U{8}' => EscapeIsRfc('b', t);
    case '\U{c}' => EscapeIsRfc('f', t);
    case '\n' => EscapeIsRfc('n', t);
    case '\r' => EscapeIsRfc('r', t);
    case '\t' => EscapeIsRfc('t', t);
    case _ => CodepointIsRfc(Utf8ToCodepoint(s).0, t);
  }

  lemma {:induction false} BodyIsRfc(s: string)
    requires Bytes(s)
    ensures RfcBody(QuoteBody(s, false))
  {
    hide QuoteChunk, RfcBody;
    if s == "" {
      assert RfcBody("") by { NothingIsRfc(); }
    } else {
      var (chunk, n) := QuoteChunk(s, false);
      BodyIsRfc(s[n..]);
      ChunkIsRfc(s, QuoteBody(s[n..], false));
    }
  }

  lemma NothingIsRfc()
    ensures RfcBody("")
  {
  }

  lemma QuotedIsRfc(s: string)
    requires Bytes(s)
    ensures RfcString(Quoted(s, false))
  {
    hide QuoteBody, RfcBody;
    BodyIsRfc(s);
    var q := Quoted(s, false);
    assert q[1..|q| - 1] == QuoteBody(s, false);
  }

  lemma LeafIsRfc(p: Payload)
    requires LeafOk(p)
    ensures RfcWord(LeafText(p))
  {
    hide RfcNumber, RfcString, Decimal, Quoted, Bytes;
    match p
    case Int(i) => DecimalIsRfc(i);
    case UInt(u) => DecimalIsRfc(u);
    case Str(x) => QuotedIsRfc(x);
    case _ =>
  }

  lemma {:induction false} FastIsRfc(v: Value, yaml: bool)
    requires Writable(v)
    ensures RfcLay(FastLay(v, yaml))
    decreases v
  {
    hide RfcWord, LeafText, LeafOk;
    match v.payload
    case Arr(items) => FastItemsAreRfc(items, yaml);
    case Obj(members) => FastMembersAreRfc(members, yaml);
    case p => LeafIsRfc(p);
  }

  lemma {:induction false} FastItemsAreRfc(items: seq<Value>, yaml: bool)
    requires WritableItems(items)
    ensures RfcSlots(FastSlots(items, yaml))
    decreases items
  {
    hide RfcLay, FastLay, Writable;
    if items != [] {
      FastIsRfc(items[0], yaml);
      FastItemsAreRfc(items[1..], yaml);
      assert FastSlots(items, yaml)[1..] == FastSlots(items[1..], yaml);
    }
  }

  lemma {:induction false} FastMembersAreRfc(members: seq<Member>, yaml: bool)
    requires WritableMembers(members)
    ensures RfcFields(FastFields(members, yaml))
    decreases members
  {
    hide RfcLay, FastLay, Writable, RfcString, Quoted, Bytes;
    if members != [] {
      QuotedIsRfc(members[0].key);
      FastIsRfc(members[0].value, yaml);
      FastMembersAreRfc(members[1..], yaml);
      assert FastFields(members, yaml)[1..] == FastFields(members[1..], yaml);
    }
  }

  lemma {:induction false} StyledIsRfc(v: Value, indent: string)
    requires Writable(v) && AllSpaces(indent)
    ensures RfcLay(StyledLay(v, indent))
    decreases v
  {
    hide RfcWord, LeafText, LeafOk, Multiline, StyledSlots, StyledFields, RfcSlots, RfcFields, WritableItems,
      WritableMembers;
    var newline := "\n" + (indent + INDENT);
    match v.payload
    case Arr(items) =>
      NoSlotsAreRfc();
      StyledItemsAreRfc(items, newline, indent + INDENT, "\n" + indent);
      StyledItemsAreRfc(items, " ", "", " ");
    case Obj(members) => StyledMembersAreRfc(members, newline, indent + INDENT, "\n" + indent);
    case p => LeafIsRfc(p);
  }

  lemma NoSlotsAreRfc()
    ensures RfcSlots([])
  {
  }

  lemma {:induction false} StyledItemsAreRfc(items: seq<Value>, before: string, indent: string, last: string)
    requires WritableItems(items) && AllSpaces(before) && AllSpaces(indent) && AllSpaces(last)
    ensures RfcSlots(StyledSlots(items, before, indent, last))
    decreases items
  {
    hide RfcLay, StyledLay, Writable;
    if items != [] {
      StyledIsRfc(items[0], indent);
      StyledItemsAreRfc(items[1..], before, indent, last);
      assert StyledSlots(items, before, indent, last)[1..] == StyledSlots(items[1..], before, indent, last);
    }
  }

  lemma {:induction false} StyledMembersAreRfc(members: seq<Member>, before: string, indent: string, last: string)
    requires WritableMembers(members) && AllSpaces(before) && AllSpaces(indent) && AllSpaces(last)
    ensures RfcFields(StyledFields(members, before, indent, last))
    decreases members
  {
    hide RfcLay, StyledLay, Writable, RfcString, Quoted, Cut;
    if members != [] {
      CutBytes(members[0].key);
      QuotedIsRfc(Cut(members[0].key));
      StyledIsRfc(members[0].value, indent);
      StyledMembersAreRfc(members[1..], before, indent, last);
      assert StyledFields(members, before, indent, last)[1..] == StyledFields(members[1..], before, indent, last);
    }
  }

  /** Whatever the value, both writers print a text of the grammar. */
  lemma WritersPrintRfc(v: Value, yaml: bool)
    requires Writable(v)
    ensures RfcLay(FastLay(v, yaml)) && RfcLay(StyledLay(v, ""))
  {
    FastIsRfc(v, yaml);
    StyledIsRfc(v, "");
  }
}
