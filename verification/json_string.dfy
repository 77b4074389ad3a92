/**
 Quoting a string (the writers) and scanning and unescaping a quoted string (the reader), in
 jsoncpp.cpp.  Section 7 of RFC 8259.
 */
module JsonString {
  import opened Wrappers
  import opened JsonText

  // ---------------------------------------------------------------- writing

  function HexDigit(n: nat): char
    requires n < 16
  {
    "0123456789abcdef"[n]
  }

  /** The low 16 bits of `x` as four hexadecimal digits. */
  function Hex16(x: nat): (r: string)
    ensures |r| == 4
  {
    [HexDigit(x / 4096 % 16), HexDigit(x / 256 % 16), HexDigit(x / 16 % 16), HexDigit(x % 16)]
  }

  function EscapeHex(x: nat): (r: string)
    ensures |r| == 6
  {
    "\\u" + Hex16(x)
  }

  /** How a code point is written when only ASCII may be emitted. */
  function EscapeCodepoint(cp: nat): string {
    if cp < 0x20 then EscapeHex(cp)
    else if cp < 0x80 then [cp as char]
    else if cp < 0x10000 then EscapeHex(cp)
    else EscapeHex(0xD800 + (cp - 0x10000) / 1024 % 1024) + EscapeHex(0xDC00 + (cp - 0x10000) % 1024)
  }

  /** What is written for the front of `s`, and how many bytes of `s` that covers. */
  function QuoteChunk(s: string, emitUTF8: bool): (r: (string, nat))
    requires s != []
    ensures 0 < r.1 <= |s|
  {
    match s[0]
    case '\"' => ("\\\"", 1)
    case '\\' => ("\\\\", 1)
    case '\U{8}' => ("\\b", 1)
    case '\U{c}' => ("\\f", 1)
    case '\n' => ("\\n", 1)
    case '\r' => ("\\r", 1)
    case '\t' => ("\\t", 1)
    case c =>
      if emitUTF8 then
        (if c as int < 0x20 then EscapeHex(c as nat) else [c], 1)
      else
        var (cp, skip) := Utf8ToCodepoint(s);
        (EscapeCodepoint(cp), skip + 1)
  }

  function QuoteBody(s: string, emitUTF8: bool): string {
    if s == [] then ""
    else QuoteChunk(s, emitUTF8).0 + QuoteBody(s[QuoteChunk(s, emitUTF8).1..], emitUTF8)
  }

  predicate NeedsEscaping(c: char) {
    c == '\\' || c == '\"' || c as int < 0x20 || c as int > 0x7F
  }

  function Quoted(s: string, emitUTF8: bool): string {
    "\"" + QuoteBody(s, emitUTF8) + "\""
  }

  /** Writing a string as a JSON string literal. */
  method ValueToQuotedStringN(value: string, emitUTF8: bool) returns (result: string)
    ensures result == Quoted(value, emitUTF8)
  {
    hide QuoteChunk;
    if forall i :: 0 <= i < |value| ==> !NeedsEscaping(value[i]) {
      PlainBody(value, emitUTF8);
      return "\"" + value + "\"";
    }
    result := "\"";
    var c := 0;
    while c < |value|
      invariant 0 <= c <= |value|
      invariant result + QuoteBody(value[c..], emitUTF8) == "\"" + QuoteBody(value, emitUTF8)
    {
      var chunk := QuoteChunk(value[c..], emitUTF8);
      assert value[c..][chunk.1..] == value[c + chunk.1..];
      Assoc(result, chunk.0, QuoteBody(value[c + chunk.1..], emitUTF8));
      result := result + chunk.0;
      c := c + chunk.1;
    }
    assert value[c..] == "" && result + "" == result;
    result := result + "\"";
  }

  /** A string without special characters is its own body. */
  lemma PlainBody(s: string, emitUTF8: bool)
    requires forall i :: 0 <= i < |s| ==> !NeedsEscaping(s[i])
    ensures QuoteBody(s, emitUTF8) == s
  {
    hide QuoteChunk, NeedsEscaping;
    if s != [] {
      PlainBody(s[1..], emitUTF8);
      PlainChunk(s, emitUTF8);
      assert s == [s[0]] + s[1..];
    }
  }

  lemma PlainChunk(s: string, emitUTF8: bool)
    requires s != [] && !NeedsEscaping(s[0])
    ensures QuoteChunk(s, emitUTF8) == ([s[0]], 1)
  {
  }

  // ---------------------------------------------------------------- reading

  /** How many characters a string takes after its opening quote, the closing quote included. */
  function StringEnd(s: string): (r: Option<nat>)
    ensures r.Some? ==> 0 < r.value <= |s|
  {
    if s == [] then None
    else if s[0] == '\"' then Some(1)
    else if s[0] != '\\' then Plus(1, StringEnd(s[1..]))
    else if |s| == 1 then None
    else Plus(2, StringEnd(s[2..]))
  }

  function Plus(n: nat, r: Option<nat>): Option<nat> {
    match r
    case None => None
    case Some(m) => Some(n + m)
  }

  function HexValue(c: char): Option<nat> {
    if '0' <= c <= '9' then Some(c as int - '0' as int)
    else if 'a' <= c <= 'f' then Some(c as int - 'a' as int + 10)
    else if 'A' <= c <= 'F' then Some(c as int - 'A' as int + 10)
    else None
  }

  /** Four hexadecimal digits, of either case. */
  function DecodeHex16(s: string): Option<nat> {
    if |s| < 4 then None
    else match (HexValue(s[0]), HexValue(s[1]), HexValue(s[2]), HexValue(s[3]))
      case (Some(a), Some(b), Some(c), Some(d)) => Some(((a * 16 + b) * 16 + c) * 16 + d)
      case _ => None
  }

  /** The code point after \u, which may be a surrogate pair, and how many characters it takes. */
  function DecodeCodePoint(s: string): (r: Option<(nat, nat)>)
    ensures r.Some? ==> r.value.1 <= |s|
  {
    match DecodeHex16(s)
    case None => None
    case Some(cp) =>
      if !(0xD800 <= cp <= 0xDBFF) then Some((cp, 4))
      else if |s| < 10 || s[4] != '\\' || s[5] != 'u' then None
      else match DecodeHex16(s[6..])
        case None => None
        case Some(low) => Some((0x10000 + cp % 1024 * 1024 + low % 1024, 10))
  }

  function Prepend(p: string, r: Option<string>): Option<string> {
    match r
    case None => None
    case Some(s) => Some(p + s)
  }

  function SimpleEscape(c: char): Option<char> {
    match c
    case '\"' => Some('\"')
    case '/' => Some('/')
    case '\\' => Some('\\')
    case 'b' => Some('\U{8}')
    case 'f' => Some('\U{c}')
    case 'n' => Some('\n')
    case 'r' => Some('\r')
    case 't' => Some('\t')
    case _ => None
  }

  /** What the text after a backslash denotes, and how many characters it takes. */
  function DecodeEscape(s: string): (r: Option<(string, nat)>)
    ensures r.Some? ==> 0 < r.value.1 <= |s|
  {
    if s == "" then None
    else if s[0] == 'u' then
      match DecodeCodePoint(s[1..])
      case None => None
      case Some((cp, n)) => Some((CodePointToUTF8(cp), 1 + n))
    else match SimpleEscape(s[0])
      case None => None
      case Some(c) => Some(([c], 1))
  }

  /** The string denoted by the text between two quotes; None is a syntax error. */
  function DecodeBody(s: string): Option<string>
    decreases |s|
  {
    if s == [] || s[0] == '\"' then Some("")
    else if s[0] != '\\' then Prepend([s[0]], DecodeBody(s[1..]))
    else match DecodeEscape(s[1..])
      case None => None
      case Some((piece, n)) => Prepend(piece, DecodeBody(s[1 + n..]))
  }

  // ---------------------------------------------------------------- reading what was written

  lemma HexDigitValue(n: nat)
    requires n < 16
    ensures HexValue(HexDigit(n)) == Some(n)
    ensures HexDigit(n) != '\\' && HexDigit(n) != '\"'
  {
  }

  lemma Hex16Value(x: nat)
    requires x < 0x10000
    ensures ((x / 4096 % 16 * 16 + x / 256 % 16) * 16 + x / 16 % 16) * 16 + x % 16 == x
  {
    assert x / 16 == (x / 256) * 16 + x / 16 % 16 && x / 256 == (x / 4096) * 16 + x / 256 % 16;
  }

  lemma Hex16Decodes(x: nat, t: string)
    requires x < 0x10000
    ensures DecodeHex16(Hex16(x) + t) == Some(x)
  {
    hide HexDigit, HexValue;
    var s := Hex16(x) + t;
    HexDigitValue(x / 4096 % 16);
    HexDigitValue(x / 256 % 16);
    HexDigitValue(x / 16 % 16);
    HexDigitValue(x % 16);
    assert s[0] == Hex16(x)[0] && s[1] == Hex16(x)[1] && s[2] == Hex16(x)[2] && s[3] == Hex16(x)[3];
    Hex16Value(x);
  }

  lemma EscapeHexDecodes(x: nat, t: string)
    requires x < 0xD800 || 0xE000 <= x < 0x10000
    ensures DecodeBody(EscapeHex(x) + t) == Prepend(CodePointToUTF8(x), DecodeBody(t))
  {
    var s := EscapeHex(x) + t;
    assert s[0] == '\\' && s[1..][0] == 'u' && s[1..][1..] == Hex16(x) + t && s[6..] == t;
    Hex16Decodes(x, t);
  }

  /** What a surrogate pair denotes: the code point, reduced to the 20 bits the pair carries. */
  function Emitted(cp: nat): nat {
    if cp < 0x10000 then cp else 0x10000 + (cp - 0x10000) % 0x100000
  }

  lemma PairDecodes(hi: nat, lo: nat, t: string)
    requires 0xD800 <= hi <= 0xDBFF && lo < 0x10000
    ensures var r := DecodeCodePoint(Hex16(hi) + (EscapeHex(lo) + t));
            r.Some? && r.value.0 == 0x10000 + hi % 1024 * 1024 + lo % 1024 && r.value.1 == 10
  {
    hide Hex16, DecodeHex16;
    var s := Hex16(hi) + (EscapeHex(lo) + t);
    Hex16Decodes(hi, EscapeHex(lo) + t);
    Hex16Decodes(lo, t);
    assert s[4..] == EscapeHex(lo) + t;
    assert s[4] == '\\' && s[5] == 'u' && s[6..] == Hex16(lo) + t;
  }

  lemma UnicodeEscapeDecodes(s: string)
    requires |s| >= 2 && s[0] == '\\' && s[1] == 'u' && DecodeCodePoint(s[2..]).Some?
    ensures var (cp, n) := DecodeCodePoint(s[2..]).value;
            DecodeBody(s) == Prepend(CodePointToUTF8(cp), DecodeBody(s[2 + n..]))
  {
    assert s[1..][0] == 'u' && s[1..][1..] == s[2..];
  }

  lemma SurrogatePairDecodes(cp: nat, t: string)
    requires 0x10000 <= cp
    ensures DecodeBody(EscapeCodepoint(cp) + t) == Prepend(CodePointToUTF8(Emitted(cp)), DecodeBody(t))
  {
    hide DecodeCodePoint, DecodeBody, EscapeCodepoint, EscapeHex, Hex16, CodePointToUTF8, Emitted;
    var c := cp - 0x10000;
    var hi, lo := 0xD800 + c / 1024 % 1024, 0xDC00 + c % 1024;
    var s := EscapeCodepoint(cp) + t;
    PairDecodes(hi, lo, t);
    PairValue(c);
    EscapedPair(cp, t);
    UnicodeEscapeDecodes(s);
  }

  lemma EscapedPair(cp: nat, t: string)
    requires 0x10000 <= cp
    ensures var c := cp - 0x10000;
            var s := EscapeCodepoint(cp) + t;
            && s == EscapeHex(0xD800 + c / 1024 % 1024) + (EscapeHex(0xDC00 + c % 1024) + t)
            && |s| == 12 + |t| && s[12..] == t && s[0] == '\\' && s[1] == 'u'
            && s[2..] == Hex16(0xD800 + c / 1024 % 1024) + (EscapeHex(0xDC00 + c % 1024) + t)
  {
    hide Hex16, EscapeHex, EscapeCodepoint;
    var c := cp - 0x10000;
    BigEscape(cp);
    TwoEscapes(0xD800 + c / 1024 % 1024, 0xDC00 + c % 1024, t);
  }

  lemma BigEscape(cp: nat)
    requires 0x10000 <= cp
    ensures var c := cp - 0x10000;
            EscapeCodepoint(cp) == EscapeHex(0xD800 + c / 1024 % 1024) + EscapeHex(0xDC00 + c % 1024)
  {
    hide EscapeHex;
  }

  lemma TwoEscapes(hi: nat, lo: nat, t: string)
    ensures var s := (EscapeHex(hi) + EscapeHex(lo)) + t;
            && s == EscapeHex(hi) + (EscapeHex(lo) + t)
            && |s| == 12 + |t| && s[12..] == t && s[0] == '\\' && s[1] == 'u'
            && s[2..] == Hex16(hi) + (EscapeHex(lo) + t)
  {
    hide Hex16;
    Assoc(EscapeHex(hi), EscapeHex(lo), t);
    Assoc("\\u", Hex16(hi), EscapeHex(lo) + t);
  }

  lemma PairValue(c: nat)
    ensures 0x10000 + (0xD800 + c / 1024 % 1024) % 1024 * 1024 + (0xDC00 + c % 1024) % 1024 == Emitted(c + 0x10000)
  {
    assert c % 0x100000 == c / 1024 % 1024 * 1024 + c % 1024;
  }

  /** The code points the writer can read off a byte string. */
  lemma WriterCodepoint(s: string)
    requires s != [] && s[0] as int < 256
    ensures var cp := Utf8ToCodepoint(s).0; Scalar(Emitted(cp)) && (cp < 0x80 <==> s[0] as int < 0x80)
    ensures s[0] as int < 0x80 ==> Utf8ToCodepoint(s) == (s[0] as int, 0)
  {
    var cp := Utf8ToCodepoint(s).0;
    if s[0] as int >= 0xF0 && cp >= 0x10000 {
      assert Emitted(cp) <= 0x10FFFF;
    }
  }

  /** One chunk of output denotes the bytes it was written for, up to repair of ill-formed UTF-8. */
  function ChunkMeaning(s: string, emitUTF8: bool): string
    requires s != []
  {
    if emitUTF8 then [s[0]] else CodePointToUTF8(Emitted(Utf8ToCodepoint(s).0))
  }

  predicate Bytes(s: string) {
    forall i :: 0 <= i < |s| ==> s[i] as int < 256
  }

  lemma SimpleEscapeDecodes(e: char, c: char, t: string)
    requires SimpleEscape(e) == Some(c) && e != 'u'
    ensures DecodeBody(['\\', e] + t) == Prepend([c], DecodeBody(t))
  {
    var s := ['\\', e] + t;
    assert s[0] == '\\' && s[1..][0] == e && s[2..] == t;
  }

  lemma ChunkDecodes(s: string, emitUTF8: bool, t: string)
    requires s != [] && Bytes(s)
    ensures DecodeBody(QuoteChunk(s, emitUTF8).0 + t) == Prepend(ChunkMeaning(s, emitUTF8), DecodeBody(t))
  {
    var c := s[0];
    WriterCodepoint(s);
    if c as int < 0x80 {
      assert ChunkMeaning(s, emitUTF8) == [c];
    }
    match c
    case '\"' => SimpleEscapeDecodes('\"', '\"', t);
    case '\\' => SimpleEscapeDecodes('\\', '\\', t);
    case '\U{8}' => SimpleEscapeDecodes('b', '\U{8}', t);
    case '\U{c}' => SimpleEscapeDecodes('f', '\U{c}', t);
    case '\n' => SimpleEscapeDecodes('n', '\n', t);
    case '\r' => SimpleEscapeDecodes('r', '\r', t);
    case '\t' => SimpleEscapeDecodes('t', '\t', t);
    case _ => OrdinaryChunkDecodes(s, emitUTF8, t);
  }

  lemma PlainDecodes(c: char, t: string)
    requires c != '\\' && c != '\"'
    ensures DecodeBody([c] + t) == Prepend([c], DecodeBody(t))
  {
    assert ([c] + t)[1..] == t;
  }

  lemma CodepointDecodes(cp: nat, t: string)
    requires cp != '\\' as int && cp != '\"' as int && !(0xD800 <= cp <= 0xDFFF)
    ensures DecodeBody(EscapeCodepoint(cp) + t) == Prepend(CodePointToUTF8(Emitted(cp)), DecodeBody(t))
  {
    hide DecodeBody, EscapeHex;
    if cp >= 0x10000 {
      SurrogatePairDecodes(cp, t);
    } else if 0x20 <= cp < 0x80 {
      PlainDecodes(cp as char, t);
    } else {
      EscapeHexDecodes(cp, t);
    }
  }

  lemma OrdinaryChunkDecodes(s: string, emitUTF8: bool, t: string)
    requires s != [] && s[0] as int < 256 && s[0] !in "\"\\\U{8}\U{c}\n\r\t"
    ensures DecodeBody(QuoteChunk(s, emitUTF8).0 + t) == Prepend(ChunkMeaning(s, emitUTF8), DecodeBody(t))
  {
    hide DecodeBody, EscapeHex, Utf8ToCodepoint, EscapeCodepoint;
    WriterCodepoint(s);
    if !emitUTF8 {
      CodepointDecodes(Utf8ToCodepoint(s).0, t);
    } else if s[0] as int < 0x20 {
      EscapeHexDecodes(s[0] as int, t);
    } else {
      PlainDecodes(s[0], t);
    }
  }

  /** The byte string that a quoted string denotes. */
  function Meaning(s: string, emitUTF8: bool): string {
    if s == [] then "" else ChunkMeaning(s, emitUTF8) + Meaning(s[QuoteChunk(s, emitUTF8).1..], emitUTF8)
  }

  /** Unescaping what was quoted gives the meaning back, for every byte string. */
  lemma {:induction false} QuotedDecodes(s: string, emitUTF8: bool)
    requires Bytes(s)
    ensures DecodeBody(QuoteBody(s, emitUTF8)) == Some(Meaning(s, emitUTF8))
  {
    if s != [] {
      var (chunk, n) := QuoteChunk(s, emitUTF8);
      QuotedDecodes(s[n..], emitUTF8);
      ChunkDecodes(s, emitUTF8, QuoteBody(s[n..], emitUTF8));
    }
  }

  /** With UTF-8 output the meaning is the string itself. */
  lemma {:induction false} EmitMeaning(s: string)
    ensures Meaning(s, true) == s
  {
    if s != [] {
      EmitMeaning(s[1..]);
      assert s == [s[0]] + s[1..];
    }
  }

  /** With ASCII output the meaning is well-formed UTF-8, whatever the string was ... */
  lemma {:induction false} MeaningIsValid(s: string)
    requires Bytes(s)
    ensures ValidUtf8(Meaning(s, false))
  {
    if s != [] {
      var n, rest := QuoteChunk(s, false).1, Meaning(s[QuoteChunk(s, false).1..], false);
      MeaningIsValid(s[n..]);
      WriterCodepoint(s);
      var cp := Emitted(Utf8ToCodepoint(s).0);
      CharOfCodepoint(cp, rest);
      assert (CodePointToUTF8(cp) + rest)[|CodePointToUTF8(cp)|..] == rest;
    }
  }

  /** A well-formed character is one chunk that denotes itself. */
  lemma ValidChunk(s: string)
    requires s != [] && CharLength(s) > 0
    ensures QuoteChunk(s, false).1 == CharLength(s) && ChunkMeaning(s, false) == s[..CharLength(s)]
  {
    hide Utf8ToCodepoint, EscapeCodepoint, CodePointToUTF8, CharLength;
    CodepointOfChar(s);
    if s[0] as int < 0x80 {
      AsciiChar(s);
    } else {
      assert QuoteChunk(s, false).1 == Utf8ToCodepoint(s).1 + 1;
    }
  }

  lemma AsciiChar(s: string)
    requires s != [] && s[0] as int < 0x80
    ensures CharLength(s) == 1 && Utf8ToCodepoint(s) == (s[0] as int, 0)
  {
  }

  /** ... and well-formed UTF-8 keeps its meaning. */
  lemma {:induction false} ValidMeaning(s: string)
    requires ValidUtf8(s)
    ensures Meaning(s, false) == s
  {
    hide QuoteChunk, ChunkMeaning, CharLength, Meaning, ValidUtf8;
    if s == [] {
      NoMeaning();
    } else {
      var n := CharLength(s);
      ValidUnfold(s);
      ValidChunk(s);
      ValidMeaning(s[n..]);
      MeaningUnfold(s);
      assert s == s[..n] + s[n..];
    }
  }

  lemma NoMeaning()
    ensures Meaning("", false) == ""
  {
  }

  lemma ValidUnfold(s: string)
    requires s != [] && ValidUtf8(s)
    ensures CharLength(s) > 0 && ValidUtf8(s[CharLength(s)..])
  {
    hide CharLength;
  }

  lemma MeaningUnfold(s: string)
    requires s != []
    ensures Meaning(s, false) == ChunkMeaning(s, false) + Meaning(s[QuoteChunk(s, false).1..], false)
  {
    hide QuoteChunk, ChunkMeaning;
  }

  /** Quoting then unescaping is the identity: always with UTF-8 output, and exactly on valid UTF-8 without it. */
  lemma QuoteRoundTrip(s: string)
    requires Bytes(s)
    ensures DecodeBody(QuoteBody(s, true)) == Some(s)
    ensures DecodeBody(QuoteBody(s, false)) == Some(s) <==> ValidUtf8(s)
  {
    QuotedDecodes(s, true);
    EmitMeaning(s);
    QuotedDecodes(s, false);
    MeaningIsValid(s);
    if ValidUtf8(s) {
      ValidMeaning(s);
    }
  }

  lemma PlainScans(c: char, t: string)
    requires c != '\\' && c != '\"' && StringEnd(t).Some?
    ensures StringEnd([c] + t) == Some(1 + StringEnd(t).value)
  {
    var s := [c] + t;
    assert s[0] == c && s[1..] == t;
  }

  lemma EscapeScans(c: char, t: string)
    requires StringEnd(t).Some?
    ensures StringEnd(['\\', c] + t) == Some(2 + StringEnd(t).value)
  {
    var s := ['\\', c] + t;
    assert s[0] == '\\' && s[2..] == t;
  }

  lemma {:induction false} PlainRunScans(h: string, t: string)
    requires '\\' !in h && '\"' !in h && StringEnd(t).Some?
    ensures StringEnd(h + t) == Some(|h| + StringEnd(t).value)
  {
    hide StringEnd;
    if h == "" {
      assert h + t == t;
    } else {
      PlainRunScans(h[1..], t);
      PlainScans(h[0], h[1..] + t);
      assert h + t == [h[0]] + (h[1..] + t);
    }
  }

  lemma EscapeHexScans(x: nat, t: string)
    requires StringEnd(t).Some?
    ensures StringEnd(EscapeHex(x) + t) == Some(6 + StringEnd(t).value)
  {
    hide HexDigit, StringEnd;
    HexDigitValue(x / 4096 % 16);
    HexDigitValue(x / 256 % 16);
    HexDigitValue(x / 16 % 16);
    HexDigitValue(x % 16);
    PlainRunScans(Hex16(x), t);
    EscapeScans('u', Hex16(x) + t);
    Assoc("\\u", Hex16(x), t);
  }

  lemma PairScans(cp: nat, t: string)
    requires cp >= 0x10000 && StringEnd(t).Some?
    ensures StringEnd(EscapeCodepoint(cp) + t) == Some(12 + StringEnd(t).value)
  {
    hide StringEnd, EscapeHex, EscapeCodepoint;
    var c := cp - 0x10000;
    var hi, lo := 0xD800 + c / 1024 % 1024, 0xDC00 + c % 1024;
    EscapeHexScans(lo, t);
    EscapeHexScans(hi, EscapeHex(lo) + t);
    EscapedPair(cp, t);
  }

  lemma CodepointScans(cp: nat, t: string)
    requires cp != '\\' as int && cp != '\"' as int && StringEnd(t).Some?
    ensures StringEnd(EscapeCodepoint(cp) + t) == Some(|EscapeCodepoint(cp)| + StringEnd(t).value)
  {
    hide StringEnd, EscapeHex;
    if cp < 0x20 || 0x80 <= cp < 0x10000 {
      EscapeHexScans(cp, t);
    } else if cp < 0x80 {
      PlainScans(cp as char, t);
    } else {
      PairScans(cp, t);
    }
  }

  /** The three shapes of a chunk. */
  lemma ChunkShape(s: string, emitUTF8: bool)
    requires s != [] && Bytes(s)
    ensures var chunk := QuoteChunk(s, emitUTF8).0;
            || (|chunk| == 2 && chunk == ['\\', chunk[1]])
            || (emitUTF8 && s[0] !in "\\\"" && (chunk == [s[0]] || chunk == EscapeHex(s[0] as int)))
            || exists cp: nat :: cp != '\\' as int && cp != '\"' as int && chunk == EscapeCodepoint(cp)
  {
    hide EscapeHex, EscapeCodepoint, Utf8ToCodepoint;
    WriterCodepoint(s);
    var chunk := QuoteChunk(s, emitUTF8).0;
    if s[0] in "\"\\\U{8}\U{c}\n\r\t" {
      assert chunk == ['\\', chunk[1]];
    } else if !emitUTF8 {
      var cp: nat := Utf8ToCodepoint(s).0;
      assert chunk == EscapeCodepoint(cp);
    }
  }

  lemma ChunkScans(s: string, emitUTF8: bool, t: string)
    requires s != [] && Bytes(s) && StringEnd(t).Some?
    ensures StringEnd(QuoteChunk(s, emitUTF8).0 + t) == Some(|QuoteChunk(s, emitUTF8).0| + StringEnd(t).value)
  {
    hide StringEnd, EscapeHex, EscapeCodepoint, QuoteChunk, Bytes;
    ChunkShape(s, emitUTF8);
    var chunk := QuoteChunk(s, emitUTF8).0;
    if |chunk| == 2 && chunk == ['\\', chunk[1]] {
      EscapeScans(chunk[1], t);
    } else if emitUTF8 && s[0] !in "\\\"" && chunk == [s[0]] {
      PlainScans(s[0], t);
    } else if emitUTF8 && chunk == EscapeHex(s[0] as int) {
      EscapeHexScans(s[0] as int, t);
    } else {
      var cp: nat :| cp != '\\' as int && cp != '\"' as int && chunk == EscapeCodepoint(cp);
      CodepointScans(cp, t);
    }
  }

  /** A quoted string ends where its closing quote is. */
  lemma {:induction false} QuotedScans(s: string, emitUTF8: bool, t: string)
    requires Bytes(s)
    ensures StringEnd(QuoteBody(s, emitUTF8) + ("\"" + t)) == Some(|QuoteBody(s, emitUTF8)| + 1)
  {
    hide QuoteChunk;
    if s == [] {
      assert QuoteBody(s, emitUTF8) + ("\"" + t) == "\"" + t;
    } else {
      hide StringEnd;
      var (chunk, n) := QuoteChunk(s, emitUTF8);
      var rest := QuoteBody(s[n..], emitUTF8) + ("\"" + t);
      QuotedScans(s[n..], emitUTF8, t);
      ChunkScans(s, emitUTF8, rest);
      Assoc(chunk, QuoteBody(s[n..], emitUTF8), "\"" + t);
    }
  }
}
