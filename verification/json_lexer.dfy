/**
 The tokens of the reader in jsoncpp.cpp, as functions of the remaining text.  Special
 floats and single-quoted strings, which the default settings turn off, are off here.
 */
module JsonLexer {
  import opened Wrappers
  import opened JsonText
  import opened JsonString
  import opened JsonNumber

  datatype TokenKind =
    | EndOfStream | ObjectBegin | ObjectEnd | ArrayBegin | ArrayEnd
    | StringToken | NumberToken | TrueToken | FalseToken | NullToken
    | ArraySeparator | MemberSeparator | Comment | ErrorToken

  /** A token of the text that remains: white space up to `start`, then the token up to `end`. */
  datatype Token = Token(kind: TokenKind, start: nat, end: nat)

  predicate IsSpace(c: char) {
    c == ' ' || c == '\t' || c == '\r' || c == '\n'
  }

  /** How many white-space characters `s` starts with. */
  function Spaces(s: string): (n: nat)
    ensures n <= |s| && (n < |s| ==> !IsSpace(s[n]))
  {
    if s == "" || !IsSpace(s[0]) then 0 else 1 + Spaces(s[1..])
  }

  function DigitRun(s: string): (n: nat)
    ensures n <= |s| && (n < |s| ==> !IsDigit(s[n]))
  {
    if s == "" || !IsDigit(s[0]) then 0 else 1 + DigitRun(s[1..])
  }

  /** How far the integral and fractional parts of a number reach after its first character. */
  function FractionEnd(s: string): (n: nat)
    ensures n <= |s|
  {
    var a := DigitRun(s);
    if a < |s| && s[a] == '.' then a + 1 + DigitRun(s[a + 1..]) else a
  }

  /** How far the exponent reaches, if there is one. */
  function ExponentEnd(s: string): (n: nat)
    ensures n <= |s|
  {
    if s != "" && (s[0] == 'e' || s[0] == 'E') then
      var c := if |s| > 1 && (s[1] == '+' || s[1] == '-') then 2 else 1;
      c + DigitRun(s[c..])
    else 0
  }

  /** How far a number reaches after its first character. */
  function NumberEnd(s: string): (n: nat)
    ensures n <= |s|
  {
    FractionEnd(s) + ExponentEnd(s[FractionEnd(s)..])
  }

  /** A C comment after its opening: whether it is closed, and how far it is read. */
  function CStyleComment(s: string): (r: (bool, nat))
    ensures r.1 <= |s|
  {
    if |s| < 2 then (s == "/", |s|)
    else if s[0] == '*' && s[1] == '/' then (true, 2)
    else
      var (ok, n) := CStyleComment(s[1..]);
      (ok, n + 1)
  }

  predicate HasClose(s: string) {
    exists i :: 0 <= i < |s| - 1 && s[i] == '*' && s[i + 1] == '/'
  }

  lemma CloseStep(s: string)
    requires |s| >= 2
    ensures HasClose(s) <==> (s[0] == '*' && s[1] == '/') || HasClose(s[1..])
  {
    var t := s[1..];
    if HasClose(s) {
      var i :| 0 <= i < |s| - 1 && s[i] == '*' && s[i + 1] == '/';
      if i > 0 { assert t[i - 1] == '*' && t[i] == '/'; }
    }
    if HasClose(t) {
      var i :| 0 <= i < |t| - 1 && t[i] == '*' && t[i + 1] == '/';
      assert s[i + 1] == '*' && s[i + 2] == '/';
    }
  }

  /** A C comment ends behind a star and a slash, or with a slash that is the last character of the text. */
  lemma {:induction false} CommentCloses(s: string)
    ensures CStyleComment(s).0 <==> HasClose(s) || (s != "" && s[|s| - 1] == '/')
    ensures var n := CStyleComment(s).1; if HasClose(s) then 2 <= n && s[n - 2] == '*' && s[n - 1] == '/' else n == |s|
  {
    hide HasClose;
    if |s| < 2 {
      TooShort(s);
    } else {
      CloseStep(s);
      if !(s[0] == '*' && s[1] == '/') {
        CommentCloses(s[1..]);
      }
    }
  }

  lemma TooShort(s: string)
    requires |s| < 2
    ensures !HasClose(s)
  {
  }

  /** A C++ comment after its opening: up to and including the end of the line. */
  function CppStyleComment(s: string): (n: nat)
    ensures n <= |s|
  {
    if s == "" then 0
    else if s[0] == '\n' then 1
    else if s[0] == '\r' then (if |s| > 1 && s[1] == '\n' then 2 else 1)
    else 1 + CppStyleComment(s[1..])
  }

  predicate LineEndAt(s: string, i: nat)
    requires i < |s|
  {
    s[i] == '\n' || s[i] == '\r'
  }

  /** A C++ comment ends behind the first line feed, carriage return or pair of the two, or with the text. */
  lemma {:induction false} LineCommentEnds(s: string)
    ensures var n := CppStyleComment(s);
            && (forall i :: 0 <= i < n && LineEndAt(s, i) ==>
                  i == n - 1 || (i == n - 2 && s[i] == '\r' && s[i + 1] == '\n'))
            && (n == |s| || (n > 0 && (s[n - 1] == '\n' || (s[n - 1] == '\r' && s[n] != '\n'))))
  {
    if s != "" && s[0] != '\n' && s[0] != '\r' {
      LineCommentEnds(s[1..]);
      var n := CppStyleComment(s);
      forall i | 0 <= i < n && LineEndAt(s, i)
        ensures i == n - 1 || (i == n - 2 && s[i] == '\r' && s[i + 1] == '\n')
      {
        assert i > 0 && n == 1 + CppStyleComment(s[1..]) && LineEndAt(s[1..], i - 1);
        if i < n - 1 { assert s[1..][i] == s[i + 1]; }
      }
    }
  }

  // ---------------------------------------------------------------- numbers

  predicate OnlyDigits(s: string) {
    forall i :: 0 <= i < |s| ==> '0' <= s[i] <= '9'
  }

  /** A number after its first character: digits up to `a`, perhaps a fraction up to `b`, perhaps an exponent. */
  predicate NumberParts(s: string, a: nat, b: nat) {
    && a <= b <= |s| && OnlyDigits(s[..a])
    && (a == b || (s[a] == '.' && OnlyDigits(s[a + 1..b])))
    && (b == |s| || (s[b] in "eE" &&
                     (OnlyDigits(s[b + 1..]) || (b + 1 < |s| && s[b + 1] in "+-" && OnlyDigits(s[b + 2..])))))
  }

  lemma {:induction false} DigitRunIs(s: string)
    ensures OnlyDigits(s[..DigitRun(s)])
  {
    if s != "" && IsDigit(s[0]) {
      DigitRunIs(s[1..]);
      var n := DigitRun(s);
      assert forall i :: 0 < i < n ==> s[..n][i] == s[1..][..n - 1][i - 1];
    }
  }

  /** Digits go no further than the run of digits. */
  lemma RunIsLongest(s: string, m: nat)
    requires m <= |s| && OnlyDigits(s[..m])
    ensures m <= DigitRun(s)
  {
    forall i | 0 <= i < m ensures IsDigit(s[i]) {
      assert s[..m][i] == s[i];
    }
  }

  lemma FractionEndIs(s: string)
    ensures var a, b := DigitRun(s), FractionEnd(s); a == b || (a < b && s[a] == '.' && OnlyDigits(s[a + 1..b]))
  {
    hide DigitRun;
    var a := DigitRun(s);
    if a < |s| && s[a] == '.' {
      var t := s[a + 1..];
      DigitRunIs(t);
      assert t[..DigitRun(t)] == s[a + 1..a + 1 + DigitRun(t)];
    }
  }

  lemma ExponentEndIs(s: string)
    ensures var n := ExponentEnd(s);
            n == 0 || (s[0] in "eE" && (OnlyDigits(s[1..n]) || (n > 1 && s[1] in "+-" && OnlyDigits(s[2..n]))))
  {
    if s != "" && (s[0] == 'e' || s[0] == 'E') {
      var c := if |s| > 1 && (s[1] == '+' || s[1] == '-') then 2 else 1;
      DigitRunIs(s[c..]);
      assert s[c..][..DigitRun(s[c..])] == s[c..ExponentEnd(s)];
    }
  }

  /** What is read as a number has the parts of one ... */
  lemma NumberHasParts(s: string)
    ensures NumberParts(s[..NumberEnd(s)], DigitRun(s), FractionEnd(s))
  {
    hide DigitRun, FractionEnd, ExponentEnd;
    var a, b, n := DigitRun(s), FractionEnd(s), NumberEnd(s);
    DigitRunIs(s);
    FractionEndIs(s);
    ExponentEndIs(s[b..]);
    PartsOfPrefix(s, a, b, n);
  }

  lemma PartsOfPrefix(s: string, a: nat, b: nat, n: nat)
    requires a <= b <= n <= |s| && OnlyDigits(s[..a])
    requires a == b || (s[a] == '.' && OnlyDigits(s[a + 1..b]))
    requires var u, m := s[b..], n - b;
             m == 0 || (u[0] in "eE" && (OnlyDigits(u[1..m]) || (m > 1 && u[1] in "+-" && OnlyDigits(u[2..m]))))
    ensures NumberParts(s[..n], a, b)
  {
    hide OnlyDigits;
    var t := s[..n];
    assert t[..a] == s[..a] && (a < b ==> t[a + 1..b] == s[a + 1..b]);
    if b < n {
      assert t[b] == s[b..][0] && t[b + 1..] == s[b..][1..n - b];
      assert b + 1 < n ==> t[b + 1] == s[b..][1] && t[b + 2..] == s[b..][2..n - b];
    }
  }

  lemma FractionIsLongest(s: string, a: nat, b: nat)
    requires a <= b <= |s| && OnlyDigits(s[..a]) && (a == b || (s[a] == '.' && OnlyDigits(s[a + 1..b])))
    ensures b <= FractionEnd(s)
    ensures b < |s| && s[b] in "eE" ==> b == FractionEnd(s)
  {
    RunIsLongest(s, a);
    var n := DigitRun(s);
    DigitRunIs(s);
    if a < n { assert s[..n][a] == s[a]; }
    if a < b {
      var t := s[n + 1..];
      assert t[..b - a - 1] == s[a + 1..b];
      RunIsLongest(t, b - a - 1);
      DigitRunIs(t);
      if b - a - 1 < DigitRun(t) { assert t[..DigitRun(t)][b - a - 1] == s[b]; }
    }
  }

  /** ... and no longer start of the text has them. */
  lemma NumberIsLongest(s: string, n: nat, a: nat, b: nat)
    requires n <= |s| && NumberParts(s[..n], a, b)
    ensures n <= NumberEnd(s)
  {
    hide FractionEnd, DigitRun;
    var t := s[..n];
    assert t[..a] == s[..a] && (a < b ==> t[a + 1..b] == s[a + 1..b]);
    FractionIsLongest(s, a, b);
    if b < n {
      var u := s[b..];
      assert u[0] == s[b] && t[b + 1..] == s[b + 1..n] && (b + 1 < n ==> t[b + 2..] == s[b + 2..n]);
      assert u[1..][..n - b - 1] == s[b + 1..n];
      if OnlyDigits(t[b + 1..]) {
        RunIsLongest(u[1..], n - b - 1);
      } else {
        assert u[2..][..n - b - 2] == s[b + 2..n];
        RunIsLongest(u[2..], n - b - 2);
      }
    }
  }

  // ---------------------------------------------------------------- tokens

  /** A comment after its slash. */
  function CommentEnd(s: string): (r: (bool, nat))
    ensures r.1 <= |s|
  {
    if s == "" then (false, 0)
    else if s[0] == '*' then
      var (ok, n) := CStyleComment(s[1..]);
      (ok, n + 1)
    else if s[0] == '/' then (true, 1 + CppStyleComment(s[1..]))
    else (false, 1)
  }

  /** The token at the very front of `s`: its kind and its length. */
  function TokenAt(s: string): (r: (TokenKind, nat))
    ensures r.1 <= |s|
    ensures r.0 != EndOfStream ==> 0 < r.1
    ensures r.0 == StringToken ==> 2 <= r.1
  {
    if s == "" then (EndOfStream, 0)
    else match s[0]
      case '{' => (ObjectBegin, 1)
      case '}' => (ObjectEnd, 1)
      case '[' => (ArrayBegin, 1)
      case ']' => (ArrayEnd, 1)
      case ',' => (ArraySeparator, 1)
      case ':' => (MemberSeparator, 1)
      case '\0' => (EndOfStream, 1)
      case '\"' => (match StringEnd(s[1..])
                    case Some(n) => (StringToken, n + 1)
                    case None => (ErrorToken, |s|))
      case '/' =>
        var (ok, n) := CommentEnd(s[1..]);
        (if ok then Comment else ErrorToken, n + 1)
      case 't' => if "rue" <= s[1..] then (TrueToken, 4) else (ErrorToken, 1)
      case 'f' => if "alse" <= s[1..] then (FalseToken, 5) else (ErrorToken, 1)
      case 'n' => if "ull" <= s[1..] then (NullToken, 4) else (ErrorToken, 1)
      case c =>
        if IsDigit(c) then (NumberToken, 1 + NumberEnd(s[1..]))
        else if c == '-' || c == '+' then
          if |s| > 1 && s[1] == 'I' then (ErrorToken, 2) else (NumberToken, 1 + NumberEnd(s[1..]))
        else (ErrorToken, 1)
  }

  /** The next token: white space is skipped first. */
  function NextToken(s: string): (t: Token)
    ensures t.start <= t.end <= |s|
    ensures t.kind != EndOfStream ==> t.start < t.end
    ensures t.kind == StringToken ==> t.start + 2 <= t.end
  {
    var n := Spaces(s);
    var (kind, len) := TokenAt(s[n..]);
    Token(kind, n, n + len)
  }

  function Shift(t: Token, n: nat): Token {
    Token(t.kind, t.start + n, t.end + n)
  }

  /** The next token that is not a comment. */
  function NextNonComment(s: string): (t: Token)
    ensures t.start <= t.end <= |s|
    ensures t.kind != EndOfStream ==> t.start < t.end
    ensures t.kind == StringToken ==> t.start + 2 <= t.end
    ensures t.kind != Comment
    decreases |s|
  {
    var t := NextToken(s);
    if t.kind == Comment then Shift(NextNonComment(s[t.end..]), t.end) else t
  }

  /** The next token of `text` from position `at`, in positions of `text`. */
  function TokenFrom(text: string, at: nat): (t: Token)
    requires at <= |text|
    ensures at <= t.start <= t.end <= |text|
    ensures t.kind != EndOfStream ==> t.start < t.end
    ensures t.kind == StringToken ==> t.start + 2 <= t.end
  {
    Shift(NextToken(text[at..]), at)
  }

  predicate IsToken(text: string, t: Token) {
    t.start <= t.end <= |text| && TokenAt(text[t.start..]) == (t.kind, t.end - t.start)
  }

  lemma TokenFromIs(text: string, at: nat)
    requires at <= |text|
    ensures IsToken(text, TokenFrom(text, at))
  {
    hide TokenAt, Spaces;
    var s := text[at..];
    assert s[Spaces(s)..] == text[at + Spaces(s)..];
  }

  function NonCommentFrom(text: string, at: nat): (t: Token)
    requires at <= |text|
    ensures at <= t.start <= t.end <= |text|
    ensures t.kind != EndOfStream ==> t.start < t.end
    ensures t.kind == StringToken ==> t.start + 2 <= t.end
    ensures t.kind != Comment
  {
    Shift(NextNonComment(text[at..]), at)
  }

  /** Comments are skipped one at a time. */
  lemma NonCommentStep(text: string, at: nat)
    requires at <= |text|
    ensures var t := TokenFrom(text, at);
            NonCommentFrom(text, at) == if t.kind == Comment then NonCommentFrom(text, t.end) else t
  {
    var t := NextToken(text[at..]);
    assert text[at..][t.end..] == text[at + t.end..];
  }

  /** How far error recovery reads: through the first token of the given kind, or the end of the text. */
  function RecoverEnd(text: string, at: nat, kind: TokenKind): (n: nat)
    requires at <= |text|
    ensures at <= n <= |text|
    decreases |text| - at
  {
    var t := TokenFrom(text, at);
    if t.kind == kind || t.kind == EndOfStream then t.end else RecoverEnd(text, t.end, kind)
  }

  /** Recovery stops behind a bracket, behind a NUL or at the end of the text. */
  lemma {:induction false} RecoverEndIs(text: string, at: nat, kind: TokenKind)
    requires at <= |text| && kind in {ArrayEnd, ObjectEnd}
    ensures var n := RecoverEnd(text, at, kind);
            n == |text| || (at < n && (text[n - 1] == '\0' || text[n - 1] == if kind == ArrayEnd then ']' else '}'))
    decreases |text| - at
  {
    hide TokenFrom, TokenAt;
    var t := TokenFrom(text, at);
    if t.kind == kind || t.kind == EndOfStream {
      TokenFromIs(text, at);
      LastToken(text[t.start..]);
    } else {
      RecoverEndIs(text, t.end, kind);
    }
  }

  /** The tokens at which recovery stops. */
  lemma LastToken(s: string)
    ensures TokenAt(s).0 == ArrayEnd ==> TokenAt(s).1 == 1 && s[0] == ']'
    ensures TokenAt(s).0 == ObjectEnd ==> TokenAt(s).1 == 1 && s[0] == '}'
    ensures TokenAt(s).0 == EndOfStream ==> s == "" || (TokenAt(s).1 == 1 && s[0] == '\0')
  {
    hide NumberEnd, StringEnd, CommentEnd;
  }

  /** The lexemes of a text: what a reader sees of it when white space and comments are ignored. */
  function Lexemes(text: string, at: nat): seq<string>
    requires at <= |text|
    decreases |text| - at
  {
    var t := NonCommentFrom(text, at);
    if t.kind == EndOfStream then [] else [text[t.start..t.end]] + Lexemes(text, t.end)
  }
}
