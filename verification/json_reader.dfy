/**
 The recursive-descent reader of jsoncpp.cpp (OurReader): a cursor, a stack of the values
 under construction and a list of errors, changed in place by every method.  The stack
 holds the values themselves; a child is written back to its parent when it is popped.
 */
module JsonReader {
  import opened Wrappers
  import opened JsonText
  import opened JsonString
  import opened JsonNumber
  import opened JsonLexer
  import opened JsonValue
  import opened JsonParser

  datatype ErrorInfo = ErrorInfo(message: string, start: int, end: int)

  /** How a rule ends: successfully, with an error recorded, or by a C++ exception. */
  datatype Status = Good | Bad | Threw

  /** One more error than before, about a token. */
  ghost predicate OneError(before: seq<ErrorInfo>, after: seq<ErrorInfo>, token: Token) {
    && |after| == |before| + 1 && before < after
    && after[|before|].start == token.start && after[|before|].end == token.end
  }

  /** One more error than before, about some part of the text between two positions. */
  ghost predicate OneErrorIn(before: seq<ErrorInfo>, after: seq<ErrorInfo>, from: nat, to: nat) {
    && |after| == |before| + 1 && before < after
    && from <= after[|before|].start <= after[|before|].end <= to
  }

  /** The cursor is behind the first token of a kind, or of the end, after the part that the last error is about. */
  ghost predicate Recovered(text: string, errors: seq<ErrorInfo>, kind: TokenKind, current: nat)
    requires errors != []
  {
    exists at: nat :: errors[|errors| - 1].end <= at <= |text| && current == RecoverEnd(text, at, kind)
  }

  lemma ErrorInside(before: seq<ErrorInfo>, after: seq<ErrorInfo>, token: Token, from: nat, to: nat)
    ensures OneError(before, after, token) && from <= token.start <= token.end <= to ==>
              OneErrorIn(before, after, from, to)
    ensures OneErrorIn(before, after, token.end, to) && from <= token.end ==> OneErrorIn(before, after, from, to)
    ensures after == before + [ErrorInfo("Syntax error: value, object or array expected.", token.start, token.end)] ==>
              OneError(before, after, token)
    ensures OneErrorIn(before, after, from, to) ==> after != []
  {
  }

  /** Where a value that could not be read leaves the cursor, by the first token of the value. */
  ghost predicate LeftAfter(text: string, errors: seq<ErrorInfo>, first: Token, current: nat)
    requires errors != []
  {
    match first.kind
    case ArrayBegin => Recovered(text, errors, ArrayEnd, current)
    case ObjectBegin => Recovered(text, errors, ObjectEnd, current)
    case _ => current == first.end
  }

  /** The value of the first n of four hexadecimal digits. */
  ghost function HexPrefix(s: string, n: nat): nat
    requires n <= |s| && forall i :: 0 <= i < n ==> HexValue(s[i]).Some?
  {
    if n == 0 then 0 else HexPrefix(s, n - 1) * 16 + HexValue(s[n - 1]).value
  }

  lemma HexPrefixFour(s: string)
    requires |s| >= 4 && forall i :: 0 <= i < 4 ==> HexValue(s[i]).Some?
    ensures DecodeHex16(s) == Some(HexPrefix(s, 4))
  {
    assert HexPrefix(s, 1) == HexValue(s[0]).value;
    assert HexPrefix(s, 2) == HexPrefix(s, 1) * 16 + HexValue(s[1]).value;
    assert HexPrefix(s, 3) == HexPrefix(s, 2) * 16 + HexValue(s[2]).value;
  }

  lemma BracketToken(text: string, at: nat)
    requires at < |text| && text[at] == ']'
    ensures TokenFrom(text, at) == Token(ArrayEnd, at, at + 1)
  {
    assert text[at..][0] == ']' && text[at..][0..] == text[at..];
  }

  lemma InnerSlice(text: string, from: nat, to: nat)
    requires from + 2 <= to <= |text|
    ensures text[from..to][1..to - from - 1] == text[from + 1..to - 1]
  {
    var a, b := text[from..to][1..to - from - 1], text[from + 1..to - 1];
    assert |a| == |b| && forall i :: 0 <= i < |a| ==> a[i] == b[i];
  }

  lemma PrependNothing(r: Option<string>)
    ensures Prepend("", r) == r
  {
    if r.Some? {
      assert "" + r.value == r.value;
    }
  }

  lemma PrependTo(p: string)
    ensures Prepend(p, Some("")) == Some(p) && Prepend(p, None) == None
  {
    assert p + "" == p;
  }

  lemma PrependTwice(p: string, q: string, r: Option<string>)
    ensures Prepend(p, Prepend(q, r)) == Prepend(p + q, r)
  {
    if r.Some? {
      Assoc(p, q, r.value);
    }
  }

  lemma Slice(text: string, at: nat, k: nat)
    requires at + k <= |text|
    ensures text[at..][k..] == text[at + k..]
    ensures at + k < |text| ==> text[at..][k] == text[at + k]
  {
  }

  /** One character or escape sequence of a string. */
  lemma BodyStep(body: string, at: nat)
    requires at < |body|
    ensures var r := DecodeBody(body[at..]);
            if body[at] == '\"' then r == Some("")
            else if body[at] != '\\' then r == Prepend([body[at]], DecodeBody(body[at + 1..]))
            else match DecodeEscape(body[at + 1..])
              case None => r == None
              case Some((piece, n)) => r == Prepend(piece, DecodeBody(body[at + 1 + n..]))
  {
    hide DecodeEscape, Prepend;
    Slice(body, at, 1);
    var e := DecodeEscape(body[at + 1..]);
    if e.Some? {
      Slice(body, at, 1 + e.value.1);
    }
  }

  lemma NoBody(body: string)
    ensures DecodeBody(body[|body|..]) == Some("")
  {
  }

  class OurReader {
    const features: Features
    var document: string       // the text from begin_ (after a byte order mark) to end_
    var current: nat           // positions count from begin_
    var nodes: seq<Value>      // nodes_, the innermost value last
    var errors: seq<ErrorInfo>

    constructor (f: Features)
      ensures features == f && nodes == [] && errors == []
    {
      features := f;
      document, current, nodes, errors := "", 0, [], [];
    }

    ghost predicate Positioned()
      reads this
    {
      current <= |document|
    }

    /** The text from the cursor on. */
    ghost function Rest(): string
      reads this
      requires Positioned()
    {
      document[current..]
    }

    // -------------------------------------------------------------- tokens

    method GetNextChar() returns (c: char)
      requires Positioned()
      modifies this`current
      ensures Positioned()
      ensures if old(current) == |document| then c == '\0' && current == old(current)
              else c == document[old(current)] && current == old(current) + 1
    {
      if current == |document| {
        return '\0';
      }
      c := document[current];
      current := current + 1;
    }

    method SkipSpaces()
      requires Positioned()
      modifies this`current
      ensures Positioned() && current == old(current) + Spaces(old(Rest()))
    {
      while current != |document|
        invariant Positioned()
        invariant old(current) <= current
        invariant current + Spaces(Rest()) == old(current) + Spaces(old(Rest()))
        decreases |document| - current
      {
        var c := document[current];
        assert Rest()[1..] == document[current + 1..];
        if c == ' ' || c == '\t' || c == '\r' || c == '\n' {
          current := current + 1;
        } else {
          break;
        }
      }
    }

    method Match(pattern: string) returns (ok: bool)
      requires Positioned()
      modifies this`current
      ensures Positioned() && ok == (pattern <= old(Rest()))
      ensures current == if ok then old(current) + |pattern| else old(current)
    {
      if |document| - current < |pattern| {
        return false;
      }
      var index := |pattern|;
      while index > 0
        invariant 0 <= index <= |pattern| <= |document| - current
        invariant forall i :: index <= i < |pattern| ==> document[current + i] == pattern[i]
      {
        index := index - 1;
        if document[current + index] != pattern[index] {
          assert Rest()[index] != pattern[index];
          return false;
        }
      }
      assert Rest()[..|pattern|] == pattern;
      current := current + |pattern|;
      return true;
    }

    method ReadCStyleComment() returns (ok: bool)
      requires Positioned()
      modifies this`current
      ensures Positioned() && (ok, current - old(current)) == CStyleComment(old(Rest()))
    {
      while current + 1 < |document|
        invariant Positioned() && old(current) <= current
        invariant CStyleComment(old(Rest())) ==
                  (CStyleComment(Rest()).0, CStyleComment(Rest()).1 + (current - old(current)))
        decreases |document| - current
      {
        ghost var here := Rest();
        var c := GetNextChar();
        assert Rest() == here[1..];
        if c == '*' && document[current] == '/' {
          c := GetNextChar();
          return c == '/';
        }
      }
      var c := GetNextChar();
      return c == '/';
    }

    method ReadCppStyleComment() returns (ok: bool)
      requires Positioned()
      modifies this`current
      ensures Positioned() && ok && current == old(current) + CppStyleComment(old(Rest()))
    {
      while current != |document|
        invariant Positioned() && old(current) <= current
        invariant current + CppStyleComment(Rest()) == old(current) + CppStyleComment(old(Rest()))
        decreases |document| - current
      {
        ghost var here := Rest();
        var c := GetNextChar();
        assert Rest() == here[1..];
        if c == '\n' {
          return true;
        }
        if c == '\r' {
          if current != |document| && document[current] == '\n' {
            var skipped := GetNextChar();
          }
          return true;
        }
      }
      return true;
    }

    method ReadComment() returns (ok: bool)
      requires Positioned()
      modifies this`current
      ensures Positioned() && (ok, current - old(current)) == CommentEnd(old(Rest()))
    {
      ghost var here := Rest();
      var c := GetNextChar();
      assert here != "" ==> Rest() == here[1..];
      ok := false;
      if c == '*' {
        ok := ReadCStyleComment();
      } else if c == '/' {
        ok := ReadCppStyleComment();
      }
    }

    method SkipDigits()
      requires Positioned()
      modifies this`current
      ensures Positioned() && current == old(current) + DigitRun(old(Rest()))
    {
      while current < |document| && IsDigit(document[current])
        invariant Positioned() && old(current) <= current
        invariant current + DigitRun(Rest()) == old(current) + DigitRun(old(Rest()))
        decreases |document| - current
      {
        assert Rest()[1..] == document[current + 1..];
        current := current + 1;
      }
    }

    /** After the first character of a number; false if it is the start of "Infinity". */
    method ReadNumber(checkInf: bool) returns (ok: bool)
      requires Positioned()
      modifies this`current
      ensures Positioned()
      ensures ok == !(checkInf && old(current) < |document| && document[old(current)] == 'I')
      ensures current == old(current) + if ok then NumberEnd(old(Rest())) else 1
    {
      hide FractionEnd, ExponentEnd;
      if checkInf && current != |document| && document[current] == 'I' {
        current := current + 1;
        return false;
      }
      ghost var c0 := current;
      ReadFraction();
      Slice(document, c0, current - c0);
      ReadExponent();
      return true;
    }

    method ReadExponent()
      requires Positioned()
      modifies this`current
      ensures Positioned() && current == old(current) + ExponentEnd(old(Rest()))
    {
      ghost var s, c0 := Rest(), current;
      if current < |document| && (document[current] == 'e' || document[current] == 'E') {
        current := current + 1;
        if current < |document| && (document[current] == '+' || document[current] == '-') {
          assert document[current] == s[1];
          current := current + 1;
        }
        Slice(document, c0, current - c0);
        SkipDigits();
      }
    }

    method ReadFraction()
      requires Positioned()
      modifies this`current
      ensures Positioned() && current == old(current) + FractionEnd(old(Rest()))
    {
      ghost var s, c0 := Rest(), current;
      SkipDigits();
      Slice(document, c0, current - c0);
      if current < |document| && document[current] == '.' {
        current := current + 1;
        Slice(document, c0, current - c0);
        SkipDigits();
      }
    }

    /** After the opening quote of a string. */
    method ReadString() returns (ok: bool)
      requires Positioned()
      modifies this`current
      ensures Positioned() && ok == StringEnd(old(Rest())).Some?
      ensures current == if ok then old(current) + StringEnd(old(Rest())).value else |document|
    {
      var c := '\0';
      while current != |document|
        invariant Positioned() && old(current) <= current && c != '\"'
        invariant StringEnd(old(Rest())) == Plus(current - old(current), StringEnd(Rest()))
        decreases |document| - current
      {
        ghost var here := Rest();
        c := GetNextChar();
        assert Rest() == here[1..];
        if c == '\\' {
          var escaped := GetNextChar();
          assert |here| > 1 ==> Rest() == here[2..];
        } else if c == '\"' {
          return true;
        }
      }
      return false;
    }

    /** The next token, in absolute positions; false exactly for a token that is an error. */
    method ReadToken() returns (ok: bool, token: Token)
      requires Positioned()
      modifies this`current
      ensures Positioned()
      ensures token == TokenFrom(document, old(current)) && current == token.end
      ensures ok == (token.kind != ErrorToken)
    {
      ghost var s := Rest();
      SkipSpaces();
      var start := current;
      assert Rest() == s[Spaces(s)..];
      var kind;
      ok, kind := ReadTokenKind();
      token := Token(kind, start, current);
    }

    method ReadTokenKind() returns (ok: bool, kind: TokenKind)
      requires Positioned()
      modifies this`current
      ensures Positioned()
      ensures kind == TokenAt(old(Rest())).0 && current == old(current) + TokenAt(old(Rest())).1
      ensures ok == (kind != ErrorToken)
    {
      ghost var here := Rest();
      var c := GetNextChar();
      assert here != "" ==> Rest() == here[1..];
      ok := true;
      match c {
        case '{' => kind := ObjectBegin;
        case '}' => kind := ObjectEnd;
        case '[' => kind := ArrayBegin;
        case ']' => kind := ArrayEnd;
        case '\"' =>
          kind := StringToken;
          ok := ReadString();
        case '/' =>
          kind := Comment;
          ok := ReadComment();
        case '-' =>
          ok := ReadNumber(true);
          kind := NumberToken;
        case '+' =>
          ok := ReadNumber(true);
          kind := NumberToken;
        case 't' =>
          kind := TrueToken;
          ok := Match("rue");
        case 'f' =>
          kind := FalseToken;
          ok := Match("alse");
        case 'n' =>
          kind := NullToken;
          ok := Match("ull");
        case ',' => kind := ArraySeparator;
        case ':' => kind := MemberSeparator;
        case '\0' => kind := EndOfStream;
        case _ =>
          if IsDigit(c) {
            kind := NumberToken;
            var number := ReadNumber(false);
          } else {
            kind := ErrorToken;
            ok := false;
          }
      }
      if !ok {
        kind := ErrorToken;
      }
    }

    /** The first token of a value: comments are skipped if they are allowed. */
    method SkipCommentTokens() returns (token: Token)
      requires Positioned()
      modifies this`current
      ensures Positioned()
      ensures token == FirstToken(document, old(current), features) && current == token.end
    {
      var ok;
      if features.allowComments {
        ok, token := ReadNonComment();
      } else {
        ok, token := ReadToken();
      }
    }

    /** The loop that reads tokens until one is not a comment. */
    method ReadNonComment() returns (ok: bool, token: Token)
      requires Positioned()
      modifies this`current
      ensures Positioned()
      ensures token == NonCommentFrom(document, old(current)) && current == token.end
      ensures ok == (token.kind != ErrorToken)
    {
      hide TokenFrom, NonCommentFrom;
      NonCommentStep(document, current);
      ok, token := ReadToken();
      while token.kind == Comment
        invariant Positioned() && old(current) <= current == token.end && ok == (token.kind != ErrorToken)
        invariant NonCommentFrom(document, old(current)) ==
                  if token.kind == Comment then NonCommentFrom(document, current) else token
        decreases |document| - current, token.kind == Comment
      {
        NonCommentStep(document, current);
        ok, token := ReadToken();
      }
    }

    // -------------------------------------------------------------- errors

    method AddError(message: string, start: int, end: int)
      modifies this`errors
      ensures errors == old(errors) + [ErrorInfo(message, start, end)] && old(errors) < errors
    {
      errors := errors + [ErrorInfo(message, start, end)];
    }

    /** Skips to the token where parsing of the enclosing rule can go on; the errors stay as they are. */
    method RecoverFromError(skipUntil: TokenKind)
      requires Positioned()
      modifies this`current, this`errors
      ensures Positioned() && errors == old(errors)
      ensures current == RecoverEnd(document, old(current), skipUntil)
    {
      hide TokenFrom;
      var errorCount := |errors|;
      while true
        invariant Positioned() && old(current) <= current && errors == old(errors)
        invariant RecoverEnd(document, current, skipUntil) == RecoverEnd(document, old(current), skipUntil)
        decreases |document| - current
      {
        var ok, skip := ReadToken();
        if !ok {
          errors := errors[..errorCount];
        }
        if skip.kind == skipUntil || skip.kind == EndOfStream {
          break;
        }
      }
      errors := errors[..errorCount];
    }

    method AddErrorAndRecover(message: string, token: Token, skipUntil: TokenKind)
      requires Positioned()
      modifies this`current, this`errors
      ensures Positioned() && old(current) <= current == RecoverEnd(document, old(current), skipUntil)
      ensures errors == old(errors) + [ErrorInfo(message, token.start, token.end)] && old(errors) < errors
    {
      AddError(message, token.start, token.end);
      RecoverFromError(skipUntil);
    }

    // -------------------------------------------------------------- strings and numbers

    /** Four hexadecimal digits at position `at` of `body`. */
    method DecodeUnicodeEscapeSequence(token: Token, body: string, at: nat) returns (ok: bool, unicode: nat)
      requires at <= |body|
      modifies this`errors
      ensures ok == DecodeHex16(body[at..]).Some?
      ensures if ok then unicode == DecodeHex16(body[at..]).value && errors == old(errors)
              else OneError(old(errors), errors, token)
    {
      unicode := 0;
      if |body| - at < 4 {
        AddError("Bad unicode escape sequence in string: four digits expected.", token.start, token.end);
        return false, unicode;
      }
      for index := 0 to 4
        invariant errors == old(errors)
        invariant forall i :: 0 <= i < index ==> HexValue(body[at..][i]).Some?
        invariant unicode == HexPrefix(body[at..], index)
      {
        var c := body[at + index];
        assert c == body[at..][index];
        match HexValue(c) {
          case Some(digit) => unicode := unicode * 16 + digit;
          case None =>
            AddError("Bad unicode escape sequence in string: hexadecimal digit expected.", token.start, token.end);
            return false, unicode;
        }
      }
      HexPrefixFour(body[at..]);
      return true, unicode;
    }

    /** The code point after a backslash and a u, with its second half if it is a surrogate. */
    method DecodeUnicodeCodePoint(token: Token, body: string, at: nat) returns (ok: bool, unicode: nat, next: nat)
      requires at <= |body|
      modifies this`errors
      ensures ok == DecodeCodePoint(body[at..]).Some?
      ensures if ok then (unicode, next - at) == DecodeCodePoint(body[at..]).value && next <= |body|
              && errors == old(errors)
              else OneError(old(errors), errors, token)
    {
      hide DecodeHex16;
      next := at;
      ok, unicode := DecodeUnicodeEscapeSequence(token, body, at);
      if !ok {
        return;
      }
      next := at + 4;
      if 0xD800 <= unicode <= 0xDBFF {
        if |body| - next < 6 {
          AddError("additional six characters expected to parse unicode surrogate pair.", token.start, token.end);
          return false, unicode, next;
        }
        assert body[at..][4] == body[next] && body[at..][5] == body[next + 1];
        if body[next] == '\\' && body[next + 1] == 'u' {
          Slice(body, at, 6);
          var surrogatePair;
          ok, surrogatePair := DecodeUnicodeEscapeSequence(token, body, next + 2);
          if !ok {
            return;
          }
          unicode := 0x10000 + unicode % 1024 * 1024 + surrogatePair % 1024;
          next := next + 6;
        } else {
          AddError("expecting another \\u token to begin the second half of a unicode surrogate pair", token.start, token.end);
          return false, unicode, next;
        }
      }
    }

    /** What the text after a backslash denotes; `at` is the position of the character after it. */
    method DecodeEscapeSequence(token: Token, body: string, at: nat) returns (ok: bool, piece: string, next: nat)
      requires at <= |body|
      modifies this`errors
      ensures ok == DecodeEscape(body[at..]).Some?
      ensures if ok then (piece, next - at) == DecodeEscape(body[at..]).value && next <= |body| && errors == old(errors)
              else OneError(old(errors), errors, token)
    {
      piece, next := "", at;
      if at == |body| {
        AddError("Empty escape sequence in string", token.start, token.end);
        return false, piece, next;
      }
      Slice(body, at, 1);
      if body[at] == 'u' {
        var unicode;
        ok, unicode, next := DecodeUnicodeCodePoint(token, body, at + 1);
        piece := CodePointToUTF8(unicode);
      } else {
        next := at + 1;
        match SimpleEscape(body[at]) {
          case Some(plain) => return true, [plain], next;
          case None =>
            AddError("Bad escape sequence in string", token.start, token.end);
            return false, piece, next;
        }
      }
    }

    /** The string a string token denotes. */
    method DecodeString(token: Token) returns (ok: bool, decoded: string)
      requires token.start <= token.end <= |document| && token.start + 2 <= token.end
      modifies this`errors
      ensures ok == StringOf(document[token.start..token.end]).Some?
      ensures if ok then decoded == StringOf(document[token.start..token.end]).value && errors == old(errors)
              else OneError(old(errors), errors, token)
    {
      hide DecodeEscape, Prepend, DecodeBody;
      var body := document[token.start + 1..token.end - 1];
      InnerSlice(document, token.start, token.end);
      decoded := "";
      var current := 0;
      assert body[0..] == body;
      PrependNothing(DecodeBody(body));
      while current < |body|
        invariant 0 <= current <= |body| && errors == old(errors)
        invariant DecodeBody(body) == Prepend(decoded, DecodeBody(body[current..]))
        decreases |body| - current
      {
        BodyStep(body, current);
        PrependTo(decoded);
        var c := body[current];
        if c == '\"' {
          break;
        }
        if c != '\\' {
          PrependTwice(decoded, [c], DecodeBody(body[current + 1..]));
          decoded := decoded + [c];
          current := current + 1;
        } else {
          var valid, piece, next := DecodeEscapeSequence(token, body, current + 1);
          if !valid {
            return false, decoded;
          }
          PrependTwice(decoded, piece, DecodeBody(body[next..]));
          decoded := decoded + piece;
          current := next;
        }
      }
      if current == |body| { NoBody(body); }
      PrependTo(decoded);
      return true, decoded;
    }

    /** The payload of a number token; doubles are read by the C++ stream. */
    method DecodeNumberToken(token: Token) returns (ok: bool, payload: Payload)
      requires token.start < token.end <= |document|
      modifies this`errors
      ensures ok == NumberPayload(document[token.start..token.end], features).Some?
      ensures var text := document[token.start..token.end];
              if ok then payload == NumberPayload(text, features).value && errors == old(errors)
              else errors == old(errors) + [ErrorInfo("'" + text + "' is not a number.", token.start, token.end)]
    {
      var text := document[token.start..token.end];
      var number := DecodeNumber(text);
      match number {
        case SignedNumber(i) => return true, Int(i);
        case UnsignedNumber(u) => return true, UInt(u);
        case NotInteger =>
          match features.toDouble(text) {
            case Some(r) => return true, Real(r);
            case None =>
              AddError("'" + text + "' is not a number.", token.start, token.end);
              return false, Null;
          }
      }
    }

    // -------------------------------------------------------------- values

    /** The stack below its top is the same. */
    static ghost predicate SameBelow(before: seq<Value>, after: seq<Value>) {
      && |before| == |after| > 0
      && before[..|before| - 1] == after[..|after| - 1]
    }

    ghost function Top(): Value
      reads this
      requires nodes != []
    {
      nodes[|nodes| - 1]
    }

    /** currentValue() = v */
    method SetTop(v: Value)
      requires nodes != []
      modifies this`nodes
      ensures SameBelow(old(nodes), nodes) && Top() == v
      ensures nodes == old(nodes)[|nodes| - 1 := v]
    {
      nodes := nodes[|nodes| - 1 := v];
    }

    /** Reads a value into the top of the stack. */
    method ReadValue() returns (r: Status)
      requires Positioned() && nodes != []
      modifies this`current, this`nodes, this`errors
      ensures Positioned() && old(current) <= current
      ensures var spec := ParseValue(document, old(current), |old(nodes)|, features);
              match r
              case Good => SameBelow(old(nodes), nodes) && spec == Done(Top(), current) && errors == old(errors)
              case Bad => spec == Failed && SameBelow(old(nodes), nodes) &&
                          OneErrorIn(old(errors), errors, old(current), current) &&
                          LeftAfter(document, errors, FirstToken(document, old(current), features), current)
              case Threw => spec == Thrown
      decreases |document| - current, 1
    {
      hide ParseValue, ParseItems, ParseMembers, FirstToken, NumberPayload, StringOf, Recovered, OneError, OneErrorIn;
      ghost var before := errors;
      ValueStep(document, current, |nodes|, features);
      if |nodes| > features.stackLimit {
        return Threw;
      }
      var token := SkipCommentTokens();
      var v := nodes[|nodes| - 1];
      r := Good;
      match token.kind {
        case ObjectBegin =>
          r := ReadObject(token);
          if r == Good {
            SetTop(nodes[|nodes| - 1].(limit := current));
          }
        case ArrayBegin =>
          r := ReadArray(token);
          if r == Good {
            SetTop(nodes[|nodes| - 1].(limit := current));
          }
        case NumberToken => r := ReadNumberValue(token);
        case StringToken => r := ReadStringValue(token);
        case TrueToken => SetTop(Value(Bool(true), token.start, token.end));
        case FalseToken => SetTop(Value(Bool(false), token.start, token.end));
        case NullToken => SetTop(Value(Null, token.start, token.end));
        case _ =>
          SetTop(v.(start := token.start, limit := token.end));
          AddError("Syntax error: value, object or array expected.", token.start, token.end);
          r := Bad;
      }
      ErrorInside(before, errors, token, old(current), current);
    }

    /** decodeNumber: the number becomes the top of the stack. */
    method ReadNumberValue(token: Token) returns (r: Status)
      requires token.start < token.end <= |document| && nodes != []
      modifies this`nodes, this`errors
      ensures match NumberPayload(document[token.start..token.end], features)
              case Some(p) =>
                r == Good && SameBelow(old(nodes), nodes) && Top() == Value(p, token.start, token.end)
                && errors == old(errors)
              case None => r == Bad && SameBelow(old(nodes), nodes) && OneError(old(errors), errors, token)
    {
      hide NumberPayload;
      var ok, payload := DecodeNumberToken(token);
      if !ok {
        return Bad;
      }
      SetTop(Value(payload, token.start, token.end));
      return Good;
    }

    /** decodeString: the string becomes the top of the stack. */
    method ReadStringValue(token: Token) returns (r: Status)
      requires token.start <= token.end <= |document| && token.start + 2 <= token.end && nodes != []
      modifies this`nodes, this`errors
      ensures match StringOf(document[token.start..token.end])
              case Some(x) =>
                r == Good && SameBelow(old(nodes), nodes) && Top() == Value(Str(x), token.start, token.end)
                && errors == old(errors)
              case None => r == Bad && SameBelow(old(nodes), nodes) && OneError(old(errors), errors, token)
    {
      hide StringOf;
      var ok, decoded := DecodeString(token);
      if !ok {
        return Bad;
      }
      SetTop(Value(Str(decoded), token.start, token.end));
      return Good;
    }

    /** Reads the elements of an array, after its opening bracket, into the top of the stack. */
    method ReadArray(token: Token) returns (r: Status)
      requires Positioned() && nodes != []
      modifies this`current, this`nodes, this`errors
      ensures Positioned() && old(current) <= current
      ensures var spec := ParseItems(document, old(current), |old(nodes)|, features, []);
              match r
              case Good => SameBelow(old(nodes), nodes) && Top().payload.Arr? && Top().start == token.start &&
                           spec == Done(Top().payload.items, current) && errors == old(errors)
              case Bad => spec == Failed && SameBelow(old(nodes), nodes) &&
                          OneErrorIn(old(errors), errors, old(current), current) &&
                          Recovered(document, errors, ArrayEnd, current)
              case Threw => spec == Thrown
      decreases |document| - current, 4
    {
      hide ParseItems;
      SetTop(Value(Arr([]), token.start, nodes[|nodes| - 1].limit));
      var index, closed := 0, false;
      while !closed
        invariant Positioned() && old(current) <= current && errors == old(errors)
        invariant SameBelow(old(nodes), nodes)
        invariant Top().payload.Arr? && Top().start == token.start && (!closed ==> |Top().payload.items| == index)
        invariant ParseItems(document, old(current), |nodes|, features, []) ==
                  if closed then Done(Top().payload.items, current)
                  else ParseItems(document, current, |nodes|, features, Top().payload.items)
        decreases !closed, |document| - current
      {
        r, closed := ReadElement(index);
        if r != Good {
          return;
        }
        index := index + 1;
      }
      r := Good;
    }

    /** One round of the array loop: the closing bracket, or an element and the separator after it. */
    method ReadElement(index: nat) returns (r: Status, closed: bool)
      requires Positioned() && nodes != [] && Top().payload.Arr? && index == |Top().payload.items|
      modifies this`current, this`nodes, this`errors
      ensures Positioned() && old(current) <= current && (r == Good ==> old(current) < current)
      ensures var spec := ParseItems(document, old(current), |old(nodes)|, features, old(Top()).payload.items);
              match r
              case Good => SameBelow(old(nodes), nodes) && Top().payload.Arr? && Top().start == old(Top()).start &&
                           errors == old(errors) && (!closed ==> |Top().payload.items| == index + 1) &&
                           spec == if closed then Done(Top().payload.items, current)
                                   else ParseItems(document, current, |nodes|, features, Top().payload.items)
              case Bad => spec == Failed && SameBelow(old(nodes), nodes) &&
                          OneErrorIn(old(errors), errors, old(current), current) &&
                          Recovered(document, errors, ArrayEnd, current)
              case Threw => spec == Thrown
      decreases |document| - current, 3
    {
      hide ParseValue, ParseItems, NonCommentFrom, TokenFrom, Spaces, RecoverEnd;
      SkipSpaces();
      ItemsStep(document, old(current), current, |nodes|, features, Top().payload.items);
      if current != |document| && document[current] == ']' && (index == 0 || features.allowTrailingCommas) {
        BracketToken(document, current);
        var ok, endArray := ReadToken();
        return Good, true;
      }
      r := ReadItem(index);
      if r == Threw {
        return Threw, false;
      }
      if r == Bad {
        RecoverFromError(ArrayEnd);
        return Bad, false;
      }
      r, closed := ReadItemEnd();
    }

    /** The separator after an element, or the closing bracket. */
    method ReadItemEnd() returns (r: Status, closed: bool)
      requires Positioned()
      modifies this`current, this`errors
      ensures Positioned() && old(current) <= current
      ensures var t := NonCommentFrom(document, old(current));
              if t.kind == ArraySeparator || t.kind == ArrayEnd then
                r == Good && current == t.end && errors == old(errors) && closed == (t.kind == ArrayEnd)
              else
                r == Bad && current == RecoverEnd(document, t.end, ArrayEnd) &&
                errors == old(errors) + [ErrorInfo("Missing ',' or ']' in array declaration", t.start, t.end)]
    {
      hide NonCommentFrom, RecoverEnd;
      var ok, currentToken := ReadNonComment();
      if !ok || (currentToken.kind != ArraySeparator && currentToken.kind != ArrayEnd) {
        AddErrorAndRecover("Missing ',' or ']' in array declaration", currentToken, ArrayEnd);
        return Bad, false;
      }
      return Good, currentToken.kind == ArrayEnd;
    }

    /** A new element: pushed as null, read, and popped back into its array. */
    method ReadItem(index: nat) returns (r: Status)
      requires Positioned() && nodes != [] && Top().payload.Arr? && index == |Top().payload.items|
      modifies this`current, this`nodes, this`errors
      ensures Positioned() && old(current) <= current
      ensures var spec := ParseValue(document, old(current), |old(nodes)| + 1, features);
              match r
              case Good => spec.Done? && current == spec.end && SameBelow(old(nodes), nodes) && errors == old(errors) &&
                           Top() == old(Top()).(payload := Arr(old(Top()).payload.items + [spec.value]))
              case Bad => spec == Failed && SameBelow(old(nodes), nodes) &&
                          OneErrorIn(old(errors), errors, old(current), current)
              case Threw => spec == Thrown
      decreases |document| - current, 2
    {
      hide ParseValue;
      var items := nodes[|nodes| - 1].payload.items + [Value(Null, 0, 0)];
      SetTop(nodes[|nodes| - 1].(payload := Arr(items)));
      nodes := nodes + [items[index]];
      ghost var pushed := nodes;
      r := ReadValue();
      if r != Threw {
        var child := nodes[|nodes| - 1];
        nodes := nodes[..|nodes| - 1];
        assert nodes == pushed[..|pushed| - 1];
        assert items[index := child] == items[..index] + [child];
        SetTop(nodes[|nodes| - 1].(payload := Arr(items[index := child])));
      }
    }

    /** Reads the members of an object, after its opening brace, into the top of the stack. */
    method ReadObject(token: Token) returns (r: Status)
      requires Positioned() && nodes != []
      modifies this`current, this`nodes, this`errors
      ensures Positioned() && old(current) <= current
      ensures var spec := ParseMembers(document, old(current), |old(nodes)|, features, [], "");
              match r
              case Good => SameBelow(old(nodes), nodes) && Top().payload.Obj? && Top().start == token.start &&
                           spec == Done(Top().payload.members, current) && errors == old(errors)
              case Bad => spec == Failed && SameBelow(old(nodes), nodes) &&
                          OneErrorIn(old(errors), errors, old(current), current) &&
                          Recovered(document, errors, ObjectEnd, current)
              case Threw => spec == Thrown
      decreases |document| - current, 4
    {
      hide ParseMembers, ParseMember;
      var name, closed := "", false;
      SetTop(Value(Obj([]), token.start, nodes[|nodes| - 1].limit));
      while !closed
        invariant Positioned() && old(current) <= current && errors == old(errors)
        invariant SameBelow(old(nodes), nodes)
        invariant Top().payload.Obj? && Top().start == token.start
        invariant ParseMembers(document, old(current), |nodes|, features, [], "") ==
                  if closed then Done(Top().payload.members, current)
                  else ParseMembers(document, current, |nodes|, features, Top().payload.members, name)
        decreases !closed, |document| - current
      {
        r, closed, name := ReadKey(name);
        if r != Good {
          return;
        }
        if !closed {
          r, closed := ReadMemberValue(name);
          if r != Good {
            return;
          }
        }
      }
      r := Good;
    }

    /** The closing brace, or the key of the next member; `name` is the key read before. */
    method ReadKey(name: string) returns (r: Status, closed: bool, key: string)
      requires Positioned() && nodes != [] && Top().payload.Obj?
      modifies this`current, this`errors
      ensures Positioned() && old(current) <= current && (r == Good ==> old(current) < current)
      ensures var spec := ParseMembers(document, old(current), |nodes|, features, Top().payload.members, name);
              match r
              case Good => errors == old(errors) &&
                           spec == if closed then Done(Top().payload.members, current)
                                   else ParseMember(document, current, |nodes|, features, Top().payload.members, key)
              case Bad => spec == Failed && OneErrorIn(old(errors), errors, old(current), current) &&
                          Recovered(document, errors, ObjectEnd, current)
              case Threw => spec == Thrown
    {
      hide ParseMembers, ParseMember, NonCommentFrom, StringOf, HasKey, RecoverEnd;
      MembersStep(document, current, |nodes|, features, Top().payload.members, name);
      key := "";
      var ok, tokenName := ReadNonComment();
      if ok && tokenName.kind == ObjectEnd && (name == "" || features.allowTrailingCommas) {
        return Good, true, key;
      }
      if !ok || tokenName.kind != StringToken {
        AddErrorAndRecover("Missing '}' or object member name", tokenName, ObjectEnd);
        return Bad, false, key;
      }
      ok, key := DecodeString(tokenName);
      if !ok {
        RecoverFromError(ObjectEnd);
        return Bad, false, key;
      }
      if |key| >= MAX_KEY_LENGTH {
        return Threw, false, key;
      }
      if features.rejectDupKeys && HasKey(nodes[|nodes| - 1].payload.members, key) {
        AddErrorAndRecover("Duplicate key: '" + key + "'", tokenName, ObjectEnd);
        return Bad, false, key;
      }
      return Good, false, key;
    }

    /** The colon and the value of a member, and the closing brace or the separator after it. */
    method ReadMemberValue(name: string) returns (r: Status, closed: bool)
      requires Positioned() && nodes != [] && Top().payload.Obj?
      modifies this`current, this`nodes, this`errors
      ensures Positioned() && old(current) <= current
      ensures var spec := ParseMember(document, old(current), |old(nodes)|, features, old(Top()).payload.members, name);
              match r
              case Good => SameBelow(old(nodes), nodes) && Top().payload.Obj? && Top().start == old(Top()).start &&
                           errors == old(errors) &&
                           spec == if closed then Done(Top().payload.members, current)
                                   else ParseMembers(document, current, |nodes|, features, Top().payload.members, name)
              case Bad => spec == Failed && SameBelow(old(nodes), nodes) &&
                          OneErrorIn(old(errors), errors, old(current), current) &&
                          Recovered(document, errors, ObjectEnd, current)
              case Threw => spec == Thrown
      decreases |document| - current, 3
    {
      hide ParseValue, ParseMembers, ParseMember, NonCommentFrom, TokenFrom, SetMember, RecoverEnd;
      MemberStep(document, current, |nodes|, features, Top().payload.members, name);
      var ok, colon := ReadToken();
      if !ok || colon.kind != MemberSeparator {
        AddErrorAndRecover("Missing ':' after object member name", colon, ObjectEnd);
        return Bad, false;
      }
      r := ReadMember(name);
      if r == Threw {
        return Threw, false;
      }
      if r == Bad {
        RecoverFromError(ObjectEnd);
        return Bad, false;
      }
      r, closed := ReadMemberEnd();
    }

    /** The separator after a member, or the closing brace; behind a comment any token is a separator. */
    method ReadMemberEnd() returns (r: Status, closed: bool)
      requires Positioned()
      modifies this`current, this`errors
      ensures Positioned() && old(current) <= current
      ensures var last := NonCommentFrom(document, old(current));
              var t := TokenFrom(document, old(current));
              if t.kind in {ObjectEnd, ArraySeparator, Comment} then
                r == Good && current == last.end && errors == old(errors) && closed == (last.kind == ObjectEnd)
              else
                r == Bad && current == RecoverEnd(document, t.end, ObjectEnd) &&
                errors == old(errors) + [ErrorInfo("Missing ',' or '}' in object declaration", t.start, t.end)]
    {
      hide NonCommentFrom, TokenFrom, RecoverEnd;
      NonCommentStep(document, current);
      var ok, comma := ReadToken();
      if !ok || (comma.kind != ObjectEnd && comma.kind != ArraySeparator && comma.kind != Comment) {
        AddErrorAndRecover("Missing ',' or '}' in object declaration", comma, ObjectEnd);
        return Bad, false;
      }
      if comma.kind == Comment {
        ok, comma := ReadNonComment();
      }
      return Good, comma.kind == ObjectEnd;
    }

    /** The member with this key, pushed as it is or as null, read, and popped back into its object. */
    method ReadMember(name: string) returns (r: Status)
      requires Positioned() && nodes != [] && Top().payload.Obj?
      modifies this`current, this`nodes, this`errors
      ensures Positioned() && old(current) <= current
      ensures var spec := ParseValue(document, old(current), |old(nodes)| + 1, features);
              match r
              case Good => spec.Done? && current == spec.end && SameBelow(old(nodes), nodes) && errors == old(errors) &&
                           Top() == old(Top()).(payload := Obj(SetMember(old(Top()).payload.members, name, spec.value)))
              case Bad => spec == Failed && SameBelow(old(nodes), nodes) &&
                          OneErrorIn(old(errors), errors, old(current), current)
              case Threw => spec == Thrown
      decreases |document| - current, 2
    {
      hide ParseValue, SetMember, HasKey;
      var members, child := nodes[|nodes| - 1].payload.members, Value(Null, 0, 0);
      if HasKey(members, name) {
        child := Member(members, name);
      } else {
        members := SetMember(members, name, child);
        SetTop(nodes[|nodes| - 1].(payload := Obj(members)));
      }
      nodes := nodes + [child];
      ghost var pushed := nodes;
      r := ReadValue();
      if r != Threw {
        child := nodes[|nodes| - 1];
        nodes := nodes[..|nodes| - 1];
        assert nodes == pushed[..|pushed| - 1];
        SetTop(nodes[|nodes| - 1].(payload := Obj(SetMember(members, name, child))));
        SetMemberTwice(old(Top()).payload.members, name, Value(Null, 0, 0), child);
      }
    }

    /** The value of the member with this key. */
    static function Member(members: seq<Member>, name: string): Value
      requires HasKey(members, name)
    {
      members[Place(members, name)].value
    }

    /** Reads a whole document; the errors of the run are in `errors`. */
    method Parse(text: string) returns (r: Status, root: Value)
      modifies this
      ensures document == WithoutBom(text, features)
      ensures match r
              case Good => ParseDocument(document, features).Done? &&
                           root == ParseDocument(document, features).value && nodes == [] && errors == []
              case Bad => ParseDocument(document, features) == Failed && nodes == [] && 1 <= |errors| <= 2
              case Threw => ParseDocument(document, features) == Thrown
    {
      hide ParseValue, FirstToken, WithoutBom;
      document, current, errors := text, 0, [];
      root := Value(Null, 0, 0);
      nodes := [root];
      SkipBom();
      r := ReadValue();
      if r == Threw {
        return;
      }
      root := nodes[0];
      nodes := nodes[..|nodes| - 1];
      r := CheckDocument(r, root, |text| - |document|);
    }

    /** A byte order mark is not part of the text. */
    method SkipBom()
      requires current == 0
      modifies this`document
      ensures document == WithoutBom(old(document), features)
    {
      if features.skipBom && |document| >= 3 && document[..3] == "\U{ef}\U{bb}\U{bf}" {
        document := document[3..];
      }
    }

    /** What the settings demand of the rest of the text and of the root; `bom` characters were before the document. */
    method CheckDocument(successful: Status, root: Value, bom: int) returns (r: Status)
      requires Positioned()
      modifies this`current, this`errors
      ensures var t := FirstToken(document, old(current), features);
              if features.failIfExtra && t.kind != EndOfStream then
                r == Bad &&
                errors == old(errors) + [ErrorInfo("Extra non-whitespace after JSON value.", t.start, t.end)]
              else if features.strictRoot && !root.payload.Arr? && !root.payload.Obj? then
                r == Bad &&
                errors == old(errors) + [ErrorInfo("A valid JSON document must be either an array or an object value.",
                                                   -bom, |document|)]
              else r == successful && errors == old(errors)
    {
      hide FirstToken;
      var token := SkipCommentTokens();
      if features.failIfExtra && token.kind != EndOfStream {
        AddError("Extra non-whitespace after JSON value.", token.start, token.end);
        return Bad;
      }
      if features.strictRoot && !root.payload.Arr? && !root.payload.Obj? {
        AddError("A valid JSON document must be either an array or an object value.", -bom, |document|);
        return Bad;
      }
      return successful;
    }
  }
}
