/**
 The texts of both writers, written out: FastWriter prints no white space but what yaml asks for,
 StyledWriter indents by three spaces and keeps an array on one line if that has less than 74
 characters.
 */
module JsonTexts {
  import opened JsonText
  import opened JsonString
  import opened JsonNumber
  import opened JsonLexer
  import opened JsonValue
  import opened JsonLayout
  import opened JsonFastWriter
  import opened JsonStyledWriter

  // ---------------------------------------------------------------- strings

  const SPECIAL: string := "\"\\\U{8}\U{c}\n\r\t"
  const LETTERS: string := "\"\\bfnrt"

  /** Four lower-case digits after \u. */
  function Escaped(x: int): string
    requires 0 <= x < 0x10000
  {
    var digits := "0123456789abcdef";
    ['\\', 'u', digits[x / 4096], digits[x / 256 % 16], digits[x / 16 % 16], digits[x % 16]]
  }

  /** One escape, or a surrogate pair. */
  function EscapedScalar(x: int): string
    requires Scalar(x)
  {
    if x < 0x10000 then Escaped(x)
    else Escaped(0xD800 + (x - 0x10000) / 1024) + Escaped(0xDC00 + (x - 0x10000) % 1024)
  }

  /** What the writers print for the front of a string: a letter for the seven characters that have one, \u00 and two
      digits for other control characters, one or two escapes for a character outside ASCII, U+FFFD for a byte that
      begins none or a character that is cut off, and any other character as itself. */
  lemma QuotedFront(s: string, emitUTF8: bool)
    requires s != "" && s[0] as int < 256
    ensures var c, rest := s[0] as int, QuoteBody(s[1..], emitUTF8);
            && (forall i :: 0 <= i < 7 && s[0] == SPECIAL[i] ==> QuoteBody(s, emitUTF8) == ['\\', LETTERS[i]] + rest)
            && (c < 0x20 && s[0] !in SPECIAL ==> QuoteBody(s, emitUTF8) == Escaped(c) + rest)
            && ((0x20 <= c < 0x80 || (c >= 0x80 && emitUTF8)) && s[0] !in SPECIAL
                ==> QuoteBody(s, emitUTF8) == [s[0]] + rest)
            && (c >= 0x80 && !emitUTF8 && CharLength(s) > 0 ==>
                  Scalar(ScalarOf(s))
                  && QuoteBody(s, false) == EscapedScalar(ScalarOf(s)) + QuoteBody(s[CharLength(s)..], false))
            && ((c >= 0xF8 || (c >= 0x80 && |s| == 1)) && !emitUTF8 ==> QuoteBody(s, false) == "\\ufffd" + rest)
  {
    hide QuoteBody, CharLength, ScalarOf, QuoteChunk, Escaped, EscapedScalar;
    QuoteBodyStep(s, emitUTF8);
    if s[0] as int >= 0x80 {
      WideChunk(s, emitUTF8);
    } else if s[0] in SPECIAL {
      LetterChunk(s, emitUTF8);
    } else {
      NarrowChunk(s, emitUTF8);
    }
  }

  lemma LetterChunk(s: string, emitUTF8: bool)
    requires s != ""
    ensures forall i :: 0 <= i < 7 && s[0] == SPECIAL[i] ==> QuoteChunk(s, emitUTF8) == (['\\', LETTERS[i]], 1)
  {
  }

  lemma NarrowChunk(s: string, emitUTF8: bool)
    requires s != "" && s[0] as int < 0x80 && s[0] !in SPECIAL
    ensures QuoteChunk(s, emitUTF8) == (if s[0] as int < 0x20 then Escaped(s[0] as int) else [s[0]], 1)
  {
    hide EscapeHex, Escaped;
    HexIs(s[0] as int);
  }

  lemma WideChunk(s: string, emitUTF8: bool)
    requires s != "" && 0x80 <= s[0] as int < 256
    ensures emitUTF8 ==> QuoteChunk(s, true) == ([s[0]], 1)
    ensures CharLength(s) > 0 ==>
              Scalar(ScalarOf(s)) && QuoteChunk(s, false) == (EscapedScalar(ScalarOf(s)), CharLength(s))
    ensures s[0] as int >= 0xF8 || |s| == 1 ==> QuoteChunk(s, false) == ("\\ufffd", 1)
  {
    hide EscapeHex, Escaped, EscapeCodepoint, EscapedScalar, Utf8ToCodepoint, CharLength, ScalarOf;
    if CharLength(s) > 0 {
      CodepointOfChar(s);
      WideScalar(s);
      EscapedIs(ScalarOf(s));
    }
    NoChar(s);
    EscapedIs(0xFFFD);
    Replacement();
  }

  lemma WideScalar(s: string)
    requires s != "" && s[0] as int >= 0x80 && CharLength(s) > 0
    ensures ScalarOf(s) >= 0x80
  {
  }

  lemma NoChar(s: string)
    requires s != "" && 0x80 <= s[0] as int < 256
    ensures s[0] as int >= 0xF8 || |s| == 1 ==> Utf8ToCodepoint(s) == (0xFFFD, 0)
  {
  }

  lemma Replacement()
    ensures EscapedScalar(0xFFFD) == "\\ufffd"
  {
  }

  lemma HexIs(x: nat)
    requires x < 0x10000
    ensures EscapeHex(x) == Escaped(x)
  {
    assert x / 4096 % 16 == x / 4096;
  }

  lemma QuoteBodyStep(s: string, emitUTF8: bool)
    requires s != ""
    ensures QuoteBody(s, emitUTF8) == QuoteChunk(s, emitUTF8).0 + QuoteBody(s[QuoteChunk(s, emitUTF8).1..], emitUTF8)
  {
    hide QuoteChunk;
  }

  lemma EscapedIs(x: nat)
    requires Scalar(x)
    ensures x < 0x20 || x >= 0x80 ==> EscapeCodepoint(x) == EscapedScalar(x)
  {
    hide EscapeHex, Escaped;
    if x < 0x10000 {
      HexIs(x);
    } else {
      var c := x - 0x10000;
      assert c / 1024 % 1024 == c / 1024 < 1024;
      HexIs(0xD800 + c / 1024);
      HexIs(0xDC00 + c % 1024);
    }
  }

  // ---------------------------------------------------------------- scalars

  function ScalarText(p: Payload): string {
    match p
    case Null => "null"
    case Bool(b) => if b then "true" else "false"
    case Int(i) => Decimal(i)
    case UInt(u) => Decimal(u)
    case Str(s) => Quoted(s, false)
    case _ => ""
  }

  // ---------------------------------------------------------------- FastWriter

  function CompactText(v: Value, yaml: bool): string {
    match v.payload
    case Arr(items) => "[" + CompactItems(items, yaml)
    case Obj(members) => "{" + CompactMembers(members, yaml)
    case p => ScalarText(p)
  }

  function CompactItems(items: seq<Value>, yaml: bool): string {
    if items == [] then "]"
    else CompactText(items[0], yaml) + (if |items| == 1 then "]" else "," + CompactItems(items[1..], yaml))
  }

  function CompactMembers(members: seq<Member>, yaml: bool): string {
    if members == [] then "}"
    else
      Quoted(members[0].key, false) + ((if yaml then ": " else ":") + (CompactText(members[0].value, yaml) +
      (if |members| == 1 then "}" else "," + CompactMembers(members[1..], yaml))))
  }

  lemma {:induction false} FastText(v: Value, yaml: bool)
    requires Writable(v)
    ensures Render(FastLay(v, yaml)) == CompactText(v, yaml)
    decreases v
  {
    hide Decimal, Quoted;
    match v.payload
    case Arr(items) => FastItemsText(items, yaml);
    case Obj(members) => FastMembersText(members, yaml);
    case _ =>
  }

  lemma {:induction false} FastItemsText(items: seq<Value>, yaml: bool)
    requires WritableItems(items)
    ensures RenderSlots(FastSlots(items, yaml), "]") == CompactItems(items, yaml)
    decreases items
  {
    hide Render, FastLay, CompactText, Writable;
    if items != [] {
      FastText(items[0], yaml);
      FastItemsText(items[1..], yaml);
      assert FastSlots(items, yaml)[1..] == FastSlots(items[1..], yaml);
      var x := Render(FastLay(items[0], yaml));
      assert "" + (x + "") == x;
    }
  }

  lemma {:induction false} FastMembersText(members: seq<Member>, yaml: bool)
    requires WritableMembers(members)
    ensures RenderFields(FastFields(members, yaml), "}") == CompactMembers(members, yaml)
    decreases members
  {
    hide Render, FastLay, CompactText, Writable, Quoted;
    if members != [] {
      FastText(members[0].value, yaml);
      FastMembersText(members[1..], yaml);
      assert FastFields(members, yaml)[1..] == FastFields(members[1..], yaml);
      var q, x := Quoted(members[0].key, false), Render(FastLay(members[0].value, yaml));
      var tail := if |members| == 1 then "}" else "," + CompactMembers(members[1..], yaml);
      var space := if yaml then " " else "";
      ColonText(q, space, x, tail);
      assert (if yaml then ": " else ":") == ":" + space;
      var fields := FastFields(members, yaml);
      assert RenderField(fields[0]) == "" + (q + ("" + (":" + (space + (x + "")))));
      assert RenderFields(fields, "}") == RenderField(fields[0]) + tail;
      assert CompactMembers(members, yaml) == q + ((if yaml then ": " else ":") + (x + tail));
    }
  }

  lemma ColonText(q: string, space: string, x: string, tail: string)
    ensures ("" + (q + ("" + (":" + (space + (x + "")))))) + tail == q + ((":" + space) + (x + tail))
  {
    assert "" + (q + ("" + (":" + (space + (x + ""))))) == q + ((":" + space) + x);
    Assoc(q, (":" + space) + x, tail);
    Assoc(":" + space, x, tail);
  }

  // ---------------------------------------------------------------- StyledWriter

  /** Three spaces for every level. */
  function Pad(level: nat): string {
    seq(3 * level, _ => ' ')
  }

  predicate Nonempty(v: Value) {
    match v.payload
    case Arr(items) => items != []
    case Obj(members) => members != []
    case _ => false
  }

  /** An array is broken over lines if it has 25 elements, a nonempty container, or would take 74 characters; lengths
      have 32 bits. */
  predicate Broken(items: seq<Value>)
    requires items != []
    decreases items, 1
  {
    || 3 * |items| % 0x1_0000_0000 >= 74
    || (exists i :: 0 <= i < |items| && Nonempty(items[i]))
    || |"[ " + OneLine(items)| % 0x1_0000_0000 >= 74
  }

  function StyledText(v: Value, level: nat): string
    decreases v
  {
    match v.payload
    case Arr(items) =>
      if items == [] then "[]"
      else if Broken(items) then "[" + Lines(items, level + 1)
      else "[ " + OneLine(items)
    case Obj(members) => if members == [] then "{}" else "{" + MemberLines(members, level + 1)
    case p => ScalarText(p)
  }

  function OneLine(items: seq<Value>): string
    requires items != []
    decreases items, 0
  {
    StyledText(items[0], 0) + (if |items| == 1 then " ]" else ", " + OneLine(items[1..]))
  }

  /** Each element on a line of its own, then the bracket on a line one level out. */
  function Lines(items: seq<Value>, level: nat): string
    requires items != [] && level > 0
    decreases items, 0
  {
    "\n" + (Pad(level) + (StyledText(items[0], level) +
    (if |items| == 1 then "\n" + (Pad(level - 1) + "]") else "," + Lines(items[1..], level))))
  }

  function MemberLines(members: seq<Member>, level: nat): string
    requires members != [] && level > 0
    decreases members, 0
  {
    "\n" + (Pad(level) + (Quoted(Cut(members[0].key), false) + (" : " + (StyledText(members[0].value, level) +
    (if |members| == 1 then "\n" + (Pad(level - 1) + "}") else "," + MemberLines(members[1..], level))))))
  }

  lemma PadStep(level: nat)
    ensures Pad(level) + "   " == Pad(level + 1) && Pad(0) == ""
  {
  }

  /** The styled text: where white space goes, when an array is broken, and what each value shows. */
  lemma {:induction false} StyledTextIs(v: Value, level: nat)
    requires Writable(v)
    ensures Render(StyledLay(v, Pad(level))) == StyledText(v, level)
    decreases v, 0
  {
    hide Decimal, Quoted, Pad, Multiline, Broken, StyledSlots, StyledFields;
    match v.payload
    case Arr(items) =>
      if items != [] {
        BrokenIs(items);
        if Multiline(items) {
          PadStep(level);
          LinesAre(items, level + 1);
        } else {
          OneLineIs(items);
        }
      }
    case Obj(members) =>
      PadStep(level);
      if members != [] {
        MemberLinesAre(members, level + 1);
      }
    case _ =>
  }

  /** The decision by measured widths is the decision by the text itself. */
  lemma BrokenIs(items: seq<Value>)
    requires items != [] && WritableItems(items)
    ensures Multiline(items) <==> Broken(items)
    decreases items, 1
  {
    hide StyledSlots, RenderSlots, OneLine, StyledText, Writable, Widths;
    if AllSimple(items) {
      LineWidth(items);
      OneLineIs(items);
    }
  }

  lemma {:induction false} OneLineIs(items: seq<Value>)
    requires items != [] && WritableItems(items)
    ensures RenderSlots(StyledSlots(items, " ", "", " "), "]") == " " + OneLine(items)
    decreases items, 0
  {
    hide Render, StyledLay, StyledText, Writable, Pad;
    var slots := StyledSlots(items, " ", "", " ");
    PadStep(0);
    StyledTextIs(items[0], 0);
    StyledItemStep(items, " ", "", " ", 0);
    assert slots[0..] == slots && slots[1..] == StyledSlots(items[1..], " ", "", " ");
    if |items| > 1 {
      OneLineIs(items[1..]);
      assert "," + (" " + OneLine(items[1..])) == ", " + OneLine(items[1..]);
    }
  }

  lemma {:induction false} LinesAre(items: seq<Value>, level: nat)
    requires items != [] && WritableItems(items) && level > 0
    ensures RenderSlots(StyledSlots(items, "\n" + Pad(level), Pad(level), "\n" + Pad(level - 1)), "]")
            == Lines(items, level)
    decreases items, 0
  {
    hide Render, StyledLay, StyledText, Writable, Pad;
    var before, last := "\n" + Pad(level), "\n" + Pad(level - 1);
    var slots := StyledSlots(items, before, Pad(level), last);
    StyledTextIs(items[0], level);
    StyledItemStep(items, before, Pad(level), last, 0);
    assert slots[0..] == slots && slots[1..] == StyledSlots(items[1..], before, Pad(level), last);
    if |items| > 1 {
      LinesAre(items[1..], level);
    }
    var rest := StyledText(items[0], level) + (if |items| == 1 then last + "]" else "," + Lines(items[1..], level));
    Assoc("\n", Pad(level), rest);
    Assoc("\n", Pad(level - 1), "]");
  }

  lemma {:induction false} MemberLinesAre(members: seq<Member>, level: nat)
    requires members != [] && WritableMembers(members) && level > 0
    ensures RenderFields(StyledFields(members, "\n" + Pad(level), Pad(level), "\n" + Pad(level - 1)), "}")
            == MemberLines(members, level)
    decreases members, 0
  {
    hide Render, StyledLay, StyledText, Writable, Pad, Quoted, Cut;
    var before, last := "\n" + Pad(level), "\n" + Pad(level - 1);
    var fields := StyledFields(members, before, Pad(level), last);
    StyledTextIs(members[0].value, level);
    StyledMemberStep(members, before, Pad(level), last, 0);
    assert fields[0..] == fields && fields[1..] == StyledFields(members[1..], before, Pad(level), last);
    if |members| > 1 {
      MemberLinesAre(members[1..], level);
    }
    var tail := if |members| == 1 then last + "}" else "," + MemberLines(members[1..], level);
    var rest := Quoted(Cut(members[0].key), false) + (" : " + (StyledText(members[0].value, level) + tail));
    Assoc("\n", Pad(level), rest);
    Assoc("\n", Pad(level - 1), "}");
  }
}
