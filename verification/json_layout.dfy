/**
 Texts that lay out a value: the tokens of a value, with any white space between them.  The
 reader's answer to such a text is a function of the tokens (ReadLay): LayIsRead.
 */
module JsonLayout {
  import opened Wrappers
  import opened JsonText
  import opened JsonString
  import opened JsonNumber
  import opened JsonLexer
  import opened JsonValue
  import opened JsonParser

  /** A value as a text shows it: tokens for scalars and keys, and the white space around them. */
  datatype Lay =
    | Leaf(lexeme: string)
    | ArrayLay(gap: string, slots: seq<Slot>)
    | ObjectLay(gap: string, fields: seq<Field>)

  datatype Slot = Slot(before: string, item: Lay, after: string)

  datatype Field = Field(before: string, key: string, gap: string, slot: Slot)

  function Render(lay: Lay): string {
    match lay
    case Leaf(lexeme) => lexeme
    case ArrayLay(gap, slots) => "[" + (gap + RenderSlots(slots, "]"))
    case ObjectLay(gap, fields) => "{" + (gap + RenderFields(fields, "}"))
  }

  /** The elements with commas between them, then the closing bracket. */
  function RenderSlots(slots: seq<Slot>, close: string): string {
    if slots == [] then close
    else RenderSlot(slots[0]) + (if |slots| == 1 then close else "," + RenderSlots(slots[1..], close))
  }

  function RenderSlot(slot: Slot): string {
    slot.before + (Render(slot.item) + slot.after)
  }

  function RenderFields(fields: seq<Field>, close: string): string {
    if fields == [] then close
    else RenderField(fields[0]) + (if |fields| == 1 then close else "," + RenderFields(fields[1..], close))
  }

  function RenderField(field: Field): string {
    field.before + (field.key + (field.gap + (":" + RenderSlot(field.slot))))
  }

  predicate AllSpaces(s: string) {
    forall i :: 0 <= i < |s| ==> s[i] == ' ' || s[i] == '\t' || s[i] == '\n' || s[i] == '\r'
  }

  /** One token that is a value by itself. */
  predicate IsWord(s: string) {
    TokenAt(s).1 == |s| && TokenAt(s).0 in {StringToken, NumberToken, TrueToken, FalseToken, NullToken}
  }

  /** One string token. */
  predicate IsKey(s: string) {
    TokenAt(s) == (StringToken, |s|)
  }

  /** White space where white space belongs, and tokens where tokens belong. */
  predicate LayOk(lay: Lay) {
    match lay
    case Leaf(lexeme) => IsWord(lexeme)
    case ArrayLay(gap, slots) => AllSpaces(gap) && SlotsOk(slots)
    case ObjectLay(gap, fields) => AllSpaces(gap) && FieldsOk(fields)
  }

  predicate SlotOk(slot: Slot) {
    AllSpaces(slot.before) && AllSpaces(slot.after) && LayOk(slot.item)
  }

  predicate SlotsOk(slots: seq<Slot>) {
    slots == [] || (SlotOk(slots[0]) && SlotsOk(slots[1..]))
  }

  predicate FieldsOk(fields: seq<Field>) {
    fields == [] || (FieldOk(fields[0]) && FieldsOk(fields[1..]))
  }

  predicate FieldOk(field: Field) {
    AllSpaces(field.before) && IsKey(field.key) && AllSpaces(field.gap) && SlotOk(field.slot)
  }

  // ---------------------------------------------------------------- what a layout is read as

  /** What the reader makes of tokens: a value, a recorded error, or an exception. */
  datatype Reading<T> = Reads(value: T) | Rejects | Throws

  function ReadWord(lexeme: string, f: Features): Reading<Value> {
    match TokenAt(lexeme).0
    case NumberToken =>
      (match NumberPayload(lexeme, f)
       case Some(p) => Reads(Value(p, 0, 0))
       case None => Rejects)
    case StringToken =>
      (match StringOf(lexeme)
       case Some(x) => Reads(Value(Str(x), 0, 0))
       case None => Rejects)
    case TrueToken => Reads(Value(Bool(true), 0, 0))
    case FalseToken => Reads(Value(Bool(false), 0, 0))
    case NullToken => Reads(Value(Null, 0, 0))
    case _ => Rejects
  }

  /** The value of a layout at some depth of nesting; the first thing that goes wrong decides. */
  function ReadLay(lay: Lay, depth: nat, f: Features): Reading<Value>
    decreases lay, 0
  {
    if depth > f.stackLimit then Throws
    else match lay
      case Leaf(lexeme) => ReadWord(lexeme, f)
      case ArrayLay(_, slots) =>
        (match ReadSlots(slots, depth, f)
         case Reads(items) => Reads(Value(Arr(items), 0, 0))
         case Rejects => Rejects
         case Throws => Throws)
      case ObjectLay(_, fields) =>
        (match ReadFields(fields, depth, f, [])
         case Reads(members) => Reads(Value(Obj(members), 0, 0))
         case Rejects => Rejects
         case Throws => Throws)
  }

  function ReadSlots(slots: seq<Slot>, depth: nat, f: Features): Reading<seq<Value>>
    decreases slots, 1
  {
    if slots == [] then Reads([])
    else match ReadLay(slots[0].item, depth + 1, f)
      case Rejects => Rejects
      case Throws => Throws
      case Reads(v) =>
        match ReadSlots(slots[1..], depth, f)
        case Reads(more) => Reads([v] + more)
        case r => r
  }

  /** Members in any order: each is put in its place, and a repeated key replaces the value or is rejected. */
  function ReadFields(fields: seq<Field>, depth: nat, f: Features, members: seq<Member>): Reading<seq<Member>>
    decreases fields, 1
  {
    if fields == [] then Reads(members)
    else match StringOf(fields[0].key)
      case None => Rejects
      case Some(key) =>
        if |key| >= MAX_KEY_LENGTH then Throws
        else if f.rejectDupKeys && HasKey(members, key) then Rejects
        else match ReadLay(fields[0].slot.item, depth + 1, f)
          case Rejects => Rejects
          case Throws => Throws
          case Reads(v) => ReadFields(fields[1..], depth, f, SetMember(members, key, v))
  }

  /** The outcome of a rule is what the tokens say, and it ends where they end. */
  predicate Yields(o: Outcome<Value>, r: Reading<Value>, end: nat) {
    match r
    case Reads(x) => o.Done? && o.end == end && Plain(o.value) == x
    case Rejects => o == Failed
    case Throws => o == Thrown
  }

  predicate YieldsItems(o: Outcome<seq<Value>>, items: seq<Value>, r: Reading<seq<Value>>, end: nat) {
    match r
    case Reads(more) => o.Done? && o.end == end && PlainItems(o.value) == PlainItems(items) + more
    case Rejects => o == Failed
    case Throws => o == Thrown
  }

  predicate YieldsMembers(o: Outcome<seq<Member>>, r: Reading<seq<Member>>, end: nat) {
    match r
    case Reads(members) => o.Done? && o.end == end && PlainMembers(o.value) == members
    case Rejects => o == Failed
    case Throws => o == Thrown
  }

  // ---------------------------------------------------------------- text at a position

  /** The text has `s` at position `at`. */
  predicate At(text: string, at: nat, s: string) {
    at + |s| <= |text| && text[at..at + |s|] == s
  }

  lemma AtSplit(text: string, at: nat, a: string, b: string)
    requires At(text, at, a + b)
    ensures At(text, at, a) && At(text, at + |a|, b)
  {
    assert (a + b)[..|a|] == a && (a + b)[|a|..] == b;
    assert text[at..at + |a|] == text[at..at + |a + b|][..|a|];
    assert text[at + |a|..at + |a| + |b|] == text[at..at + |a + b|][|a|..];
  }

  lemma AtJoin(text: string, at: nat, a: string, b: string)
    requires At(text, at, a) && At(text, at + |a|, b)
    ensures At(text, at, a + b) && at + |a| + |b| <= |text|
  {
    assert text[at..at + |a + b|] == text[at..at + |a|] + text[at + |a|..at + |a| + |b|];
  }

  lemma AtEmpty(text: string, at: nat)
    requires at <= |text|
    ensures At(text, at, "")
  {
    assert text[at..at] == "";
  }

  lemma AtChar(text: string, at: nat, s: string)
    requires At(text, at, s) && s != ""
    ensures at + |s| <= |text| && text[at] == s[0]
  {
    assert text[at..at + |s|][0] == text[at];
  }

  lemma SpacesJoin(a: string, b: string)
    requires AllSpaces(a) && AllSpaces(b)
    ensures AllSpaces(a + b)
  {
  }

  lemma AtRest(text: string, at: nat, s: string)
    requires At(text, at, s)
    ensures text[at..] == s + text[at + |s|..]
  {
    assert text[at..] == text[at..at + |s|] + text[at + |s|..];
  }

  /** What may follow a number or a word without continuing it. */
  predicate Ends(rest: string) {
    rest == "" || rest[0] in ",]}:\0" || IsSpace(rest[0])
  }

  predicate EndsToken(text: string, at: nat) {
    at <= |text| && Ends(text[at..])
  }

  lemma SpacesThen(ws: string, rest: string)
    requires AllSpaces(ws) && rest != "" && !IsSpace(rest[0])
    ensures Spaces(ws + rest) == |ws|
  {
    var s := ws + rest;
    if ws != "" {
      assert s[0] == ws[0] && s[1..] == ws[1..] + rest;
      SpacesThen(ws[1..], rest);
    } else {
      assert s == rest;
    }
  }

  /** White space, then a lexeme: what the scanner makes of it. */
  lemma Scan(text: string, at: nat, ws: string, lexeme: string, kind: TokenKind, f: Features)
    requires At(text, at, ws) && At(text, at + |ws|, lexeme) && AllSpaces(ws)
    requires lexeme != "" && !IsSpace(lexeme[0]) && kind != Comment
    requires TokenAt(lexeme + text[at + |ws| + |lexeme|..]) == (kind, |lexeme|)
    ensures var t := Token(kind, at + |ws|, at + |ws| + |lexeme|);
            TokenFrom(text, at) == t && NonCommentFrom(text, at) == t && FirstToken(text, at, f) == t
    ensures at + Spaces(text[at..]) == at + |ws|
  {
    hide TokenAt, Spaces;
    var rest := text[at + |ws| + |lexeme|..];
    AtRest(text, at, ws);
    AtRest(text, at + |ws|, lexeme);
    assert (lexeme + rest)[0] == lexeme[0];
    SpacesThen(ws, lexeme + rest);
    assert text[at..][|ws|..] == lexeme + rest;
    NonCommentStep(text, at);
  }

  // ---------------------------------------------------------------- tokens stand by themselves

  lemma {:induction false} RunStable(s: string, rest: string)
    requires Ends(rest)
    ensures DigitRun(s + rest) == DigitRun(s)
  {
    if s == "" {
      assert s + rest == rest;
    } else {
      assert (s + rest)[0] == s[0] && (s + rest)[1..] == s[1..] + rest;
      RunStable(s[1..], rest);
    }
  }

  lemma FractionStable(s: string, rest: string)
    requires Ends(rest)
    ensures FractionEnd(s + rest) == FractionEnd(s)
  {
    hide DigitRun;
    var a := DigitRun(s);
    RunStable(s, rest);
    if a < |s| {
      assert (s + rest)[a] == s[a] && (s + rest)[a + 1..] == s[a + 1..] + rest;
      RunStable(s[a + 1..], rest);
    } else if rest != "" {
      assert (s + rest)[a] == rest[0];
    }
  }

  lemma ExponentStable(s: string, rest: string)
    requires Ends(rest)
    ensures ExponentEnd(s + rest) == ExponentEnd(s)
  {
    hide DigitRun;
    if s == "" {
      assert s + rest == rest;
      assert rest != "" ==> rest[0] != 'e' && rest[0] != 'E';
    } else {
      var c := if |s| > 1 && (s[1] == '+' || s[1] == '-') then 2 else 1;
      assert (s + rest)[0] == s[0];
      if |s| > 1 {
        assert (s + rest)[1] == s[1];
      } else if rest != "" {
        assert (s + rest)[1] == rest[0];
      }
      assert (s + rest)[c..] == s[c..] + rest;
      RunStable(s[c..], rest);
    }
  }

  lemma NumberStable(s: string, rest: string)
    requires Ends(rest)
    ensures NumberEnd(s + rest) == NumberEnd(s)
  {
    hide FractionEnd, ExponentEnd;
    FractionStable(s, rest);
    var n := FractionEnd(s);
    assert (s + rest)[n..] == s[n..] + rest;
    ExponentStable(s[n..], rest);
  }

  lemma {:induction false} StringStable(s: string, rest: string)
    requires StringEnd(s).Some?
    ensures StringEnd(s + rest) == StringEnd(s)
    decreases |s|
  {
    var t := s + rest;
    assert t[0] == s[0];
    if s[0] != '\"' {
      if s[0] != '\\' {
        assert t[1..] == s[1..] + rest;
        StringStable(s[1..], rest);
      } else {
        assert t[2..] == s[2..] + rest;
        StringStable(s[2..], rest);
      }
    }
  }

  /** What follows a token does not change it. */
  lemma WordStable(s: string, rest: string)
    requires IsWord(s) && Ends(rest)
    ensures TokenAt(s + rest) == TokenAt(s)
    ensures s != "" && !IsSpace(s[0]) && s[0] != ']'
  {
    hide NumberEnd, StringEnd, CommentEnd;
    var t := s + rest;
    assert s != "" && t[0] == s[0] && t[1..] == s[1..] + rest;
    NumberStable(s[1..], rest);
    if s[0] == '\"' {
      hide NumberEnd;
      StringStable(s[1..], rest);
    } else if s[0] in "tfn" {
      assert s[1..] <= t[1..];
    } else if |s| > 1 {
      assert t[1] == s[1];
    } else if rest != "" {
      assert t[1] == rest[0];
    }
  }

  lemma KeyStable(s: string, rest: string)
    requires IsKey(s)
    ensures TokenAt(s + rest) == TokenAt(s)
    ensures s != "" && s[0] == '\"'
  {
    hide NumberEnd, StringEnd, CommentEnd;
    var t := s + rest;
    assert s != "" && t[0] == s[0] && t[1..] == s[1..] + rest;
    assert s[0] == '\"';
    StringStable(s[1..], rest);
  }

  /** The front of a rendered value is neither white space nor a closing bracket. */
  lemma RenderHead(lay: Lay)
    requires LayOk(lay)
    ensures Render(lay) != "" && !IsSpace(Render(lay)[0]) && Render(lay)[0] != ']'
  {
    hide SlotsOk, FieldsOk, IsWord;
    if lay.Leaf? {
      WordStable(lay.lexeme, "");
    }
  }

  // ---------------------------------------------------------------- every layout is read

  /** A value laid out at position `at`, after white space: the reader's answer is what the tokens say. */
  lemma {:induction false} LayIsRead(text: string, at: nat, ws: string, lay: Lay, depth: nat, f: Features)
    requires At(text, at, ws) && At(text, at + |ws|, Render(lay)) && AllSpaces(ws) && LayOk(lay)
    requires EndsToken(text, at + |ws| + |Render(lay)|)
    ensures Yields(ParseValue(text, at, depth, f), ReadLay(lay, depth, f), at + |ws| + |Render(lay)|)
    decreases lay, 0
  {
    hide At, ParseValue, ParseItems, ParseMembers, RenderSlots, RenderFields, SlotsOk, FieldsOk, ReadSlots,
      ReadFields, EndsToken, IsWord, ReadWord;
    AtBound(text, at, ws);
    if depth > f.stackLimit {
      StackFull(text, at, depth, f);
    } else {
      match lay {
        case Leaf(lexeme) => WordIsRead(text, at, ws, lexeme, depth, f);
        case ArrayLay(gap, slots) => ArrayIsRead(text, at, ws, gap, slots, depth, f);
        case ObjectLay(gap, fields) => ObjectIsRead(text, at, ws, gap, fields, depth, f);
      }
    }
  }

  lemma AtBound(text: string, at: nat, s: string)
    requires At(text, at, s)
    ensures at + |s| <= |text|
  {
  }

  lemma StackFull(text: string, at: nat, depth: nat, f: Features)
    requires at <= |text| && depth > f.stackLimit
    ensures ParseValue(text, at, depth, f) == Thrown
  {
  }

  lemma WordIsRead(text: string, at: nat, ws: string, word: string, depth: nat, f: Features)
    requires At(text, at, ws) && At(text, at + |ws|, word) && AllSpaces(ws) && IsWord(word)
    requires EndsToken(text, at + |ws| + |word|)
    requires depth <= f.stackLimit
    ensures Yields(ParseValue(text, at, depth, f), ReadWord(word, f), at + |ws| + |word|)
  {
    hide TokenAt, FirstToken, NumberOf, StringOf;
    var end := at + |ws| + |word|;
    WordStable(word, text[end..]);
    Scan(text, at, ws, word, TokenAt(word).0, f);
  }

  /** An opening bracket, and then the rule behind it decides. */
  lemma OpenArray(text: string, at: nat, ws: string, rest: string, depth: nat, f: Features)
    requires At(text, at, ws) && At(text, at + |ws|, "[" + rest) && AllSpaces(ws) && depth <= f.stackLimit
    ensures var open := at + |ws|;
            open + 1 <= |text| && At(text, open + 1, rest)
            && var r := ParseItems(text, open + 1, depth, f, []);
               ParseValue(text, at, depth, f)
               == match r
                  case Done(items, end) => Done(Value(Arr(items), open, end), end)
                  case Failed => Failed
                  case Thrown => Thrown
  {
    hide At, TokenAt, FirstToken, ParseItems, ParseMembers;
    AtSplit(text, at + |ws|, "[", rest);
    Punctuation('[', ArrayBegin, text[at + |ws| + 1..]);
    Scan(text, at, ws, "[", ArrayBegin, f);
  }

  lemma OpenObject(text: string, at: nat, ws: string, rest: string, depth: nat, f: Features)
    requires At(text, at, ws) && At(text, at + |ws|, "{" + rest) && AllSpaces(ws) && depth <= f.stackLimit
    ensures var open := at + |ws|;
            open + 1 <= |text| && At(text, open + 1, rest)
            && var r := ParseMembers(text, open + 1, depth, f, [], "");
               ParseValue(text, at, depth, f)
               == match r
                  case Done(members, end) => Done(Value(Obj(members), open, end), end)
                  case Failed => Failed
                  case Thrown => Thrown
  {
    hide At, TokenAt, FirstToken, ParseItems, ParseMembers;
    AtSplit(text, at + |ws|, "{", rest);
    Punctuation('{', ObjectBegin, text[at + |ws| + 1..]);
    Scan(text, at, ws, "{", ObjectBegin, f);
  }

  lemma {:induction false} ArrayIsRead(text: string, at: nat, ws: string, gap: string, slots: seq<Slot>, depth: nat,
                                       f: Features)
    requires var r := "[" + (gap + RenderSlots(slots, "]"));
             At(text, at, ws) && At(text, at + |ws|, r) && AllSpaces(ws)
    requires AllSpaces(gap) && SlotsOk(slots) && depth <= f.stackLimit
    ensures var end := at + |ws| + 1 + |gap| + |RenderSlots(slots, "]")|;
            Yields(ParseValue(text, at, depth, f), ReadLay(ArrayLay(gap, slots), depth, f), end)
    decreases slots, 2
  {
    hide At, ParseValue, ParseItems, RenderSlots, SlotsOk, PlainItems;
    var from, rendered := at + |ws| + 1, RenderSlots(slots, "]");
    OpenArray(text, at, ws, gap + rendered, depth, f);
    AtSplit(text, from, gap, rendered);
    if slots == [] {
      CloseEmptyArray(text, from, gap, depth, f);
    } else {
      hide ReadSlots;
      SlotsAreRead(text, from, gap, slots, depth, f, []);
      NoItems([]);
    }
  }

  lemma {:induction false} ObjectIsRead(text: string, at: nat, ws: string, gap: string, fields: seq<Field>, depth: nat,
                                        f: Features)
    requires var r := "{" + (gap + RenderFields(fields, "}"));
             At(text, at, ws) && At(text, at + |ws|, r) && AllSpaces(ws)
    requires AllSpaces(gap) && FieldsOk(fields) && depth <= f.stackLimit
    ensures var end := at + |ws| + 1 + |gap| + |RenderFields(fields, "}")|;
            Yields(ParseValue(text, at, depth, f), ReadLay(ObjectLay(gap, fields), depth, f), end)
    decreases fields, 2
  {
    hide At, ParseValue, ParseMembers, RenderFields, FieldsOk, PlainMembers;
    var from, rendered := at + |ws| + 1, RenderFields(fields, "}");
    OpenObject(text, at, ws, gap + rendered, depth, f);
    AtSplit(text, from, gap, rendered);
    NoMembers();
    if fields == [] {
      CloseEmptyObject(text, from, gap, depth, f);
    } else {
      hide ReadFields;
      FieldsAreRead(text, from, gap, fields, depth, f, [], "");
    }
  }

  lemma Punctuation(c: char, kind: TokenKind, rest: string)
    requires (c, kind) in {('[', ArrayBegin), (']', ArrayEnd), ('{', ObjectBegin), ('}', ObjectEnd),
                           (',', ArraySeparator), (':', MemberSeparator)}
    ensures TokenAt([c] + rest) == (kind, 1)
  {
    assert ([c] + rest)[0] == c;
  }

  lemma CloseEmptyArray(text: string, at: nat, gap: string, depth: nat, f: Features)
    requires At(text, at, gap) && At(text, at + |gap|, RenderSlots([], "]")) && AllSpaces(gap)
    ensures ParseItems(text, at, depth, f, []) == Done([], at + |gap| + |RenderSlots([], "]")|)
    ensures PlainItems([]) == []
  {
    hide ParseItems, TokenAt;
    Punctuation(']', ArrayEnd, text[at + |gap| + 1..]);
    Scan(text, at, gap, "]", ArrayEnd, f);
    AtChar(text, at + |gap|, "]");
    ItemsStep(text, at, at + |gap|, depth, f, []);
  }

  lemma CloseEmptyObject(text: string, at: nat, gap: string, depth: nat, f: Features)
    requires At(text, at, gap) && At(text, at + |gap|, RenderFields([], "}")) && AllSpaces(gap)
    ensures ParseMembers(text, at, depth, f, [], "") == Done([], at + |gap| + |RenderFields([], "}")|)
  {
    hide ParseMembers, TokenAt;
    Punctuation('}', ObjectEnd, text[at + |gap| + 1..]);
    Scan(text, at, gap, "}", ObjectEnd, f);
    MembersStep(text, at, depth, f, [], "");
  }

  /** White space before a value is white space to the array loop, too. */
  lemma BeforeItem(text: string, at: nat, ws: string, item: Lay)
    requires At(text, at, ws) && At(text, at + |ws|, Render(item)) && AllSpaces(ws) && LayOk(item)
    ensures at + Spaces(text[at..]) == at + |ws| < |text| && text[at + |ws|] != ']'
  {
    hide Spaces, Render, LayOk;
    RenderHead(item);
    var rest := text[at + |ws| + |Render(item)|..];
    AtRest(text, at, ws);
    AtRest(text, at + |ws|, Render(item));
    assert (Render(item) + rest)[0] == Render(item)[0];
    SpacesThen(ws, Render(item) + rest);
  }

  /** A value, white space and the character that ends it. */
  lemma {:induction false} ItemIsRead(text: string, at: nat, ws: string, item: Lay, after: string, c: char,
                                      kind: TokenKind, depth: nat, f: Features)
    requires At(text, at, ws) && At(text, at + |ws|, Render(item) + after) && AllSpaces(ws) && AllSpaces(after)
    requires At(text, at + |ws| + |Render(item)| + |after|, [c])
    requires (c, kind) in {(',', ArraySeparator), (']', ArrayEnd), ('}', ObjectEnd)}
    requires LayOk(item)
    ensures var end := at + |ws| + |Render(item)|;
            Yields(ParseValue(text, at, depth, f), ReadLay(item, depth, f), end) && end + |after| + 1 <= |text|
            && TokenFrom(text, end) == NonCommentFrom(text, end) == Token(kind, end + |after|, end + |after| + 1)
    decreases item, 1
  {
    hide ParseValue, Render, LayOk, TokenFrom, NonCommentFrom, ReadLay, Yields;
    var end := at + |ws| + |Render(item)|;
    AtSplit(text, at + |ws|, Render(item), after);
    assert EndsToken(text, end) by { EndOfItem(text, end, after, c); }
    LayIsRead(text, at, ws, item, depth, f);
    Punctuation(c, kind, text[end + |after| + 1..]);
    Scan(text, end, after, [c], kind, f);
  }

  lemma EndOfItem(text: string, at: nat, after: string, c: char)
    requires At(text, at, after) && AllSpaces(after) && At(text, at + |after|, [c]) && c in ",]}"
    ensures EndsToken(text, at)
  {
    AtChar(text, at + |after|, [c]);
    if after != "" {
      AtChar(text, at, after);
    }
    assert text[at..][0] == text[at];
  }

  /** What follows an element: the closing bracket, or a comma and the other elements. */
  function SlotsTail(slots: seq<Slot>): string
    requires slots != []
  {
    if |slots| == 1 then "]" else "," + RenderSlots(slots[1..], "]")
  }

  lemma OpenSlots(text: string, at: nat, ws: string, slots: seq<Slot>, from: nat)
    requires At(text, at, ws) && At(text, at + |ws|, RenderSlots(slots, "]")) && slots != []
    requires from == at + |ws| + |slots[0].before|
    ensures At(text, at, ws + slots[0].before) && At(text, from, Render(slots[0].item) + slots[0].after)
    ensures At(text, from + |Render(slots[0].item)| + |slots[0].after|, SlotsTail(slots))
    ensures RenderSlots(slots, "]") == RenderSlot(slots[0]) + SlotsTail(slots)
  {
    hide At, Render, RenderSlots;
    var slot := slots[0];
    SlotsUnfold(slots);
    AtSplit(text, at + |ws|, RenderSlot(slot), SlotsTail(slots));
    AtSplit(text, at + |ws|, slot.before, Render(slot.item) + slot.after);
    AtJoin(text, at, ws, slot.before);
  }

  lemma SlotsUnfold(slots: seq<Slot>)
    requires slots != []
    ensures RenderSlots(slots, "]") == RenderSlot(slots[0]) + SlotsTail(slots)
  {
    hide RenderSlot;
  }

  lemma SlotsOkUnfold(slots: seq<Slot>)
    requires slots != []
    ensures SlotsOk(slots) <==> SlotOk(slots[0]) && SlotsOk(slots[1..])
  {
    hide SlotOk;
  }

  lemma AppendItem(items: seq<Value>, v: Value)
    ensures PlainItems(items + [v]) == PlainItems(items) + [Plain(v)]
  {
    if items == [] {
      assert PlainItems([v]) == [Plain(v)] + PlainItems([]);
    } else {
      assert (items + [v])[1..] == items[1..] + [v];
      AppendItem(items[1..], v);
    }
  }

  /** The elements of an array and its closing bracket. */
  lemma {:induction false} SlotsAreRead(text: string, at: nat, ws: string, slots: seq<Slot>, depth: nat, f: Features,
                                        items: seq<Value>)
    requires At(text, at, ws) && At(text, at + |ws|, RenderSlots(slots, "]")) && AllSpaces(ws)
    requires slots != [] && SlotsOk(slots)
    ensures at <= |text|
            && YieldsItems(ParseItems(text, at, depth, f, items), items, ReadSlots(slots, depth, f),
                           at + |ws| + |RenderSlots(slots, "]")|)
    decreases slots, 1
  {
    hide At, ParseValue, ParseItems, Render, RenderSlots, LayOk, SlotsOk, TokenFrom, NonCommentFrom, Spaces,
      PlainItems, SlotsTail, Plain, ReadLay;
    var slot, tail := slots[0], SlotsTail(slots);
    var k := at + |ws| + |slot.before|;
    var end := k + |Render(slot.item)| + |slot.after|;
    OpenSlots(text, at, ws, slots, k);
    SlotsOkUnfold(slots);
    AtSplit(text, k, Render(slot.item), slot.after);
    SpacesJoin(ws, slot.before);
    BeforeItem(text, at, ws + slot.before, slot.item);
    TailSplit(slots);
    ClosesNot(text, k, f, items);
    var c := if |slots| == 1 then ']' else ',';
    var kind := if |slots| == 1 then ArrayEnd else ArraySeparator;
    AtSplit(text, end, [c], tail[1..]);
    AtEmpty(text, k);
    ItemIsRead(text, k, "", slot.item, slot.after, c, kind, depth + 1, f);
    ItemsStep(text, at, k, depth, f, items);
    var o := ParseValue(text, k, depth + 1, f);
    if o.Done? {
      AppendItem(items, o.value);
      if |slots| > 1 {
        AtEmpty(text, end + 1);
        SlotsAreRead(text, end + 1, "", slots[1..], depth, f, items + [o.value]);
        var more := ReadSlots(slots[1..], depth, f);
        if more.Reads? {
          AssocItems(PlainItems(items), [Plain(o.value)], more.value);
        }
      }
    }
  }

  lemma AssocItems(a: seq<Value>, b: seq<Value>, c: seq<Value>)
    ensures (a + b) + c == a + (b + c)
  {
  }

  lemma ClosesNot(text: string, k: nat, f: Features, items: seq<Value>)
    requires k < |text| && text[k] != ']'
    ensures !ClosesArray(text, k, f, items)
  {
  }

  lemma TailSplit(slots: seq<Slot>)
    requires slots != []
    ensures var tail := SlotsTail(slots);
            if |slots| == 1 then tail == "]" + "" else tail == "," + RenderSlots(slots[1..], "]")
  {
  }

  lemma NoItems(more: seq<Value>)
    ensures PlainItems([]) == [] && forall xs: seq<Value> :: PlainItems([]) + xs == xs
  {
  }

  lemma NoMembers()
    ensures PlainMembers([]) == []
  {
  }

  // ---------------------------------------------------------------- the members of an object

  /** What follows a member: the closing brace, or a comma and the other members. */
  function FieldsTail(fields: seq<Field>): string
    requires fields != []
  {
    if |fields| == 1 then "}" else "," + RenderFields(fields[1..], "}")
  }

  lemma FieldsUnfold(fields: seq<Field>)
    requires fields != []
    ensures RenderFields(fields, "}") == RenderField(fields[0]) + FieldsTail(fields)
    ensures var tail := FieldsTail(fields);
            if |fields| == 1 then tail == "}" + "" else tail == "," + RenderFields(fields[1..], "}")
  {
    hide RenderField;
  }

  lemma FieldsOkUnfold(fields: seq<Field>)
    requires fields != []
    ensures FieldsOk(fields) <==> FieldOk(fields[0]) && FieldsOk(fields[1..])
  {
    hide FieldOk;
  }

  /** Where the parts of the first member are; `from` is where its key is. */
  lemma OpenFields(text: string, at: nat, ws: string, fields: seq<Field>, from: nat, colon: nat)
    requires At(text, at, ws) && At(text, at + |ws|, RenderFields(fields, "}")) && fields != []
    requires from == at + |ws| + |fields[0].before|
    requires colon == from + |fields[0].key| + |fields[0].gap|
    ensures var field := fields[0];
            At(text, at, ws + field.before) && At(text, from, field.key)
            && At(text, colon - |field.gap|, field.gap) && At(text, colon, ":")
            && At(text, colon + 1, RenderSlot(field.slot))
            && At(text, colon + 1 + |RenderSlot(field.slot)|, FieldsTail(fields))
    ensures |RenderFields(fields, "}")| == colon + 1 + |RenderSlot(fields[0].slot)| + |FieldsTail(fields)| - at - |ws|
  {
    hide At, RenderSlot, FieldsTail, RenderFields;
    var field := fields[0];
    var key, value := field.key, RenderSlot(field.slot);
    FieldsUnfold(fields);
    AtSplit(text, at + |ws|, RenderField(field), FieldsTail(fields));
    AtSplit(text, at + |ws|, field.before, key + (field.gap + (":" + value)));
    AtSplit(text, from, key, field.gap + (":" + value));
    AtSplit(text, colon - |field.gap|, field.gap, ":" + value);
    AtSplit(text, colon, ":", value);
    AtJoin(text, at, ws, field.before);
  }

  lemma OpenSlot(text: string, at: nat, slot: Slot)
    requires At(text, at, RenderSlot(slot))
    ensures At(text, at, slot.before) && At(text, at + |slot.before|, Render(slot.item) + slot.after)
    ensures |RenderSlot(slot)| == |slot.before| + |Render(slot.item)| + |slot.after|
  {
    hide At, Render;
    AtSplit(text, at, slot.before, Render(slot.item) + slot.after);
  }

  lemma KeyToken(text: string, at: nat, ws: string, key: string, f: Features)
    requires At(text, at, ws) && At(text, at + |ws|, key) && AllSpaces(ws) && IsKey(key)
    ensures var t := NonCommentFrom(text, at);
            t == Token(StringToken, at + |ws|, at + |ws| + |key|) && text[t.start..t.end] == key
  {
    hide TokenAt, NonCommentFrom, TokenFrom, FirstToken, Spaces;
    KeyStable(key, text[at + |ws| + |key|..]);
    Scan(text, at, ws, key, StringToken, f);
  }

  lemma ColonToken(text: string, at: nat, ws: string, f: Features)
    requires At(text, at, ws) && At(text, at + |ws|, ":") && AllSpaces(ws)
    ensures at + |ws| + 1 <= |text| && TokenFrom(text, at) == Token(MemberSeparator, at + |ws|, at + |ws| + 1)
  {
    hide TokenAt, NonCommentFrom, TokenFrom, FirstToken, Spaces;
    Punctuation(':', MemberSeparator, text[at + |ws| + 1..]);
    Scan(text, at, ws, ":", MemberSeparator, f);
  }

  /** A key and its colon. */
  lemma KeyIsRead(text: string, at: nat, ws: string, key: string, gap: string, colon: nat, depth: nat, f: Features,
                  members: seq<Member>, name: string)
    requires At(text, at, ws) && At(text, at + |ws|, key) && AllSpaces(ws) && AllSpaces(gap) && IsKey(key)
    requires colon == at + |ws| + |key| + |gap|
    requires At(text, colon - |gap|, gap) && At(text, colon, ":")
    ensures colon + 1 <= |text| && TokenFrom(text, colon - |gap|) == Token(MemberSeparator, colon, colon + 1)
    ensures var o := ParseMembers(text, at, depth, f, members, name);
            match StringOf(key)
            case None => o == Failed
            case Some(k) =>
              o == if |k| >= MAX_KEY_LENGTH then Thrown
                   else if f.rejectDupKeys && HasKey(members, k) then Failed
                   else ParseMember(text, colon - |gap|, depth, f, members, k)
  {
    hide At, ParseMembers, ParseMember, ParseValue, HasKey, StringOf, NonCommentFrom, TokenFrom, IsKey;
    KeyToken(text, at, ws, key, f);
    ColonToken(text, colon - |gap|, gap, f);
    MembersStep(text, at, depth, f, members, name);
  }

  lemma {:induction false} PlainPlace(members: seq<Member>, key: string)
    ensures |PlainMembers(members)| == |members|
    ensures Place(PlainMembers(members), key) == Place(members, key)
    ensures forall i :: 0 <= i < |members| ==> PlainMembers(members)[i] == Member(members[i].key, Plain(members[i].value))
  {
    hide BytesLess, Plain;
    if members != [] {
      PlainPlace(members[1..], key);
      assert PlainMembers(members)[1..] == PlainMembers(members[1..]);
    }
  }

  /** Setting a member does not depend on source ranges. */
  lemma SetPlain(members: seq<Member>, key: string, v: Value)
    ensures HasKey(PlainMembers(members), key) == HasKey(members, key)
    ensures PlainMembers(SetMember(members, key, v)) == SetMember(PlainMembers(members), key, Plain(v))
  {
    hide BytesLess, Plain, Place, PlainMembers;
    PlainPlace(members, key);
    PlainPlace(SetMember(members, key, v), key);
    assert |SetMember(members, key, v)| == |SetMember(PlainMembers(members), key, Plain(v))|;
  }

  /** The members of an object and its closing brace. */
  lemma {:induction false} FieldsAreRead(text: string, at: nat, ws: string, fields: seq<Field>, depth: nat, f: Features,
                                         members: seq<Member>, name: string)
    requires At(text, at, ws) && At(text, at + |ws|, RenderFields(fields, "}")) && AllSpaces(ws)
    requires fields != [] && FieldsOk(fields)
    ensures at <= |text|
            && YieldsMembers(ParseMembers(text, at, depth, f, members, name),
                             ReadFields(fields, depth, f, PlainMembers(members)),
                             at + |ws| + |RenderFields(fields, "}")|)
    decreases fields, 1
  {
    hide At, ParseValue, ParseMembers, ParseMember, Render, RenderSlot, RenderFields, LayOk, FieldsOk, IsKey,
      TokenFrom, NonCommentFrom, PlainMembers, FieldsTail, Plain, SetMember, HasKey, ReadLay, StringOf;
    var field, tail := fields[0], FieldsTail(fields);
    var slot := field.slot;
    var from := at + |ws| + |field.before|;
    var colon := from + |field.key| + |field.gap|;
    OpenFields(text, at, ws, fields, from, colon);
    OpenSlot(text, colon + 1, slot);
    FieldsOkUnfold(fields);
    FieldsUnfold(fields);
    SpacesJoin(ws, field.before);
    var end := colon + 1 + |RenderSlot(slot)|;
    var c := if |fields| == 1 then '}' else ',';
    var kind := if |fields| == 1 then ObjectEnd else ArraySeparator;
    AtSplit(text, end, [c], tail[1..]);
    ItemIsRead(text, colon + 1, slot.before, slot.item, slot.after, c, kind, depth + 1, f);
    AtBound(text, at, ws + field.before);
    KeyIsRead(text, at, ws + field.before, field.key, field.gap, colon, depth, f, members, name);
    if StringOf(field.key).Some? {
      var key := StringOf(field.key).value;
      MemberStep(text, colon - |field.gap|, depth, f, members, key);
      SetPlain(members, key, Value(Null, 0, 0));
      var o := ParseValue(text, colon + 1, depth + 1, f);
      if o.Done? {
        SetPlain(members, key, o.value);
        if |fields| > 1 {
          AtEmpty(text, end + 1);
          FieldsAreRead(text, end + 1, "", fields[1..], depth, f, SetMember(members, key, o.value), key);
        }
      }
    }
  }
}
