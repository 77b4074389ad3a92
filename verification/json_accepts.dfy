/**
 The converse: every text the reader accepts spells, token by token, a text of the grammar,
 but for what the reader allows beyond it: trailing commas, any token in place of a comma
 directly behind a comment, and number and string tokens that section 6 or 7 of RFC 8259 does
 not have.  JsonSpelled shows that all such texts are accepted.
 */
module JsonAccepts {
  import opened Wrappers
  import opened JsonText
  import opened JsonString
  import opened JsonNumber
  import opened JsonLexer
  import opened JsonValue
  import opened JsonParser
  import opened JsonLayout
  import opened JsonLexemes

  /** The tokens of an accepted text: `trailing` if a separator stands before the closing bracket. */
  datatype Doc =
    | Word(lexeme: string)
    | List(items: seq<Doc>, trailing: bool)
    | Table(entries: seq<Entry>, trailing: bool)

  /** A member, and the token after it if another member or the closing brace of a trailing comma follows. */
  datatype Entry = Entry(key: string, value: Doc, separator: string)

  /** What may stand before a token besides white space: comments or not, no comment, or at least one. */
  datatype Before = Free | Direct | Commented

  datatype Piece = Piece(lexeme: string, before: Before)

  /** Before a value comments are a matter of the settings. */
  function Lead(f: Features): Before {
    if f.allowComments then Free else Direct
  }

  function DocPieces(d: Doc, f: Features): seq<Piece> {
    match d
    case Word(lexeme) => [Piece(lexeme, Lead(f))]
    case List(items, trailing) => [Piece("[", Lead(f))] + ListPieces(items, trailing, f)
    case Table(entries, trailing) => [Piece("{", Lead(f))] + TablePieces(entries, trailing, f)
  }

  function ListPieces(items: seq<Doc>, trailing: bool, f: Features): seq<Piece> {
    if items == [] then [Piece("]", Direct)]
    else
      DocPieces(items[0], f) +
      (if |items| == 1 && !trailing then [Piece("]", Free)]
       else [Piece(",", Free)] + ListPieces(items[1..], trailing, f))
  }

  function TablePieces(entries: seq<Entry>, trailing: bool, f: Features): seq<Piece> {
    if entries == [] then [Piece("}", Free)]
    else
      [Piece(entries[0].key, Free)] + ([Piece(":", Direct)] + (DocPieces(entries[0].value, f) +
      (if |entries| == 1 && !trailing then [Piece("}", Free)]
       else [Separator(entries[0])] + TablePieces(entries[1..], trailing, f))))
  }

  /** A comma, or whatever stands behind a comment. */
  function Separator(e: Entry): Piece {
    Piece(e.separator, if e.separator == "," then Free else Commented)
  }

  function LexemesOf(pieces: seq<Piece>): (r: seq<string>)
    ensures |r| == |pieces|
  {
    if pieces == [] then [] else [pieces[0].lexeme] + LexemesOf(pieces[1..])
  }

  lemma {:induction false} LexemesJoin(a: seq<Piece>, b: seq<Piece>)
    ensures LexemesOf(a + b) == LexemesOf(a) + LexemesOf(b)
  {
    if a == [] {
      assert a + b == b;
    } else {
      assert (a + b)[1..] == a[1..] + b;
      LexemesJoin(a[1..], b);
    }
  }

  /** Tokens where tokens belong, and trailing commas where the reader takes them. */
  predicate DocOk(d: Doc, f: Features) {
    match d
    case Word(lexeme) => IsWord(lexeme)
    case List(items, trailing) => (trailing ==> items != [] && f.allowTrailingCommas) && ItemsOk(items, f)
    case Table(entries, trailing) =>
      (trailing ==> entries != [] && (f.allowTrailingCommas || StringOf(entries[|entries| - 1].key) == Some("")))
      && EntriesOk(entries, f)
  }

  predicate ItemsOk(items: seq<Doc>, f: Features) {
    items == [] || (DocOk(items[0], f) && ItemsOk(items[1..], f))
  }

  predicate EntriesOk(entries: seq<Entry>, f: Features) {
    entries == [] ||
    (IsKey(entries[0].key) && DocOk(entries[0].value, f) && entries[0].separator != "}" && EntriesOk(entries[1..], f))
  }

  /** All separators between items are commas, and none is trailing. */
  predicate Regular(d: Doc) {
    match d
    case Word(_) => true
    case List(items, trailing) => !trailing && RegularItems(items)
    case Table(entries, trailing) => !trailing && RegularEntries(entries)
  }

  predicate RegularItems(items: seq<Doc>) {
    items == [] || (Regular(items[0]) && RegularItems(items[1..]))
  }

  predicate RegularEntries(entries: seq<Entry>) {
    entries == [] ||
    ((|entries| > 1 ==> entries[0].separator == ",") && Regular(entries[0].value) && RegularEntries(entries[1..]))
  }

  /** The same tokens as a layout without white space. */
  function ToLay(d: Doc): Lay {
    match d
    case Word(lexeme) => Leaf(lexeme)
    case List(items, _) => ArrayLay("", ToSlots(items))
    case Table(entries, _) => ObjectLay("", ToFields(entries))
  }

  function ToSlots(items: seq<Doc>): (r: seq<Slot>)
    ensures |r| == |items|
  {
    if items == [] then [] else [Slot("", ToLay(items[0]), "")] + ToSlots(items[1..])
  }

  function ToFields(entries: seq<Entry>): (r: seq<Field>)
    ensures |r| == |entries|
  {
    if entries == [] then []
    else [Field("", entries[0].key, "", Slot("", ToLay(entries[0].value), ""))] + ToFields(entries[1..])
  }

  /** A regular document spells the lexemes of its layout, and the layout is one. */
  lemma {:induction false} RegularSpells(d: Doc, f: Features)
    requires DocOk(d, f)
    ensures LayOk(ToLay(d)) && (Regular(d) ==> LexemesOf(DocPieces(d, f)) == LayLexemes(ToLay(d)))
    decreases d
  {
    hide ListPieces, TablePieces, ItemsOk, EntriesOk, RegularItems, RegularEntries, SlotLexemes, FieldLexemes, SlotsOk,
      FieldsOk, IsWord;
    match d
    case Word(lexeme) => LexemesCons(Piece(lexeme, Lead(f)), []); NoPieces([Piece(lexeme, Lead(f))]);
    case List(items, trailing) =>
      RegularList(items, f);
      LexemesCons(Piece("[", Lead(f)), ListPieces(items, trailing, f));
    case Table(entries, trailing) =>
      RegularTable(entries, f);
      LexemesCons(Piece("{", Lead(f)), TablePieces(entries, trailing, f));
  }

  lemma LexemesCons(p: Piece, pieces: seq<Piece>)
    ensures LexemesOf([p] + pieces) == [p.lexeme] + LexemesOf(pieces)
  {
    assert ([p] + pieces)[1..] == pieces;
  }

  lemma NoPieces(pieces: seq<Piece>)
    ensures LexemesOf([]) == [] && pieces + [] == pieces
  {
  }

  lemma {:induction false} RegularList(items: seq<Doc>, f: Features)
    requires ItemsOk(items, f)
    ensures SlotsOk(ToSlots(items))
    ensures RegularItems(items) ==> LexemesOf(ListPieces(items, false, f)) == SlotLexemes(ToSlots(items))
    decreases items
  {
    hide DocOk, LayOk, Regular, DocPieces, LayLexemes, ToLay, LexemesOf;
    var close := Piece("]", if items == [] then Direct else Free);
    LexemesCons(close, []);
    NoPieces([close]);
    if items != [] {
      RegularSpells(items[0], f);
      RegularList(items[1..], f);
      assert ToSlots(items)[1..] == ToSlots(items[1..]);
      LexemesJoin(DocPieces(items[0], f), [close]);
      LexemesJoin(DocPieces(items[0], f), [Piece(",", Free)] + ListPieces(items[1..], false, f));
      LexemesCons(Piece(",", Free), ListPieces(items[1..], false, f));
    }
  }

  lemma {:induction false} RegularTable(entries: seq<Entry>, f: Features)
    requires EntriesOk(entries, f)
    ensures FieldsOk(ToFields(entries))
    ensures RegularEntries(entries) ==> LexemesOf(TablePieces(entries, false, f)) == FieldLexemes(ToFields(entries))
    decreases entries
  {
    hide DocOk, LayOk, Regular, DocPieces, LayLexemes, ToLay, IsKey, LexemesOf, Separator;
    LexemesCons(Piece("}", Free), []);
    NoPieces([Piece("}", Free)]);
    if entries != [] {
      RegularSpells(entries[0].value, f);
      RegularTable(entries[1..], f);
      assert ToFields(entries)[1..] == ToFields(entries[1..]);
      assert FieldOk(ToFields(entries)[0]);
      var more := if |entries| == 1 then [Piece("}", Free)]
                  else [Separator(entries[0])] + TablePieces(entries[1..], false, f);
      LexemesEntry(entries[0], more, f);
      LexemesCons(Separator(entries[0]), TablePieces(entries[1..], false, f));
      assert Separator(entries[0]).lexeme == entries[0].separator by { SeparatorLexeme(entries[0]); }
    }
  }

  lemma SeparatorLexeme(e: Entry)
    ensures Separator(e).lexeme == e.separator
  {
  }

  lemma LexemesEntry(e: Entry, more: seq<Piece>, f: Features)
    ensures LexemesOf([Piece(e.key, Free)] + ([Piece(":", Direct)] + (DocPieces(e.value, f) + more)))
            == [e.key] + ([":"] + (LexemesOf(DocPieces(e.value, f)) + LexemesOf(more)))
  {
    hide DocPieces, LexemesOf;
    LexemesJoin(DocPieces(e.value, f), more);
    LexemesCons(Piece(":", Direct), DocPieces(e.value, f) + more);
    LexemesCons(Piece(e.key, Free), [Piece(":", Direct)] + (DocPieces(e.value, f) + more));
  }

  // ---------------------------------------------------------------- spelling

  /** Comments stand before the next token where the piece says so. */
  predicate Placed(text: string, at: nat, before: Before)
    requires at <= |text|
  {
    match before
    case Free => true
    case Direct => TokenFrom(text, at).kind != Comment
    case Commented => TokenFrom(text, at).kind == Comment
  }

  /** From `at` to `end` the text has these tokens, with comments where they may stand, and white space anywhere. */
  predicate Spells(text: string, at: nat, end: nat, pieces: seq<Piece>)
    decreases |pieces|
  {
    at <= |text| &&
    if pieces == [] then at == end
    else
      var t := NonCommentFrom(text, at);
      Placed(text, at, pieces[0].before) && t.start < t.end && text[t.start..t.end] == pieces[0].lexeme
      && Spells(text, t.end, end, pieces[1..])
  }

  lemma {:induction false} SpellsJoin(text: string, at: nat, mid: nat, end: nat, a: seq<Piece>, b: seq<Piece>)
    requires Spells(text, at, mid, a) && Spells(text, mid, end, b)
    ensures Spells(text, at, end, a + b)
    decreases |a|
  {
    hide NonCommentFrom, Placed;
    if a == [] {
      assert a + b == b;
    } else {
      SpellsJoin(text, NonCommentFrom(text, at).end, mid, end, a[1..], b);
      assert (a + b)[0] == a[0] && (a + b)[1..] == a[1..] + b;
    }
  }

  lemma SpellsOne(text: string, at: nat, t: Token, before: Before)
    requires at <= |text| && NonCommentFrom(text, at) == t && t.start < t.end && Placed(text, at, before)
    ensures Spells(text, at, t.end, [Piece(text[t.start..t.end], before)])
  {
    hide NonCommentFrom, Placed;
    assert [Piece(text[t.start..t.end], before)][1..] == [];
  }

  /** White space in front does not matter. */
  lemma SpellsAtSpaces(text: string, at: nat, end: nat, pieces: seq<Piece>)
    requires at <= |text| && pieces != []
    ensures Spells(text, at + Spaces(text[at..]), end, pieces) <==> Spells(text, at, end, pieces)
  {
    hide NonCommentFrom, Spaces, TokenFrom;
    SpacesBefore(text, at);
  }

  lemma SpacesBefore(text: string, at: nat)
    requires at <= |text|
    ensures var k := at + Spaces(text[at..]);
            k <= |text| && TokenFrom(text, k) == TokenFrom(text, at) && NonCommentFrom(text, k) == NonCommentFrom(text, at)
  {
    hide TokenAt, NonCommentFrom;
    var k := at + Spaces(text[at..]);
    assert text[at..][k - at..] == text[k..] && text[k..][0..] == text[k..];
    assert Spaces(text[k..]) == 0;
    NonCommentStep(text, at);
    NonCommentStep(text, k);
  }

  lemma SomePieces(d: Doc, f: Features)
    ensures DocPieces(d, f) != []
  {
  }

  // ---------------------------------------------------------------- a token of a text is a token by itself

  lemma {:induction false} RunCut(s: string, n: nat)
    requires DigitRun(s) <= n <= |s|
    ensures DigitRun(s[..n]) == DigitRun(s)
  {
    if s != "" && IsDigit(s[0]) {
      RunCut(s[1..], n - 1);
      assert s[..n][1..] == s[1..][..n - 1];
    }
  }

  lemma FractionCut(s: string, n: nat)
    requires FractionEnd(s) <= n <= |s|
    ensures FractionEnd(s[..n]) == FractionEnd(s)
  {
    hide DigitRun;
    var a := DigitRun(s);
    RunCut(s, n);
    if a < |s| && s[a] == '.' {
      RunCut(s[a + 1..], n - a - 1);
      assert s[..n][a] == s[a] && s[..n][a + 1..] == s[a + 1..][..n - a - 1];
    }
  }

  lemma ExponentCut(s: string, n: nat)
    requires ExponentEnd(s) == n <= |s|
    ensures ExponentEnd(s[..n]) == n
  {
    hide DigitRun;
    if s != "" && (s[0] == 'e' || s[0] == 'E') {
      var c := if |s| > 1 && (s[1] == '+' || s[1] == '-') then 2 else 1;
      RunCut(s[c..], n - c);
      assert s[..n][0] == s[0] && s[..n][c..] == s[c..][..n - c];
      if n > 1 {
        assert s[..n][1] == s[1];
      }
    }
  }

  lemma NumberCut(s: string, n: nat)
    requires NumberEnd(s) == n
    ensures n <= |s| && NumberEnd(s[..n]) == n
  {
    hide FractionEnd, ExponentEnd;
    var a := FractionEnd(s);
    FractionCut(s, n);
    ExponentCut(s[a..], n - a);
    assert s[..n][a..] == s[a..][..n - a];
  }

  lemma {:induction false} StringCut(s: string, n: nat)
    requires StringEnd(s) == Some(n)
    ensures n <= |s| && StringEnd(s[..n]) == Some(n)
    decreases |s|
  {
    if s[0] == '\"' {
    } else if s[0] != '\\' {
      StringCut(s[1..], n - 1);
      assert s[..n][1..] == s[1..][..n - 1];
    } else {
      StringCut(s[2..], n - 2);
      assert s[..n][2..] == s[2..][..n - 2];
    }
  }

  lemma TokenCut(s: string)
    requires TokenAt(s).0 in {StringToken, NumberToken, TrueToken, FalseToken, NullToken}
    ensures TokenAt(s[..TokenAt(s).1]) == TokenAt(s)
  {
    hide NumberEnd, StringEnd, CommentEnd;
    var n := TokenAt(s).1;
    var w := s[..n];
    assert n > 0 && w[0] == s[0] && w[1..] == s[1..][..n - 1];
    if s[0] == '\"' {
      StringCut(s[1..], n - 1);
    } else if s[0] !in "tfn" {
      NumberCut(s[1..], n - 1);
      assert n > 1 ==> w[1] == s[1];
    }
  }

  lemma WordOfText(text: string, at: nat)
    requires at <= |text|
    requires TokenFrom(text, at).kind in {StringToken, NumberToken, TrueToken, FalseToken, NullToken}
    ensures var t := TokenFrom(text, at); TokenAt(text[t.start..t.end]) == (t.kind, t.end - t.start)
  {
    hide TokenAt, Spaces;
    var n := Spaces(text[at..]);
    var rest := text[at + n..];
    assert text[at..][n..] == rest;
    TokenCut(rest);
    assert rest[..TokenAt(rest).1] == text[at + n..at + n + TokenAt(rest).1];
  }

  /** The first token of a value, comments or not. */
  lemma FirstIsNonComment(text: string, at: nat, f: Features)
    requires at <= |text| && FirstToken(text, at, f).kind != Comment
    ensures FirstToken(text, at, f) == NonCommentFrom(text, at) && Placed(text, at, Lead(f))
  {
    hide TokenFrom, NonCommentFrom;
    NonCommentStep(text, at);
  }

  lemma {:induction false} WordOfNonComment(text: string, at: nat)
    requires at <= |text|
    requires NonCommentFrom(text, at).kind in {StringToken, NumberToken, TrueToken, FalseToken, NullToken}
    ensures var t := NonCommentFrom(text, at); TokenAt(text[t.start..t.end]) == (t.kind, t.end - t.start)
    decreases |text| - at
  {
    hide TokenFrom, NonCommentFrom, TokenAt;
    NonCommentStep(text, at);
    if TokenFrom(text, at).kind == Comment {
      WordOfNonComment(text, TokenFrom(text, at).end);
    } else {
      WordOfText(text, at);
    }
  }

  lemma PunctuationText(text: string, at: nat)
    requires at <= |text|
    ensures var t := TokenFrom(text, at);
            && (t.kind == ObjectBegin <==> text[t.start..t.end] == "{")
            && (t.kind == ObjectEnd <==> text[t.start..t.end] == "}")
            && (t.kind == ArrayBegin <==> text[t.start..t.end] == "[")
            && (t.kind == ArrayEnd <==> text[t.start..t.end] == "]")
            && (t.kind == ArraySeparator <==> text[t.start..t.end] == ",")
            && (t.kind == MemberSeparator <==> text[t.start..t.end] == ":")
            && (t.start == t.end ==> t.end == |text|)
  {
    hide NumberEnd, StringEnd, CommentEnd, Spaces;
    var n := Spaces(text[at..]);
    assert text[at..][n..] == text[at + n..];
    if at + n < |text| {
      assert text[at + n..][0] == text[at + n];
      assert text[at + n..at + n + 1] == [text[at + n]];
    }
  }

  lemma {:induction false} NonCommentText(text: string, at: nat)
    requires at <= |text|
    ensures var t := NonCommentFrom(text, at);
            && (t.kind == ObjectBegin <==> text[t.start..t.end] == "{")
            && (t.kind == ObjectEnd <==> text[t.start..t.end] == "}")
            && (t.kind == ArrayBegin <==> text[t.start..t.end] == "[")
            && (t.kind == ArrayEnd <==> text[t.start..t.end] == "]")
            && (t.kind == ArraySeparator <==> text[t.start..t.end] == ",")
            && (t.kind == MemberSeparator <==> text[t.start..t.end] == ":")
            && (t.start == t.end ==> t.end == |text|)
    decreases |text| - at
  {
    hide TokenFrom, NonCommentFrom;
    NonCommentStep(text, at);
    PunctuationText(text, at);
    if TokenFrom(text, at).kind == Comment {
      NonCommentText(text, TokenFrom(text, at).end);
    }
  }

  // ---------------------------------------------------------------- accepted texts

  /** An accepted value spells a document, and its value is what the tokens say. */
  lemma {:induction false} AcceptedSpells(text: string, at: nat, depth: nat, f: Features) returns (d: Doc)
    requires at <= |text| && ParseValue(text, at, depth, f).Done?
    ensures var o := ParseValue(text, at, depth, f);
            Spells(text, at, o.end, DocPieces(d, f)) && DocOk(d, f)
            && ReadLay(ToLay(d), depth, f) == Reads(Plain(o.value))
    decreases |text| - at, 1
  {
    hide ParseValue, ParseItems, ParseMembers, FirstToken, NonCommentFrom, NumberPayload, StringOf, TokenAt, Spells,
      Placed, Lead;
    ValueStep(text, at, depth, f);
    FirstIsNonComment(text, at, f);
    NonCommentText(text, at);
    var t := NonCommentFrom(text, at);
    SpellsOne(text, at, t, Lead(f));
    if t.kind == ArrayBegin {
      d := ArraySpells(text, at, t, depth, f);
    } else if t.kind == ObjectBegin {
      d := ObjectSpells(text, at, t, depth, f);
    } else {
      WordOfNonComment(text, at);
      d := Word(text[t.start..t.end]);
      PayloadIsLeaf(text[t.start..t.end], f);
    }
  }

  lemma PayloadIsLeaf(lexeme: string, f: Features)
    ensures match NumberPayload(lexeme, f) case Some(p) => !p.Arr? && !p.Obj? case None => true
  {
  }

  lemma {:induction false} ArraySpells(text: string, at: nat, t: Token, depth: nat, f: Features) returns (d: Doc)
    requires at <= |text| && t == NonCommentFrom(text, at) && t.kind == ArrayBegin && depth <= f.stackLimit
    requires Placed(text, at, Lead(f))
    requires ParseItems(text, t.end, depth, f, []).Done?
    ensures var o := ParseItems(text, t.end, depth, f, []);
            Spells(text, at, o.end, DocPieces(d, f)) && DocOk(d, f)
            && ReadLay(ToLay(d), depth, f) == Reads(Value(Arr(PlainItems(o.value)), 0, 0))
    decreases |text| - at, 0
  {
    hide ParseItems, NonCommentFrom, Spells, ReadSlots, ListPieces, ItemsOk, Placed, Lead;
    NonCommentText(text, at);
    SpellsOne(text, at, t, Lead(f));
    var o := ParseItems(text, t.end, depth, f, []);
    var ds, trailing := ItemsSpell(text, t.end, depth, f, []);
    SpellsJoin(text, at, t.end, o.end, [Piece("[", Lead(f))], ListPieces(ds, trailing, f));
    NoItems([]);
    d := List(ds, trailing);
  }

  lemma {:induction false} ObjectSpells(text: string, at: nat, t: Token, depth: nat, f: Features) returns (d: Doc)
    requires at <= |text| && t == NonCommentFrom(text, at) && t.kind == ObjectBegin && depth <= f.stackLimit
    requires Placed(text, at, Lead(f))
    requires ParseMembers(text, t.end, depth, f, [], "").Done?
    ensures var o := ParseMembers(text, t.end, depth, f, [], "");
            Spells(text, at, o.end, DocPieces(d, f)) && DocOk(d, f)
            && ReadLay(ToLay(d), depth, f) == Reads(Value(Obj(PlainMembers(o.value)), 0, 0))
    decreases |text| - at, 0
  {
    hide ParseMembers, NonCommentFrom, Spells, ReadFields, TablePieces, EntriesOk, StringOf, Placed, Lead;
    NonCommentText(text, at);
    SpellsOne(text, at, t, Lead(f));
    var o := ParseMembers(text, t.end, depth, f, [], "");
    var es, trailing := MembersSpell(text, t.end, depth, f, [], "");
    SpellsJoin(text, at, t.end, o.end, [Piece("{", Lead(f))], TablePieces(es, trailing, f));
    NoMembers();
    d := Table(es, trailing);
  }

  /** An item in front of others, or of a trailing comma. */
  lemma ListUnfold(d: Doc, more: seq<Doc>, trailing: bool, f: Features)
    ensures var ds, tail := [d] + more, more == [] || trailing;
            && ListPieces(ds, tail, f) == DocPieces(d, f) + ([Piece(",", Free)] + ListPieces(more, trailing, f))
            && ListPieces([d], false, f) == DocPieces(d, f) + [Piece("]", Free)]
            && (ItemsOk(ds, f) <==> DocOk(d, f) && ItemsOk(more, f))
            && ToSlots(ds) == [Slot("", ToLay(d), "")] + ToSlots(more)
  {
    hide DocPieces, DocOk, ToLay;
    assert ([d] + more)[1..] == more;
    assert [d][1..] == [];
  }

  lemma ReadSlotsUnfold(lay: Lay, slots: seq<Slot>, depth: nat, f: Features, v: Value)
    requires ReadLay(lay, depth + 1, f) == Reads(v)
    ensures ReadSlots([Slot("", lay, "")] + slots, depth, f)
            == match ReadSlots(slots, depth, f)
               case Reads(more) => Reads([v] + more)
               case r => r
  {
    hide ReadLay;
    assert ([Slot("", lay, "")] + slots)[1..] == slots;
  }

  lemma NoSlotsRead(items: seq<Value>, depth: nat, f: Features)
    ensures ReadSlots(ToSlots([]), depth, f) == Reads([]) && PlainItems(items) + [] == PlainItems(items)
    ensures ToSlots([]) == [] && ItemsOk([], f)
    ensures ListPieces([], true, f) == [Piece("]", Direct)] == ListPieces([], false, f)
  {
  }

  lemma CloseBracket(text: string, at: nat, f: Features, items: seq<Value>)
    requires at <= |text| && ClosesArray(text, at + Spaces(text[at..]), f, items)
    ensures Spells(text, at, at + Spaces(text[at..]) + 1, [Piece("]", Direct)])
  {
    hide NonCommentFrom, TokenFrom, Spaces, Spells;
    var k := at + Spaces(text[at..]);
    BracketAt(text, k);
    assert text[k..k + 1] == "]";
    SpellsOne(text, k, Token(ArrayEnd, k, k + 1), Direct);
    SpellsAtSpaces(text, at, k + 1, [Piece("]", Direct)]);
  }

  lemma BracketAt(text: string, k: nat)
    requires k < |text| && text[k] == ']'
    ensures NonCommentFrom(text, k) == TokenFrom(text, k) == Token(ArrayEnd, k, k + 1)
  {
    hide NonCommentFrom;
    assert text[k..][0] == ']' && text[k..][0..] == text[k..];
    NonCommentStep(text, k);
  }

  lemma {:induction false} ItemsSpell(text: string, at: nat, depth: nat, f: Features, items: seq<Value>)
    returns (ds: seq<Doc>, trailing: bool)
    requires at <= |text| && ParseItems(text, at, depth, f, items).Done?
    ensures var o := ParseItems(text, at, depth, f, items);
            Spells(text, at, o.end, ListPieces(ds, trailing, f)) && ItemsOk(ds, f)
            && YieldsItems(o, items, ReadSlots(ToSlots(ds), depth, f), o.end)
    ensures (trailing ==> ds != [] && f.allowTrailingCommas) && (ds == [] ==> items == [] || f.allowTrailingCommas)
    decreases |text| - at, 2
  {
    hide ParseValue, ParseItems, NonCommentFrom, Spaces, Spells, DocPieces, ListPieces, DocOk, ItemsOk, ToLay, ToSlots,
      ReadLay, ReadSlots, PlainItems, Plain;
    var k := at + Spaces(text[at..]);
    ItemsStep(text, at, k, depth, f, items);
    NoSlotsRead(items, depth, f);
    if ClosesArray(text, k, f, items) {
      CloseBracket(text, at, f, items);
      return [], false;
    }
    var o := ParseValue(text, k, depth + 1, f);
    var d := AcceptedSpells(text, k, depth + 1, f);
    SomePieces(d, f);
    SpellsAtSpaces(text, at, o.end, DocPieces(d, f));
    var t := NonCommentFrom(text, o.end);
    NonCommentText(text, o.end);
    SpellsOne(text, o.end, t, Free);
    AppendItem(items, o.value);
    if t.kind == ArrayEnd {
      SpellsJoin(text, at, o.end, t.end, DocPieces(d, f), [Piece("]", Free)]);
      ListUnfold(d, [], false, f);
      ReadSlotsUnfold(ToLay(d), ToSlots([]), depth, f, Plain(o.value));
      assert [d] + [] == [d];
      return [d], false;
    }
    var more, tail := ItemsSpell(text, t.end, depth, f, items + [o.value]);
    var last := ParseItems(text, t.end, depth, f, items + [o.value]).end;
    SpellsJoin(text, o.end, t.end, last, [Piece(",", Free)], ListPieces(more, tail, f));
    SpellsJoin(text, at, o.end, last, DocPieces(d, f), [Piece(",", Free)] + ListPieces(more, tail, f));
    ListUnfold(d, more, tail, f);
    ReadSlotsUnfold(ToLay(d), ToSlots(more), depth, f, Plain(o.value));
    AssocItems(PlainItems(items), [Plain(o.value)], ReadSlots(ToSlots(more), depth, f).value);
    return [d] + more, more == [] || tail;
  }

  /** A member in front of others, or of a trailing comma. */
  lemma TableUnfold(e: Entry, more: seq<Entry>, trailing: bool, f: Features)
    ensures var es, tail := [e] + more, more == [] || trailing;
            && TablePieces(es, tail, f) == EntryPieces(e, [Separator(e)] + TablePieces(more, trailing, f), f)
            && TablePieces([e], false, f) == EntryPieces(e, [Piece("}", Free)], f)
            && (EntriesOk(es, f) <==> IsKey(e.key) && DocOk(e.value, f) && e.separator != "}" && EntriesOk(more, f))
            && ToFields(es) == [Field("", e.key, "", Slot("", ToLay(e.value), ""))] + ToFields(more)
            && (more != [] ==> es[|es| - 1] == more[|more| - 1])
  {
    hide DocPieces, DocOk, ToLay, StringOf, IsKey, Separator;
    assert ([e] + more)[1..] == more;
    assert [e][1..] == [];
  }

  /** A member and what is behind its value. */
  function EntryPieces(e: Entry, more: seq<Piece>, f: Features): seq<Piece> {
    [Piece(e.key, Free)] + ([Piece(":", Direct)] + (DocPieces(e.value, f) + more))
  }

  lemma NoFieldsRead(members: seq<Member>, depth: nat, f: Features)
    ensures ReadFields(ToFields([]), depth, f, members) == Reads(members)
    ensures ToFields([]) == [] && EntriesOk([], f)
    ensures TablePieces([], true, f) == [Piece("}", Free)] == TablePieces([], false, f)
  {
  }

  lemma ReadFieldsUnfold(e: Entry, fields: seq<Field>, depth: nat, f: Features, members: seq<Member>, v: Value, key: string)
    requires StringOf(e.key) == Some(key) && |key| < MAX_KEY_LENGTH && !(f.rejectDupKeys && HasKey(members, key))
    requires ReadLay(ToLay(e.value), depth + 1, f) == Reads(v)
    ensures ReadFields([Field("", e.key, "", Slot("", ToLay(e.value), ""))] + fields, depth, f, members)
            == ReadFields(fields, depth, f, SetMember(members, key, v))
  {
    hide ReadLay, StringOf, HasKey, SetMember, ToLay;
    var fs := [Field("", e.key, "", Slot("", ToLay(e.value), ""))] + fields;
    assert fs[1..] == fields && fs[0].key == e.key;
  }

  /** A key, a colon, a value and what is behind it. */
  lemma SpellsEntry(text: string, a: nat, b: nat, c: nat, d: nat, end: nat, e: Entry, more: seq<Piece>, f: Features)
    requires Spells(text, a, b, [Piece(e.key, Free)]) && Spells(text, b, c, [Piece(":", Direct)])
    requires Spells(text, c, d, DocPieces(e.value, f)) && Spells(text, d, end, more)
    ensures Spells(text, a, end, EntryPieces(e, more, f))
  {
    hide Spells, DocPieces;
    var value := DocPieces(e.value, f);
    SpellsJoin(text, c, d, end, value, more);
    SpellsJoin(text, b, c, end, [Piece(":", Direct)], value + more);
    SpellsJoin(text, a, b, end, [Piece(e.key, Free)], [Piece(":", Direct)] + (value + more));
  }

  lemma NothingLeft(text: string, depth: nat, f: Features, members: seq<Member>, name: string)
    ensures ParseMembers(text, |text|, depth, f, members, name) == Failed
  {
    hide ParseMember;
    assert text[|text|..] == "";
    MembersStep(text, |text|, depth, f, members, name);
  }

  /** The key of a member: one string token. */
  lemma EntryKey(text: string, at: nat, t: Token)
    requires at <= |text| && t == NonCommentFrom(text, at) && t.kind == StringToken
    ensures IsKey(text[t.start..t.end]) && Spells(text, at, t.end, [Piece(text[t.start..t.end], Free)])
  {
    hide NonCommentFrom, Spells, TokenAt;
    WordOfNonComment(text, at);
    SpellsOne(text, at, t, Free);
  }

  lemma EntryColon(text: string, at: nat)
    requires at <= |text| && TokenFrom(text, at).kind == MemberSeparator
    ensures Spells(text, at, TokenFrom(text, at).end, [Piece(":", Direct)])
  {
    hide NonCommentFrom, TokenFrom, Spells;
    NonCommentStep(text, at);
    NonCommentText(text, at);
    SpellsOne(text, at, TokenFrom(text, at), Direct);
  }

  lemma {:induction false} MembersSpell(text: string, at: nat, depth: nat, f: Features, members: seq<Member>, name: string)
    returns (es: seq<Entry>, trailing: bool)
    requires at <= |text| && ParseMembers(text, at, depth, f, members, name).Done?
    ensures var o := ParseMembers(text, at, depth, f, members, name);
            Spells(text, at, o.end, TablePieces(es, trailing, f)) && EntriesOk(es, f)
            && YieldsMembers(o, ReadFields(ToFields(es), depth, f, PlainMembers(members)), o.end)
    ensures trailing ==> es != [] && (f.allowTrailingCommas || StringOf(es[|es| - 1].key) == Some(""))
    ensures es == [] ==> name == "" || f.allowTrailingCommas
    decreases |text| - at, 2
  {
    hide ParseValue, ParseMembers, ParseMember, NonCommentFrom, TokenFrom, Spells, TablePieces, EntriesOk, ToFields,
      ReadFields, PlainMembers, StringOf, HasKey, SetMember, IsKey, DocOk;
    MembersStep(text, at, depth, f, members, name);
    NoFieldsRead(PlainMembers(members), depth, f);
    var t := NonCommentFrom(text, at);
    NonCommentText(text, at);
    if t.kind == ObjectEnd {
      SpellsOne(text, at, t, Free);
      return [], false;
    }
    EntryKey(text, at, t);
    var key := StringOf(text[t.start..t.end]).value;
    es, trailing := MemberSpells(text, at, t, depth, f, members, key);
  }

  lemma {:induction false} MemberSpells(text: string, at: nat, t: Token, depth: nat, f: Features, members: seq<Member>,
                                        key: string)
    returns (es: seq<Entry>, trailing: bool)
    requires at <= |text| && t == NonCommentFrom(text, at) && t.kind == StringToken
    requires IsKey(text[t.start..t.end]) && Spells(text, at, t.end, [Piece(text[t.start..t.end], Free)])
    requires StringOf(text[t.start..t.end]) == Some(key) && |key| < MAX_KEY_LENGTH
    requires !(f.rejectDupKeys && HasKey(members, key))
    requires ParseMember(text, t.end, depth, f, members, key).Done?
    ensures es != []
    ensures var o := ParseMember(text, t.end, depth, f, members, key);
            Spells(text, at, o.end, TablePieces(es, trailing, f)) && EntriesOk(es, f)
            && YieldsMembers(o, ReadFields(ToFields(es), depth, f, PlainMembers(members)), o.end)
    ensures trailing ==> f.allowTrailingCommas || StringOf(es[|es| - 1].key) == Some("")
    decreases |text| - at, 1
  {
    hide ParseValue, ParseMembers, ParseMember, NonCommentFrom, TokenFrom, Spells, TablePieces, EntriesOk, ToFields,
      ReadFields, PlainMembers, StringOf, HasKey, SetMember, IsKey, DocOk, ToLay, ReadLay, Plain, DocPieces,
      EntryPieces, Separator;
    MemberStep(text, t.end, depth, f, members, key);
    EntryColon(text, t.end);
    var colon := TokenFrom(text, t.end);
    var o := ParseValue(text, colon.end, depth + 1, f);
    var d := AcceptedSpells(text, colon.end, depth + 1, f);
    var lexeme := text[t.start..t.end];
    var last, more := NonCommentFrom(text, o.end), SetMember(members, key, o.value);
    SetPlain(members, key, o.value);
    NonCommentText(text, o.end);
    if last.kind == ObjectEnd {
      var e := Entry(lexeme, d, ",");
      NoFieldsRead(PlainMembers(more), depth, f);
      ReadFieldsUnfold(e, [], depth, f, PlainMembers(members), Plain(o.value), key);
      SpellsOne(text, o.end, last, Free);
      SpellsEntry(text, at, t.end, colon.end, o.end, last.end, e, [Piece("}", Free)], f);
      TableUnfold(e, [], false, f);
      assert [e] + [] == [e];
      return [e], false;
    }
    if last.start == last.end { NothingLeft(text, depth, f, more, key); }
    var e := Entry(lexeme, d, text[last.start..last.end]);
    var rest, tail := MembersSpell(text, last.end, depth, f, more, key);
    var end := ParseMembers(text, last.end, depth, f, more, key).end;
    ReadFieldsUnfold(e, ToFields(rest), depth, f, PlainMembers(members), Plain(o.value), key);
    SeparatorPlaced(text, o.end, e);
    SpellsJoin(text, o.end, last.end, end, [Separator(e)], TablePieces(rest, tail, f));
    SpellsEntry(text, at, t.end, colon.end, o.end, end, e, [Separator(e)] + TablePieces(rest, tail, f), f);
    TableUnfold(e, rest, tail, f);
    return [e] + rest, rest == [] || tail;
  }

  /** What separates two members: a comma, or any token behind a comment. */
  lemma SeparatorPlaced(text: string, at: nat, e: Entry)
    requires at <= |text| && TokenFrom(text, at).kind in {ObjectEnd, ArraySeparator, Comment}
    requires var t := NonCommentFrom(text, at);
             t.kind != ObjectEnd && t.start < t.end && e.separator == text[t.start..t.end]
    ensures Spells(text, at, NonCommentFrom(text, at).end, [Separator(e)])
  {
    hide NonCommentFrom, TokenFrom, Spells;
    NonCommentStep(text, at);
    NonCommentText(text, at);
    SpellsOne(text, at, NonCommentFrom(text, at), Separator(e).before);
  }
}
