/**
 Whole documents: a layout with white space around it, and what the reader answers.
 */
module JsonDocuments {
  import opened Wrappers
  import opened JsonText
  import opened JsonString
  import opened JsonNumber
  import opened JsonLexer
  import opened JsonValue
  import opened JsonParser
  import opened JsonLayout
  import opened JsonLexemes

  lemma {:induction false} SpacesOnly(ws: string)
    requires AllSpaces(ws)
    ensures Spaces(ws) == |ws|
  {
    if ws != "" {
      SpacesOnly(ws[1..]);
    }
  }

  /** Only white space is left. */
  lemma BlankEnd(text: string, at: nat, f: Features)
    requires at <= |text| && AllSpaces(text[at..])
    ensures FirstToken(text, at, f).kind == EndOfStream && Lexemes(text, at) == []
  {
    hide Spaces, TokenAt;
    var rest := text[at..];
    SpacesOnly(rest);
    assert rest[|rest|..] == "";
    assert TokenAt("") == (EndOfStream, 0) by { NoToken(); }
  }

  lemma NoToken()
    ensures TokenAt("") == (EndOfStream, 0)
  {
  }

  lemma AtStartOf(a: string, b: string)
    ensures At(a + b, 0, "") && At(a + b, 0, a) && (a + b)[|a|..] == b
  {
  }

  /** A layout and more white space have the lexemes of the layout. */
  lemma DocumentLexemes(lay: Lay, after: string)
    requires LayOk(lay) && AllSpaces(after)
    ensures Lexemes(Render(lay) + after, 0) == LayLexemes(lay)
  {
    hide Render, LayOk, Lexemes, LayLexemes, At, EndsToken;
    var text := Render(lay) + after;
    AtStartOf(Render(lay), after);
    SpacesEnd(text, |Render(lay)|, after);
    LexLay(text, 0, "", lay);
    BlankEnd(text, |Render(lay)|, Features(false, false, false, false, false, false, 0, _ => None));
  }

  lemma SpacesEnd(text: string, at: nat, after: string)
    requires at <= |text| && text[at..] == after && AllSpaces(after)
    ensures EndsToken(text, at)
  {
  }

  predicate IsLeaf(v: Value) {
    !v.payload.Arr? && !v.payload.Obj?
  }

  /** What the reader answers to a document with these tokens. */
  predicate Answers(o: Outcome<Value>, r: Reading<Value>, f: Features, end: nat) {
    match r
    case Reads(x) =>
      if f.strictRoot && IsLeaf(x) then o == Failed else o.Done? && o.end == end && Plain(o.value) == x
    case Rejects => o == Failed
    case Throws => o == Thrown
  }

  /** A layout with white space around it is read as one document. */
  lemma DocumentIsRead(before: string, lay: Lay, after: string, f: Features)
    requires AllSpaces(before) && LayOk(lay) && AllSpaces(after)
    ensures var text := before + (Render(lay) + after);
            Answers(ParseDocument(WithoutBom(text, f), f), ReadLay(lay, 1, f), f, |before| + |Render(lay)|)
    ensures before == "" ==> before + (Render(lay) + after) == Render(lay) + after
  {
    hide Render, LayOk, ParseValue, FirstToken, At, ReadLay, WithoutBom, EndsToken;
    var text := before + (Render(lay) + after);
    PlacedAt(before, Render(lay), after);
    SpacesEnd(text, |before| + |Render(lay)|, after);
    NoBom(before, lay, after, f);
    LayIsRead(text, 0, before, lay, 1, f);
    BlankEnd(text, |before| + |Render(lay)|, f);
    var o := ParseValue(text, 0, 1, f);
    if o.Done? { PlainIsLeaf(o.value); }
  }

  /** A NUL behind a document hides the rest of the text: it is taken for the end. */
  lemma NulEndsDocument(before: string, lay: Lay, after: string, rest: string, f: Features)
    requires AllSpaces(before) && LayOk(lay) && AllSpaces(after)
    ensures var text := before + (Render(lay) + (after + ("\0" + rest)));
            Answers(ParseDocument(WithoutBom(text, f), f), ReadLay(lay, 1, f), f, |before| + |Render(lay)|)
  {
    hide Render, LayOk, ParseValue, FirstToken, At, ReadLay, WithoutBom, EndsToken;
    var hidden := after + ("\0" + rest);
    var text, end := before + (Render(lay) + hidden), |before| + |Render(lay)|;
    PlacedAt(before, Render(lay), hidden);
    NulEnds(text, end, after, rest, f);
    NoBom(before, lay, hidden, f);
    LayIsRead(text, 0, before, lay, 1, f);
    var o := ParseValue(text, 0, 1, f);
    if o.Done? { PlainIsLeaf(o.value); }
  }

  lemma NulEnds(text: string, at: nat, ws: string, rest: string, f: Features)
    requires at <= |text| && text[at..] == ws + ("\0" + rest) && AllSpaces(ws)
    ensures EndsToken(text, at) && FirstToken(text, at, f).kind == EndOfStream
  {
    hide Spaces, NumberEnd, StringEnd, CommentEnd, NonCommentFrom;
    var nul := "\0" + rest;
    SpacesThen(ws, nul);
    assert text[at..][|ws|..] == nul;
    NonCommentStep(text, at);
  }

  lemma PlacedAt(a: string, b: string, c: string)
    ensures At(a + (b + c), 0, a) && At(a + (b + c), |a|, b) && (a + (b + c))[|a| + |b|..] == c
  {
    var t := a + (b + c);
    assert t[0..|a|] == a;
    assert t[|a|..|a| + |b|] == b;
    assert t[|a| + |b|..] == c;
  }

  lemma PlainIsLeaf(v: Value)
    ensures IsLeaf(Plain(v)) == IsLeaf(v)
  {
  }

  lemma NoBom(before: string, lay: Lay, after: string, f: Features)
    requires AllSpaces(before) && LayOk(lay)
    ensures var text := before + (Render(lay) + after); WithoutBom(text, f) == text
  {
    hide Render, LayOk;
    var text := before + (Render(lay) + after);
    FirstChar(lay);
    if before == "" {
      assert text[0] == Render(lay)[0];
    } else {
      assert text[0] == before[0] && IsSpace(before[0]);
    }
  }

  lemma FirstChar(lay: Lay)
    requires LayOk(lay)
    ensures Render(lay) != "" && Render(lay)[0] as int < 0x80
  {
    hide SlotsOk, FieldsOk, NumberEnd, StringEnd, CommentEnd;
  }
}
