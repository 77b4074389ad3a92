/**
 The lexemes of a layout: they depend on its tokens alone, not on the white space.
 */
module JsonLexemes {
  import opened Wrappers
  import opened JsonText
  import opened JsonString
  import opened JsonLexer
  import opened JsonParser
  import opened JsonLayout

  /** The tokens of a layout, in order. */
  function LayLexemes(lay: Lay): seq<string> {
    match lay
    case Leaf(lexeme) => [lexeme]
    case ArrayLay(_, slots) => ["["] + SlotLexemes(slots)
    case ObjectLay(_, fields) => ["{"] + FieldLexemes(fields)
  }

  function SlotLexemes(slots: seq<Slot>): seq<string> {
    if slots == [] then ["]"]
    else LayLexemes(slots[0].item) + (if |slots| == 1 then ["]"] else [","] + SlotLexemes(slots[1..]))
  }

  function FieldLexemes(fields: seq<Field>): seq<string> {
    if fields == [] then ["}"]
    else
      [fields[0].key] + ([":"] +
      (LayLexemes(fields[0].slot.item) + (if |fields| == 1 then ["}"] else [","] + FieldLexemes(fields[1..]))))
  }

  lemma Append3(a: seq<string>, b: seq<string>, c: seq<string>)
    ensures (a + b) + c == a + (b + c)
  {
  }

  /** One lexeme at a time. */
  lemma LexStep(text: string, at: nat, ws: string, lexeme: string, kind: TokenKind)
    requires At(text, at, ws) && At(text, at + |ws|, lexeme) && AllSpaces(ws)
    requires lexeme != "" && !IsSpace(lexeme[0]) && kind != Comment && kind != EndOfStream
    requires at + |ws| + |lexeme| <= |text| && TokenAt(lexeme + text[at + |ws| + |lexeme|..]) == (kind, |lexeme|)
    ensures Lexemes(text, at) == [lexeme] + Lexemes(text, at + |ws| + |lexeme|)
  {
    hide TokenAt, AllSpaces, TokenFrom, NonCommentFrom, FirstToken, Spaces;
    Scan(text, at, ws, lexeme, kind, Features(false, false, false, false, false, false, 0, _ => None));
  }

  lemma LexPunctuation(text: string, at: nat, ws: string, c: char, kind: TokenKind)
    requires At(text, at, ws) && At(text, at + |ws|, [c]) && AllSpaces(ws)
    requires (c, kind) in {('[', ArrayBegin), (']', ArrayEnd), ('{', ObjectBegin), ('}', ObjectEnd),
                           (',', ArraySeparator), (':', MemberSeparator)}
    ensures at + |ws| + 1 <= |text| && Lexemes(text, at) == [[c]] + Lexemes(text, at + |ws| + 1)
  {
    hide TokenAt, AllSpaces, Lexemes;
    AtChar(text, at + |ws|, [c]);
    Punctuation(c, kind, text[at + |ws| + 1..]);
    LexStep(text, at, ws, [c], kind);
  }

  /** A value laid out at position `at` gives its lexemes, whatever the white space. */
  lemma {:induction false} LexLay(text: string, at: nat, ws: string, lay: Lay)
    requires At(text, at, ws) && At(text, at + |ws|, Render(lay)) && AllSpaces(ws) && LayOk(lay)
    requires EndsToken(text, at + |ws| + |Render(lay)|)
    ensures Lexemes(text, at) == LayLexemes(lay) + Lexemes(text, at + |ws| + |Render(lay)|)
    decreases lay, 0
  {
    hide At, AllSpaces, EndsToken, Lexemes, SlotLexemes, FieldLexemes, IsWord, FieldsOk, SlotsOk, RenderSlots,
      RenderFields;
    var from := at + |ws|;
    match lay {
      case Leaf(lexeme) => LexWord(text, at, ws, lexeme);
      case ArrayLay(gap, slots) =>
        AtSplit(text, from, "[", gap + RenderSlots(slots, "]"));
        AtSplit(text, from + 1, gap, RenderSlots(slots, "]"));
        LexPunctuation(text, at, ws, '[', ArrayBegin);
        LexSlots(text, from + 1, gap, slots);
        Append3(["["], SlotLexemes(slots), Lexemes(text, from + |Render(lay)|));
      case ObjectLay(gap, fields) =>
        AtSplit(text, from, "{", gap + RenderFields(fields, "}"));
        AtSplit(text, from + 1, gap, RenderFields(fields, "}"));
        LexPunctuation(text, at, ws, '{', ObjectBegin);
        LexFields(text, from + 1, gap, fields);
        Append3(["{"], FieldLexemes(fields), Lexemes(text, from + |Render(lay)|));
    }
  }

  lemma LexWord(text: string, at: nat, ws: string, word: string)
    requires At(text, at, ws) && At(text, at + |ws|, word) && AllSpaces(ws) && IsWord(word)
    requires EndsToken(text, at + |ws| + |word|)
    ensures Lexemes(text, at) == [word] + Lexemes(text, at + |ws| + |word|)
  {
    hide At, TokenAt, AllSpaces, Lexemes;
    var end := at + |ws| + |word|;
    WordStable(word, text[end..]);
    LexStep(text, at, ws, word, TokenAt(word).0);
  }

  /** A value, white space and the character that ends it. */
  lemma {:induction false} LexItem(text: string, at: nat, ws: string, item: Lay, after: string, c: char,
                                   kind: TokenKind)
    requires At(text, at, ws) && At(text, at + |ws|, Render(item) + after) && AllSpaces(ws) && AllSpaces(after)
    requires At(text, at + |ws| + |Render(item)| + |after|, [c])
    requires (c, kind) in {(',', ArraySeparator), (']', ArrayEnd), ('}', ObjectEnd)}
    requires LayOk(item)
    ensures var end := at + |ws| + |Render(item)| + |after| + 1;
            end <= |text| && Lexemes(text, at) == LayLexemes(item) + ([[c]] + Lexemes(text, end))
    decreases item, 1
  {
    hide At, Render, LayOk, Lexemes, LayLexemes, EndsToken;
    var end := at + |ws| + |Render(item)|;
    AtSplit(text, at + |ws|, Render(item), after);
    EndOfItem(text, end, after, c);
    LexLay(text, at, ws, item);
    LexPunctuation(text, end, after, c, kind);
  }

  lemma SlotLexemesStep(slots: seq<Slot>)
    requires slots != []
    ensures SlotLexemes(slots) ==
            LayLexemes(slots[0].item) + (if |slots| == 1 then ["]"] else [","] + SlotLexemes(slots[1..]))
  {
    hide LayLexemes;
  }

  lemma {:induction false} LexSlots(text: string, at: nat, ws: string, slots: seq<Slot>)
    requires At(text, at, ws) && At(text, at + |ws|, RenderSlots(slots, "]")) && AllSpaces(ws) && SlotsOk(slots)
    ensures var end := at + |ws| + |RenderSlots(slots, "]")|;
            end <= |text| && Lexemes(text, at) == SlotLexemes(slots) + Lexemes(text, end)
    decreases slots, 1
  {
    hide At, Lexemes, LayLexemes, Render, LayOk, SlotsTail;
    if slots == [] {
      LexPunctuation(text, at, ws, ']', ArrayEnd);
    } else {
      LexSomeSlots(text, at, ws, slots);
    }
  }

  lemma {:induction false} LexSomeSlots(text: string, at: nat, ws: string, slots: seq<Slot>)
    requires At(text, at, ws) && At(text, at + |ws|, RenderSlots(slots, "]")) && AllSpaces(ws) && SlotsOk(slots)
    requires slots != []
    ensures var end := at + |ws| + |RenderSlots(slots, "]")|;
            end <= |text| && Lexemes(text, at) == SlotLexemes(slots) + Lexemes(text, end)
    decreases slots, 0
  {
    hide At, Lexemes, LayLexemes, SlotLexemes, Render, RenderSlots, LayOk, SlotsOk, SlotsTail;
    var slot, tail := slots[0], SlotsTail(slots);
    var from := at + |ws| + |slot.before|;
    var end := from + |Render(slot.item)| + |slot.after|;
    OpenSlots(text, at, ws, slots, from);
    SlotsOkUnfold(slots);
    SpacesJoin(ws, slot.before);
    TailSplit(slots);
    SlotLexemesStep(slots);
    var c := if |slots| == 1 then ']' else ',';
    AtSplit(text, end, [c], tail[1..]);
    LexItem(text, at, ws + slot.before, slot.item, slot.after, c, if |slots| == 1 then ArrayEnd else ArraySeparator);
    var shown := LayLexemes(slot.item);
    if |slots| == 1 {
      Append3(shown, ["]"], Lexemes(text, end + 1));
    } else {
      AtEmpty(text, end + 1);
      LexSlots(text, end + 1, "", slots[1..]);
      var last := end + 1 + |RenderSlots(slots[1..], "]")|;
      var more := SlotLexemes(slots[1..]);
      Append3([","], more, Lexemes(text, last));
      Append3(shown, [","] + more, Lexemes(text, last));
    }
  }

  lemma FieldLexemesStep(fields: seq<Field>)
    requires fields != []
    ensures FieldLexemes(fields) ==
            [fields[0].key] + ([":"] + (LayLexemes(fields[0].slot.item) +
            (if |fields| == 1 then ["}"] else [","] + FieldLexemes(fields[1..]))))
  {
    hide LayLexemes;
  }

  lemma {:induction false} LexFields(text: string, at: nat, ws: string, fields: seq<Field>)
    requires At(text, at, ws) && At(text, at + |ws|, RenderFields(fields, "}")) && AllSpaces(ws)
    requires FieldsOk(fields)
    ensures var end := at + |ws| + |RenderFields(fields, "}")|;
            end <= |text| && Lexemes(text, at) == FieldLexemes(fields) + Lexemes(text, end)
    decreases fields, 1
  {
    hide At, Lexemes, LayLexemes, Render, RenderField, LayOk, FieldsTail;
    if fields == [] {
      LexPunctuation(text, at, ws, '}', ObjectEnd);
    } else {
      LexSomeFields(text, at, ws, fields);
    }
  }

  lemma LexKey(text: string, at: nat, ws: string, key: string, gap: string)
    requires At(text, at, ws) && At(text, at + |ws|, key) && AllSpaces(ws) && AllSpaces(gap) && IsKey(key)
    requires var colon := at + |ws| + |key| + |gap|;
             At(text, colon - |gap|, gap) && At(text, colon, ":")
    ensures var end := at + |ws| + |key| + |gap| + 1;
            end <= |text| && Lexemes(text, at) == [key] + ([":"] + Lexemes(text, end))
  {
    hide TokenAt, AllSpaces, Lexemes;
    KeyStable(key, text[at + |ws| + |key|..]);
    LexStep(text, at, ws, key, StringToken);
    LexPunctuation(text, at + |ws| + |key|, gap, ':', MemberSeparator);
  }

  lemma {:induction false} LexSomeFields(text: string, at: nat, ws: string, fields: seq<Field>)
    requires At(text, at, ws) && At(text, at + |ws|, RenderFields(fields, "}")) && AllSpaces(ws)
    requires FieldsOk(fields) && fields != []
    ensures var end := at + |ws| + |RenderFields(fields, "}")|;
            end <= |text| && Lexemes(text, at) == FieldLexemes(fields) + Lexemes(text, end)
    decreases fields, 0
  {
    hide At, Lexemes, LayLexemes, FieldLexemes, IsKey, Render, RenderSlot, RenderFields, LayOk, FieldsOk, FieldsTail;
    var field, tail := fields[0], FieldsTail(fields);
    var slot, key := field.slot, field.key;
    var from := at + |ws| + |field.before|;
    var colon := from + |key| + |field.gap|;
    var end := colon + 1 + |RenderSlot(slot)|;
    OpenFields(text, at, ws, fields, from, colon);
    OpenSlot(text, colon + 1, slot);
    FieldsOkUnfold(fields);
    FieldsUnfold(fields);
    SpacesJoin(ws, field.before);
    FieldLexemesStep(fields);
    var c := if |fields| == 1 then '}' else ',';
    AtSplit(text, end, [c], tail[1..]);
    LexKey(text, at, ws + field.before, field.key, field.gap);
    LexItem(text, colon + 1, slot.before, slot.item, slot.after, c, if |fields| == 1 then ObjectEnd else ArraySeparator);
    var shown := LayLexemes(slot.item);
    if |fields| == 1 {
      JoinMember(key, shown, ["}"], Lexemes(text, end + 1));
    } else {
      AtEmpty(text, end + 1);
      LexFields(text, end + 1, "", fields[1..]);
      var last := end + 1 + |RenderFields(fields[1..], "}")|;
      var more := FieldLexemes(fields[1..]);
      Append3([","], more, Lexemes(text, last));
      JoinMember(key, shown, [","] + more, Lexemes(text, last));
    }
  }

  lemma JoinMember(key: string, shown: seq<string>, more: seq<string>, rest: seq<string>)
    ensures [key] + ([":"] + (shown + (more + rest))) == ([key] + ([":"] + (shown + more))) + rest
  {
  }
}
