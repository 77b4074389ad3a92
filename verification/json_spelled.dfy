/**
 Which texts the reader accepts, exactly: those that spell a document as JsonAccepts says, have
 a value, and have nothing behind it, up to the end of the text or a NUL, but white space and
 comments.
 */
module JsonSpelled {
  import opened Wrappers
  import opened JsonText
  import opened JsonString
  import opened JsonNumber
  import opened JsonLexer
  import opened JsonValue
  import opened JsonParser
  import opened JsonLayout
  import opened JsonLexemes
  import opened JsonDocuments
  import opened JsonAccepts

  // ---------------------------------------------------------------- a token is known by its text

  lemma KindOfWord(s: string)
    requires IsWord(s[..TokenAt(s).1])
    ensures TokenAt(s).0 == TokenAt(s[..TokenAt(s).1]).0
  {
    hide NumberEnd, StringEnd, CommentEnd;
    var n := TokenAt(s).1;
    var w := s[..n];
    assert w != "" && w[0] == s[0] && w[1..] == s[1..][..n - 1];
    if s[0] == '\"' {
      StringStable(w[1..], s[n..]);
      assert s[1..] == w[1..] + s[n..];
    } else if n > 1 {
      assert w[1] == s[1];
    }
  }

  lemma KindOfToken(text: string, at: nat)
    requires at <= |text|
    requires var t := TokenFrom(text, at); IsWord(text[t.start..t.end])
    ensures var t := TokenFrom(text, at); t.kind == TokenAt(text[t.start..t.end]).0
  {
    hide TokenAt, Spaces;
    var n := Spaces(text[at..]);
    var rest := text[at + n..];
    assert text[at..][n..] == rest;
    assert rest[..TokenAt(rest).1] == text[at + n..at + n + TokenAt(rest).1];
    KindOfWord(rest);
  }

  lemma {:induction false} KindOfNonComment(text: string, at: nat)
    requires at <= |text|
    requires var t := NonCommentFrom(text, at); IsWord(text[t.start..t.end])
    ensures var t := NonCommentFrom(text, at); t.kind == TokenAt(text[t.start..t.end]).0
    decreases |text| - at
  {
    hide TokenFrom, NonCommentFrom, IsWord, TokenAt;
    NonCommentStep(text, at);
    if TokenFrom(text, at).kind == Comment {
      KindOfNonComment(text, TokenFrom(text, at).end);
    } else {
      KindOfToken(text, at);
    }
  }

  // ---------------------------------------------------------------- what is spelled is read

  lemma {:induction false} SpellsSplit(text: string, at: nat, end: nat, a: seq<Piece>, b: seq<Piece>) returns (mid: nat)
    requires Spells(text, at, end, a + b)
    ensures Spells(text, at, mid, a) && Spells(text, mid, end, b) && at <= mid <= |text|
    decreases |a|
  {
    hide NonCommentFrom, Placed;
    if a == [] {
      assert a + b == b;
      mid := at;
    } else {
      assert (a + b)[0] == a[0] && (a + b)[1..] == a[1..] + b;
      mid := SpellsSplit(text, NonCommentFrom(text, at).end, end, a[1..], b);
    }
  }

  lemma SpellsBound(text: string, at: nat, end: nat, pieces: seq<Piece>)
    requires Spells(text, at, end, pieces)
    ensures at <= |text|
  {
  }

  lemma SpellsFirst(text: string, at: nat, end: nat, p: Piece, more: seq<Piece>)
    requires Spells(text, at, end, [p] + more)
    ensures at <= |text|
    ensures var t := NonCommentFrom(text, at);
            Placed(text, at, p.before) && t.start < t.end && text[t.start..t.end] == p.lexeme
            && Spells(text, t.end, end, more)
  {
    hide NonCommentFrom, Placed;
    assert ([p] + more)[0] == p && ([p] + more)[1..] == more;
  }

  lemma SpellsLast(text: string, at: nat, end: nat, p: Piece)
    requires Spells(text, at, end, [p])
    ensures at <= |text|
    ensures var t := NonCommentFrom(text, at);
            Placed(text, at, p.before) && t.end == end && text[t.start..t.end] == p.lexeme
  {
    hide NonCommentFrom, Placed;
    assert [p][1..] == [];
  }

  /** The comments before a value are those the settings allow. */
  lemma LeadToken(text: string, at: nat, f: Features)
    requires at <= |text| && Placed(text, at, Lead(f))
    ensures FirstToken(text, at, f) == NonCommentFrom(text, at)
  {
    hide TokenFrom, NonCommentFrom;
    NonCommentStep(text, at);
  }

  lemma FirstPiece(d: Doc, f: Features) returns (p: Piece, more: seq<Piece>)
    requires DocOk(d, f)
    ensures DocPieces(d, f) == [p] + more && p.before == Lead(f) && p.lexeme != "]"
  {
    hide ListPieces, TablePieces, NumberEnd, StringEnd, CommentEnd;
    p := DocPieces(d, f)[0];
    more := DocPieces(d, f)[1..];
  }

  /** The opening token of a spelled value, by its text. */
  lemma Opening(text: string, at: nat, end: nat, lexeme: string, more: seq<Piece>, f: Features)
    requires Spells(text, at, end, [Piece(lexeme, Lead(f))] + more)
    ensures at <= |text|
    ensures var t := FirstToken(text, at, f);
            Spells(text, t.end, end, more)
            && (lexeme == "[" ==> t.kind == ArrayBegin) && (lexeme == "{" ==> t.kind == ObjectBegin)
  {
    hide FirstToken, NonCommentFrom, Spells, Placed, Lead;
    SpellsFirst(text, at, end, Piece(lexeme, Lead(f)), more);
    LeadToken(text, at, f);
    NonCommentText(text, at);
  }

  /** A spelled document is answered as its tokens say. */
  lemma {:induction false} SpelledValue(text: string, at: nat, end: nat, d: Doc, depth: nat, f: Features)
    requires Spells(text, at, end, DocPieces(d, f)) && DocOk(d, f)
    ensures at <= |text| && Yields(ParseValue(text, at, depth, f), ReadLay(ToLay(d), depth, f), end)
    decreases d, 0
  {
    hide ParseValue, Spells, Lead, ListPieces, TablePieces, ItemsOk, EntriesOk, IsWord, ReadLay, ToSlots,
      ToFields, StringOf;
    match d
    case Word(lexeme) => SpelledWord(text, at, end, lexeme, depth, f);
    case List(items, trailing) =>
      Opening(text, at, end, "[", ListPieces(items, trailing, f), f);
      if depth <= f.stackLimit {
        SpelledItems(text, FirstToken(text, at, f).end, end, items, trailing, depth, f, []);
      }
      ArrayAnswer(text, at, end, items, depth, f);
    case Table(entries, trailing) =>
      Opening(text, at, end, "{", TablePieces(entries, trailing, f), f);
      if depth <= f.stackLimit {
        SpelledMembers(text, FirstToken(text, at, f).end, end, entries, trailing, depth, f, [], "");
      }
      ObjectAnswer(text, at, end, entries, depth, f);
  }

  lemma ArrayAnswer(text: string, at: nat, end: nat, items: seq<Doc>, depth: nat, f: Features)
    requires at <= |text| && FirstToken(text, at, f).kind == ArrayBegin
    requires depth <= f.stackLimit ==>
               YieldsItems(ParseItems(text, FirstToken(text, at, f).end, depth, f, []), [],
                           ReadSlots(ToSlots(items), depth, f), end)
    ensures Yields(ParseValue(text, at, depth, f), ReadLay(ArrayLay("", ToSlots(items)), depth, f), end)
  {
    hide ParseValue, ParseItems, FirstToken, ReadSlots, ToSlots;
    ValueStep(text, at, depth, f);
    NoItems([]);
  }

  lemma ObjectAnswer(text: string, at: nat, end: nat, entries: seq<Entry>, depth: nat, f: Features)
    requires at <= |text| && FirstToken(text, at, f).kind == ObjectBegin
    requires depth <= f.stackLimit ==>
               YieldsMembers(ParseMembers(text, FirstToken(text, at, f).end, depth, f, [], ""),
                             ReadFields(ToFields(entries), depth, f, PlainMembers([])), end)
    ensures Yields(ParseValue(text, at, depth, f), ReadLay(ObjectLay("", ToFields(entries)), depth, f), end)
  {
    hide ParseValue, ParseMembers, FirstToken, ReadFields, ToFields;
    ValueStep(text, at, depth, f);
    NoMembers();
  }

  lemma SpelledWord(text: string, at: nat, end: nat, lexeme: string, depth: nat, f: Features)
    requires Spells(text, at, end, [Piece(lexeme, Lead(f))]) && IsWord(lexeme)
    ensures at <= |text| && Yields(ParseValue(text, at, depth, f), ReadLay(Leaf(lexeme), depth, f), end)
  {
    hide ParseValue, ParseItems, ParseMembers, FirstToken, NonCommentFrom, Spells, Placed, Lead, TokenAt, StringOf,
      NumberPayload;
    SpellsLast(text, at, end, Piece(lexeme, Lead(f)));
    LeadToken(text, at, f);
    KindOfNonComment(text, at);
    ValueStep(text, at, depth, f);
    PayloadIsLeaf(lexeme, f);
  }

  /** An array is not at its end where a document is spelled. */
  lemma NotClosed(text: string, at: nat, end: nat, d: Doc, f: Features, items: seq<Value>)
    requires at <= |text| && Spells(text, at, end, DocPieces(d, f)) && DocOk(d, f)
    ensures !ClosesArray(text, at + Spaces(text[at..]), f, items)
  {
    hide NonCommentFrom, TokenFrom, Spaces, Spells, DocPieces, DocOk, Placed;
    var p, more := FirstPiece(d, f);
    var k := at + Spaces(text[at..]);
    SpellsFirst(text, at, end, p, more);
    SpacesBefore(text, at);
    assert k + 1 <= |text| ==> text[k..k + 1] == [text[k]];
    if k < |text| && text[k] == ']' {
      BracketAt(text, k);
    }
  }

  lemma ClosedHere(text: string, at: nat, end: nat, f: Features, items: seq<Value>)
    requires Spells(text, at, end, [Piece("]", Direct)]) && (items == [] || f.allowTrailingCommas)
    ensures at <= |text| && at + Spaces(text[at..]) + 1 == end && ClosesArray(text, at + Spaces(text[at..]), f, items)
  {
    hide NonCommentFrom, Spaces, Spells, TokenAt;
    SpellsLast(text, at, end, Piece("]", Direct));
    NonCommentStep(text, at);
    var t := TokenFrom(text, at);
    assert t.start == at + Spaces(text[at..]);
    assert text[t.start..t.end][0] == text[t.start];
  }

  lemma {:induction false} SpelledItems(text: string, at: nat, end: nat, items: seq<Doc>, trailing: bool, depth: nat,
                                        f: Features, done: seq<Value>)
    requires Spells(text, at, end, ListPieces(items, trailing, f)) && ItemsOk(items, f)
    requires trailing || (items == [] && done != []) ==> f.allowTrailingCommas
    ensures at <= |text|
            && YieldsItems(ParseItems(text, at, depth, f, done), done, ReadSlots(ToSlots(items), depth, f), end)
    decreases items, 1
  {
    hide ParseValue, ParseItems, NonCommentFrom, Spaces, Spells, DocPieces, ListPieces, DocOk, ItemsOk, ToLay, ToSlots,
      ReadLay, ReadSlots, PlainItems, Plain, ClosesArray, Placed;
    NoSlotsRead(done, depth, f);
    if items == [] {
      ClosedHere(text, at, end, f, done);
      ItemsStep(text, at, at + Spaces(text[at..]), depth, f, done);
      return;
    }
    var d, rest := items[0], items[1..];
    assert items == [d] + rest;
    var last := rest == [] && !trailing;
    var tail := if last then [Piece("]", Free)] else [Piece(",", Free)] + ListPieces(rest, trailing, f);
    ListUnfold(d, rest, trailing, f);
    assert last ==> items == [d];
    var mid := SpellsSplit(text, at, end, DocPieces(d, f), tail);
    var k := at + Spaces(text[at..]);
    ItemsStep(text, at, k, depth, f, done);
    NotClosed(text, at, mid, d, f, done);
    SomePieces(d, f);
    SpellsAtSpaces(text, at, mid, DocPieces(d, f));
    SpelledValue(text, k, mid, d, depth + 1, f);
    ReadSlotsFirst(d, rest, depth, f);
    var o := ParseValue(text, k, depth + 1, f);
    if o.Done? {
      AppendItem(done, o.value);
      ReadSlotsUnfold(ToLay(d), ToSlots(rest), depth, f, Plain(o.value));
      NonCommentText(text, mid);
      if last {
        SpellsLast(text, mid, end, Piece("]", Free));
      } else {
        SpellsFirst(text, mid, end, Piece(",", Free), ListPieces(rest, trailing, f));
        SpelledItems(text, NonCommentFrom(text, mid).end, end, rest, trailing, depth, f, done + [o.value]);
        var more := ReadSlots(ToSlots(rest), depth, f);
        if more.Reads? {
          AssocItems(PlainItems(done), [Plain(o.value)], more.value);
        }
      }
    }
  }

  lemma ReadSlotsFirst(d: Doc, rest: seq<Doc>, depth: nat, f: Features)
    ensures var r := ReadSlots(ToSlots([d] + rest), depth, f);
            match ReadLay(ToLay(d), depth + 1, f)
            case Reads(_) => true
            case Rejects => r == Rejects
            case Throws => r == Throws
    ensures ToSlots([d] + rest) == [Slot("", ToLay(d), "")] + ToSlots(rest)
  {
    hide ReadLay, ToLay;
    assert ([d] + rest)[1..] == rest;
  }

  lemma ReadFieldsFirst(e: Entry, rest: seq<Entry>, depth: nat, f: Features, members: seq<Member>)
    ensures var r := ReadFields(ToFields([e] + rest), depth, f, members);
            match StringOf(e.key)
            case None => r == Rejects
            case Some(key) =>
              if |key| >= MAX_KEY_LENGTH then r == Throws
              else if f.rejectDupKeys && HasKey(members, key) then r == Rejects
              else match ReadLay(ToLay(e.value), depth + 1, f)
                case Reads(v) => r == ReadFields(ToFields(rest), depth, f, SetMember(members, key, v))
                case Rejects => r == Rejects
                case Throws => r == Throws
  {
    hide ReadLay, ToLay, StringOf, HasKey, SetMember;
    assert ([e] + rest)[1..] == rest;
    var fs := ToFields([e] + rest);
    assert fs == [Field("", e.key, "", Slot("", ToLay(e.value), ""))] + ToFields(rest);
    assert fs[1..] == ToFields(rest);
  }

  lemma KeyKind(text: string, at: nat)
    requires at <= |text|
    requires var t := NonCommentFrom(text, at); IsKey(text[t.start..t.end])
    ensures NonCommentFrom(text, at).kind == StringToken
  {
    hide NonCommentFrom, TokenAt;
    KindOfNonComment(text, at);
  }

  lemma {:induction false} SpelledMembers(text: string, at: nat, end: nat, entries: seq<Entry>, trailing: bool,
                                          depth: nat, f: Features, members: seq<Member>, name: string)
    requires Spells(text, at, end, TablePieces(entries, trailing, f)) && EntriesOk(entries, f)
    requires entries == [] ==> name == "" || f.allowTrailingCommas
    requires trailing && entries != [] ==> f.allowTrailingCommas || StringOf(entries[|entries| - 1].key) == Some("")
    ensures at <= |text|
            && YieldsMembers(ParseMembers(text, at, depth, f, members, name),
                             ReadFields(ToFields(entries), depth, f, PlainMembers(members)), end)
    decreases entries, 1
  {
    hide ParseValue, ParseMembers, ParseMember, NonCommentFrom, TokenFrom, Spells, TablePieces, EntriesOk, ToFields,
      ReadFields, PlainMembers, StringOf, HasKey, SetMember, IsKey, DocOk, ToLay, ReadLay, Plain, DocPieces,
      Separator, Placed;
    NoFieldsRead(PlainMembers(members), depth, f);
    if entries == [] {
      SpellsLast(text, at, end, Piece("}", Free));
      NonCommentText(text, at);
      MembersStep(text, at, depth, f, members, name);
      return;
    }
    var e, rest := entries[0], entries[1..];
    assert entries == [e] + rest;
    var last := rest == [] && !trailing;
    var tail := if last then [Piece("}", Free)] else [Separator(e)] + TablePieces(rest, trailing, f);
    TableUnfold(e, rest, trailing, f);
    assert last ==> entries == [e];
    ReadFieldsFirst(e, rest, depth, f, PlainMembers(members));
    SpellsFirst(text, at, end, Piece(e.key, Free), [Piece(":", Direct)] + (DocPieces(e.value, f) + tail));
    var t := NonCommentFrom(text, at);
    KeyKind(text, at);
    MembersStep(text, at, depth, f, members, name);
    if StringOf(e.key).Some? {
      var key := StringOf(e.key).value;
      SetPlain(members, key, Value(Null, 0, 0));
      if |key| < MAX_KEY_LENGTH && !(f.rejectDupKeys && HasKey(members, key)) {
        SpelledMember(text, t.end, end, e, rest, trailing, depth, f, members, key);
      }
    }
  }

  lemma {:induction false} SpelledMember(text: string, at: nat, end: nat, e: Entry, rest: seq<Entry>, trailing: bool,
                                         depth: nat, f: Features, members: seq<Member>, key: string)
    requires EntriesOk([e] + rest, f) && StringOf(e.key) == Some(key)
    requires trailing && rest == [] ==> f.allowTrailingCommas || key == ""
    requires trailing && rest != [] ==> f.allowTrailingCommas || StringOf(rest[|rest| - 1].key) == Some("")
    requires var tail := if rest == [] && !trailing then [Piece("}", Free)]
                         else [Separator(e)] + TablePieces(rest, trailing, f);
             Spells(text, at, end, [Piece(":", Direct)] + (DocPieces(e.value, f) + tail))
    ensures at <= |text|
            && var r := ReadLay(ToLay(e.value), depth + 1, f);
               match r
               case Reads(v) =>
                 YieldsMembers(ParseMember(text, at, depth, f, members, key),
                               ReadFields(ToFields(rest), depth, f, SetMember(PlainMembers(members), key, v)), end)
               case Rejects => ParseMember(text, at, depth, f, members, key) == Failed
               case Throws => ParseMember(text, at, depth, f, members, key) == Thrown
    decreases [e] + rest, 0
  {
    hide ParseValue, ParseMembers, ParseMember, NonCommentFrom, TokenFrom, Spells, TablePieces, EntriesOk, ToFields,
      ReadFields, PlainMembers, StringOf, HasKey, SetMember, IsKey, DocOk, ToLay, ReadLay, Plain, DocPieces;
    var tail := if rest == [] && !trailing then [Piece("}", Free)] else [Separator(e)] + TablePieces(rest, trailing, f);
    TableUnfold(e, rest, trailing, f);
    SpellsFirst(text, at, end, Piece(":", Direct), DocPieces(e.value, f) + tail);
    NonCommentStep(text, at);
    NonCommentText(text, at);
    var colon := TokenFrom(text, at);
    var mid := SpellsSplit(text, colon.end, end, DocPieces(e.value, f), tail);
    assert e in [e] + rest && ([e] + rest)[1..] == rest;
    SpelledValue(text, colon.end, mid, e.value, depth + 1, f);
    MemberStep(text, at, depth, f, members, key);
    var o := ParseValue(text, colon.end, depth + 1, f);
    if o.Done? {
      SetPlain(members, key, o.value);
      var more := SetMember(members, key, o.value);
      if rest == [] && !trailing {
        LastMember(text, mid, end, depth, f, more);
      } else {
        NextMember(text, mid, end, e, rest, trailing, f);
        SpelledMembers(text, NonCommentFrom(text, mid).end, end, rest, trailing, depth, f, more, key);
      }
    }
  }

  /** The closing brace behind a value. */
  lemma LastMember(text: string, at: nat, end: nat, depth: nat, f: Features, members: seq<Member>)
    requires at <= |text| && Spells(text, at, end, [Piece("}", Free)])
    ensures NonCommentFrom(text, at).kind == ObjectEnd && NonCommentFrom(text, at).end == end
    ensures TokenFrom(text, at).kind in {ObjectEnd, Comment}
    ensures ReadFields(ToFields([]), depth, f, PlainMembers(members)) == Reads(PlainMembers(members))
  {
    hide NonCommentFrom, TokenFrom, Spells, Placed, PlainMembers;
    SpellsLast(text, at, end, Piece("}", Free));
    NonCommentStep(text, at);
    NonCommentText(text, at);
    NoFieldsRead(PlainMembers(members), depth, f);
  }

  /** The separator behind a value. */
  lemma NextMember(text: string, at: nat, end: nat, e: Entry, rest: seq<Entry>, trailing: bool, f: Features)
    requires at <= |text| && e.separator != "}"
    requires Spells(text, at, end, [Separator(e)] + TablePieces(rest, trailing, f))
    ensures var t := NonCommentFrom(text, at);
            t.kind != ObjectEnd && Spells(text, t.end, end, TablePieces(rest, trailing, f))
    ensures TokenFrom(text, at).kind in {ArraySeparator, Comment}
  {
    hide NonCommentFrom, TokenFrom, Spells, TablePieces;
    SpellsFirst(text, at, end, Separator(e), TablePieces(rest, trailing, f));
    NonCommentStep(text, at);
    NonCommentText(text, at);
  }

  // ---------------------------------------------------------------- behind the value

  /** Between two positions there is nothing but white space, and comments if they are allowed. */
  predicate Ignored(text: string, at: nat, to: nat, comments: bool)
    decreases |text| - at
  {
    at <= to <= |text| &&
    (AllSpaces(text[at..to]) ||
     (comments && TokenFrom(text, at).kind == Comment && Ignored(text, TokenFrom(text, at).end, to, comments)))
  }

  /** The end of the text, or a NUL, which the reader takes for it. */
  predicate Stops(text: string, k: nat) {
    k == |text| || (k < |text| && text[k] == '\0')
  }

  /** Nothing but white space and allowed comments up to where the text stops. */
  ghost predicate Blank(text: string, at: nat, f: Features) {
    exists k: nat :: Ignored(text, at, k, f.allowComments) && Stops(text, k)
  }

  lemma StopToken(text: string, at: nat, k: nat)
    requires at <= k <= |text| && AllSpaces(text[at..k]) && Stops(text, k)
    ensures TokenFrom(text, at).kind == EndOfStream && TokenFrom(text, at).start == k
  {
    hide Spaces, NumberEnd, StringEnd, CommentEnd;
    assert text[at..] == text[at..k] + text[k..];
    assert text[at..][k - at..] == text[k..];
    if k == |text| {
      SpacesOnly(text[at..]);
    } else {
      assert text[k..][0] == '\0';
      SpacesThen(text[at..k], text[k..]);
    }
  }

  lemma {:induction false} IgnoredStop(text: string, at: nat, k: nat, f: Features)
    requires Ignored(text, at, k, f.allowComments) && Stops(text, k)
    ensures FirstToken(text, at, f).kind == EndOfStream && FirstToken(text, at, f).start == k
    decreases |text| - at
  {
    hide TokenFrom, NonCommentFrom, AllSpaces, Stops;
    NonCommentStep(text, at);
    if AllSpaces(text[at..k]) {
      StopToken(text, at, k);
    } else {
      IgnoredStop(text, TokenFrom(text, at).end, k, f);
    }
  }

  lemma TokenStops(text: string, at: nat)
    requires at <= |text| && TokenFrom(text, at).kind == EndOfStream
    ensures var k := TokenFrom(text, at).start; AllSpaces(text[at..k]) && Stops(text, k)
  {
    hide Spaces, NumberEnd, StringEnd, CommentEnd;
    var n := Spaces(text[at..]);
    SpacesAre(text[at..]);
    assert text[at..][..n] == text[at..at + n];
    assert text[at..][n..] == text[at + n..];
    if at + n < |text| {
      assert text[at + n..][0] == text[at + n];
    }
  }

  lemma {:induction false} SpacesAre(s: string)
    ensures AllSpaces(s[..Spaces(s)])
  {
    if s != "" && IsSpace(s[0]) {
      SpacesAre(s[1..]);
      assert s[..Spaces(s)] == [s[0]] + s[1..][..Spaces(s[1..])];
    }
  }

  lemma {:induction false} StopIgnored(text: string, at: nat, f: Features)
    requires at <= |text| && FirstToken(text, at, f).kind == EndOfStream
    ensures var k := FirstToken(text, at, f).start; Ignored(text, at, k, f.allowComments) && Stops(text, k)
    decreases |text| - at
  {
    hide TokenFrom, NonCommentFrom, AllSpaces, Stops;
    NonCommentStep(text, at);
    if TokenFrom(text, at).kind == Comment {
      StopIgnored(text, TokenFrom(text, at).end, f);
    } else {
      TokenStops(text, at);
    }
  }

  /** What the reader asks of the text behind the value. */
  lemma BlankIs(text: string, at: nat, f: Features)
    requires at <= |text|
    ensures Blank(text, at, f) <==> FirstToken(text, at, f).kind == EndOfStream
    ensures Blank(text, at, f) ==>
              (Ignored(text, at, |text|, f.allowComments) <==> FirstToken(text, at, f).start == |text|)
  {
    hide FirstToken, Ignored;
    if FirstToken(text, at, f).kind == EndOfStream {
      StopIgnored(text, at, f);
    }
    if Blank(text, at, f) {
      var k: nat :| Ignored(text, at, k, f.allowComments) && Stops(text, k);
      IgnoredStop(text, at, k, f);
      if Ignored(text, at, |text|, f.allowComments) {
        IgnoredStop(text, at, |text|, f);
      }
    }
  }

  // ---------------------------------------------------------------- documents

  /** The text spells the document, and the settings have no objection to its kind or to what is behind it. */
  ghost predicate Accepts(text: string, d: Doc, end: nat, f: Features) {
    && Spells(text, 0, end, DocPieces(d, f)) && DocOk(d, f) && ReadLay(ToLay(d), 1, f).Reads?
    && (f.failIfExtra ==> Blank(text, end, f)) && (f.strictRoot ==> !d.Word?)
  }

  lemma LeafIsWord(d: Doc, depth: nat, f: Features)
    requires ReadLay(ToLay(d), depth, f).Reads?
    ensures IsLeaf(ReadLay(ToLay(d), depth, f).value) <==> d.Word?
  {
    hide ReadSlots, ReadFields, ToSlots, ToFields, NumberPayload, StringOf, TokenAt;
    match d
    case Word(lexeme) => PayloadIsLeaf(lexeme, f);
    case _ =>
  }

  // ---------------------------------------------------------------- texts of the grammar

  /** Some key of the document denotes the empty string. */
  predicate EmptyKey(d: Doc) {
    match d
    case Word(_) => false
    case List(items, _) => EmptyKeyIn(items)
    case Table(entries, _) => EmptyKeyAmong(entries)
  }

  predicate EmptyKeyIn(items: seq<Doc>) {
    items != [] && (EmptyKey(items[0]) || EmptyKeyIn(items[1..]))
  }

  predicate EmptyKeyAmong(entries: seq<Entry>) {
    entries != [] && (StringOf(entries[0].key) == Some("") || EmptyKey(entries[0].value) || EmptyKeyAmong(entries[1..]))
  }

  lemma {:induction false} LastEmptyKey(entries: seq<Entry>)
    requires entries != []
    ensures StringOf(entries[|entries| - 1].key) == Some("") ==> EmptyKeyAmong(entries)
  {
    hide StringOf, EmptyKey;
    if |entries| > 1 {
      LastEmptyKey(entries[1..]);
      assert entries[1..][|entries| - 2] == entries[|entries| - 1];
    }
  }

  /** No comment is a token between two positions. */
  predicate NoComments(text: string, at: nat, end: nat)
    decreases |text| - at
  {
    at >= end || at >= |text| ||
    var t := TokenFrom(text, at);
    t.kind != Comment && (t.end <= at || NoComments(text, t.end, end))
  }

  predicate NoneCommented(pieces: seq<Piece>) {
    forall i :: 0 <= i < |pieces| ==> pieces[i].before != Commented
  }

  lemma {:induction false} SpelledPlainly(text: string, at: nat, end: nat, pieces: seq<Piece>)
    requires Spells(text, at, end, pieces) && NoComments(text, at, end)
    ensures NoneCommented(pieces) && (pieces != [] ==> at < end <= |text|)
    decreases |pieces|
  {
    hide TokenFrom, NonCommentFrom;
    if pieces != [] {
      var t := NonCommentFrom(text, at);
      NonCommentStep(text, at);
      SpellsReach(text, t.end, end, pieces[1..]);
      SpelledPlainly(text, t.end, end, pieces[1..]);
      assert forall i :: 0 < i < |pieces| ==> pieces[i] == pieces[1..][i - 1];
    }
  }

  lemma {:induction false} SpellsReach(text: string, at: nat, end: nat, pieces: seq<Piece>)
    requires Spells(text, at, end, pieces)
    ensures at <= end <= |text|
    decreases |pieces|
  {
    hide NonCommentFrom, Placed;
    if pieces != [] {
      SpellsReach(text, NonCommentFrom(text, at).end, end, pieces[1..]);
    }
  }

  lemma NoneCommentedJoin(a: seq<Piece>, b: seq<Piece>)
    ensures NoneCommented(a + b) <==> NoneCommented(a) && NoneCommented(b)
  {
    var c := a + b;
    if NoneCommented(c) {
      forall i | 0 <= i < |a| ensures a[i].before != Commented { assert c[i] == a[i]; }
      forall i | 0 <= i < |b| ensures b[i].before != Commented { assert c[|a| + i] == b[i]; }
    }
  }

  /** Without comments and trailing commas only the grammar is left. */
  lemma {:induction false} PlainlyRegular(d: Doc, f: Features)
    requires DocOk(d, f) && NoneCommented(DocPieces(d, f)) && !f.allowTrailingCommas && !EmptyKey(d)
    ensures Regular(d)
    decreases d, 0
  {
    hide ListPieces, TablePieces, ItemsOk, EntriesOk, EmptyKeyIn, EmptyKeyAmong, RegularItems, RegularEntries, StringOf,
      IsWord, NoneCommented;
    match d
    case Word(_) =>
    case List(items, trailing) =>
      NoneCommentedJoin([Piece("[", Lead(f))], ListPieces(items, trailing, f));
      PlainItemsRegular(items, trailing, f);
    case Table(entries, trailing) =>
      NoneCommentedJoin([Piece("{", Lead(f))], TablePieces(entries, trailing, f));
      if trailing { LastEmptyKey(entries); }
      PlainEntriesRegular(entries, trailing, f);
  }

  lemma {:induction false} PlainItemsRegular(items: seq<Doc>, trailing: bool, f: Features)
    requires ItemsOk(items, f) && NoneCommented(ListPieces(items, trailing, f)) && !f.allowTrailingCommas
    requires !EmptyKeyIn(items) && !trailing
    ensures RegularItems(items)
    decreases items, 1
  {
    hide DocPieces, DocOk, Regular, EmptyKey, NoneCommented;
    if items != [] {
      var tail := if |items| == 1 then [Piece("]", Free)] else [Piece(",", Free)] + ListPieces(items[1..], trailing, f);
      NoneCommentedJoin(DocPieces(items[0], f), tail);
      PlainlyRegular(items[0], f);
      if |items| > 1 {
        NoneCommentedJoin([Piece(",", Free)], ListPieces(items[1..], trailing, f));
        PlainItemsRegular(items[1..], trailing, f);
      }
    }
  }

  lemma {:induction false} PlainEntriesRegular(entries: seq<Entry>, trailing: bool, f: Features)
    requires EntriesOk(entries, f) && NoneCommented(TablePieces(entries, trailing, f)) && !f.allowTrailingCommas
    requires !EmptyKeyAmong(entries) && !trailing
    ensures RegularEntries(entries)
    decreases entries, 1
  {
    hide DocPieces, DocOk, Regular, EmptyKey, NoneCommented, StringOf, IsKey, Separator;
    if entries != [] {
      var e, rest := entries[0], entries[1..];
      var tail := if |entries| == 1 then [Piece("}", Free)] else [Separator(e)] + TablePieces(rest, trailing, f);
      NoneCommentedJoin([Piece(e.key, Free)], [Piece(":", Direct)] + (DocPieces(e.value, f) + tail));
      NoneCommentedJoin([Piece(":", Direct)], DocPieces(e.value, f) + tail);
      NoneCommentedJoin(DocPieces(e.value, f), tail);
      PlainlyRegular(e.value, f);
      if |entries| > 1 {
        NoneCommentedJoin([Separator(e)], TablePieces(rest, trailing, f));
        PlainSeparator(e);
        PlainEntriesRegular(rest, trailing, f);
      }
    }
  }

  lemma PlainSeparator(e: Entry)
    requires NoneCommented([Separator(e)])
    ensures e.separator == ","
  {
    assert [Separator(e)][0].before != Commented;
  }

  // ---------------------------------------------------------------- the tokens of a whole text

  lemma NotNul(text: string, at: nat)
    requires at <= |text| && '\0' !in text && TokenFrom(text, at).kind == EndOfStream
    ensures TokenFrom(text, at).start == TokenFrom(text, at).end == |text|
  {
    hide TokenFrom, AllSpaces;
    TokenStops(text, at);
  }

  lemma {:induction false} NonCommentNotNul(text: string, at: nat)
    requires at <= |text| && '\0' !in text && NonCommentFrom(text, at).kind == EndOfStream
    ensures NonCommentFrom(text, at).start == NonCommentFrom(text, at).end == |text|
    decreases |text| - at
  {
    hide TokenFrom, NonCommentFrom;
    NonCommentStep(text, at);
    if TokenFrom(text, at).kind == Comment {
      NonCommentNotNul(text, TokenFrom(text, at).end);
    } else {
      NotNul(text, at);
    }
  }

  /** One token of a text without a NUL. */
  lemma LexemeHere(text: string, at: nat)
    requires at <= |text| && '\0' !in text
    ensures var t := NonCommentFrom(text, at);
            t.start < t.end ==> Lexemes(text, at) == [text[t.start..t.end]] + Lexemes(text, t.end)
  {
    hide NonCommentFrom;
    if NonCommentFrom(text, at).kind == EndOfStream {
      NonCommentNotNul(text, at);
    }
  }

  lemma LexemesStep(pieces: seq<Piece>)
    requires pieces != []
    ensures LexemesOf(pieces) == [pieces[0].lexeme] + LexemesOf(pieces[1..])
  {
  }

  /** In a text without a NUL the tokens spelled are all the tokens. */
  lemma {:induction false} SpelledLexemes(text: string, at: nat, end: nat, pieces: seq<Piece>)
    requires Spells(text, at, end, pieces) && '\0' !in text
    ensures at <= |text| && end <= |text| && Lexemes(text, at) == LexemesOf(pieces) + Lexemes(text, end)
    decreases |pieces|
  {
    hide NonCommentFrom, Placed, Lexemes, LexemesOf;
    if pieces == [] {
      NoPieces(pieces);
    } else {
      var t := NonCommentFrom(text, at);
      SpelledLexemes(text, t.end, end, pieces[1..]);
      LexemeHere(text, at);
      LexemesStep(pieces);
    }
  }

  lemma BlankLexemes(text: string, at: nat, f: Features)
    requires at <= |text| && Blank(text, at, f) && '\0' !in text
    ensures Ignored(text, at, |text|, f.allowComments) && Lexemes(text, at) == []
  {
    hide TokenFrom, NonCommentFrom, Ignored;
    BlankIs(text, at, f);
    FirstIsNonComment(text, at, f);
    NonCommentNotNul(text, at);
  }

  // ---------------------------------------------------------------- documents, exactly

  /** Every accepted text: what it spells, its value, and what is behind it.  The whole text is spelled if and only if
      the end of stream behind the value is not a NUL.  Without comments, trailing commas by the settings and empty keys
      only the grammar is left. */
  lemma AcceptedDocument(text: string, f: Features) returns (d: Doc)
    requires ParseDocument(text, f).Done?
    ensures var o := ParseDocument(text, f);
            && Accepts(text, d, o.end, f) && ReadLay(ToLay(d), 1, f) == Reads(Plain(o.value))
            && (f.failIfExtra ==>
                  (Ignored(text, o.end, |text|, f.allowComments) <==> FirstToken(text, o.end, f).start == |text|))
            && (f.failIfExtra && '\0' !in text ==>
                  Ignored(text, o.end, |text|, f.allowComments) && Lexemes(text, 0) == LexemesOf(DocPieces(d, f)))
            && (NoComments(text, 0, o.end) && !f.allowTrailingCommas && !EmptyKey(d) ==> Regular(d))
    ensures LayOk(ToLay(d)) && (Regular(d) ==> LexemesOf(DocPieces(d, f)) == LayLexemes(ToLay(d)))
  {
    hide ParseValue, Spells, DocPieces, DocOk, ReadLay, Plain, Regular, FirstToken, Blank, Ignored, EmptyKey,
      NoneCommented, NoComments, Lexemes, LexemesOf;
    d := AcceptedSpells(text, 0, 1, f);
    var o := ParseValue(text, 0, 1, f);
    RegularSpells(d, f);
    BlankIs(text, o.end, f);
    LeafIsWord(d, 1, f);
    PlainIsLeaf(o.value);
    if f.failIfExtra && '\0' !in text {
      SpelledLexemes(text, 0, o.end, DocPieces(d, f));
      BlankLexemes(text, o.end, f);
    }
    if NoComments(text, 0, o.end) && !f.allowTrailingCommas && !EmptyKey(d) {
      SpelledPlainly(text, 0, o.end, DocPieces(d, f));
      PlainlyRegular(d, f);
    }
  }

  /** The converse: a text that spells a document is answered as its tokens say. */
  lemma SpelledDocument(text: string, end: nat, d: Doc, f: Features)
    requires Spells(text, 0, end, DocPieces(d, f)) && DocOk(d, f) && (f.failIfExtra ==> Blank(text, end, f))
    ensures Answers(ParseDocument(text, f), ReadLay(ToLay(d), 1, f), f, end)
  {
    hide ParseValue, Spells, DocPieces, DocOk, ReadLay, ToLay, Plain, FirstToken, Blank;
    SpelledValue(text, 0, end, d, 1, f);
    var o := ParseValue(text, 0, 1, f);
    if o.Done? {
      BlankIs(text, o.end, f);
      PlainIsLeaf(o.value);
    }
  }

  /** The language of the reader. */
  lemma AcceptedExactly(text: string, f: Features)
    ensures ParseDocument(text, f).Done? <==> exists d, end: nat :: Accepts(text, d, end, f)
  {
    hide ParseDocument, Spells, DocPieces, DocOk, ReadLay, ToLay, Blank, Ignored;
    if ParseDocument(text, f).Done? {
      var d := AcceptedDocument(text, f);
      assert Accepts(text, d, ParseDocument(text, f).end, f);
    }
    if exists d, end: nat :: Accepts(text, d, end, f) {
      var d, end: nat :| Accepts(text, d, end, f);
      SpelledDocument(text, end, d, f);
      LeafIsWord(d, 1, f);
    }
  }
}
