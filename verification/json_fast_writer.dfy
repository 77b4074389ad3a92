/**
 FastWriter of jsoncpp.cpp: the compact printer.  The values it is given are trees without
 doubles; dropped null placeholders, an option that leaves JSON, are off.
 */
module JsonFastWriter {
  import opened Wrappers
  import opened JsonText
  import opened JsonString
  import opened JsonNumber
  import opened JsonLexer
  import opened JsonValue
  import opened JsonParser
  import opened JsonLayout
  import opened JsonLexemes

  const ARRAY_INDEX_LIMIT: nat := 0x1_0000_0000

  // ---------------------------------------------------------------- what the writers accept

  /** The text of a value without parts. */
  function LeafText(p: Payload): string {
    match p
    case Null => "null"
    case Int(i) => Decimal(i)
    case UInt(u) => Decimal(u)
    case Str(s) => Quoted(s, false)
    case Bool(b) => if b then "true" else "false"
    case _ => ""
  }

  /** Integers in their 64-bit range and byte strings. */
  predicate LeafOk(p: Payload) {
    match p
    case Null => true
    case Bool(_) => true
    case Int(i) => MIN_LARGEST_INT <= i <= MAX_LARGEST_INT
    case UInt(u) => 0 <= u <= MAX_LARGEST_UINT
    case Str(s) => Bytes(s)
    case _ => false
  }

  /** Values in their C++ ranges without doubles. */
  predicate Writable(v: Value) {
    match v.payload
    case Arr(items) => |items| < ARRAY_INDEX_LIMIT && WritableItems(items)
    case Obj(members) => WritableMembers(members) && MembersAscend(members)
    case p => LeafOk(p)
  }

  predicate WritableItems(items: seq<Value>) {
    items == [] || (Writable(items[0]) && WritableItems(items[1..]))
  }

  predicate WritableMembers(members: seq<Member>) {
    members == [] ||
    (Bytes(members[0].key) && Writable(members[0].value) && WritableMembers(members[1..]))
  }

  /** Members are in key order, as std::map keeps them. */
  predicate MembersAscend(members: seq<Member>) {
    forall i, j :: 0 <= i < j < |members| ==> BytesLess(members[i].key, members[j].key)
  }

  lemma {:induction false} WritableItem(items: seq<Value>, i: nat)
    requires i < |items| && WritableItems(items)
    ensures Writable(items[i])
  {
    if i > 0 {
      WritableItem(items[1..], i - 1);
    }
  }

  lemma {:induction false} WritableMember(members: seq<Member>, i: nat)
    requires i < |members| && WritableMembers(members)
    ensures Bytes(members[i].key) && Writable(members[i].value)
  {
    if i > 0 {
      WritableMember(members[1..], i - 1);
    }
  }

  /** The member with a given name is found again. */
  lemma FindMember(members: seq<Member>, i: nat)
    requires i < |members| && MembersAscend(members)
    ensures Place(members, members[i].key) == i
  {
    BytesTrichotomy(members[i].key, members[i].key);
    PlaceIs(members, members[i].key, i);
  }

  // ---------------------------------------------------------------- the compact layout

  function FastLay(v: Value, yaml: bool): Lay {
    match v.payload
    case Arr(items) => ArrayLay("", FastSlots(items, yaml))
    case Obj(members) => ObjectLay("", FastFields(members, yaml))
    case p => Leaf(LeafText(p))
  }

  function FastSlots(items: seq<Value>, yaml: bool): (r: seq<Slot>)
    ensures |r| == |items|
  {
    if items == [] then [] else [Slot("", FastLay(items[0], yaml), "")] + FastSlots(items[1..], yaml)
  }

  function FastFields(members: seq<Member>, yaml: bool): (r: seq<Field>)
    ensures |r| == |members|
  {
    if members == [] then []
    else [FastField(members[0], yaml)] + FastFields(members[1..], yaml)
  }

  function FastField(m: Member, yaml: bool): Field {
    Field("", Quoted(m.key, false), "", Slot(if yaml then " " else "", FastLay(m.value, yaml), ""))
  }

  lemma {:induction false} FastSlotAt(items: seq<Value>, yaml: bool, i: nat)
    requires i < |items|
    ensures FastSlots(items, yaml)[i] == Slot("", FastLay(items[i], yaml), "")
  {
    if i > 0 {
      FastSlotAt(items[1..], yaml, i - 1);
    }
  }

  lemma {:induction false} FastFieldAt(members: seq<Member>, yaml: bool, i: nat)
    requires i < |members|
    ensures FastFields(members, yaml)[i] == FastField(members[i], yaml)
  {
    if i > 0 {
      FastFieldAt(members[1..], yaml, i - 1);
    }
  }

  /** What is still to be printed of an array once `i` elements have been. */
  function SlotsLeft(slots: seq<Slot>, i: nat): string
    requires i <= |slots|
  {
    if i == |slots| then "]" else (if i > 0 then "," else "") + RenderSlots(slots[i..], "]")
  }

  function FieldsLeft(fields: seq<Field>, i: nat): string
    requires i <= |fields|
  {
    if i == |fields| then "}" else (if i > 0 then "," else "") + RenderFields(fields[i..], "}")
  }

  lemma SlotsLeftStep(slots: seq<Slot>, i: nat)
    requires i < |slots|
    ensures RenderSlots(slots[i..], "]") == RenderSlot(slots[i]) + SlotsLeft(slots, i + 1)
    ensures SlotsLeft(slots, 0) == RenderSlots(slots, "]")
  {
    hide RenderSlot;
    assert slots[i..][1..] == slots[i + 1..] && slots[0..] == slots;
    SlotsUnfold(slots[i..]);
  }

  lemma FieldsLeftStep(fields: seq<Field>, i: nat)
    requires i < |fields|
    ensures RenderFields(fields[i..], "}") == RenderField(fields[i]) + FieldsLeft(fields, i + 1)
    ensures FieldsLeft(fields, 0) == RenderFields(fields, "}")
  {
    hide RenderField;
    assert fields[i..][1..] == fields[i + 1..] && fields[0..] == fields;
    FieldsUnfold(fields[i..]);
  }

  /** The document with the comma between two elements. */
  function Separated(document: string, i: nat): (r: string)
    ensures r == document + (if i > 0 then "," else "")
  {
    if i > 0 then document + "," else document
  }

  /** One element of the compact form. */
  lemma FastItemStep(document: string, items: seq<Value>, yaml: bool, i: nat, target: string)
    requires i < |items| && document + SlotsLeft(FastSlots(items, yaml), i) == target
    ensures Separated(document, i) + Render(FastLay(items[i], yaml)) + SlotsLeft(FastSlots(items, yaml), i + 1) == target
  {
    hide Render, FastLay, SlotsLeft;
    var slots, sep := FastSlots(items, yaml), if i > 0 then "," else "";
    var shown := Render(FastLay(items[i], yaml));
    FastSlotAt(items, yaml, i);
    SlotsLeftStep(slots, i);
    SlotsLeftUnfold(slots, i);
    assert RenderSlot(slots[i]) == shown;
    Assoc(document + sep, shown, SlotsLeft(slots, i + 1));
    Assoc(document, sep, shown + SlotsLeft(slots, i + 1));
  }

  lemma SlotsLeftUnfold(slots: seq<Slot>, i: nat)
    requires i < |slots|
    ensures SlotsLeft(slots, i) == (if i > 0 then "," else "") + RenderSlots(slots[i..], "]")
  {
    hide RenderSlots;
  }

  lemma FieldsLeftUnfold(fields: seq<Field>, i: nat)
    requires i < |fields|
    ensures FieldsLeft(fields, i) == (if i > 0 then "," else "") + RenderFields(fields[i..], "}")
  {
    hide RenderFields;
  }

  /** One member of the compact form. */
  lemma FastMemberStep(document: string, members: seq<Member>, yaml: bool, i: nat, target: string)
    requires i < |members| && document + FieldsLeft(FastFields(members, yaml), i) == target
    ensures Separated(document, i) + Quoted(members[i].key, false) + (if yaml then ": " else ":")
            + Render(FastLay(members[i].value, yaml)) + FieldsLeft(FastFields(members, yaml), i + 1) == target
  {
    hide Render, FastLay, FieldsLeft, Quoted;
    var fields, sep := FastFields(members, yaml), if i > 0 then "," else "";
    var q, colon := Quoted(members[i].key, false), if yaml then ": " else ":";
    var shown := Render(FastLay(members[i].value, yaml));
    var left := FieldsLeft(fields, i + 1);
    FastFieldAt(members, yaml, i);
    FieldsLeftStep(fields, i);
    FieldsLeftUnfold(fields, i);
    assert RenderField(fields[i]) == q + (colon + shown) by {
      assert RenderSlot(fields[i].slot) == (if yaml then " " else "") + shown;
      Assoc(":", if yaml then " " else "", shown);
    }
    Assoc(q, colon + shown, left);
    Assoc(colon, shown, left);
    Assoc(document + sep + q + colon, shown, left);
    Assoc(document + sep + q, colon, shown + left);
    Assoc(document + sep, q, colon + (shown + left));
    Assoc(document, sep, q + (colon + (shown + left)));
  }

  lemma Opened(document: string, open: string, rest: string)
    ensures (document + open) + rest == document + (open + ("" + rest))
  {
    Assoc(document, open, rest);
  }

  // ---------------------------------------------------------------- the printer

  class FastWriter {
    var document: string
    var yamlCompatibilityEnabled: bool
    var omitEndingLineFeed: bool

    constructor ()
      ensures document == "" && !yamlCompatibilityEnabled && !omitEndingLineFeed
    {
      document, yamlCompatibilityEnabled, omitEndingLineFeed := "", false, false;
    }

    /** The whole text of a value. */
    method Write(root: Value) returns (r: string)
      requires Writable(root)
      modifies this`document
      ensures r == document == Render(FastLay(root, yamlCompatibilityEnabled)) + (if omitEndingLineFeed then "" else "\n")
    {
      hide Writable, FastLay, Render;
      document := "";
      WriteValue(root);
      if !omitEndingLineFeed {
        document := document + "\n";
      }
      return document;
    }

    method WriteValue(value: Value)
      requires Writable(value)
      modifies this`document
      ensures document == old(document) + Render(FastLay(value, yamlCompatibilityEnabled))
      decreases value, 1
    {
      hide FastSlots, FastFields, RenderSlots, RenderFields, Decimal, Quoted, WritableItems, WritableMembers;
      match value.payload {
        case Null => document := document + "null";
        case Int(i) =>
          var text := IntToString(i);
          document := document + text;
        case UInt(u) =>
          var text := UintToText(u);
          document := document + text;
        case Str(s) =>
          var text := ValueToQuotedStringN(s, false);
          document := document + text;
        case Bool(b) => document := document + (if b then "true" else "false");
        case Arr(items) => WriteItems(value, items);
        case Obj(members) => WriteMembers(value, members);
      }
    }

    method WriteItems(value: Value, items: seq<Value>)
      requires value.payload == Arr(items) && WritableItems(items)
      modifies this`document
      ensures document == old(document) + ("[" + ("" + RenderSlots(FastSlots(items, yamlCompatibilityEnabled), "]")))
      decreases value, 0
    {
      hide WritableItems, Writable, FastSlots, FastLay, Render, RenderSlots, SlotsLeft;
      ghost var yaml := yamlCompatibilityEnabled;
      ghost var slots := FastSlots(items, yaml);
      ghost var target := document + ("[" + ("" + RenderSlots(slots, "]")));
      Opened(document, "[", RenderSlots(slots, "]"));
      document := document + "[";
      SlotsStart(slots);
      var index := 0;
      while index < |items|
        invariant index <= |items| && document + SlotsLeft(slots, index) == target
      {
        FastItemStep(document, items, yaml, index, target);
        WritableItem(items, index);
        if index > 0 {
          document := document + ",";
        }
        WriteValue(items[index]);
        index := index + 1;
      }
      SlotsEnd(slots);
      document := document + "]";
    }

    method WriteMembers(value: Value, members: seq<Member>)
      requires value.payload == Obj(members) && WritableMembers(members) && MembersAscend(members)
      modifies this`document
      ensures document == old(document) + ("{" + ("" + RenderFields(FastFields(members, yamlCompatibilityEnabled), "}")))
      decreases value, 0
    {
      hide WritableMembers, Writable, MembersAscend, FastFields, FastLay, Render, RenderFields, Quoted, Place,
        FieldsLeft;
      ghost var yaml := yamlCompatibilityEnabled;
      ghost var fields := FastFields(members, yaml);
      ghost var target := document + ("{" + ("" + RenderFields(fields, "}")));
      Opened(document, "{", RenderFields(fields, "}"));
      document := document + "{";
      FieldsStart(fields);
      var it := 0;
      while it < |members|
        invariant it <= |members| && document + FieldsLeft(fields, it) == target
      {
        FastMemberStep(document, members, yaml, it, target);
        WritableMember(members, it);
        FindMember(members, it);
        var name := members[it].key;
        if it > 0 {
          document := document + ",";
        }
        var quoted := ValueToQuotedStringN(name, false);
        document := document + quoted;
        document := document + (if yamlCompatibilityEnabled then ": " else ":");
        WriteValue(members[Place(members, name)].value);
        it := it + 1;
      }
      FieldsEnd(fields);
      document := document + "}";
    }
  }

  lemma SlotsEnd(slots: seq<Slot>)
    ensures SlotsLeft(slots, |slots|) == "]"
  {
  }

  lemma FieldsEnd(fields: seq<Field>)
    ensures FieldsLeft(fields, |fields|) == "}"
  {
  }

  lemma SlotsStart(slots: seq<Slot>)
    ensures SlotsLeft(slots, 0) == RenderSlots(slots, "]")
  {
    if slots != [] {
      SlotsLeftStep(slots, 0);
    }
  }

  lemma FieldsStart(fields: seq<Field>)
    ensures FieldsLeft(fields, 0) == RenderFields(fields, "}")
  {
    if fields != [] {
      FieldsLeftStep(fields, 0);
    }
  }

  // ---------------------------------------------------------------- what is printed is a layout

  lemma {:induction false} RunOfDigits(d: string)
    requires AllDigits(d)
    ensures DigitRun(d) == |d|
  {
    if d != "" {
      RunOfDigits(d[1..]);
    }
  }

  lemma DigitsEnd(d: string)
    requires AllDigits(d)
    ensures NumberEnd(d) == |d|
  {
    RunOfDigits(d);
    assert d[|d|..] == "";
  }

  lemma DecimalIsWord(n: int)
    ensures TokenAt(Decimal(n)) == (NumberToken, |Decimal(n)|)
  {
    hide NumberEnd, Digits;
    var d := Decimal(n);
    if n < 0 {
      assert d[0] == '-' && d[1..] == Digits(-n);
      assert IsDigit(d[1]);
    } else {
      assert IsDigit(d[0]) && AllDigits(d[1..]);
    }
    DigitsEnd(d[1..]);
  }

  /** A quoted byte string is one string token, and denotes the string's meaning. */
  lemma QuotedIsKey(x: string)
    requires Bytes(x)
    ensures IsKey(Quoted(x, false)) && StringOf(Quoted(x, false)) == Some(Meaning(x, false))
  {
    hide StringEnd, QuoteBody, DecodeBody, Meaning;
    var q, s := QuoteBody(x, false), Quoted(x, false);
    assert s[0] == '\"' && s[1..] == q + ("\"" + "");
    QuotedScans(x, false, "");
    assert s[1..|s| - 1] == q;
    QuotedDecodes(x, false);
  }

  function KindOf(p: Payload): TokenKind {
    match p
    case Null => NullToken
    case Bool(b) => if b then TrueToken else FalseToken
    case Str(_) => StringToken
    case _ => NumberToken
  }

  /** Every printed leaf is one token. */
  lemma LeafIsWord(p: Payload)
    requires LeafOk(p)
    ensures IsWord(LeafText(p)) && TokenAt(LeafText(p)).0 == KindOf(p)
  {
    hide StringEnd, QuoteBody, NumberEnd, Digits;
    match p
    case Int(i) => DecimalIsWord(i);
    case UInt(u) => DecimalIsWord(u);
    case Str(x) => QuotedIsKey(x);
    case Null => assert "null"[1..] == "ull";
    case Bool(true) => assert "true"[1..] == "rue";
    case Bool(false) => assert "false"[1..] == "alse";
  }

  /** The lexemes of a value, in order. */
  function ValueLexemes(v: Value): seq<string> {
    match v.payload
    case Arr(items) => ["["] + ItemLexemes(items)
    case Obj(members) => ["{"] + MemberLexemes(members)
    case p => [LeafText(p)]
  }

  function ItemLexemes(items: seq<Value>): seq<string> {
    if items == [] then ["]"]
    else ValueLexemes(items[0]) + (if |items| == 1 then ["]"] else [","] + ItemLexemes(items[1..]))
  }

  function MemberLexemes(members: seq<Member>): seq<string> {
    if members == [] then ["}"]
    else
      [Quoted(members[0].key, false)] + ([":"] +
      (ValueLexemes(members[0].value) + (if |members| == 1 then ["}"] else [","] + MemberLexemes(members[1..]))))
  }

  /** The compact layout shows the lexemes of the value. */
  lemma {:induction false} FastLayShows(v: Value, yaml: bool)
    requires Writable(v)
    ensures LayOk(FastLay(v, yaml)) && LayLexemes(FastLay(v, yaml)) == ValueLexemes(v)
    decreases v
  {
    hide IsWord, LeafText;
    match v.payload
    case Arr(items) => FastSlotsShow(items, yaml);
    case Obj(members) => FastFieldsShow(members, yaml);
    case p => LeafIsWord(p);
  }

  lemma {:induction false} FastSlotsShow(items: seq<Value>, yaml: bool)
    requires WritableItems(items)
    ensures var slots := FastSlots(items, yaml); SlotsOk(slots) && SlotLexemes(slots) == ItemLexemes(items)
    decreases items
  {
    hide FastLay, LayOk, LayLexemes, ValueLexemes, Writable;
    if items != [] {
      FastLayShows(items[0], yaml);
      FastSlotsShow(items[1..], yaml);
      assert FastSlots(items, yaml)[1..] == FastSlots(items[1..], yaml);
    }
  }

  lemma {:induction false} FastFieldsShow(members: seq<Member>, yaml: bool)
    requires WritableMembers(members)
    ensures var fields := FastFields(members, yaml); FieldsOk(fields) && FieldLexemes(fields) == MemberLexemes(members)
    decreases members
  {
    hide FastLay, LayOk, LayLexemes, ValueLexemes, Writable, IsKey, Quoted;
    if members != [] {
      FastLayShows(members[0].value, yaml);
      FastFieldsShow(members[1..], yaml);
      QuotedIsKey(members[0].key);
      assert FieldOk(FastField(members[0], yaml));
      assert FastFields(members, yaml)[1..] == FastFields(members[1..], yaml);
    }
  }
}
