/**
 StyledWriter of jsoncpp.cpp: the pretty printer.  Values have no comments and no doubles.
 Array sizes and line lengths are 32-bit.
 */
module JsonStyledWriter {
  import opened JsonText
  import opened JsonString
  import opened JsonNumber
  import opened JsonLexer
  import opened JsonValue
  import opened JsonParser
  import opened JsonLayout
  import opened JsonLexemes
  import opened JsonFastWriter

  const RIGHT_MARGIN: nat := 74
  const INDENT: string := "   "

  /** The part of a key that a NUL-terminated string keeps. */
  function Cut(s: string): string {
    if s == "" || s[0] == '\0' then "" else [s[0]] + Cut(s[1..])
  }

  // ---------------------------------------------------------------- the styled layout

  /** Leaves and empty containers take one piece of a line. */
  predicate Simple(v: Value) {
    match v.payload
    case Arr(items) => items == []
    case Obj(members) => members == []
    case _ => true
  }

  /** A 32-bit length reaches the right margin. */
  predicate OverMargin(n: nat) {
    n % ARRAY_INDEX_LIMIT >= RIGHT_MARGIN
  }

  predicate AllSimple(items: seq<Value>) {
    forall i :: 0 <= i < |items| ==> Simple(items[i])
  }

  /** An array is broken over lines if it is long, nested or too wide. */
  predicate Multiline(items: seq<Value>) {
    OverMargin(|items| * 3) || !AllSimple(items) || OverMargin(LineLength(items))
  }

  /** The width of a nonempty array on one line. */
  function LineLength(items: seq<Value>): nat {
    2 + |items| * 2 + Widths(items)
  }

  function Widths(items: seq<Value>): nat {
    if items == [] then 0 else |SimpleText(items[0])| + Widths(items[1..])
  }

  function SimpleText(v: Value): string {
    match v.payload
    case Arr(_) => "[]"
    case Obj(_) => "{}"
    case p => LeafText(p)
  }

  function StyledLay(v: Value, indent: string): Lay {
    match v.payload
    case Arr(items) =>
      if items == [] then ArrayLay("", [])
      else if Multiline(items) then
        ArrayLay("", StyledSlots(items, "\n" + (indent + INDENT), indent + INDENT, "\n" + indent))
      else
        ArrayLay("", StyledSlots(items, " ", "", " "))
    case Obj(members) =>
      ObjectLay("", StyledFields(members, "\n" + (indent + INDENT), indent + INDENT, "\n" + indent))
    case p => Leaf(LeafText(p))
  }

  /** Elements with the same white space before each of them, and `last` after the last one. */
  function StyledSlots(items: seq<Value>, before: string, indent: string, last: string): (r: seq<Slot>)
    ensures |r| == |items|
  {
    if items == [] then []
    else
      [Slot(before, StyledLay(items[0], indent), if |items| == 1 then last else "")]
      + StyledSlots(items[1..], before, indent, last)
  }

  function StyledFields(members: seq<Member>, before: string, indent: string, last: string): (r: seq<Field>)
    ensures |r| == |members|
  {
    if members == [] then []
    else
      [StyledField(members[0], before, indent, if |members| == 1 then last else "")]
      + StyledFields(members[1..], before, indent, last)
  }

  function StyledField(m: Member, before: string, indent: string, after: string): Field {
    Field(before, Quoted(Cut(m.key), false), " ", Slot(" ", StyledLay(m.value, indent), after))
  }

  lemma {:induction false} StyledSlotAt(items: seq<Value>, before: string, indent: string, last: string, i: nat)
    requires i < |items|
    ensures StyledSlots(items, before, indent, last)[i]
            == Slot(before, StyledLay(items[i], indent), if i + 1 == |items| then last else "")
  {
    if i > 0 {
      StyledSlotAt(items[1..], before, indent, last, i - 1);
    }
  }

  lemma {:induction false} StyledFieldAt(members: seq<Member>, before: string, indent: string, last: string, i: nat)
    requires i < |members|
    ensures StyledFields(members, before, indent, last)[i]
            == StyledField(members[i], before, indent, if i + 1 == |members| then last else "")
  {
    if i > 0 {
      StyledFieldAt(members[1..], before, indent, last, i - 1);
    }
  }

  /** A simple value looks the same everywhere. */
  lemma SimpleLay(v: Value, indent: string)
    requires Simple(v)
    ensures Render(StyledLay(v, indent)) == SimpleText(v)
  {
    match v.payload
    case Arr(items) => assert RenderSlots([], "]") == "]";
    case Obj(members) => assert RenderFields([], "}") == "}";
    case _ =>
  }

  // ---------------------------------------------------------------- line fit

  /** The width of some simple elements and the closing bracket: a space or comma and space before each. */
  lemma {:induction false} LineWidth(items: seq<Value>)
    requires items != [] && AllSimple(items)
    ensures |RenderSlots(StyledSlots(items, " ", "", " "), "]")| == 1 + 2 * |items| + Widths(items)
  {
    hide StyledLay, Render, SimpleText;
    var slots := StyledSlots(items, " ", "", " ");
    SimpleLay(items[0], "");
    assert slots[1..] == StyledSlots(items[1..], " ", "", " ");
    SlotsUnfold(slots);
    if |items| > 1 {
      assert items[1..] != [];
      LineWidth(items[1..]);
    } else {
      assert Widths(items[1..]) == 0;
    }
  }

  lemma OverMarginIs(n: nat)
    ensures OverMargin(n) <==> n % ARRAY_INDEX_LIMIT >= RIGHT_MARGIN
  {
  }

  lemma NoWrap(n: nat)
    requires n < ARRAY_INDEX_LIMIT
    ensures OverMargin(n) <==> n >= RIGHT_MARGIN
  {
  }

  /** The look-ahead is exact: unless lengths wrap, a line is used just when it is short enough. */
  lemma LineFits(items: seq<Value>)
    requires items != [] && AllSimple(items)
    requires LineLength(items) < ARRAY_INDEX_LIMIT && |items| * 3 < ARRAY_INDEX_LIMIT
    ensures var line := Render(ArrayLay("", StyledSlots(items, " ", "", " ")));
            |line| == LineLength(items)
            && (Multiline(items) <==> |items| * 3 >= RIGHT_MARGIN || |line| >= RIGHT_MARGIN)
  {
    hide StyledSlots, SimpleText, AllSimple, OverMargin, RenderSlots, Widths;
    LineWidth(items);
    NoWrap(LineLength(items));
    NoWrap(|items| * 3);
  }

  // ---------------------------------------------------------------- one step of printing

  /** What is still to be printed of an array when the comma before element `i` is. */
  lemma StyledItemStep(items: seq<Value>, before: string, indent: string, last: string, i: nat)
    requires i < |items|
    ensures var slots := StyledSlots(items, before, indent, last);
            RenderSlots(slots[i..], "]") == before + (Render(StyledLay(items[i], indent)) +
              (if i + 1 == |items| then last + "]" else "," + RenderSlots(slots[i + 1..], "]")))
  {
    hide Render, StyledLay, StyledSlots;
    var slots := StyledSlots(items, before, indent, last);
    StyledSlotAt(items, before, indent, last, i);
    SlotsLeftStep(slots, i);
    var shown, after := Render(StyledLay(items[i], indent)), slots[i].after;
    var rest := if i + 1 == |items| then "]" else "," + RenderSlots(slots[i + 1..], "]");
    SlotsLeftIs(slots, i + 1);
    Assoc(before, shown + after, rest);
    Assoc(shown, after, rest);
    assert i + 1 < |items| ==> after + rest == rest;
  }

  lemma SlotsLeftIs(slots: seq<Slot>, i: nat)
    requires 0 < i <= |slots|
    ensures SlotsLeft(slots, i) == if i == |slots| then "]" else "," + RenderSlots(slots[i..], "]")
  {
    hide RenderSlots;
  }

  lemma FieldsLeftIs(fields: seq<Field>, i: nat)
    requires 0 < i <= |fields|
    ensures FieldsLeft(fields, i) == if i == |fields| then "}" else "," + RenderFields(fields[i..], "}")
  {
    hide RenderFields;
  }

  lemma StyledMemberStep(members: seq<Member>, before: string, indent: string, last: string, i: nat)
    requires i < |members|
    ensures var fields := StyledFields(members, before, indent, last);
            RenderFields(fields[i..], "}") == before + (Quoted(Cut(members[i].key), false) + (" : " +
              (Render(StyledLay(members[i].value, indent)) +
              (if i + 1 == |members| then last + "}" else "," + RenderFields(fields[i + 1..], "}")))))
  {
    hide Render, StyledLay, StyledFields, Quoted, Cut;
    var fields := StyledFields(members, before, indent, last);
    StyledFieldAt(members, before, indent, last, i);
    FieldsLeftStep(fields, i);
    FieldsLeftIs(fields, i + 1);
    var q, after := Quoted(Cut(members[i].key), false), fields[i].slot.after;
    var shown := Render(StyledLay(members[i].value, indent));
    var rest := if i + 1 == |members| then "}" else "," + RenderFields(fields[i + 1..], "}");
    MemberText(before, q, shown, after, rest);
    assert i + 1 < |members| ==> after + rest == rest;
  }

  lemma MemberText(before: string, q: string, shown: string, after: string, rest: string)
    ensures (before + (q + (" " + (":" + (" " + (shown + after)))))) + rest
            == before + (q + (" : " + (shown + (after + rest))))
  {
    var value := shown + after;
    assert " " + (":" + (" " + value)) == " : " + value;
    Assoc(before, q + (" : " + value), rest);
    Assoc(q, " : " + value, rest);
    Assoc(" : ", value, rest);
    Assoc(shown, after, rest);
  }

  /** The text after more indentation, as writeIndent leaves it. */
  function Indented(document: string, indent: string): string {
    if document == "" then indent
    else if document[|document| - 1] == ' ' then document
    else if document[|document| - 1] != '\n' then document + "\n" + indent
    else document + indent
  }

  /** The text ends with something other than the white space the writer prints. */
  predicate EndsInk(document: string) {
    document != "" && document[|document| - 1] !in " \n"
  }

  /** A value may be printed here without a new line. */
  predicate AtStart(document: string, indent: string) {
    (document == "" && indent == "") || (document != "" && document[|document| - 1] == ' ')
  }

  lemma IndentStep(document: string, indent: string)
    ensures EndsInk(document) ==> Indented(document, indent) == document + ("\n" + indent)
    ensures AtStart(document, indent) ==> Indented(document, indent) == document
    ensures EndsInk(document) ==> AtStart(document + ("\n" + (indent + INDENT)), indent + INDENT)
    ensures EndsInk(document + "[") && EndsInk(document + "{") && EndsInk(document + ",") && EndsInk(document + "]")
            && EndsInk(document + "}")
  {
    if EndsInk(document) {
      assert document + "\n" + indent == document + ("\n" + indent);
    }
  }

  lemma {:induction false} SlotsLast(slots: seq<Slot>)
    ensures EndsInk(RenderSlots(slots, "]"))
  {
    hide RenderSlot, RenderSlots, EndsInk;
    BracketsLast();
    if slots != [] {
      SlotsUnfold(slots);
      if |slots| > 1 {
        SlotsLast(slots[1..]);
        EndsAfter(",", RenderSlots(slots[1..], "]"));
      }
      TailSplit(slots);
      EndsAfter(RenderSlot(slots[0]), SlotsTail(slots));
    }
  }

  lemma {:induction false} FieldsLast(fields: seq<Field>)
    ensures EndsInk(RenderFields(fields, "}"))
  {
    hide RenderField, RenderFields, EndsInk;
    BracketsLast();
    if fields != [] {
      FieldsUnfold(fields);
      if |fields| > 1 {
        FieldsLast(fields[1..]);
        EndsAfter(",", RenderFields(fields[1..], "}"));
      }
      EndsAfter(RenderField(fields[0]), FieldsTail(fields));
    }
  }

  lemma BracketsLast()
    ensures EndsInk("]") && EndsInk("}") && EndsInk("]" + "") && EndsInk("}" + "")
    ensures RenderSlots([], "]") == "]" && RenderFields([], "}") == "}"
  {
  }

  lemma LeafLast(p: Payload)
    requires LeafOk(p)
    ensures EndsInk(LeafText(p))
  {
    match p
    case Int(i) => DigitLast(Decimal(i));
    case UInt(u) => DigitLast(Decimal(u));
    case _ =>
  }

  lemma DigitLast(s: string)
    requires s != "" && IsDigit(s[|s| - 1])
    ensures EndsInk(s)
  {
  }

  lemma EndsAfter(document: string, s: string)
    requires EndsInk(s)
    ensures EndsInk(document + s)
  {
  }

  lemma EmptyObject(value: Value, indent: string)
    requires value.payload == Obj([])
    ensures Render(StyledLay(value, indent)) == SimpleText(value) == "{}"
  {
    SimpleLay(value, indent);
  }

  lemma EmptyArray(value: Value, indent: string)
    requires value.payload == Arr([])
    ensures Render(StyledLay(value, indent)) == SimpleText(value) == "[]"
  {
    SimpleLay(value, indent);
  }

  lemma StartObject(document: string, value: Value, members: seq<Member>, outer: string)
    requires value.payload == Obj(members)
    ensures var fields := StyledFields(members, "\n" + (outer + INDENT), outer + INDENT, "\n" + outer);
            (document + "{") + RenderFields(fields[0..], "}") == document + Render(StyledLay(value, outer))
  {
    hide StyledFields, RenderFields;
    var fields := StyledFields(members, "\n" + (outer + INDENT), outer + INDENT, "\n" + outer);
    assert fields[0..] == fields;
    Opened(document, "{", RenderFields(fields, "}"));
  }

  lemma StartArray(document: string, value: Value, items: seq<Value>, outer: string)
    requires value.payload == Arr(items) && items != [] && Multiline(items)
    ensures var slots := StyledSlots(items, "\n" + (outer + INDENT), outer + INDENT, "\n" + outer);
            (document + "[") + RenderSlots(slots[0..], "]") == document + Render(StyledLay(value, outer))
  {
    hide StyledSlots, RenderSlots, Multiline;
    var slots := StyledSlots(items, "\n" + (outer + INDENT), outer + INDENT, "\n" + outer);
    assert slots[0..] == slots;
    Opened(document, "[", RenderSlots(slots, "]"));
  }

  lemma ValueStart(document: string, indent: string)
    ensures AtStart(document + " : ", indent)
  {
    assert (document + " : ")[|document| + 2] == ' ';
  }

  lemma StyledRenderLast(v: Value, indent: string)
    requires Writable(v)
    ensures EndsInk(Render(StyledLay(v, indent)))
  {
    hide EndsInk, StyledSlots, StyledFields, RenderSlots, RenderFields, WritableItems, WritableMembers, Multiline,
      LeafText, LeafOk;
    match v.payload {
      case Arr(items) => LastOfArray(StyledLay(v, indent).slots);
      case Obj(members) => LastOfObject(StyledLay(v, indent).fields);
      case p => LeafLast(p);
    }
  }

  lemma LastOfArray(slots: seq<Slot>)
    ensures EndsInk(Render(ArrayLay("", slots)))
  {
    hide EndsInk, RenderSlots;
    SlotsLast(slots);
    EndsAfter("", RenderSlots(slots, "]"));
    EndsAfter("[", "" + RenderSlots(slots, "]"));
  }

  lemma LastOfObject(fields: seq<Field>)
    ensures EndsInk(Render(ObjectLay("", fields)))
  {
    hide EndsInk, RenderFields;
    FieldsLast(fields);
    EndsAfter("", RenderFields(fields, "}"));
    EndsAfter("{", "" + RenderFields(fields, "}"));
  }

  lemma MemberPrinted(before: string, newline: string, q: string, shown: string, rest: string)
    ensures (((before + newline) + q) + " : ") + shown + rest == before + (newline + (q + (" : " + (shown + rest))))
  {
    Assoc(((before + newline) + q) + " : ", shown, rest);
    Assoc((before + newline) + q, " : ", shown + rest);
    Assoc(before + newline, q, " : " + (shown + rest));
    Assoc(before, newline, q + (" : " + (shown + rest)));
  }

  lemma ItemPrinted(before: string, newline: string, shown: string, rest: string)
    ensures ((before + newline) + shown) + rest == before + (newline + (shown + rest))
  {
    Assoc(before + newline, shown, rest);
    Assoc(before, newline, shown + rest);
  }

  // ---------------------------------------------------------------- one line

  /** The texts of some simple elements. */
  function Texts(items: seq<Value>): (r: seq<string>)
    ensures |r| == |items|
  {
    if items == [] then [] else [SimpleText(items[0])] + Texts(items[1..])
  }

  lemma {:induction false} TextAt(items: seq<Value>, i: nat)
    requires i < |items|
    ensures Texts(items)[i] == SimpleText(items[i])
  {
    if i > 0 {
      TextAt(items[1..], i - 1);
    }
  }

  lemma SimpleItem(items: seq<Value>, i: nat, indent: string)
    requires i < |items| && AllSimple(items)
    ensures Texts(items)[i] == Render(StyledLay(items[i], indent))
  {
    hide Texts, SimpleText, StyledLay, Render, Simple;
    TextAt(items, i);
    SimpleLay(items[i], indent);
  }

  lemma {:induction false} WidthsSnoc(items: seq<Value>, v: Value)
    ensures Widths(items + [v]) == Widths(items) + |SimpleText(v)|
  {
    hide SimpleText;
    if items == [] {
      assert [] + [v] == [v] && [v][1..] == [];
    } else {
      assert (items + [v])[1..] == items[1..] + [v];
      WidthsSnoc(items[1..], v);
    }
  }

  lemma NoWidth(items: seq<Value>)
    ensures Widths(items[..0]) == 0
  {
  }

  lemma WidthsStep(items: seq<Value>, i: nat)
    requires i < |items|
    ensures Widths(items[..i + 1]) == Widths(items[..i]) + |SimpleText(items[i])|
    ensures Texts(items)[..i + 1] == Texts(items)[..i] + [SimpleText(items[i])]
  {
    hide Widths, Texts, SimpleText;
    WidthsSnoc(items[..i], items[i]);
    assert items[..i + 1] == items[..i] + [items[i]];
    TextAt(items, i);
  }

  lemma WrapAdd(a: nat, b: nat)
    ensures (a % ARRAY_INDEX_LIMIT + b % ARRAY_INDEX_LIMIT) % ARRAY_INDEX_LIMIT == (a + b) % ARRAY_INDEX_LIMIT
  {
  }

  /** What is still to be printed of an array on one line. */
  function LineLeft(items: seq<Value>, i: nat): string
    requires i <= |items|
    decreases |items| - i
  {
    if i == |items| then " ]"
    else (if i > 0 then ", " else "") + (Render(StyledLay(items[i], "")) + LineLeft(items, i + 1))
  }

  lemma {:induction false} LineLeftIs(items: seq<Value>, i: nat)
    requires i < |items|
    ensures RenderSlots(StyledSlots(items, " ", "", " ")[i..], "]") ==
            " " + (Render(StyledLay(items[i], "")) + LineLeft(items, i + 1))
    decreases |items| - i
  {
    hide Render, StyledLay, StyledSlots, RenderSlots;
    var slots := StyledSlots(items, " ", "", " ");
    StyledItemStep(items, " ", "", " ", i);
    if i + 1 == |items| {
      assert " " + "]" == " ]";
    } else {
      LineLeftIs(items, i + 1);
      var rest := Render(StyledLay(items[i + 1], "")) + LineLeft(items, i + 2);
      assert "," + (" " + rest) == ", " + rest;
    }
  }

  lemma StartLine(document: string, value: Value, items: seq<Value>, indent: string)
    requires value.payload == Arr(items) && items != [] && !Multiline(items)
    ensures (document + "[ ") + LineLeft(items, 0) == document + Render(StyledLay(value, indent))
  {
    hide StyledSlots, RenderSlots, Multiline, LineLeft;
    var slots, left := StyledSlots(items, " ", "", " "), LineLeft(items, 0);
    assert slots[0..] == slots;
    LineLeftIs(items, 0);
    LineLeftStart(items);
    assert "[" + (" " + left) == "[ " + left;
    assert Render(StyledLay(value, indent)) == "[" + ("" + RenderSlots(slots, "]"));
    Assoc(document, "[ ", left);
  }

  lemma LineLeftStart(items: seq<Value>)
    requires items != []
    ensures LineLeft(items, 0) == Render(StyledLay(items[0], "")) + LineLeft(items, 1)
  {
    hide Render, StyledLay;
  }

  lemma LineStep(document: string, items: seq<Value>, i: nat)
    requires i < |items|
    ensures (if i > 0 then document + ", " else document) + Render(StyledLay(items[i], "")) + LineLeft(items, i + 1)
            == document + LineLeft(items, i)
  {
    hide Render, StyledLay;
    var shown, left := Render(StyledLay(items[i], "")), LineLeft(items, i + 1);
    Assoc(if i > 0 then document + ", " else document, shown, left);
    if i > 0 {
      Assoc(document, ", ", shown + left);
    }
  }

  lemma LineEnd(items: seq<Value>)
    ensures LineLeft(items, |items|) == " ]"
  {
  }

  // ---------------------------------------------------------------- the printer

  class StyledWriter {
    var childValues: seq<string>
    var document: string
    var indentString: string
    var addChildValues: bool

    constructor ()
      ensures document == "" && indentString == "" && childValues == [] && !addChildValues
    {
      childValues, document, indentString, addChildValues := [], "", "", false;
    }

    /** The whole text of a value; the indentation is empty again at the end. */
    method Write(root: Value) returns (r: string)
      requires Writable(root)
      modifies this
      ensures r == document == Render(StyledLay(root, "")) + "\n"
      ensures indentString == "" && !addChildValues
    {
      hide Writable, StyledLay, Render;
      document := "";
      addChildValues := false;
      indentString := "";
      WriteValue(root);
      document := document + "\n";
      return document;
    }

    method PushValue(value: string)
      modifies this`document, this`childValues
      ensures if addChildValues then document == old(document) && childValues == old(childValues) + [value]
              else document == old(document) + value && childValues == old(childValues)
    {
      if addChildValues {
        childValues := childValues + [value];
      } else {
        document := document + value;
      }
    }

    method WriteIndent()
      modifies this`document
      ensures document == Indented(old(document), indentString)
    {
      if document != "" {
        var last := document[|document| - 1];
        if last == ' ' {
          return;
        }
        if last != '\n' {
          document := document + "\n";
        }
      }
      document := document + indentString;
    }

    method WriteWithIndent(value: string)
      modifies this`document
      ensures document == Indented(old(document), indentString) + value
    {
      hide Indented;
      WriteIndent();
      document := document + value;
    }

    method Indent()
      modifies this`indentString
      ensures indentString == old(indentString) + INDENT
    {
      indentString := indentString + INDENT;
    }

    method Unindent(ghost outer: string)
      requires indentString == outer + INDENT
      modifies this`indentString
      ensures indentString == outer
    {
      indentString := indentString[..|indentString| - |INDENT|];
    }

    /** Prints a value, or collects its text while an array is measured. */
    method WriteValue(value: Value)
      requires Writable(value)
      requires if addChildValues then Simple(value) else AtStart(document, indentString)
      modifies this
      ensures indentString == old(indentString) && addChildValues == old(addChildValues)
      ensures if addChildValues then
                document == old(document) && childValues == old(childValues) + [SimpleText(value)]
              else
                document == old(document) + Render(StyledLay(value, indentString))
      decreases value, 3
    {
      hide AtStart, StyledSlots, StyledFields, RenderSlots, RenderFields, Decimal, Quoted, WritableItems,
        WritableMembers;
      match value.payload {
        case Null => PushValue("null");
        case Int(i) =>
          var text := IntToString(i);
          PushValue(text);
        case UInt(u) =>
          var text := UintToText(u);
          PushValue(text);
        case Str(s) =>
          var text := ValueToQuotedStringN(s, false);
          PushValue(text);
        case Bool(b) => PushValue(if b then "true" else "false");
        case Arr(items) => WriteArrayValue(value, items);
        case Obj(members) =>
          if members == [] {
            EmptyObject(value, indentString);
            PushValue("{}");
          } else {
            WriteMembers(value, members);
          }
      }
    }

    /** Prints a nonempty object. */
    method WriteMembers(value: Value, members: seq<Member>)
      requires value.payload == Obj(members) && WritableMembers(members) && MembersAscend(members)
      requires members != []
      requires !addChildValues && AtStart(document, indentString)
      modifies this
      ensures indentString == old(indentString) && !addChildValues
      ensures document == old(document) + Render(StyledLay(value, indentString))
      decreases value, 2
    {
      hide AtStart, EndsInk, Indented, Writable, WritableMembers, MembersAscend, StyledFields, StyledLay, Render,
        RenderFields, Quoted, Cut, Place;
      ghost var outer := indentString;
      ghost var inner := outer + INDENT;
      ghost var fields := StyledFields(members, "\n" + inner, inner, "\n" + outer);
      ghost var target := document + Render(StyledLay(value, outer));
      StartObject(document, value, members, outer);
      IndentStep(document, outer);
      WriteWithIndent("{");
      Indent();
      var it := 0;
      while true
        invariant it < |members| && indentString == inner && !addChildValues && EndsInk(document)
        invariant document + RenderFields(fields[it..], "}") == target
        decreases |members| - it
      {
        var name := members[it].key;
        WritableMember(members, it);
        FindMember(members, it);
        StyledMemberStep(members, "\n" + inner, inner, "\n" + outer, it);
        IndentStep(document, inner);
        ghost var before := document;
        var quoted := ValueToQuotedStringN(Cut(name), false);
        WriteWithIndent(quoted);
        ValueStart(document, indentString);
        document := document + " : ";
        WriteValue(members[Place(members, name)].value);
        StyledRenderLast(members[it].value, inner);
        ghost var shown := Render(StyledLay(members[it].value, inner));
        it := it + 1;
        MemberPrinted(before, "\n" + inner, Quoted(Cut(name), false), shown,
                      if it == |members| then "\n" + outer + "}" else "," + RenderFields(fields[it..], "}"));
        EndsAfter(before + ("\n" + inner) + Quoted(Cut(name), false) + " : ", shown);
        if it == |members| {
          break;
        }
        IndentStep(document, inner);
        Assoc(document, ",", RenderFields(fields[it..], "}"));
        document := document + ",";
      }
      Unindent(outer);
      IndentStep(document, outer);
      Assoc(document, "\n" + outer, "}");
      WriteWithIndent("}");
    }

    /** Prints an array, on one line if it fits. */
    method WriteArrayValue(value: Value, items: seq<Value>)
      requires value.payload == Arr(items) && WritableItems(items) && |items| < ARRAY_INDEX_LIMIT
      requires if addChildValues then items == [] else AtStart(document, indentString)
      modifies this
      ensures indentString == old(indentString) && addChildValues == old(addChildValues)
      ensures if addChildValues then
                document == old(document) && childValues == old(childValues) + ["[]"]
              else
                document == old(document) + Render(StyledLay(value, indentString))
      decreases value, 2
    {
      hide AtStart, Writable, WritableItems, StyledLay, Render, Multiline;
      if items == [] {
        EmptyArray(value, indentString);
        PushValue("[]");
      } else {
        var isArrayMultiLine := IsMultilineArray(value, items);
        if isArrayMultiLine {
          WriteLines(value, items);
        } else {
          WriteLine(value, items);
        }
      }
    }

    /** Decides how to print a nonempty array; childValues is left empty or with one text per element. */
    method IsMultilineArray(value: Value, items: seq<Value>) returns (isMultiLine: bool)
      requires value.payload == Arr(items) && items != [] && WritableItems(items) && |items| < ARRAY_INDEX_LIMIT
      requires !addChildValues
      modifies this
      ensures document == old(document) && indentString == old(indentString) && !addChildValues
      ensures isMultiLine == Multiline(items)
      ensures childValues == [] || (AllSimple(items) && childValues == Texts(items))
      ensures !isMultiLine ==> childValues == Texts(items) && AllSimple(items)
      decreases value, 1
    {
      hide Simple, Writable, WritableItems, SimpleText, Texts, Widths, OverMargin;
      var size := |items|;
      isMultiLine := OverMargin(size * 3);
      childValues := [];
      var index := 0;
      while index < size && !isMultiLine
        invariant index <= size
        invariant isMultiLine ==> Multiline(items)
        invariant !isMultiLine ==> !OverMargin(size * 3) && forall i :: 0 <= i < index ==> Simple(items[i])
      {
        isMultiLine := !Simple(items[index]);
        index := index + 1;
      }
      if !isMultiLine {
        assert AllSimple(items);
        addChildValues := true;
        var lineLength := (4 + (size - 1) * 2) % ARRAY_INDEX_LIMIT;
        index := 0;
        NoWidth(items);
        while index < size
          invariant index <= size && addChildValues
          invariant document == old(document) && indentString == old(indentString)
          invariant childValues == Texts(items)[..index]
          invariant lineLength == (4 + (size - 1) * 2 + Widths(items[..index])) % ARRAY_INDEX_LIMIT
        {
          WritableItem(items, index);
          WriteValue(items[index]);
          WidthsStep(items, index);
          WrapAdd(4 + (size - 1) * 2 + Widths(items[..index]), |childValues[index]|);
          lineLength := (lineLength + |childValues[index]| % ARRAY_INDEX_LIMIT) % ARRAY_INDEX_LIMIT;
          index := index + 1;
        }
        assert items[..index] == items && Texts(items)[..index] == Texts(items);
        addChildValues := false;
        OverMarginIs(LineLength(items));
        isMultiLine := lineLength >= RIGHT_MARGIN;
      }
    }

    /** One element per line. */
    method WriteLines(value: Value, items: seq<Value>)
      requires value.payload == Arr(items) && items != [] && WritableItems(items) && Multiline(items)
      requires childValues == [] || (AllSimple(items) && childValues == Texts(items))
      requires !addChildValues && AtStart(document, indentString)
      modifies this
      ensures indentString == old(indentString) && !addChildValues
      ensures document == old(document) + Render(StyledLay(value, indentString))
      decreases value, 1
    {
      hide AtStart, EndsInk, Indented, Writable, WritableItems, AllSimple, StyledSlots, StyledLay, Render,
        RenderSlots, Texts, Multiline;
      ghost var outer := indentString;
      ghost var inner := outer + INDENT;
      ghost var slots := StyledSlots(items, "\n" + inner, inner, "\n" + outer);
      ghost var target := document + Render(StyledLay(value, outer));
      StartArray(document, value, items, outer);
      IndentStep(document, outer);
      WriteWithIndent("[");
      Indent();
      var hasChildValue := childValues != [];
      var index := 0;
      while true
        invariant index < |items| && indentString == inner && !addChildValues && EndsInk(document)
        invariant hasChildValue ==> AllSimple(items) && childValues == Texts(items)
        invariant document + RenderSlots(slots[index..], "]") == target
        decreases |items| - index
      {
        WritableItem(items, index);
        StyledItemStep(items, "\n" + inner, inner, "\n" + outer, index);
        IndentStep(document, inner);
        ghost var before := document;
        if hasChildValue {
          SimpleItem(items, index, inner);
          WriteWithIndent(childValues[index]);
        } else {
          IndentStep(document, outer);
          WriteIndent();
          WriteValue(items[index]);
        }
        StyledRenderLast(items[index], inner);
        ghost var shown := Render(StyledLay(items[index], inner));
        index := index + 1;
        ItemPrinted(before, "\n" + inner, shown,
                    if index == |items| then "\n" + outer + "]" else "," + RenderSlots(slots[index..], "]"));
        EndsAfter(before + ("\n" + inner), shown);
        if index == |items| {
          break;
        }
        IndentStep(document, inner);
        Assoc(document, ",", RenderSlots(slots[index..], "]"));
        document := document + ",";
      }
      Unindent(outer);
      IndentStep(document, outer);
      Assoc(document, "\n" + outer, "]");
      WriteWithIndent("]");
    }

    /** The whole array on one line, from the texts collected before. */
    method WriteLine(value: Value, items: seq<Value>)
      requires value.payload == Arr(items) && items != [] && !Multiline(items) && AllSimple(items)
      requires childValues == Texts(items)
      modifies this`document
      ensures document == old(document) + Render(StyledLay(value, indentString))
    {
      hide StyledLay, Render, Texts, Multiline, AllSimple, LineLeft;
      ghost var target := document + Render(StyledLay(value, indentString));
      StartLine(document, value, items, indentString);
      document := document + "[ ";
      var index := 0;
      while index < |items|
        invariant index <= |items|
        invariant document + LineLeft(items, index) == target
      {
        SimpleItem(items, index, "");
        LineStep(document, items, index);
        if index > 0 {
          document := document + ", ";
        }
        document := document + childValues[index];
        index := index + 1;
      }
      LineEnd(items);
      document := document + " ]";
    }
  }
}
