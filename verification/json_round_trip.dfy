/**
 What the writers print, read again: exactly which values come back, and when both writers
 print the same lexemes.
 */
module JsonRoundTrip {
  import opened Wrappers
  import opened JsonText
  import opened JsonString
  import opened JsonNumber
  import opened JsonLexer
  import opened JsonValue
  import opened JsonParser
  import opened JsonLayout
  import opened JsonLexemes
  import opened JsonFastWriter
  import opened JsonStyledWriter
  import opened JsonDocuments

  // ---------------------------------------------------------------- the styled layout

  /** The value with its keys cut at their first NUL and without source ranges. */
  function CutKeys(v: Value): Value {
    match v.payload
    case Arr(items) => Value(Arr(CutItems(items)), 0, 0)
    case Obj(members) => Value(Obj(CutMembers(members)), 0, 0)
    case p => Value(p, 0, 0)
  }

  function CutItems(items: seq<Value>): (r: seq<Value>)
    ensures |r| == |items|
  {
    if items == [] then [] else [CutKeys(items[0])] + CutItems(items[1..])
  }

  function CutMembers(members: seq<Member>): (r: seq<Member>)
    ensures |r| == |members|
  {
    if members == [] then []
    else [Member(Cut(members[0].key), CutKeys(members[0].value))] + CutMembers(members[1..])
  }

  predicate NoNulKeys(v: Value) {
    match v.payload
    case Arr(items) => NoNulItems(items)
    case Obj(members) => NoNulMembers(members)
    case _ => true
  }

  predicate NoNulItems(items: seq<Value>) {
    items == [] || (NoNulKeys(items[0]) && NoNulItems(items[1..]))
  }

  predicate NoNulMembers(members: seq<Member>) {
    members == [] || ('\0' !in members[0].key && NoNulKeys(members[0].value) && NoNulMembers(members[1..]))
  }

  lemma {:induction false} CutWhole(s: string)
    ensures '\0' !in s ==> Cut(s) == s
    ensures '\0' in s ==> |Cut(s)| < |s|
    ensures Cut(s) <= s
  {
    if s != "" && s[0] != '\0' {
      CutWhole(s[1..]);
      assert s == [s[0]] + s[1..];
    }
  }

  lemma CutBytes(s: string)
    requires Bytes(s)
    ensures Bytes(Cut(s))
  {
    CutWhole(s);
  }

  /** The styled layout shows the lexemes of the value with its keys cut. */
  lemma {:induction false} StyledLayShows(v: Value, indent: string)
    requires Writable(v) && AllSpaces(indent)
    ensures LayOk(StyledLay(v, indent)) && LayLexemes(StyledLay(v, indent)) == ValueLexemes(CutKeys(v))
    decreases v
  {
    hide Multiline, StyledSlots, StyledFields, WritableItems, WritableMembers, SlotLexemes, FieldLexemes, ItemLexemes,
      MemberLexemes, SlotsOk, FieldsOk, IsWord, LeafText;
    var newline := "\n" + (indent + INDENT);
    match v.payload {
      case Arr(items) =>
        if items == [] {
          NoSlots();
        } else if Multiline(items) {
          StyledSlotsShow(items, newline, indent + INDENT, "\n" + indent);
        } else {
          StyledSlotsShow(items, " ", "", " ");
        }
      case Obj(members) => StyledFieldsShow(members, newline, indent + INDENT, "\n" + indent);
      case p => LeafIsWord(p);
    }
  }

  lemma NoSlots()
    ensures SlotsOk([]) && SlotLexemes([]) == ItemLexemes([]) && CutItems([]) == []
  {
  }

  lemma {:induction false} StyledSlotsShow(items: seq<Value>, before: string, indent: string, last: string)
    requires WritableItems(items) && AllSpaces(before) && AllSpaces(indent) && AllSpaces(last)
    ensures var slots := StyledSlots(items, before, indent, last);
            SlotsOk(slots) && SlotLexemes(slots) == ItemLexemes(CutItems(items))
    decreases items
  {
    hide StyledLay, LayOk, LayLexemes, ValueLexemes, CutKeys, Writable;
    if items != [] {
      StyledLayShows(items[0], indent);
      StyledSlotsShow(items[1..], before, indent, last);
      assert StyledSlots(items, before, indent, last)[1..] == StyledSlots(items[1..], before, indent, last);
      assert CutItems(items)[1..] == CutItems(items[1..]);
    }
  }

  lemma {:induction false} StyledFieldsShow(members: seq<Member>, before: string, indent: string, last: string)
    requires WritableMembers(members) && AllSpaces(before) && AllSpaces(indent) && AllSpaces(last)
    ensures var fields := StyledFields(members, before, indent, last);
            FieldsOk(fields) && FieldLexemes(fields) == MemberLexemes(CutMembers(members))
    decreases members
  {
    hide StyledLay, LayOk, LayLexemes, ValueLexemes, CutKeys, Writable, Cut, Quoted, IsKey;
    if members != [] {
      StyledLayShows(members[0].value, indent);
      StyledFieldsShow(members[1..], before, indent, last);
      CutBytes(members[0].key);
      QuotedIsKey(Cut(members[0].key));
      assert FieldOk(StyledField(members[0], before, indent, if |members| == 1 then last else ""));
      assert StyledFields(members, before, indent, last)[1..] == StyledFields(members[1..], before, indent, last);
      assert CutMembers(members)[1..] == CutMembers(members[1..]);
    }
  }

  lemma {:induction false} CutNothing(v: Value)
    requires NoNulKeys(v)
    ensures CutKeys(v) == Plain(v)
    decreases v
  {
    match v.payload
    case Arr(items) => CutNoItem(items);
    case Obj(members) => CutNoMember(members);
    case _ =>
  }

  lemma {:induction false} CutNoItem(items: seq<Value>)
    requires NoNulItems(items)
    ensures CutItems(items) == PlainItems(items)
    decreases items
  {
    hide CutKeys, Plain, NoNulKeys;
    if items != [] {
      CutNothing(items[0]);
      CutNoItem(items[1..]);
    }
  }

  lemma {:induction false} CutNoMember(members: seq<Member>)
    requires NoNulMembers(members)
    ensures CutMembers(members) == PlainMembers(members)
    decreases members
  {
    hide CutKeys, Plain, NoNulKeys;
    if members != [] {
      CutWhole(members[0].key);
      CutNothing(members[0].value);
      CutNoMember(members[1..]);
    }
  }

  // ---------------------------------------------------------------- what comes back

  /** What a leaf is read back as: small unsigned integers become signed, ill-formed UTF-8 is repaired. */
  function LeafMeaning(p: Payload): Payload {
    match p
    case UInt(u) => if u <= MAX_LARGEST_INT then Int(u) else UInt(u)
    case Str(s) => Str(Meaning(s, false))
    case _ => p
  }

  /** What a written value is read back as, at some depth of nesting. */
  function ReadBack(v: Value, depth: nat, f: Features): Reading<Value>
    decreases v, 0
  {
    if depth > f.stackLimit then Throws
    else match v.payload
      case Arr(items) =>
        (match ReadBackItems(items, depth, f)
         case Reads(xs) => Reads(Value(Arr(xs), 0, 0))
         case Rejects => Rejects
         case Throws => Throws)
      case Obj(members) =>
        (match ReadBackMembers(members, depth, f, [])
         case Reads(ms) => Reads(Value(Obj(ms), 0, 0))
         case Rejects => Rejects
         case Throws => Throws)
      case p => Reads(Value(LeafMeaning(p), 0, 0))
  }

  function ReadBackItems(items: seq<Value>, depth: nat, f: Features): Reading<seq<Value>>
    decreases items, 1
  {
    if items == [] then Reads([])
    else match ReadBack(items[0], depth + 1, f)
      case Rejects => Rejects
      case Throws => Throws
      case Reads(v) =>
        match ReadBackItems(items[1..], depth, f)
        case Reads(more) => Reads([v] + more)
        case r => r
  }

  /** Keys are repaired, too, and may then be out of order or equal. */
  function ReadBackMembers(members: seq<Member>, depth: nat, f: Features, done: seq<Member>): Reading<seq<Member>>
    decreases members, 1
  {
    if members == [] then Reads(done)
    else
      var key := Meaning(members[0].key, false);
      if |key| >= MAX_KEY_LENGTH then Throws
      else if f.rejectDupKeys && HasKey(done, key) then Rejects
      else match ReadBack(members[0].value, depth + 1, f)
        case Rejects => Rejects
        case Throws => Throws
        case Reads(v) => ReadBackMembers(members[1..], depth, f, SetMember(done, key, v))
  }

  lemma LeafIsReadBack(p: Payload, f: Features)
    requires LeafOk(p)
    ensures ReadWord(LeafText(p), f) == Reads(Value(LeafMeaning(p), 0, 0))
  {
    hide TokenAt, Meaning, StringOf, Digits;
    LeafIsWord(p);
    match p
    case Int(i) => DecimalRoundTrip(i);
    case UInt(u) => DecimalRoundTrip(u);
    case Str(x) => QuotedIsKey(x);
    case _ =>
  }

  /** The compact layout is read as ReadBack says. */
  lemma {:induction false} FastReads(v: Value, yaml: bool, depth: nat, f: Features)
    requires Writable(v)
    ensures ReadLay(FastLay(v, yaml), depth, f) == ReadBack(v, depth, f)
    decreases v
  {
    hide ReadWord, LeafText, LeafMeaning, LeafOk;
    match v.payload
    case Arr(items) => FastItemsRead(items, yaml, depth, f);
    case Obj(members) => FastMembersRead(members, yaml, depth, f, []);
    case p => LeafIsReadBack(p, f);
  }

  lemma {:induction false} FastItemsRead(items: seq<Value>, yaml: bool, depth: nat, f: Features)
    requires WritableItems(items)
    ensures ReadSlots(FastSlots(items, yaml), depth, f) == ReadBackItems(items, depth, f)
    decreases items
  {
    hide FastLay, ReadLay, ReadBack, Writable;
    if items != [] {
      FastReads(items[0], yaml, depth + 1, f);
      FastItemsRead(items[1..], yaml, depth, f);
      assert FastSlots(items, yaml)[1..] == FastSlots(items[1..], yaml);
    }
  }

  lemma {:induction false} FastMembersRead(members: seq<Member>, yaml: bool, depth: nat, f: Features, done: seq<Member>)
    requires WritableMembers(members)
    ensures ReadFields(FastFields(members, yaml), depth, f, done) == ReadBackMembers(members, depth, f, done)
    decreases members
  {
    hide FastLay, ReadLay, ReadBack, Writable, Quoted, Meaning, StringOf, HasKey, SetMember, IsKey;
    if members != [] {
      QuotedIsKey(members[0].key);
      FastReads(members[0].value, yaml, depth + 1, f);
      var r := ReadBack(members[0].value, depth + 1, f);
      if r.Reads? {
        FastMembersRead(members[1..], yaml, depth, f, SetMember(done, Meaning(members[0].key, false), r.value));
      }
      assert FastFields(members, yaml)[1..] == FastFields(members[1..], yaml);
    }
  }

  /** So is the styled layout, for the value with its keys cut. */
  lemma {:induction false} StyledReads(v: Value, indent: string, depth: nat, f: Features)
    requires Writable(v)
    ensures ReadLay(StyledLay(v, indent), depth, f) == ReadBack(CutKeys(v), depth, f)
    decreases v
  {
    hide ReadWord, LeafText, LeafMeaning, LeafOk, Multiline, StyledSlots, StyledFields, ReadSlots, ReadFields,
      ReadBackItems, ReadBackMembers;
    var newline := "\n" + (indent + INDENT);
    match v.payload
    case Arr(items) =>
      NoItemsRead(depth, f);
      StyledItemsRead(items, newline, indent + INDENT, "\n" + indent, depth, f);
      StyledItemsRead(items, " ", "", " ", depth, f);
    case Obj(members) => StyledMembersRead(members, newline, indent + INDENT, "\n" + indent, depth, f, []);
    case p => LeafIsReadBack(p, f);
  }

  lemma NoItemsRead(depth: nat, f: Features)
    ensures ReadSlots([], depth, f) == ReadBackItems([], depth, f) && CutItems([]) == []
  {
  }

  lemma {:induction false} StyledItemsRead(items: seq<Value>, before: string, indent: string, last: string, depth: nat,
                                           f: Features)
    requires WritableItems(items)
    ensures ReadSlots(StyledSlots(items, before, indent, last), depth, f) == ReadBackItems(CutItems(items), depth, f)
    decreases items
  {
    hide StyledLay, ReadLay, ReadBack, Writable, CutKeys;
    if items != [] {
      StyledReads(items[0], indent, depth + 1, f);
      StyledItemsRead(items[1..], before, indent, last, depth, f);
      assert StyledSlots(items, before, indent, last)[1..] == StyledSlots(items[1..], before, indent, last);
      assert CutItems(items)[1..] == CutItems(items[1..]);
    }
  }

  lemma {:induction false} StyledMembersRead(members: seq<Member>, before: string, indent: string, last: string,
                                             depth: nat, f: Features, done: seq<Member>)
    requires WritableMembers(members)
    ensures ReadFields(StyledFields(members, before, indent, last), depth, f, done)
            == ReadBackMembers(CutMembers(members), depth, f, done)
    decreases members
  {
    hide StyledLay, ReadLay, ReadBack, Writable, Quoted, Meaning, StringOf, HasKey, SetMember, IsKey, CutKeys, Cut;
    if members != [] {
      var key := Cut(members[0].key);
      CutBytes(members[0].key);
      QuotedIsKey(key);
      StyledReads(members[0].value, indent, depth + 1, f);
      var r := ReadBack(CutKeys(members[0].value), depth + 1, f);
      if r.Reads? {
        StyledMembersRead(members[1..], before, indent, last, depth, f, SetMember(done, Meaning(key, false), r.value));
      }
      assert StyledFields(members, before, indent, last)[1..] == StyledFields(members[1..], before, indent, last);
      assert CutMembers(members)[1..] == CutMembers(members[1..]);
    }
  }

  // ---------------------------------------------------------------- exactly which values come back

  function Max(a: nat, b: nat): nat {
    if a < b then b else a
  }

  /** How many levels of nesting lie below a value. */
  function Depth(v: Value): nat {
    match v.payload
    case Arr(items) => ItemsDepth(items)
    case Obj(members) => MembersDepth(members)
    case _ => 0
  }

  function ItemsDepth(items: seq<Value>): nat {
    if items == [] then 0 else Max(1 + Depth(items[0]), ItemsDepth(items[1..]))
  }

  function MembersDepth(members: seq<Member>): nat {
    if members == [] then 0 else Max(1 + Depth(members[0].value), MembersDepth(members[1..]))
  }

  /** Strings and keys are UTF-8, keys are below 2^30 bytes, and unsigned integers are beyond the signed range. */
  predicate Faithful(v: Value) {
    match v.payload
    case Arr(items) => FaithfulItems(items)
    case Obj(members) => FaithfulMembers(members)
    case Str(s) => ValidUtf8(s)
    case UInt(u) => u > MAX_LARGEST_INT
    case _ => true
  }

  predicate FaithfulItems(items: seq<Value>) {
    items == [] || (Faithful(items[0]) && FaithfulItems(items[1..]))
  }

  predicate FaithfulMembers(members: seq<Member>) {
    members == [] ||
    (ValidUtf8(members[0].key) && |members[0].key| < MAX_KEY_LENGTH && Faithful(members[0].value)
     && FaithfulMembers(members[1..]))
  }

  /** A value comes back unchanged if and only if it is faithful and not nested too deep. */
  lemma {:induction false} ReadBackUnchanged(v: Value, depth: nat, f: Features)
    requires Writable(v)
    ensures ReadBack(v, depth, f) == Reads(Plain(v)) <==> depth + Depth(v) <= f.stackLimit && Faithful(v)
    decreases v
  {
    hide Meaning, ValidUtf8, WritableMembers, WritableItems, ReadBackItems, ReadBackMembers, PlainItems, PlainMembers,
      FaithfulItems, FaithfulMembers, ItemsDepth, MembersDepth;
    match v.payload
    case Arr(items) => if depth <= f.stackLimit { ItemsUnchanged(items, depth, f); }
    case Obj(members) =>
      if depth <= f.stackLimit {
        MembersUnchanged(members, depth, f);
      }
    case Str(s) =>
      MeaningIsValid(s);
      if ValidUtf8(s) { ValidMeaning(s); }
    case _ =>
  }

  lemma {:induction false} ItemsUnchanged(items: seq<Value>, depth: nat, f: Features)
    requires WritableItems(items) && depth <= f.stackLimit
    ensures ReadBackItems(items, depth, f) == Reads(PlainItems(items))
            <==> depth + ItemsDepth(items) <= f.stackLimit && FaithfulItems(items)
    decreases items
  {
    hide ReadBack, Plain, Faithful, Writable, Depth;
    if items != [] {
      ReadBackUnchanged(items[0], depth + 1, f);
      ItemsUnchanged(items[1..], depth, f);
      var first, more := ReadBack(items[0], depth + 1, f), ReadBackItems(items[1..], depth, f);
      if first.Reads? && more.Reads? {
        SplitFirst(first.value, more.value, Plain(items[0]), PlainItems(items[1..]));
      }
    }
  }

  lemma SplitFirst<T>(x: T, xs: seq<T>, y: T, ys: seq<T>)
    ensures [x] + xs == [y] + ys <==> x == y && xs == ys
  {
    var p, q := [x] + xs, [y] + ys;
    assert p[0] == x && p[1..] == xs && q[0] == y && q[1..] == ys;
  }

  // ---------------------------------------------------------------- members

  predicate Utf8Names(members: seq<Member>) {
    forall i :: 0 <= i < |members| ==> ValidUtf8(members[i].key)
  }

  predicate Named(members: seq<Member>, key: string) {
    exists i :: 0 <= i < |members| && members[i].key == key
  }

  lemma SetMemberNames(members: seq<Member>, key: string, v: Value, name: string)
    requires Named(SetMember(members, key, v), name)
    ensures name == key || Named(members, name)
  {
    hide Place, BytesLess;
    var n, more := Place(members, key), SetMember(members, key, v);
    var i :| 0 <= i < |more| && more[i].key == name;
    if HasKey(members, key) || i < n {
      assert members[i].key == name;
    } else if i > n {
      assert members[i - 1].key == name;
    }
  }

  /** Every key that comes back was there before, or is repaired UTF-8. */
  lemma {:induction false} NamesAreRepaired(members: seq<Member>, depth: nat, f: Features, done: seq<Member>, name: string)
    requires WritableMembers(members)
    requires var r := ReadBackMembers(members, depth, f, done); r.Reads? && Named(r.value, name)
    ensures Named(done, name) || ValidUtf8(name)
    decreases members
  {
    hide ReadBack, Writable, Meaning, ValidUtf8, SetMember, HasKey, Named;
    if members != [] {
      var key, v := Meaning(members[0].key, false), ReadBack(members[0].value, depth + 1, f).value;
      NamesAreRepaired(members[1..], depth, f, SetMember(done, key, v), name);
      MeaningIsValid(members[0].key);
      if Named(SetMember(done, key, v), name) { SetMemberNames(done, key, v, name); }
    }
  }

  /** Members whose keys need no repair, one after the other. */
  function InOrder(members: seq<Member>, depth: nat, f: Features): Reading<seq<Member>> {
    if members == [] then Reads([])
    else if |members[0].key| >= MAX_KEY_LENGTH then Throws
    else match ReadBack(members[0].value, depth + 1, f)
      case Rejects => Rejects
      case Throws => Throws
      case Reads(v) =>
        match InOrder(members[1..], depth, f)
        case Reads(more) => Reads([Member(members[0].key, v)] + more)
        case r => r
  }

  function Behind(done: seq<Member>, r: Reading<seq<Member>>): Reading<seq<Member>> {
    match r
    case Reads(more) => Reads(done + more)
    case Rejects => Rejects
    case Throws => Throws
  }

  /** Every member so far comes before every member still to come. */
  predicate Below(done: seq<Member>, members: seq<Member>) {
    forall i, j :: 0 <= i < |done| && 0 <= j < |members| ==> BytesLess(done[i].key, members[j].key)
  }

  /** A key above all others is a new last member. */
  lemma AppendMember(done: seq<Member>, members: seq<Member>, v: Value)
    requires members != [] && MembersAscend(members) && Below(done, members)
    ensures !HasKey(done, members[0].key)
    ensures SetMember(done, members[0].key, v) == done + [Member(members[0].key, v)]
    ensures MembersAscend(members[1..]) && Below(done + [Member(members[0].key, v)], members[1..])
  {
    hide BytesLess;
    PlaceIs(done, members[0].key, |done|);
  }

  lemma {:induction false} AscendingInOrder(members: seq<Member>, depth: nat, f: Features, done: seq<Member>)
    requires MembersAscend(members) && Below(done, members) && Utf8Names(members)
    ensures ReadBackMembers(members, depth, f, done) == Behind(done, InOrder(members, depth, f))
    decreases members
  {
    hide ReadBack, Meaning, ValidUtf8, SetMember, HasKey, MembersAscend, Below;
    if members == [] {
      assert done + [] == done;
    } else {
      ValidMeaning(members[0].key);
      AppendMember(done, members, Value(Null, 0, 0));
      var r := ReadBack(members[0].value, depth + 1, f);
      if r.Reads? {
        AppendMember(done, members, r.value);
        AscendingInOrder(members[1..], depth, f, done + [Member(members[0].key, r.value)]);
        var more := InOrder(members[1..], depth, f);
        if more.Reads? {
          assert (done + [Member(members[0].key, r.value)]) + more.value
              == done + ([Member(members[0].key, r.value)] + more.value);
        }
      }
    }
  }

  lemma {:induction false} InOrderUnchanged(members: seq<Member>, depth: nat, f: Features)
    requires WritableMembers(members) && depth <= f.stackLimit && Utf8Names(members)
    ensures InOrder(members, depth, f) == Reads(PlainMembers(members))
            <==> depth + MembersDepth(members) <= f.stackLimit && FaithfulMembers(members)
    decreases members, 0
  {
    hide ReadBack, Plain, Faithful, Writable, Depth, ValidUtf8;
    if members != [] {
      var m := members[0];
      ReadBackUnchanged(m.value, depth + 1, f);
      InOrderUnchanged(members[1..], depth, f);
      var first, more := ReadBack(m.value, depth + 1, f), InOrder(members[1..], depth, f);
      if first.Reads? && more.Reads? {
        SplitFirst(Member(m.key, first.value), more.value, Member(m.key, Plain(m.value)), PlainMembers(members[1..]));
      }
    }
  }

  lemma {:induction false} FaithfulNames(members: seq<Member>)
    requires FaithfulMembers(members)
    ensures Utf8Names(members)
  {
    hide ValidUtf8, Faithful;
    if members != [] {
      FaithfulNames(members[1..]);
    }
  }

  lemma {:induction false} MembersUnchanged(members: seq<Member>, depth: nat, f: Features)
    requires WritableMembers(members) && MembersAscend(members) && depth <= f.stackLimit
    ensures ReadBackMembers(members, depth, f, []) == Reads(PlainMembers(members))
            <==> depth + MembersDepth(members) <= f.stackLimit && FaithfulMembers(members)
    decreases members, 1
  {
    hide ReadBackMembers, WritableMembers, MembersAscend, FaithfulMembers, PlainMembers, MembersDepth, InOrder,
      ValidUtf8;
    var r := ReadBackMembers(members, depth, f, []);
    if FaithfulMembers(members) { FaithfulNames(members); }
    if r == Reads(PlainMembers(members)) {
      forall i | 0 <= i < |members| ensures ValidUtf8(members[i].key) {
        PlainPlace(members, "");
        assert PlainMembers(members)[i].key == members[i].key;
        NamesAreRepaired(members, depth, f, [], members[i].key);
      }
    }
    if Utf8Names(members) {
      AscendingInOrder(members, depth, f, []);
      InOrderUnchanged(members, depth, f);
      NothingBehind(InOrder(members, depth, f));
    }
  }

  lemma NothingBehind(r: Reading<seq<Member>>)
    ensures Behind([], r) == r
  {
    if r.Reads? {
      assert [] + r.value == r.value;
    }
  }

  // ---------------------------------------------------------------- keys cut at a NUL do not come back

  lemma {:induction false} MeaningNoNul(s: string)
    requires Bytes(s) && '\0' !in s
    ensures '\0' !in Meaning(s, false)
  {
    hide QuoteChunk, ChunkMeaning;
    if s != "" {
      var n := QuoteChunk(s, false).1;
      MeaningNoNul(s[n..]);
      ChunkNoNul(s);
    }
  }

  lemma ChunkNoNul(s: string)
    requires s != "" && Bytes(s) && s[0] != '\0'
    ensures '\0' !in ChunkMeaning(s, false)
  {
    hide Utf8ToCodepoint;
    WriterCodepoint(s);
    EncodedNoNul(Emitted(Utf8ToCodepoint(s).0));
  }

  lemma EncodedNoNul(cp: nat)
    requires cp != 0
    ensures '\0' !in CodePointToUTF8(cp)
  {
  }

  lemma {:induction false} NoNulMembersAt(members: seq<Member>)
    ensures NoNulMembers(members) <==>
            forall i :: 0 <= i < |members| ==> '\0' !in members[i].key && NoNulKeys(members[i].value)
  {
    hide NoNulKeys;
    if members != [] {
      NoNulMembersAt(members[1..]);
      assert forall i :: 0 < i < |members| ==> members[i] == members[1..][i - 1];
    }
  }

  lemma SetNoNul(members: seq<Member>, key: string, v: Value)
    requires NoNulMembers(members) && '\0' !in key && NoNulKeys(v)
    ensures NoNulMembers(SetMember(members, key, v))
  {
    hide NoNulMembers, NoNulKeys, Place, BytesLess, BytesEqual;
    NoNulMembersAt(members);
    NoNulMembersAt(SetMember(members, key, v));
  }

  /** Values, keys and leaves without NUL in keys are read back without NUL in keys. */
  lemma {:induction false} NoNulReads(v: Value, depth: nat, f: Features)
    requires NoNulKeys(v) && BytesKeys(v)
    ensures var r := ReadBack(v, depth, f); r.Reads? ==> NoNulKeys(r.value)
    decreases v
  {
    hide LeafMeaning;
    match v.payload
    case Arr(items) => NoNulItemsRead(items, depth, f);
    case Obj(members) => NoNulMembersRead(members, depth, f, []);
    case p => LeafStays(p);
  }

  lemma LeafStays(p: Payload)
    ensures !p.Arr? && !p.Obj? ==> !LeafMeaning(p).Arr? && !LeafMeaning(p).Obj?
  {
  }

  predicate BytesKeys(v: Value) {
    match v.payload
    case Arr(items) => BytesItems(items)
    case Obj(members) => BytesMembers(members)
    case _ => true
  }

  predicate BytesItems(items: seq<Value>) {
    items == [] || (BytesKeys(items[0]) && BytesItems(items[1..]))
  }

  predicate BytesMembers(members: seq<Member>) {
    members == [] || (Bytes(members[0].key) && BytesKeys(members[0].value) && BytesMembers(members[1..]))
  }

  lemma {:induction false} NoNulItemsRead(items: seq<Value>, depth: nat, f: Features)
    requires NoNulItems(items) && BytesItems(items)
    ensures var r := ReadBackItems(items, depth, f); r.Reads? ==> NoNulItems(r.value)
    decreases items
  {
    hide ReadBack, NoNulKeys, BytesKeys;
    if items != [] {
      NoNulReads(items[0], depth + 1, f);
      NoNulItemsRead(items[1..], depth, f);
      var first, more := ReadBack(items[0], depth + 1, f), ReadBackItems(items[1..], depth, f);
      if first.Reads? && more.Reads? {
        assert ([first.value] + more.value)[1..] == more.value;
      }
    }
  }

  lemma {:induction false} NoNulMembersRead(members: seq<Member>, depth: nat, f: Features, done: seq<Member>)
    requires NoNulMembers(members) && BytesMembers(members) && NoNulMembers(done)
    ensures var r := ReadBackMembers(members, depth, f, done); r.Reads? ==> NoNulMembers(r.value)
    decreases members
  {
    hide ReadBack, NoNulKeys, BytesKeys, Meaning, SetMember, HasKey, Bytes;
    if members != [] {
      NoNulReads(members[0].value, depth + 1, f);
      MeaningNoNul(members[0].key);
      var first := ReadBack(members[0].value, depth + 1, f);
      if first.Reads? {
        var key := Meaning(members[0].key, false);
        SetNoNul(done, key, first.value);
        NoNulMembersRead(members[1..], depth, f, SetMember(done, key, first.value));
      }
    }
  }

  /** Cut keys have no NUL. */
  lemma {:induction false} CutNoNul(v: Value)
    requires Writable(v)
    ensures NoNulKeys(CutKeys(v)) && BytesKeys(CutKeys(v))
    decreases v
  {
    match v.payload
    case Arr(items) => CutItemsNoNul(items);
    case Obj(members) => CutMembersNoNul(members);
    case _ =>
  }

  lemma {:induction false} CutItemsNoNul(items: seq<Value>)
    requires WritableItems(items)
    ensures NoNulItems(CutItems(items)) && BytesItems(CutItems(items))
    decreases items
  {
    hide CutKeys, NoNulKeys, BytesKeys, Writable;
    if items != [] {
      CutNoNul(items[0]);
      CutItemsNoNul(items[1..]);
      assert CutItems(items)[1..] == CutItems(items[1..]);
    }
  }

  lemma {:induction false} CutMembersNoNul(members: seq<Member>)
    requires WritableMembers(members)
    ensures NoNulMembers(CutMembers(members)) && BytesMembers(CutMembers(members))
    decreases members
  {
    hide CutKeys, NoNulKeys, BytesKeys, Writable, Bytes, Cut;
    if members != [] {
      CutNoNul(members[0].value);
      CutMembersNoNul(members[1..]);
      CutBytes(members[0].key);
      CutClean(members[0].key);
      assert CutMembers(members)[1..] == CutMembers(members[1..]);
    }
  }

  lemma {:induction false} CutClean(s: string)
    ensures '\0' !in Cut(s)
  {
    if s != "" {
      CutClean(s[1..]);
    }
  }

  lemma {:induction false} PlainNoNul(v: Value)
    ensures NoNulKeys(Plain(v)) <==> NoNulKeys(v)
    decreases v
  {
    match v.payload
    case Arr(items) => PlainNoNulItems(items);
    case Obj(members) => PlainNoNulMembers(members);
    case _ =>
  }

  lemma {:induction false} PlainNoNulItems(items: seq<Value>)
    ensures NoNulItems(PlainItems(items)) <==> NoNulItems(items)
    decreases items
  {
    hide Plain, NoNulKeys;
    if items != [] {
      PlainNoNul(items[0]);
      PlainNoNulItems(items[1..]);
      assert PlainItems(items)[1..] == PlainItems(items[1..]);
    }
  }

  lemma {:induction false} PlainNoNulMembers(members: seq<Member>)
    ensures NoNulMembers(PlainMembers(members)) <==> NoNulMembers(members)
    decreases members
  {
    hide Plain, NoNulKeys;
    if members != [] {
      PlainNoNul(members[0].value);
      PlainNoNulMembers(members[1..]);
      assert PlainMembers(members)[1..] == PlainMembers(members[1..]);
    }
  }

  /** With its keys cut, a value comes back unchanged only if there was nothing to cut. */
  lemma CutUnchanged(v: Value, depth: nat, f: Features)
    requires Writable(v)
    ensures ReadBack(CutKeys(v), depth, f) == Reads(Plain(v))
            <==> depth + Depth(v) <= f.stackLimit && Faithful(v) && NoNulKeys(v)
  {
    hide ReadBack, Writable, CutKeys, Plain, Depth, Faithful, NoNulKeys, BytesKeys;
    CutNoNul(v);
    NoNulReads(CutKeys(v), depth, f);
    PlainNoNul(v);
    if NoNulKeys(v) {
      CutNothing(v);
      ReadBackPlain(v, depth, f);
      ReadBackUnchanged(v, depth, f);
    }
  }

  /** Reading back does not depend on source ranges. */
  lemma {:induction false} ReadBackPlain(v: Value, depth: nat, f: Features)
    ensures ReadBack(Plain(v), depth, f) == ReadBack(v, depth, f)
    decreases v
  {
    match v.payload
    case Arr(items) => ItemsReadBackPlain(items, depth, f);
    case Obj(members) => MembersReadBackPlain(members, depth, f, []);
    case _ =>
  }

  lemma {:induction false} ItemsReadBackPlain(items: seq<Value>, depth: nat, f: Features)
    ensures ReadBackItems(PlainItems(items), depth, f) == ReadBackItems(items, depth, f)
    decreases items
  {
    hide ReadBack, Plain;
    if items != [] {
      ReadBackPlain(items[0], depth + 1, f);
      ItemsReadBackPlain(items[1..], depth, f);
      assert PlainItems(items)[1..] == PlainItems(items[1..]);
    }
  }

  lemma {:induction false} MembersReadBackPlain(members: seq<Member>, depth: nat, f: Features, done: seq<Member>)
    ensures ReadBackMembers(PlainMembers(members), depth, f, done) == ReadBackMembers(members, depth, f, done)
    decreases members
  {
    hide ReadBack, Plain, SetMember, HasKey, Meaning;
    if members != [] {
      ReadBackPlain(members[0].value, depth + 1, f);
      var first := ReadBack(members[0].value, depth + 1, f);
      if first.Reads? {
        MembersReadBackPlain(members[1..], depth, f, SetMember(done, Meaning(members[0].key, false), first.value));
      }
      assert PlainMembers(members)[1..] == PlainMembers(members[1..]);
    }
  }

  // ---------------------------------------------------------------- the theorems

  /** The reader's answer is this value, unchanged. */
  predicate ComesBack(o: Outcome<Value>, v: Value) {
    o.Done? && Equal(o.value, v)
  }

  lemma Returns(o: Outcome<Value>, r: Reading<Value>, f: Features, end: nat, v: Value)
    requires Answers(o, r, f, end)
    ensures ComesBack(o, v) <==> r == Reads(Plain(v)) && (f.strictRoot ==> !IsLeaf(v))
  {
    hide Equal, Plain;
    PlainIsLeaf(v);
    if o.Done? {
      EqualIsSamePlain(o.value, v);
    }
  }

  const READ_INDEX_LIMIT: nat := 0x8000_0000

  /** Arrays are short enough for the int in which the reader counts elements. */
  predicate Countable(v: Value) {
    match v.payload
    case Arr(items) => |items| < READ_INDEX_LIMIT && CountableItems(items)
    case Obj(members) => CountableMembers(members)
    case _ => true
  }

  predicate CountableItems(items: seq<Value>) {
    items == [] || (Countable(items[0]) && CountableItems(items[1..]))
  }

  predicate CountableMembers(members: seq<Member>) {
    members == [] || (Countable(members[0].value) && CountableMembers(members[1..]))
  }

  /** What FastWriter prints of any value is read as ReadBack says; the value itself comes back if and only if it is
      faithful, not nested too deep, and not a leaf that a strict root excludes. */
  lemma FastRoundTrip(v: Value, yaml: bool, after: string, f: Features)
    requires Writable(v) && Countable(v) && AllSpaces(after)
    ensures var text := Render(FastLay(v, yaml)) + after;
            var o := ParseDocument(WithoutBom(text, f), f);
            && Answers(o, ReadBack(v, 1, f), f, |text| - |after|)
            && (ComesBack(o, v) <==> 1 + Depth(v) <= f.stackLimit && Faithful(v) && (f.strictRoot ==> !IsLeaf(v)))
  {
    hide ParseDocument, WithoutBom, LayOk, Render, Depth, Faithful, Plain, Answers, ReadBack, Writable, ComesBack;
    var text := Render(FastLay(v, yaml)) + after;
    FastLayShows(v, yaml);
    DocumentIsRead("", FastLay(v, yaml), after, f);
    FastReads(v, yaml, 1, f);
    ReadBackUnchanged(v, 1, f);
    Returns(ParseDocument(WithoutBom(text, f), f), ReadBack(v, 1, f), f, |text| - |after|, v);
  }

  /** So is what StyledWriter prints, for the value with its keys cut at the first NUL: a value with a NUL in a key
      never comes back. */
  lemma StyledRoundTrip(v: Value, after: string, f: Features)
    requires Writable(v) && Countable(v) && AllSpaces(after)
    ensures var text := Render(StyledLay(v, "")) + after;
            var o := ParseDocument(WithoutBom(text, f), f);
            && Answers(o, ReadBack(CutKeys(v), 1, f), f, |text| - |after|)
            && (ComesBack(o, v) <==>
                1 + Depth(v) <= f.stackLimit && Faithful(v) && NoNulKeys(v) && (f.strictRoot ==> !IsLeaf(v)))
  {
    hide ParseDocument, WithoutBom, LayOk, Render, Depth, Faithful, Plain, Answers, ReadBack, Writable, ComesBack,
      CutKeys, NoNulKeys;
    var text := Render(StyledLay(v, "")) + after;
    StyledLayShows(v, "");
    DocumentIsRead("", StyledLay(v, ""), after, f);
    StyledReads(v, "", 1, f);
    CutUnchanged(v, 1, f);
    Returns(ParseDocument(WithoutBom(text, f), f), ReadBack(CutKeys(v), 1, f), f, |text| - |after|, v);
  }

  // ---------------------------------------------------------------- both writers, token by token

  /** Cutting the first character of a UTF-8 string. */
  lemma CutChar(s: string)
    requires CharLength(s) > 0 && s[0] != '\0'
    ensures var n := CharLength(s);
            Cut(s) == s[..n] + Cut(s[n..]) && CharLength(Cut(s)) == n && Cut(s)[n..] == Cut(s[n..])
  {
    var n := CharLength(s);
    var t := Cut(s[n..]);
    assert forall i :: 0 <= i < n ==> s[i] != '\0';
    CutRun(s, n);
    assert Cut(s) == s[..n] + t;
    assert forall i :: 0 <= i < n ==> Cut(s)[i] == s[i];
    assert Cut(s)[n..] == t;
  }

  lemma {:induction false} CutRun(s: string, n: nat)
    requires n <= |s| && forall i :: 0 <= i < n ==> s[i] != '\0'
    ensures Cut(s) == s[..n] + Cut(s[n..])
  {
    if n > 0 {
      CutRun(s[1..], n - 1);
      assert s[1..][n - 1..] == s[n..];
      assert s[..n] == [s[0]] + s[1..][..n - 1];
    }
  }

  lemma {:induction false} CutValid(s: string)
    requires ValidUtf8(s)
    ensures ValidUtf8(Cut(s))
    decreases |s|
  {
    hide CharLength;
    if s != "" && s[0] != '\0' {
      CutChar(s);
      CutValid(s[CharLength(s)..]);
    }
  }

  /** A key is quoted like its cut form only if nothing is cut off. */
  lemma CutTells(key: string)
    requires Bytes(key) && ValidUtf8(key)
    ensures Quoted(Cut(key), false) == Quoted(key, false) <==> '\0' !in key
  {
    hide QuoteBody, DecodeBody, ValidUtf8;
    CutWhole(key);
    if Quoted(Cut(key), false) == Quoted(key, false) {
      CutValid(key);
      CutBytes(key);
      QuoteRoundTrip(key);
      QuoteRoundTrip(Cut(key));
      var a, b := Quoted(Cut(key), false), Quoted(key, false);
      assert a[1..|a| - 1] == QuoteBody(Cut(key), false) && b[1..|b| - 1] == QuoteBody(key, false);
    }
  }

  /** Lists of lexemes of the same shape are equal part by part. */
  lemma SplitEqual(a: seq<string>, b: seq<string>, c: seq<string>, d: seq<string>)
    requires |a| == |c|
    ensures a + b == c + d <==> a == c && b == d
  {
    assert (a + b)[..|a|] == a && (a + b)[|a|..] == b;
    assert (c + d)[..|c|] == c && (c + d)[|c|..] == d;
  }

  predicate Utf8Keys(v: Value) {
    match v.payload
    case Arr(items) => Utf8Items(items)
    case Obj(members) => Utf8Members(members)
    case _ => true
  }

  predicate Utf8Items(items: seq<Value>) {
    items == [] || (Utf8Keys(items[0]) && Utf8Items(items[1..]))
  }

  predicate Utf8Members(members: seq<Member>) {
    members == [] || (ValidUtf8(members[0].key) && Utf8Keys(members[0].value) && Utf8Members(members[1..]))
  }

  /** Cutting keys shows in the lexemes. */
  lemma {:induction false} LexemesTell(v: Value)
    requires Writable(v) && Utf8Keys(v)
    ensures |ValueLexemes(CutKeys(v))| == |ValueLexemes(Plain(v))|
    ensures ValueLexemes(CutKeys(v)) == ValueLexemes(Plain(v)) <==> NoNulKeys(v)
    decreases v
  {
    hide ItemLexemes, MemberLexemes, LeafText;
    match v.payload
    case Arr(items) =>
      ItemLexemesTell(items);
      SplitEqual(["["], ItemLexemes(CutItems(items)), ["["], ItemLexemes(PlainItems(items)));
    case Obj(members) =>
      MemberLexemesTell(members);
      SplitEqual(["{"], MemberLexemes(CutMembers(members)), ["{"], MemberLexemes(PlainMembers(members)));
    case _ =>
  }

  lemma {:induction false} ItemLexemesTell(items: seq<Value>)
    requires WritableItems(items) && Utf8Items(items)
    ensures |ItemLexemes(CutItems(items))| == |ItemLexemes(PlainItems(items))|
    ensures ItemLexemes(CutItems(items)) == ItemLexemes(PlainItems(items)) <==> NoNulItems(items)
    decreases items
  {
    hide ValueLexemes, CutKeys, Plain, Writable, NoNulKeys, Utf8Keys;
    if items != [] {
      LexemesTell(items[0]);
      ItemLexemesTell(items[1..]);
      assert CutItems(items)[1..] == CutItems(items[1..]) && PlainItems(items)[1..] == PlainItems(items[1..]);
      var x, y := ItemLexemes(CutItems(items[1..])), ItemLexemes(PlainItems(items[1..]));
      SplitEqual([","], x, [","], y);
      var last := |items| == 1;
      SplitEqual(ValueLexemes(CutKeys(items[0])), if last then ["]"] else [","] + x,
                 ValueLexemes(Plain(items[0])), if last then ["]"] else [","] + y);
    }
  }

  lemma {:induction false} MemberLexemesTell(members: seq<Member>)
    requires WritableMembers(members) && Utf8Members(members)
    ensures |MemberLexemes(CutMembers(members))| == |MemberLexemes(PlainMembers(members))|
    ensures MemberLexemes(CutMembers(members)) == MemberLexemes(PlainMembers(members)) <==> NoNulMembers(members)
    decreases members
  {
    hide ValueLexemes, CutKeys, Plain, Writable, NoNulKeys, Quoted, Cut, Utf8Keys, ValidUtf8;
    if members != [] {
      var m := members[0];
      LexemesTell(m.value);
      MemberLexemesTell(members[1..]);
      CutTells(m.key);
      assert CutMembers(members)[1..] == CutMembers(members[1..])
        && PlainMembers(members)[1..] == PlainMembers(members[1..]);
      var last := |members| == 1;
      var x, y := MemberLexemes(CutMembers(members[1..])), MemberLexemes(PlainMembers(members[1..]));
      SplitEqual([","], x, [","], y);
      var p, q := ValueLexemes(CutKeys(m.value)), ValueLexemes(Plain(m.value));
      var u, w := if last then ["}"] else [","] + x, if last then ["}"] else [","] + y;
      SplitEqual(p, u, q, w);
      SplitEqual([":"], p + u, [":"], q + w);
      SplitEqual([Quoted(Cut(m.key), false)], [":"] + (p + u), [Quoted(m.key, false)], [":"] + (q + w));
    }
  }

  /** Both writers print the same lexemes if no key contains a NUL, and for UTF-8 keys only then. */
  lemma SameLexemes(v: Value, yaml: bool, after: string)
    requires Writable(v) && AllSpaces(after)
    ensures var fast, styled := Lexemes(Render(FastLay(v, yaml)) + after, 0), Lexemes(Render(StyledLay(v, "")) + "\n", 0);
            (NoNulKeys(v) ==> styled == fast)
            && (Utf8Keys(v) ==> (styled == fast <==> NoNulKeys(v)))
  {
    hide Render, LayOk, Lexemes, ValueLexemes, LayLexemes, Writable, CutKeys, NoNulKeys, Plain, Utf8Keys;
    FastLayShows(v, yaml);
    StyledLayShows(v, "");
    DocumentLexemes(FastLay(v, yaml), after);
    DocumentLexemes(StyledLay(v, ""), "\n");
    PlainLexemes(v);
    if NoNulKeys(v) {
      CutNothing(v);
    }
    if Utf8Keys(v) {
      LexemesTell(v);
    }
  }

  lemma {:induction false} PlainLexemes(v: Value)
    ensures ValueLexemes(Plain(v)) == ValueLexemes(v)
    decreases v
  {
    match v.payload
    case Arr(items) => PlainItemLexemes(items);
    case Obj(members) => PlainMemberLexemes(members);
    case _ =>
  }

  lemma {:induction false} PlainItemLexemes(items: seq<Value>)
    ensures ItemLexemes(PlainItems(items)) == ItemLexemes(items)
    decreases items
  {
    hide Plain, ValueLexemes;
    if items != [] {
      PlainLexemes(items[0]);
      PlainItemLexemes(items[1..]);
      assert PlainItems(items)[1..] == PlainItems(items[1..]);
    }
  }

  lemma {:induction false} PlainMemberLexemes(members: seq<Member>)
    ensures MemberLexemes(PlainMembers(members)) == MemberLexemes(members)
    decreases members
  {
    hide Plain, ValueLexemes, Quoted;
    if members != [] {
      PlainLexemes(members[0].value);
      PlainMemberLexemes(members[1..]);
      assert PlainMembers(members)[1..] == PlainMembers(members[1..]);
    }
  }

  /** A key that is not UTF-8 can lose NULs without showing it. */
  lemma CutUnseen()
    ensures var key := "\U{f0}\0\0\0"; Cut(key) != key && Quoted(Cut(key), false) == Quoted(key, false)
  {
    var key := "\U{f0}\0\0\0";
    assert key[1..] == "\0\0\0";
    assert Cut(key[1..]) == "";
    assert Cut(key) == "\U{f0}";
    assert Utf8ToCodepoint(key) == (REPLACEMENT_CHARACTER, 3);
    assert Utf8ToCodepoint("\U{f0}") == (REPLACEMENT_CHARACTER, 0);
    assert QuoteBody(key, false) == EscapeCodepoint(REPLACEMENT_CHARACTER) + QuoteBody("", false) by {
      assert key[4..] == "";
    }
    assert QuoteBody("\U{f0}", false) == EscapeCodepoint(REPLACEMENT_CHARACTER) + QuoteBody("", false) by {
      assert "\U{f0}"[1..] == "";
    }
  }
}
