/**
 What a text of RFC 8259 means, token by token: its literals, integers and strings, arrays in the
 order of their elements, and objects as maps in which the last of several members of one name
 counts.
 */
module JsonMeaning {
  import opened Wrappers
  import opened JsonText
  import opened JsonString
  import opened JsonNumber
  import opened JsonLexer
  import opened JsonValue
  import opened JsonParser
  import opened JsonLayout
  import opened JsonFastWriter
  import opened JsonGrammar

  /** The digits of a number in base ten. */
  lemma NatOfDigits(d: string, c: char)
    ensures NatOf(d + [c]) == 10 * NatOf(d) + (c as int - '0' as int)
  {
  }

  lemma LiteralsRead(f: Features)
    ensures ReadWord("true", f) == Reads(Value(Bool(true), 0, 0))
    ensures ReadWord("false", f) == Reads(Value(Bool(false), 0, 0))
    ensures ReadWord("null", f) == Reads(Value(Null, 0, 0))
  {
    assert "true"[1..] == "rue" && "false"[1..] == "alse" && "null"[1..] == "ull";
  }

  /** A string means what its characters and escapes stand for; it is refused for an unpaired high surrogate. */
  lemma StringReads(s: string, f: Features)
    requires RfcString(s)
    ensures var body := s[1..|s| - 1];
            ReadWord(s, f) == if Paired(body) then Reads(Value(Str(Denotation(body)), 0, 0)) else Rejects
  {
    hide RfcString, StringOf, TokenAt, Paired, Denotation;
    RfcStringIsKey(s);
    RfcStringReads(s);
    if Paired(s[1..|s| - 1]) { RfcStringDenotes(s); }
  }

  /** A number without fraction and exponent means its integer, if that has 64 bits; the others are left to the double
      reader. */
  lemma IntegerReads(s: string, f: Features)
    requires RfcInteger(s) && RfcNumber(s)
    ensures var n := if s[0] == '-' then -NatOf(s[1..]) else NatOf(s);
            && (-0x8000_0000_0000_0000 <= n < 0x8000_0000_0000_0000 ==> ReadWord(s, f) == Reads(Value(Int(n), 0, 0)))
            && (0x8000_0000_0000_0000 <= n < 0x1_0000_0000_0000_0000 ==> ReadWord(s, f) == Reads(Value(UInt(n), 0, 0)))
  {
    hide RfcNumber, TokenAt, NumberOf, NatOf, RfcInteger;
    RfcNumberIsWord(s);
    RfcIntegersAreRead(s);
  }

  /** The elements of an array, in order. */
  lemma {:induction false} ElementsInOrder(slots: seq<Slot>, depth: nat, f: Features)
    requires ReadSlots(slots, depth, f).Reads?
    ensures var items := ReadSlots(slots, depth, f).value;
            && |items| == |slots|
            && forall i :: 0 <= i < |items| ==> ReadLay(slots[i].item, depth + 1, f) == Reads(items[i])
    decreases |slots|
  {
    hide ReadLay;
    if slots != [] {
      ElementsInOrder(slots[1..], depth, f);
      var items, more := ReadSlots(slots, depth, f).value, ReadSlots(slots[1..], depth, f).value;
      assert forall i :: 0 < i < |items| ==> items[i] == more[i - 1] && slots[i] == slots[1..][i - 1];
    }
  }

  predicate Has(members: seq<Member>, key: string, value: Value) {
    Member(key, value) in members
  }

  /** Where a key is, or would be, among keys in order. */
  lemma PlaceAmong(members: seq<Member>, key: string, n: nat)
    requires MembersAscend(members) && n == Place(members, key)
    ensures forall i :: 0 <= i < n ==> BytesLess(members[i].key, key) && members[i].key != key
    ensures forall i :: n < i < |members| ==> BytesLess(key, members[i].key) && members[i].key != key
    ensures n < |members| ==> (HasKey(members, key) <==> members[n].key == key)
    ensures n < |members| && members[n].key != key ==> BytesLess(key, members[n].key)
    ensures n == |members| ==> !HasKey(members, key)
  {
    hide BytesLess, BytesEqual, Place;
    PlaceSplits(members, key, n);
    BytesTrichotomy(key, key);
    forall i | 0 <= i < |members|
      ensures i != n ==> members[i].key != key && (i > n ==> BytesLess(key, members[i].key))
    {
      BytesTrichotomy(members[i].key, key);
      if n < |members| {
        BytesTrichotomy(members[n].key, key);
        if i > n && members[n].key != key { BytesTransitive(key, members[n].key, members[i].key); }
      }
      BytesTrichotomy(key, members[i].key);
    }
    if n < |members| { BytesTrichotomy(members[n].key, key); }
  }

  /** Setting a member keeps the keys in order, gives this key this value, and leaves the other keys. */
  lemma SetMemberIs(members: seq<Member>, key: string, value: Value)
    requires MembersAscend(members)
    ensures var more := SetMember(members, key, value);
            && MembersAscend(more)
            && (forall v :: Has(more, key, v) <==> v == value)
            && (forall k, v :: k != key ==> (Has(more, k, v) <==> Has(members, k, v)))
  {
    hide BytesLess, BytesEqual, Place;
    var n, more := Place(members, key), SetMember(members, key, value);
    PlaceAmong(members, key, n);
    if HasKey(members, key) {
      assert more == members[n := Member(key, value)];
      assert forall i :: 0 <= i < |members| && i != n ==> more[i] == members[i];
      assert more[n] == Member(key, value) && members[n].key == key;
    } else {
      assert more == members[..n] + [Member(key, value)] + members[n..];
      assert forall i :: 0 <= i < n ==> more[i] == members[i];
      assert forall i :: n <= i < |members| ==> more[i + 1] == members[i];
      assert forall i :: n < i < |more| ==> more[i] == members[i - 1];
      assert more[n] == Member(key, value);
    }
  }

  predicate NamedAt(fields: seq<Field>, i: nat, key: string)
    requires i < |fields|
  {
    StringOf(fields[i].key) == Some(key)
  }

  /** The last of the fields of this name. */
  ghost predicate IsLast(fields: seq<Field>, i: nat, key: string) {
    i < |fields| && NamedAt(fields, i, key) && forall j :: i < j < |fields| ==> !NamedAt(fields, j, key)
  }

  ghost predicate Unnamed(fields: seq<Field>, key: string) {
    forall i :: 0 <= i < |fields| ==> !NamedAt(fields, i, key)
  }

  lemma LaterOnes(fields: seq<Field>, key: string)
    requires fields != []
    ensures Unnamed(fields, key) <==> !NamedAt(fields, 0, key) && Unnamed(fields[1..], key)
    ensures IsLast(fields, 0, key) <==> NamedAt(fields, 0, key) && Unnamed(fields[1..], key)
    ensures forall i :: 0 < i < |fields| ==> (IsLast(fields, i, key) <==> IsLast(fields[1..], i - 1, key))
  {
    var rest := fields[1..];
    hide StringOf;
    assert forall i :: 0 < i < |fields| ==> fields[i] == rest[i - 1];
    assert forall i :: 0 <= i < |rest| ==> NamedAt(rest, i, key) == NamedAt(fields, i + 1, key);
    forall i | 0 < i < |fields| ensures IsLast(fields, i, key) <==> IsLast(rest, i - 1, key) {
      assert NamedAt(fields, i, key) == NamedAt(rest, i - 1, key);
      if IsLast(fields, i, key) {
        forall j | i - 1 < j < |rest| ensures !NamedAt(rest, j, key) { assert !NamedAt(fields, j + 1, key); }
      }
      if IsLast(rest, i - 1, key) {
        forall j | i < j < |fields| ensures !NamedAt(fields, j, key) { assert !NamedAt(rest, j - 1, key); }
      }
    }
    if Unnamed(fields, key) {
      forall i | 0 <= i < |rest| ensures !NamedAt(rest, i, key) { assert !NamedAt(fields, i + 1, key); }
    }
    if Unnamed(rest, key) {
      forall i | 0 < i < |fields| ensures !NamedAt(fields, i, key) { assert !NamedAt(rest, i - 1, key); }
    }
  }

  /** The members of an object: keys in order, and under every name the value of the last field of that name. */
  lemma {:induction false} LastFieldCounts(fields: seq<Field>, depth: nat, f: Features, members: seq<Member>,
                                           key: string, v: Value)
    requires MembersAscend(members) && ReadFields(fields, depth, f, members).Reads?
    ensures var r := ReadFields(fields, depth, f, members).value;
            && MembersAscend(r)
            && (Unnamed(fields, key) ==> (Has(r, key, v) <==> Has(members, key, v)))
            && (forall i: nat :: IsLast(fields, i, key) ==>
                  (Has(r, key, v) <==> ReadLay(fields[i].slot.item, depth + 1, f) == Reads(v)))
    decreases |fields|
  {
    hide ReadLay, StringOf, HasKey, SetMember, MembersAscend, Has, Unnamed, NamedAt;
    if fields == [] {
      NoneIsLast(key);
    } else {
      var name, w := StringOf(fields[0].key).value, ReadLay(fields[0].slot.item, depth + 1, f).value;
      SetMemberIs(members, name, w);
      LastFieldCounts(fields[1..], depth, f, SetMember(members, name, w), key, v);
      LaterOnes(fields, key);
      assert NamedAt(fields, 0, key) <==> name == key by { NameIs(fields, key); }
      forall i: nat | IsLast(fields, i, key)
        ensures Has(ReadFields(fields, depth, f, members).value, key, v)
                <==> ReadLay(fields[i].slot.item, depth + 1, f) == Reads(v)
      {
        if i > 0 {
          assert fields[i] == fields[1..][i - 1] && IsLast(fields[1..], i - 1, key);
        } else {
          assert name == key;
        }
      }
    }
  }

  lemma NameIs(fields: seq<Field>, key: string)
    requires fields != [] && StringOf(fields[0].key).Some?
    ensures NamedAt(fields, 0, key) <==> StringOf(fields[0].key).value == key
  {
  }

  lemma NoneIsLast(key: string)
    ensures forall i: nat :: !IsLast([], i, key)
  {
  }

  // ---------------------------------------------------------------- nesting

  /** How deep values are nested: 1 for a value without parts. */
  function Nesting(lay: Lay): nat {
    match lay
    case Leaf(_) => 1
    case ArrayLay(_, slots) => 1 + SlotsNesting(slots)
    case ObjectLay(_, fields) => 1 + FieldsNesting(fields)
  }

  function Max(a: nat, b: nat): nat {
    if a < b then b else a
  }

  function SlotsNesting(slots: seq<Slot>): nat {
    if slots == [] then 0 else Max(Nesting(slots[0].item), SlotsNesting(slots[1..]))
  }

  function FieldsNesting(fields: seq<Field>): nat {
    if fields == [] then 0 else Max(Nesting(fields[0].slot.item), FieldsNesting(fields[1..]))
  }

  /** No key denotes 2^30 bytes or more. */
  predicate ShortKeys(lay: Lay) {
    match lay
    case Leaf(_) => true
    case ArrayLay(_, slots) => forall i :: 0 <= i < |slots| ==> ShortKeys(slots[i].item)
    case ObjectLay(_, fields) =>
      forall i :: 0 <= i < |fields| ==> ShortKeys(fields[i].slot.item) && ShortKey(StringOf(fields[i].key))
  }

  predicate ShortKey(key: Option<string>) {
    key.Some? ==> |key.value| < 0x4000_0000
  }

  /** A text nested deeper than the stack limit is never accepted, and any other is read without an exception. */
  lemma {:induction false} NestingLimit(lay: Lay, depth: nat, f: Features)
    requires depth > 0
    ensures depth - 1 + Nesting(lay) > f.stackLimit ==> !ReadLay(lay, depth, f).Reads?
    ensures depth - 1 + Nesting(lay) <= f.stackLimit && ShortKeys(lay) ==> !ReadLay(lay, depth, f).Throws?
    decreases lay
  {
    hide ReadWord;
    if depth <= f.stackLimit {
      match lay
      case Leaf(lexeme) =>
        WordNeverThrows(lexeme, f);
      case ArrayLay(_, slots) =>
        SlotsLimit(slots, depth, f);
      case ObjectLay(_, fields) =>
        FieldsLimit(fields, depth, f, []);
    }
  }

  lemma WordNeverThrows(lexeme: string, f: Features)
    ensures !ReadWord(lexeme, f).Throws?
  {
    hide TokenAt, NumberPayload, StringOf;
  }

  lemma {:induction false} SlotsLimit(slots: seq<Slot>, depth: nat, f: Features)
    requires 0 < depth <= f.stackLimit
    ensures depth + SlotsNesting(slots) > f.stackLimit ==> !ReadSlots(slots, depth, f).Reads?
    ensures depth + SlotsNesting(slots) <= f.stackLimit && (forall i :: 0 <= i < |slots| ==> ShortKeys(slots[i].item))
            ==> !ReadSlots(slots, depth, f).Throws?
    decreases slots
  {
    hide ReadLay, ShortKeys, Nesting;
    if slots != [] {
      NestingLimit(slots[0].item, depth + 1, f);
      SlotsLimit(slots[1..], depth, f);
    }
  }

  predicate ShortFields(fields: seq<Field>) {
    ShortKeys(ObjectLay("", fields))
  }

  lemma ShortStep(fields: seq<Field>)
    requires fields != [] && ShortFields(fields)
    ensures ShortFields(fields[1..]) && ShortKeys(fields[0].slot.item)
    ensures StringOf(fields[0].key).Some? ==> |StringOf(fields[0].key).value| < 0x4000_0000
  {
    hide StringOf;
  }

  lemma {:induction false} FieldsLimit(fields: seq<Field>, depth: nat, f: Features, members: seq<Member>)
    requires 0 < depth <= f.stackLimit
    ensures depth + FieldsNesting(fields) > f.stackLimit ==> !ReadFields(fields, depth, f, members).Reads?
    ensures depth + FieldsNesting(fields) <= f.stackLimit && ShortFields(fields)
            ==> !ReadFields(fields, depth, f, members).Throws?
    decreases fields
  {
    hide ReadLay, ShortKeys, Nesting, ShortFields, StringOf, SetMember, HasKey;
    if fields != [] {
      if ShortFields(fields) { ShortStep(fields); }
      NestingLimit(fields[0].slot.item, depth + 1, f);
      var key, v := StringOf(fields[0].key), ReadLay(fields[0].slot.item, depth + 1, f);
      if key.Some? && v.Reads? {
        FieldsLimit(fields[1..], depth, f, SetMember(members, key.value, v.value));
      }
    }
  }

  /** An object that is read has short keys, which are strings; with rejectDupKeys no two of them are the same. */
  lemma {:induction false} KeysOfRead(fields: seq<Field>, depth: nat, f: Features, members: seq<Member>, i: nat)
    requires MembersAscend(members) && ReadFields(fields, depth, f, members).Reads? && i < |fields|
    ensures StringOf(fields[i].key).Some? && |StringOf(fields[i].key).value| < 0x4000_0000
    ensures f.rejectDupKeys ==> !HasKey(members, StringOf(fields[i].key).value)
    ensures f.rejectDupKeys ==> forall j :: 0 <= j < i ==> StringOf(fields[j].key) != StringOf(fields[i].key)
    decreases |fields|
  {
    hide ReadLay, StringOf, SetMember, HasKey, MembersAscend;
    var key, v := StringOf(fields[0].key).value, ReadLay(fields[0].slot.item, depth + 1, f).value;
    if i > 0 {
      SetMemberIs(members, key, v);
      KeysOfRead(fields[1..], depth, f, SetMember(members, key, v), i - 1);
      var other := StringOf(fields[i].key).value;
      NewKeyHad(members, key, v, other);
      forall j | 0 <= j < i && f.rejectDupKeys ensures StringOf(fields[j].key) != StringOf(fields[i].key) {
        if j > 0 { assert fields[1..][j - 1] == fields[j]; }
      }
    }
  }

  /** A key that is not there after a member was set was not there before, and is not the one that was set. */
  lemma NewKeyHad(members: seq<Member>, key: string, v: Value, other: string)
    requires MembersAscend(members)
    ensures !HasKey(SetMember(members, key, v), other) ==> !HasKey(members, other) && other != key
  {
    hide SetMember, HasKey, MembersAscend;
    var more := SetMember(members, key, v);
    SetMemberIs(members, key, v);
    KeyIsHad(members, other);
    KeyIsHad(more, other);
    assert Has(more, key, v);
  }

  lemma KeyIsHad(members: seq<Member>, key: string)
    requires MembersAscend(members)
    ensures HasKey(members, key) <==> exists v :: Has(members, key, v)
  {
    hide BytesLess, BytesEqual, Place, HasKey, MembersAscend;
    var n := Place(members, key);
    PlaceAmong(members, key, n);
    if n < |members| && members[n].key == key {
      assert members[n] == Member(key, members[n].value);
      assert Has(members, key, members[n].value);
    }
  }
}
