/**
 The source ranges the reader of jsoncpp.cpp records: nested like the values, and apart for
 siblings.
 */
module JsonRanges {
  import opened Wrappers
  import opened JsonText
  import opened JsonString
  import opened JsonNumber
  import opened JsonLexer
  import opened JsonValue
  import opened JsonParser

  /** The range of a value lies between two positions, and those of its parts inside it. */
  predicate Ranged(v: Value, lo: int, hi: int) {
    lo <= v.start < v.limit <= hi &&
    match v.payload
    case Arr(items) => ItemsRanged(items, v.start + 1, v.limit - 1)
    case Obj(members) => MembersRanged(members, v.start + 1, v.limit - 1)
    case _ => true
  }

  /** Elements follow one another. */
  predicate ItemsRanged(items: seq<Value>, lo: int, hi: int) {
    if items == [] then lo <= hi
    else Ranged(items[0], lo, hi) && ItemsRanged(items[1..], items[0].limit, hi)
  }

  /** Members do not overlap; they are kept in key order, which need not be the order of the text. */
  predicate MembersRanged(members: seq<Member>, lo: int, hi: int) {
    lo <= hi && (forall i :: 0 <= i < |members| ==> Ranged(members[i].value, lo, hi)) && AllApart(members)
  }

  predicate AllApart(members: seq<Member>) {
    forall i, j :: 0 <= i < j < |members| ==> Apart(members[i].value, members[j].value)
  }

  predicate Apart(a: Value, b: Value) {
    a.limit <= b.start || b.limit <= a.start
  }

  lemma Widen(v: Value, lo: int, hi: int, lo': int, hi': int)
    requires Ranged(v, lo, hi) && lo' <= lo && hi <= hi'
    ensures Ranged(v, lo', hi')
  {
  }

  /** One more element behind the others. */
  lemma {:induction false} ItemsSnoc(items: seq<Value>, lo: int, mid: int, v: Value, hi: int)
    requires ItemsRanged(items, lo, mid) && Ranged(v, mid, hi)
    ensures ItemsRanged(items + [v], lo, hi)
    decreases |items|
  {
    hide Ranged;
    if items == [] {
      assert [] + [v] == [v] && [v][1..] == [];
      Shape(v, mid, hi);
      Widen(v, mid, hi, lo, hi);
    } else {
      Shape(items[0], lo, mid);
      Shape(v, mid, hi);
      Widen(items[0], lo, mid, lo, hi);
      ItemsSnoc(items[1..], items[0].limit, mid, v, hi);
      assert (items + [v])[1..] == items[1..] + [v];
    }
  }

  lemma {:induction false} ItemsWiden(items: seq<Value>, lo: int, hi: int, lo': int, hi': int)
    requires ItemsRanged(items, lo, hi) && lo' <= lo && hi <= hi'
    ensures ItemsRanged(items, lo', hi')
  {
    hide Ranged;
    if items != [] {
      Widen(items[0], lo, hi, lo', hi');
      ItemsWiden(items[1..], items[0].limit, hi, items[0].limit, hi');
    }
  }

  lemma MembersWiden(members: seq<Member>, lo: int, hi: int, lo': int, hi': int)
    requires MembersRanged(members, lo, hi) && lo' <= lo && hi <= hi'
    ensures MembersRanged(members, lo', hi')
  {
    hide Ranged;
    forall i | 0 <= i < |members| ensures Ranged(members[i].value, lo', hi') {
      Widen(members[i].value, lo, hi, lo', hi');
    }
  }

  lemma Shape(v: Value, lo: int, hi: int)
    requires Ranged(v, lo, hi)
    ensures lo <= v.start < v.limit <= hi
  {
  }

  /** Elements are in text order: each ends before the next one starts. */
  lemma {:induction false} ItemsInOrder(items: seq<Value>, lo: int, hi: int, i: nat, j: nat)
    requires ItemsRanged(items, lo, hi) && i < j < |items|
    ensures lo <= items[i].start < items[i].limit <= items[j].start < items[j].limit <= hi
  {
    hide Ranged;
    Shape(items[0], lo, hi);
    if i > 0 {
      ItemsInOrder(items[1..], items[0].limit, hi, i - 1, j - 1);
    } else {
      ItemFrom(items[1..], items[0].limit, hi, j - 1);
    }
  }

  lemma {:induction false} ItemFrom(items: seq<Value>, lo: int, hi: int, i: nat)
    requires ItemsRanged(items, lo, hi) && i < |items|
    ensures lo <= items[i].start < items[i].limit <= hi
  {
    hide Ranged;
    Shape(items[0], lo, hi);
    if i > 0 {
      ItemFrom(items[1..], items[0].limit, hi, i - 1);
    }
  }

  /** A member's value that comes behind all others, also when it replaces one of them. */
  lemma MembersSet(members: seq<Member>, lo: int, mid: int, key: string, v: Value, hi: int)
    requires MembersRanged(members, lo, mid) && Ranged(v, mid, hi)
    ensures MembersRanged(SetMember(members, key, v), lo, hi)
  {
    hide Ranged, BytesLess, BytesEqual, Place;
    var n, more := Place(members, key), SetMember(members, key, v);
    Shape(v, mid, hi);
    Widen(v, mid, hi, lo, hi);
    forall i | 0 <= i < |members|
      ensures Ranged(members[i].value, lo, hi) && Apart(members[i].value, v) && Apart(v, members[i].value)
    {
      Shape(members[i].value, lo, mid);
      Widen(members[i].value, lo, mid, lo, hi);
    }
    if HasKey(members, key) {
      SetApart(members, n, Member(members[n].key, v));
    } else {
      InsertApart(members, n, Member(key, v));
    }
  }

  lemma SetApart(members: seq<Member>, n: nat, m: Member)
    requires n < |members| && AllApart(members)
    requires forall i :: 0 <= i < |members| ==> Apart(members[i].value, m.value) && Apart(m.value, members[i].value)
    ensures AllApart(members[n := m])
  {
  }

  lemma InsertApart(members: seq<Member>, n: nat, m: Member)
    requires n <= |members| && AllApart(members)
    requires forall i :: 0 <= i < |members| ==> Apart(members[i].value, m.value) && Apart(m.value, members[i].value)
    ensures AllApart(members[..n] + [m] + members[n..])
  {
    var more := members[..n] + [m] + members[n..];
    forall i, j | 0 <= i < j < |more| ensures Apart(more[i].value, more[j].value) {
      assert i < n ==> more[i] == members[i];
      assert i > n ==> more[i] == members[i - 1];
      assert j < n ==> more[j] == members[j];
      assert j > n ==> more[j] == members[j - 1];
    }
  }

  /** Every value that is read has its range between where it was looked for and where it ends. */
  lemma {:induction false} ValueRanges(text: string, at: nat, depth: nat, f: Features)
    requires at <= |text|
    ensures var r := ParseValue(text, at, depth, f); r.Done? ==> Ranged(r.value, at, r.end) && r.value.limit == r.end
    decreases |text| - at, 1
  {
    hide ParseItems, ParseMembers, FirstToken, NumberOf, StringOf, ItemsRanged, MembersRanged;
    if depth <= f.stackLimit {
      var t := FirstToken(text, at, f);
      NothingYet(t.end);
      if t.kind == ObjectBegin {
        MembersRanges(text, t.end, depth, f, [], "", t.end);
        var r := ParseMembers(text, t.end, depth, f, [], "");
        if r.Done? {
          MembersWiden(r.value, t.end, r.end - 1, t.start + 1, r.end - 1);
        }
      } else if t.kind == ArrayBegin {
        ItemsRanges(text, t.end, depth, f, [], t.end);
        var r := ParseItems(text, t.end, depth, f, []);
        if r.Done? {
          ItemsWiden(r.value, t.end, r.end - 1, t.start + 1, r.end - 1);
        }
      }
    }
  }

  lemma NothingYet(at: int)
    ensures ItemsRanged([], at, at) && MembersRanged([], at, at)
  {
  }

  lemma {:induction false} ItemsRanges(text: string, at: nat, depth: nat, f: Features, items: seq<Value>, lo: int)
    requires at <= |text| && ItemsRanged(items, lo, at)
    ensures var r := ParseItems(text, at, depth, f, items); r.Done? ==> ItemsRanged(r.value, lo, r.end - 1)
    decreases |text| - at, 2
  {
    hide ParseValue, ParseItems, NonCommentFrom, Spaces, Ranged, ItemsRanged, ClosesArray;
    var k := at + Spaces(text[at..]);
    ItemsStep(text, at, k, depth, f, items);
    ItemsWiden(items, lo, at, lo, k);
    if !ClosesArray(text, k, f, items) {
      var v := ParseValue(text, k, depth + 1, f);
      ValueRanges(text, k, depth + 1, f);
      if v.Done? {
        var t := NonCommentFrom(text, v.end);
        ItemsSnoc(items, lo, k, v.value, v.end);
        ItemsWiden(items + [v.value], lo, v.end, lo, t.start);
        if t.kind == ArraySeparator {
          ItemsWiden(items + [v.value], lo, v.end, lo, t.end);
          ItemsRanges(text, t.end, depth, f, items + [v.value], lo);
        } else if t.kind == ArrayEnd {
          ItemsWiden(items + [v.value], lo, v.end, lo, t.end - 1);
        }
      }
    }
  }

  lemma {:induction false} MembersRanges(text: string, at: nat, depth: nat, f: Features, members: seq<Member>,
                                         name: string,
                                         lo: int)
    requires at <= |text| && MembersRanged(members, lo, at)
    ensures var r := ParseMembers(text, at, depth, f, members, name); r.Done? ==> MembersRanged(r.value, lo, r.end - 1)
    decreases |text| - at, 3
  {
    hide ParseMembers, ParseMember, NonCommentFrom, MembersRanged, StringOf, HasKey;
    MembersStep(text, at, depth, f, members, name);
    var t := NonCommentFrom(text, at);
    if t.kind == ObjectEnd {
      MembersWiden(members, lo, at, lo, t.end - 1);
    } else if t.kind == StringToken && StringOf(text[t.start..t.end]).Some? {
      MembersWiden(members, lo, at, lo, t.end);
      MemberRanges(text, t.end, depth, f, members, StringOf(text[t.start..t.end]).value, lo);
    }
  }

  lemma {:induction false} MemberRanges(text: string, at: nat, depth: nat, f: Features, members: seq<Member>,
                                        key: string,
                                        lo: int)
    requires at <= |text| && MembersRanged(members, lo, at)
    ensures var r := ParseMember(text, at, depth, f, members, key); r.Done? ==> MembersRanged(r.value, lo, r.end - 1)
    decreases |text| - at, 4
  {
    hide ParseMembers, ParseMember, ParseValue, NonCommentFrom, TokenFrom, Ranged, MembersRanged, SetMember;
    MemberStep(text, at, depth, f, members, key);
    var colon := TokenFrom(text, at);
    if colon.kind == MemberSeparator {
      var v := ParseValue(text, colon.end, depth + 1, f);
      ValueRanges(text, colon.end, depth + 1, f);
      if v.Done? {
        var more, last := SetMember(members, key, v.value), NonCommentFrom(text, v.end);
        MembersWiden(members, lo, at, lo, colon.end);
        MembersSet(members, lo, colon.end, key, v.value, v.end);
        MembersWiden(more, lo, v.end, lo, last.end);
        if last.kind == ObjectEnd {
          MembersWiden(more, lo, v.end, lo, last.end - 1);
        } else {
          MembersRanges(text, last.end, depth, f, more, key, lo);
        }
      }
    }
  }

  /** After a successful parse every range lies in the document, parts inside wholes, siblings apart. */
  lemma DocumentRanges(document: string, f: Features)
    ensures var r := ParseDocument(document, f);
            r.Done? ==> Ranged(r.value, 0, |document|) && r.value.limit == r.end
  {
    hide ParseValue, FirstToken;
    ValueRanges(document, 0, 1, f);
  }

  /** Two elements of an array, or two members of an object, are apart and inside their parent. */
  lemma SiblingsApart(v: Value, lo: int, hi: int, i: nat, j: nat)
    requires Ranged(v, lo, hi) && i < j
    ensures match v.payload
            case Arr(items) =>
              j < |items| ==> v.start < items[i].start && items[i].limit <= items[j].start && items[j].limit < v.limit
            case Obj(members) =>
              j < |members| ==> (Apart(members[i].value, members[j].value)
                                 && v.start < members[i].value.start && members[i].value.limit < v.limit)
            case _ => true
  {
    match v.payload
    case Arr(items) => if j < |items| { ItemsInOrder(items, v.start + 1, v.limit - 1, i, j); }
    case Obj(members) => if j < |members| { Shape(members[i].value, v.start + 1, v.limit - 1); }
    case _ =>
  }

  // ---------------------------------------------------------------- what a range holds

  /** The range of every value is its own text: brackets around arrays and objects, and the token of a scalar. */
  predicate Shown(text: string, v: Value, f: Features) {
    0 <= v.start < v.limit <= |text| &&
    match v.payload
    case Arr(items) =>
      text[v.start] == '[' && text[v.limit - 1] == ']' && forall i :: 0 <= i < |items| ==> Shown(text, items[i], f)
    case Obj(members) =>
      text[v.start] == '{' && text[v.limit - 1] == '}'
      && forall i :: 0 <= i < |members| ==> Shown(text, members[i].value, f)
    case p => ScalarShown(text[v.start..v.limit], p, f)
  }

  predicate ScalarShown(x: string, p: Payload, f: Features) {
    match p
    case Null => x == "null"
    case Bool(b) => x == if b then "true" else "false"
    case Str(s) => "\"" <= x && StringOf(x) == Some(s)
    case _ => NumberPayload(x, f) == Some(p)
  }

  predicate ItemsShown(text: string, items: seq<Value>, f: Features) {
    forall i :: 0 <= i < |items| ==> Shown(text, items[i], f)
  }

  predicate MembersShown(text: string, members: seq<Member>, f: Features) {
    forall i :: 0 <= i < |members| ==> Shown(text, members[i].value, f)
  }

  /** The text of a token, by its kind. */
  lemma KindShows(s: string)
    ensures var (kind, n) := TokenAt(s);
            match kind
            case ArrayBegin => n == 1 && s[0] == '['
            case ArrayEnd => n == 1 && s[0] == ']'
            case ObjectBegin => n == 1 && s[0] == '{'
            case ObjectEnd => n == 1 && s[0] == '}'
            case TrueToken => s[..n] == "true"
            case FalseToken => s[..n] == "false"
            case NullToken => s[..n] == "null"
            case StringToken => s[0] == '\"'
            case _ => true
  {
    hide NumberEnd, StringEnd, CommentEnd;
    if s != "" && s[0] in "tfn" {
      assert s == [s[0]] + s[1..];
    }
  }

  lemma {:induction false} NonCommentIs(text: string, at: nat)
    requires at <= |text|
    ensures IsToken(text, NonCommentFrom(text, at))
    decreases |text| - at
  {
    hide TokenFrom, NonCommentFrom, IsToken;
    TokenFromIs(text, at);
    NonCommentStep(text, at);
    if TokenFrom(text, at).kind == Comment {
      NonCommentIs(text, TokenFrom(text, at).end);
    }
  }

  lemma FirstIs(text: string, at: nat, f: Features)
    requires at <= |text|
    ensures IsToken(text, FirstToken(text, at, f))
  {
    hide TokenFrom, NonCommentFrom, IsToken;
    TokenFromIs(text, at);
    NonCommentIs(text, at);
  }

  /** A token that is a value or a bracket. */
  lemma TokenShows(text: string, t: Token)
    requires IsToken(text, t)
    ensures match t.kind
            case ArrayBegin => t.end == t.start + 1 && text[t.start] == '['
            case ArrayEnd => t.end == t.start + 1 && text[t.start] == ']'
            case ObjectBegin => t.end == t.start + 1 && text[t.start] == '{'
            case ObjectEnd => t.end == t.start + 1 && text[t.start] == '}'
            case TrueToken => text[t.start..t.end] == "true"
            case FalseToken => text[t.start..t.end] == "false"
            case NullToken => text[t.start..t.end] == "null"
            case StringToken => t.start + 2 <= t.end && text[t.start] == '\"'
            case _ => true
  {
    hide TokenAt;
    var s := text[t.start..];
    KindShows(s);
    assert s[..t.end - t.start] == text[t.start..t.end];
  }

  lemma {:induction false} ValueShown(text: string, at: nat, depth: nat, f: Features)
    requires at <= |text|
    ensures var r := ParseValue(text, at, depth, f); r.Done? ==> Shown(text, r.value, f)
    decreases |text| - at, 1
  {
    hide ParseValue, ParseItems, ParseMembers, FirstToken, NumberPayload, StringOf, ItemsShown, MembersShown, IsToken;
    var t := FirstToken(text, at, f);
    ValueStep(text, at, depth, f);
    FirstIs(text, at, f);
    TokenShows(text, t);
    if t.kind == ObjectBegin {
      NoneShown(text, f);
      MembersAreShown(text, t.end, depth, f, [], "");
      var r := ParseMembers(text, t.end, depth, f, [], "");
      if r.Done? { AllMembersShown(text, r.value, f); }
    } else if t.kind == ArrayBegin {
      NoneShown(text, f);
      ItemsAreShown(text, t.end, depth, f, []);
      var r := ParseItems(text, t.end, depth, f, []);
      if r.Done? { AllItemsShown(text, r.value, f); }
    } else {
      NumberKinds(text[t.start..t.end], f);
    }
  }

  lemma NumberKinds(s: string, f: Features)
    ensures match NumberPayload(s, f)
            case Some(p) => p.Int? || p.UInt? || p.Real?
            case None => true
  {
  }

  lemma NoneShown(text: string, f: Features)
    ensures ItemsShown(text, [], f) && MembersShown(text, [], f)
  {
  }

  lemma AllItemsShown(text: string, items: seq<Value>, f: Features)
    requires ItemsShown(text, items, f)
    ensures forall i :: 0 <= i < |items| ==> Shown(text, items[i], f)
  {
    hide Shown;
  }

  lemma AllMembersShown(text: string, members: seq<Member>, f: Features)
    requires MembersShown(text, members, f)
    ensures forall i :: 0 <= i < |members| ==> Shown(text, members[i].value, f)
  {
    hide Shown;
  }

  lemma {:induction false} ItemsAreShown(text: string, at: nat, depth: nat, f: Features, items: seq<Value>)
    requires at <= |text| && ItemsShown(text, items, f)
    ensures var r := ParseItems(text, at, depth, f, items);
            r.Done? ==> text[r.end - 1] == ']' && ItemsShown(text, r.value, f)
    decreases |text| - at, 2
  {
    hide ParseValue, ParseItems, NonCommentFrom, Spaces, Shown, IsToken;
    var k := at + Spaces(text[at..]);
    ItemsStep(text, at, k, depth, f, items);
    if !ClosesArray(text, k, f, items) {
      var v := ParseValue(text, k, depth + 1, f);
      ValueShown(text, k, depth + 1, f);
      if v.Done? {
        var t := NonCommentFrom(text, v.end);
        NonCommentIs(text, v.end);
        TokenShows(text, t);
        if t.kind == ArraySeparator {
          ItemsAreShown(text, t.end, depth, f, items + [v.value]);
        }
      }
    }
  }

  lemma MemberSetShown(text: string, members: seq<Member>, key: string, v: Value, f: Features)
    requires MembersShown(text, members, f) && Shown(text, v, f)
    ensures MembersShown(text, SetMember(members, key, v), f)
  {
    hide Shown, BytesLess, BytesEqual, Place;
  }

  lemma {:induction false} MembersAreShown(text: string, at: nat, depth: nat, f: Features, members: seq<Member>,
                                           name: string)
    requires at <= |text| && MembersShown(text, members, f)
    ensures var r := ParseMembers(text, at, depth, f, members, name);
            r.Done? ==> text[r.end - 1] == '}' && MembersShown(text, r.value, f)
    decreases |text| - at, 3
  {
    hide ParseMembers, ParseMember, NonCommentFrom, MembersShown, StringOf, HasKey, IsToken;
    MembersStep(text, at, depth, f, members, name);
    var t := NonCommentFrom(text, at);
    NonCommentIs(text, at);
    TokenShows(text, t);
    if t.kind == StringToken && StringOf(text[t.start..t.end]).Some? {
      MemberIsShown(text, t.end, depth, f, members, StringOf(text[t.start..t.end]).value);
    }
  }

  lemma {:induction false} MemberIsShown(text: string, at: nat, depth: nat, f: Features, members: seq<Member>,
                                         key: string)
    requires at <= |text| && MembersShown(text, members, f)
    ensures var r := ParseMember(text, at, depth, f, members, key);
            r.Done? ==> text[r.end - 1] == '}' && MembersShown(text, r.value, f)
    decreases |text| - at, 4
  {
    hide ParseMembers, ParseMember, ParseValue, NonCommentFrom, TokenFrom, Shown, MembersShown, SetMember, IsToken;
    MemberStep(text, at, depth, f, members, key);
    var colon := TokenFrom(text, at);
    if colon.kind == MemberSeparator {
      var v := ParseValue(text, colon.end, depth + 1, f);
      ValueShown(text, colon.end, depth + 1, f);
      if v.Done? {
        var more, last := SetMember(members, key, v.value), NonCommentFrom(text, v.end);
        MemberSetShown(text, members, key, v.value, f);
        NonCommentIs(text, v.end);
        TokenShows(text, last);
        if last.kind != ObjectEnd {
          MembersAreShown(text, last.end, depth, f, more, key);
        }
      }
    }
  }

  /** After a successful parse the range of every value in the tree holds the text of that value. */
  lemma DocumentShown(document: string, f: Features)
    ensures var r := ParseDocument(document, f); r.Done? ==> Shown(document, r.value, f)
  {
    hide ParseValue, FirstToken, Shown;
    ValueShown(document, 0, 1, f);
  }
}
