/**
 What the reader of jsoncpp.cpp makes of a text: for each grammar rule the value and the
 length of text on success, or failure.  The reader itself (JsonReader) is proved against
 these functions.
 */
module JsonParser {
  import opened Wrappers
  import opened JsonText
  import opened JsonString
  import opened JsonNumber
  import opened JsonLexer
  import opened JsonValue

  /** Reader settings; `toDouble` stands for the C++ stream that reads a double. */
  datatype Features = Features(
    allowComments: bool,
    allowTrailingCommas: bool,
    strictRoot: bool,
    failIfExtra: bool,
    rejectDupKeys: bool,
    skipBom: bool,
    stackLimit: nat,
    toDouble: string -> Option<real>)

  const MAX_KEY_LENGTH: nat := 0x4000_0000

  /** What happens to a rule: it yields a value and reads up to a position, it fails, or the reader throws. */
  datatype Outcome<T> = Done(value: T, end: nat) | Failed | Thrown

  function NumberPayload(text: string, f: Features): Option<Payload> {
    match NumberOf(text)
    case SignedNumber(i) => Some(Int(i))
    case UnsignedNumber(u) => Some(UInt(u))
    case NotInteger =>
      match f.toDouble(text)
      case Some(r) => Some(Real(r))
      case None => None
  }

  /** The string a string token denotes. */
  function StringOf(token: string): Option<string> {
    if |token| < 2 then None else DecodeBody(token[1..|token| - 1])
  }

  /** The token a value starts with: comments are skipped if they are allowed. */
  function FirstToken(text: string, at: nat, f: Features): (t: Token)
    requires at <= |text|
    ensures at <= t.start <= t.end <= |text|
    ensures t.kind != EndOfStream ==> t.start < t.end
    ensures t.kind == StringToken ==> t.start + 2 <= t.end
  {
    if f.allowComments then NonCommentFrom(text, at) else TokenFrom(text, at)
  }

  // ---------------------------------------------------------------- members in key order

  /** Where a member with this key is, or would be inserted. */
  function Place(members: seq<Member>, key: string): (n: nat)
    ensures n <= |members|
  {
    if members == [] || !BytesLess(members[0].key, key) then 0 else 1 + Place(members[1..], key)
  }

  predicate HasKey(members: seq<Member>, key: string) {
    var n := Place(members, key);
    n < |members| && BytesEqual(members[n].key, key)
  }

  /** The map after members[key] = value. */
  function SetMember(members: seq<Member>, key: string, value: Value): seq<Member> {
    var n := Place(members, key);
    if HasKey(members, key) then members[n := Member(members[n].key, value)]
    else members[..n] + [Member(key, value)] + members[n..]
  }

  lemma {:induction false} PlaceSplits(members: seq<Member>, key: string, n: nat)
    requires n == Place(members, key)
    ensures forall i :: 0 <= i < n ==> BytesLess(members[i].key, key)
    ensures n < |members| ==> !BytesLess(members[n].key, key)
  {
    if members != [] && BytesLess(members[0].key, key) {
      PlaceSplits(members[1..], key, n - 1);
      assert forall i :: 0 < i < n ==> members[i] == members[1..][i - 1];
    }
  }

  lemma {:induction false} PlaceIs(members: seq<Member>, key: string, n: nat)
    requires n <= |members|
    requires forall i :: 0 <= i < n ==> BytesLess(members[i].key, key)
    requires n < |members| ==> !BytesLess(members[n].key, key)
    ensures Place(members, key) == n
  {
    if n > 0 {
      assert BytesLess(members[0].key, key);
      PlaceIs(members[1..], key, n - 1);
    }
  }

  /** Setting a member and setting it again is setting it once. */
  lemma SetMemberTwice(members: seq<Member>, key: string, v: Value, w: Value)
    ensures SetMember(SetMember(members, key, v), key, w) == SetMember(members, key, w)
  {
    var n, once := Place(members, key), SetMember(members, key, v);
    PlaceSplits(members, key, n);
    BytesTrichotomy(key, key);
    if HasKey(members, key) {
      assert once == members[n := Member(members[n].key, v)];
      BytesTrichotomy(members[n].key, key);
    } else {
      assert once == members[..n] + [Member(key, v)] + members[n..];
    }
    PlaceIs(once, key, n);
    assert once[n := Member(once[n].key, w)] == SetMember(members, key, w);
  }

  // ---------------------------------------------------------------- the grammar

  /** A value that starts at or after position `at`; `depth` is the size of the node stack. */
  function ParseValue(text: string, at: nat, depth: nat, f: Features): (r: Outcome<Value>)
    requires at <= |text|
    ensures r.Done? ==> at < r.end <= |text|
    decreases |text| - at, 1
  {
    if depth > f.stackLimit then Thrown
    else
      var t := FirstToken(text, at, f);
      var lexeme := text[t.start..t.end];
      match t.kind
      case ObjectBegin =>
        (match ParseMembers(text, t.end, depth, f, [], "")
         case Done(members, end) => Done(Value(Obj(members), t.start, end), end)
         case Failed => Failed
         case Thrown => Thrown)
      case ArrayBegin =>
        (match ParseItems(text, t.end, depth, f, [])
         case Done(items, end) => Done(Value(Arr(items), t.start, end), end)
         case Failed => Failed
         case Thrown => Thrown)
      case NumberToken =>
        (match NumberPayload(lexeme, f)
         case Some(p) => Done(Value(p, t.start, t.end), t.end)
         case None => Failed)
      case StringToken =>
        (match StringOf(lexeme)
         case Some(x) => Done(Value(Str(x), t.start, t.end), t.end)
         case None => Failed)
      case TrueToken => Done(Value(Bool(true), t.start, t.end), t.end)
      case FalseToken => Done(Value(Bool(false), t.start, t.end), t.end)
      case NullToken => Done(Value(Null, t.start, t.end), t.end)
      case _ => Failed
  }

  /** A value by its first token. */
  lemma ValueStep(text: string, at: nat, depth: nat, f: Features)
    requires at <= |text|
    ensures var r, t := ParseValue(text, at, depth, f), FirstToken(text, at, f);
            if depth > f.stackLimit then r == Thrown
            else match t.kind
              case ObjectBegin =>
                (match ParseMembers(text, t.end, depth, f, [], "")
                 case Done(members, end) => r == Done(Value(Obj(members), t.start, end), end)
                 case Failed => r == Failed
                 case Thrown => r == Thrown)
              case ArrayBegin =>
                (match ParseItems(text, t.end, depth, f, [])
                 case Done(items, end) => r == Done(Value(Arr(items), t.start, end), end)
                 case Failed => r == Failed
                 case Thrown => r == Thrown)
              case NumberToken =>
                (match NumberPayload(text[t.start..t.end], f)
                 case Some(p) => r == Done(Value(p, t.start, t.end), t.end)
                 case None => r == Failed)
              case StringToken =>
                (match StringOf(text[t.start..t.end])
                 case Some(x) => r == Done(Value(Str(x), t.start, t.end), t.end)
                 case None => r == Failed)
              case TrueToken => r == Done(Value(Bool(true), t.start, t.end), t.end)
              case FalseToken => r == Done(Value(Bool(false), t.start, t.end), t.end)
              case NullToken => r == Done(Value(Null, t.start, t.end), t.end)
              case _ => r == Failed
  {
    hide FirstToken, ParseItems, ParseMembers, NumberPayload, StringOf;
  }

  /** The rest of an array whose first items have been read. */
  function ParseItems(text: string, at: nat, depth: nat, f: Features, items: seq<Value>): (r: Outcome<seq<Value>>)
    requires at <= |text|
    ensures r.Done? ==> at < r.end <= |text|
    decreases |text| - at, 2
  {
    var k := at + Spaces(text[at..]);
    if ClosesArray(text, k, f, items) then Done(items, k + 1)
    else
      match ParseValue(text, k, depth + 1, f)
      case Failed => Failed
      case Thrown => Thrown
      case Done(v, end) =>
        var t := NonCommentFrom(text, end);
        if t.kind == ArrayEnd then Done(items + [v], t.end)
        else if t.kind == ArraySeparator then ParseItems(text, t.end, depth, f, items + [v])
        else Failed
  }

  /** Is position k the end of an array with these items? */
  predicate ClosesArray(text: string, k: nat, f: Features, items: seq<Value>) {
    k < |text| && text[k] == ']' && (items == [] || f.allowTrailingCommas)
  }

  /** One round of the array loop. */
  lemma ItemsStep(text: string, at: nat, k: nat, depth: nat, f: Features, items: seq<Value>)
    requires at <= |text| && k == at + Spaces(text[at..])
    ensures var r, v := ParseItems(text, at, depth, f, items), ParseValue(text, k, depth + 1, f);
            if ClosesArray(text, k, f, items) then r == Done(items, k + 1)
            else if v.Failed? then r == Failed
            else if v.Thrown? then r == Thrown
            else
              var t := NonCommentFrom(text, v.end);
              r == if t.kind == ArrayEnd then Done(items + [v.value], t.end)
                   else if t.kind == ArraySeparator then ParseItems(text, t.end, depth, f, items + [v.value])
                   else Failed
  {
    hide ParseValue, ParseMembers, NonCommentFrom, Spaces, ClosesArray;
  }

  /** The rest of an object; `name` is the key read last. */
  function ParseMembers(text: string, at: nat, depth: nat, f: Features, members: seq<Member>, name: string)
    : (r: Outcome<seq<Member>>)
    requires at <= |text|
    ensures r.Done? ==> at < r.end <= |text|
    decreases |text| - at, 3
  {
    var t := NonCommentFrom(text, at);
    if t.kind == ObjectEnd && (name == "" || f.allowTrailingCommas) then Done(members, t.end)
    else if t.kind != StringToken then Failed
    else match StringOf(text[t.start..t.end])
      case None => Failed
      case Some(key) =>
        if |key| >= MAX_KEY_LENGTH then Thrown
        else if f.rejectDupKeys && HasKey(members, key) then Failed
        else ParseMember(text, t.end, depth, f, members, key)
  }

  /** The member after its key, and the rest of the object. */
  function ParseMember(text: string, at: nat, depth: nat, f: Features, members: seq<Member>, key: string)
    : (r: Outcome<seq<Member>>)
    requires at <= |text|
    ensures r.Done? ==> at < r.end <= |text|
    decreases |text| - at, 4
  {
    var colon := TokenFrom(text, at);
    if colon.kind != MemberSeparator then Failed
    else match ParseValue(text, colon.end, depth + 1, f)
      case Failed => Failed
      case Thrown => Thrown
      case Done(v, end) =>
        var more, last := SetMember(members, key, v), NonCommentFrom(text, end);
        if TokenFrom(text, end).kind !in {ObjectEnd, ArraySeparator, Comment} then Failed
        else if last.kind == ObjectEnd then Done(more, last.end)
        else ParseMembers(text, last.end, depth, f, more, key)
  }

  /** One round of the object loop, up to the member's value. */
  lemma MembersStep(text: string, at: nat, depth: nat, f: Features, members: seq<Member>, name: string)
    requires at <= |text|
    ensures var r, t := ParseMembers(text, at, depth, f, members, name), NonCommentFrom(text, at);
            if t.kind == ObjectEnd && (name == "" || f.allowTrailingCommas) then r == Done(members, t.end)
            else if t.kind != StringToken then r == Failed
            else match StringOf(text[t.start..t.end])
              case None => r == Failed
              case Some(key) =>
                if |key| >= MAX_KEY_LENGTH then r == Thrown
                else if f.rejectDupKeys && HasKey(members, key) then r == Failed
                else r == ParseMember(text, t.end, depth, f, members, key)
  {
    hide ParseValue, ParseItems, NonCommentFrom, TokenFrom, StringOf, SetMember, HasKey;
  }

  /** ... and from the member's colon on. */
  lemma MemberStep(text: string, at: nat, depth: nat, f: Features, members: seq<Member>, key: string)
    requires at <= |text|
    ensures var r, colon := ParseMember(text, at, depth, f, members, key), TokenFrom(text, at);
            if colon.kind != MemberSeparator then r == Failed
            else match ParseValue(text, colon.end, depth + 1, f)
              case Failed => r == Failed
              case Thrown => r == Thrown
              case Done(v, end) =>
                var more, last := SetMember(members, key, v), NonCommentFrom(text, end);
                r == if TokenFrom(text, end).kind !in {ObjectEnd, ArraySeparator, Comment} then Failed
                     else if last.kind == ObjectEnd then Done(more, last.end)
                     else ParseMembers(text, last.end, depth, f, more, key)
  {
    hide ParseValue, ParseItems, NonCommentFrom, TokenFrom, SetMember;
  }

  /** The text after a byte order mark. */
  function WithoutBom(text: string, f: Features): string {
    if f.skipBom && "\U{ef}\U{bb}\U{bf}" <= text then text[3..] else text
  }

  /** The whole text: the value, and what the settings demand of the rest. */
  function ParseDocument(text: string, f: Features): Outcome<Value> {
    match ParseValue(text, 0, 1, f)
    case Done(v, end) =>
      if f.failIfExtra && FirstToken(text, end, f).kind != EndOfStream then Failed
      else if f.strictRoot && !v.payload.Arr? && !v.payload.Obj? then Failed
      else Done(v, end)
    case r => r
  }
}
