/**
 Values of jsoncpp.cpp and their comparison.  Arrays are dense, objects are sequences of
 members in key order, and doubles are real numbers (no NaN).
 */
module JsonValue {

  datatype Payload =
    | Null
    | Int(i: int)
    | UInt(u: int)
    | Real(r: real)
    | Str(s: string)
    | Bool(b: bool)
    | Arr(items: seq<Value>)
    | Obj(members: seq<Member>)

  /** A value and the range of the text it was read from. */
  datatype Value = Value(payload: Payload, start: int, limit: int)

  datatype Member = Member(key: string, value: Value)

  // ---------------------------------------------------------------- keys and strings

  /** The sign of the first difference among the first n bytes. */
  function Memcmp(a: string, b: string, n: nat): int
    requires n <= |a| && n <= |b|
    decreases n
  {
    if n == 0 then 0
    else if a[0] != b[0] then a[0] as int - b[0] as int
    else Memcmp(a[1..], b[1..], n - 1)
  }

  /** The order of keys and of strings: bytes first, then length. */
  predicate BytesLess(a: string, b: string) {
    var n := if |a| < |b| then |a| else |b|;
    var comp := Memcmp(a, b, n);
    comp < 0 || (comp == 0 && |a| < |b|)
  }

  predicate BytesEqual(a: string, b: string) {
    |a| == |b| && Memcmp(a, b, |a|) == 0
  }

  // ---------------------------------------------------------------- operator< and operator==

  function TypeOf(p: Payload): nat {
    match p
    case Null => 0
    case Int(_) => 1
    case UInt(_) => 2
    case Real(_) => 3
    case Str(_) => 4
    case Bool(_) => 5
    case Arr(_) => 6
    case Obj(_) => 7
  }

  /** How many nodes a value has; the measure of the comparison below. */
  function Nodes(v: Value): (n: nat)
    ensures n > 0
  {
    match v.payload
    case Arr(items) => 1 + ItemNodes(items)
    case Obj(members) => 1 + MemberNodes(members)
    case _ => 1
  }

  function ItemNodes(items: seq<Value>): nat {
    if items == [] then 0 else Nodes(items[0]) + ItemNodes(items[1..])
  }

  function MemberNodes(members: seq<Member>): nat {
    if members == [] then 0 else Nodes(members[0].value) + MemberNodes(members[1..])
  }

  predicate Less(a: Value, b: Value)
    decreases Nodes(a) + Nodes(b), 1
  {
    if TypeOf(a.payload) != TypeOf(b.payload) then TypeOf(a.payload) < TypeOf(b.payload)
    else match (a.payload, b.payload)
      case (Int(x), Int(y)) => x < y
      case (UInt(x), UInt(y)) => x < y
      case (Real(x), Real(y)) => x < y
      case (Bool(x), Bool(y)) => !x && y
      case (Str(x), Str(y)) => BytesLess(x, y)
      case (Arr(x), Arr(y)) => if |x| != |y| then |x| < |y| else LessItems(x, y)
      case (Obj(x), Obj(y)) => if |x| != |y| then |x| < |y| else LessMembers(x, y)
      case _ => false
  }

  /** Lexicographic comparison of the elements, as std::map compares its entries. */
  predicate LessItems(x: seq<Value>, y: seq<Value>)
    decreases ItemNodes(x) + ItemNodes(y), 2
  {
    if y == [] then false
    else if x == [] then true
    else if Less(x[0], y[0]) then true
    else if Less(y[0], x[0]) then false
    else LessItems(x[1..], y[1..])
  }

  predicate LessMember(x: Member, y: Member)
    decreases Nodes(x.value) + Nodes(y.value), 3
  {
    BytesLess(x.key, y.key) || (!BytesLess(y.key, x.key) && Less(x.value, y.value))
  }

  predicate LessMembers(x: seq<Member>, y: seq<Member>)
    decreases MemberNodes(x) + MemberNodes(y), 4
  {
    if y == [] then false
    else if x == [] then true
    else if LessMember(x[0], y[0]) then true
    else if LessMember(y[0], x[0]) then false
    else LessMembers(x[1..], y[1..])
  }

  predicate Equal(a: Value, b: Value) {
    TypeOf(a.payload) == TypeOf(b.payload) &&
    match (a.payload, b.payload)
    case (Null, _) => true
    case (Int(x), Int(y)) => x == y
    case (UInt(x), UInt(y)) => x == y
    case (Real(x), Real(y)) => x == y
    case (Bool(x), Bool(y)) => x == y
    case (Str(x), Str(y)) => BytesEqual(x, y)
    case (Arr(x), Arr(y)) => |x| == |y| && EqualItems(x, y)
    case (Obj(x), Obj(y)) => |x| == |y| && EqualMembers(x, y)
    case _ => false
  }

  predicate EqualItems(x: seq<Value>, y: seq<Value>)
    requires |x| == |y|
  {
    x == [] || (Equal(x[0], y[0]) && EqualItems(x[1..], y[1..]))
  }

  predicate EqualMembers(x: seq<Member>, y: seq<Member>)
    requires |x| == |y|
  {
    x == [] || (BytesEqual(x[0].key, y[0].key) && Equal(x[0].value, y[0].value) && EqualMembers(x[1..], y[1..]))
  }

  /** -1, 0 or 1, as operator< decides. */
  function Compare(a: Value, b: Value): int {
    if Less(a, b) then -1 else if Less(b, a) then 1 else 0
  }

  // ---------------------------------------------------------------- the order is total

  lemma {:induction false} MemcmpFlips(a: string, b: string, n: nat)
    requires n <= |a| && n <= |b|
    ensures Memcmp(b, a, n) == -Memcmp(a, b, n)
    ensures Memcmp(a, b, n) == 0 <==> a[..n] == b[..n]
    decreases n
  {
    if n > 0 {
      PrefixStep(a, b, n);
      if a[0] == b[0] {
        MemcmpFlips(a[1..], b[1..], n - 1);
      }
    }
  }

  lemma PrefixStep(a: string, b: string, n: nat)
    requires 0 < n <= |a| && n <= |b|
    ensures a[..n] == b[..n] <==> a[0] == b[0] && a[1..][..n - 1] == b[1..][..n - 1]
  {
    assert a[..n] == [a[0]] + a[1..][..n - 1] && b[..n] == [b[0]] + b[1..][..n - 1];
  }

  lemma BytesTrichotomy(a: string, b: string)
    ensures BytesEqual(a, b) <==> a == b
    ensures !(BytesLess(a, b) && BytesLess(b, a))
    ensures BytesLess(a, b) || BytesLess(b, a) <==> a != b
  {
    var n := if |a| < |b| then |a| else |b|;
    MemcmpFlips(a, b, n);
    if |a| == |b| {
      assert a[..n] == a && b[..n] == b;
    }
  }

  /** The first byte decides, or the rest does. */
  lemma BytesLessStep(a: string, b: string)
    ensures BytesLess(a, b) <==>
            b != "" && (a == "" || a[0] < b[0] || (a[0] == b[0] && BytesLess(a[1..], b[1..])))
  {
  }

  lemma {:induction false} BytesTransitive(a: string, b: string, c: string)
    requires BytesLess(a, b) && BytesLess(b, c)
    ensures BytesLess(a, c)
  {
    BytesLessStep(a, b);
    BytesLessStep(b, c);
    BytesLessStep(a, c);
    if a != "" && a[0] == b[0] == c[0] {
      BytesTransitive(a[1..], b[1..], c[1..]);
    }
  }

  /** Exactly one of a < b, a == b and b < a holds. */
  lemma {:induction false} Trichotomy(a: Value, b: Value)
    ensures Less(a, b) || Less(b, a) <==> !Equal(a, b)
    ensures !(Less(a, b) && Less(b, a))
    decreases Nodes(a) + Nodes(b), 1
  {
    match (a.payload, b.payload)
    case (Str(x), Str(y)) => BytesTrichotomy(x, y);
    case (Arr(x), Arr(y)) => if |x| == |y| { ItemsTrichotomy(x, y); }
    case (Obj(x), Obj(y)) => if |x| == |y| { MembersTrichotomy(x, y); }
    case _ =>
  }

  lemma {:induction false} ItemsTrichotomy(x: seq<Value>, y: seq<Value>)
    requires |x| == |y|
    ensures LessItems(x, y) || LessItems(y, x) <==> !EqualItems(x, y)
    ensures !(LessItems(x, y) && LessItems(y, x))
    decreases ItemNodes(x) + ItemNodes(y), 2
  {
    if x != [] {
      Trichotomy(x[0], y[0]);
      ItemsTrichotomy(x[1..], y[1..]);
    }
  }

  lemma {:induction false} MembersTrichotomy(x: seq<Member>, y: seq<Member>)
    requires |x| == |y|
    ensures LessMembers(x, y) || LessMembers(y, x) <==> !EqualMembers(x, y)
    ensures !(LessMembers(x, y) && LessMembers(y, x))
    decreases MemberNodes(x) + MemberNodes(y), 4
  {
    if x != [] {
      BytesTrichotomy(x[0].key, y[0].key);
      Trichotomy(x[0].value, y[0].value);
      MembersTrichotomy(x[1..], y[1..]);
    }
  }

  /** Equal values compare alike with everything. */
  lemma {:induction false} EqualCongruence(a: Value, b: Value, c: Value)
    requires Equal(a, b)
    ensures Less(a, c) <==> Less(b, c)
    ensures Less(c, a) <==> Less(c, b)
    decreases Nodes(a) + Nodes(c), 1
  {
    match (a.payload, b.payload, c.payload)
    case (Str(x), Str(y), _) => BytesTrichotomy(x, y);
    case (Arr(x), Arr(y), Arr(z)) => if |x| == |z| { ItemsCongruence(x, y, z); }
    case (Obj(x), Obj(y), Obj(z)) => if |x| == |z| { MembersCongruence(x, y, z); }
    case _ =>
  }

  lemma {:induction false} ItemsCongruence(x: seq<Value>, y: seq<Value>, z: seq<Value>)
    requires |x| == |y| == |z| && EqualItems(x, y)
    ensures LessItems(x, z) <==> LessItems(y, z)
    ensures LessItems(z, x) <==> LessItems(z, y)
    decreases ItemNodes(x) + ItemNodes(z), 2
  {
    if x != [] {
      EqualCongruence(x[0], y[0], z[0]);
      ItemsCongruence(x[1..], y[1..], z[1..]);
    }
  }

  lemma {:induction false} MembersCongruence(x: seq<Member>, y: seq<Member>, z: seq<Member>)
    requires |x| == |y| == |z| && EqualMembers(x, y)
    ensures LessMembers(x, z) <==> LessMembers(y, z)
    ensures LessMembers(z, x) <==> LessMembers(z, y)
    decreases MemberNodes(x) + MemberNodes(z), 4
  {
    if x != [] {
      BytesTrichotomy(x[0].key, y[0].key);
      EqualCongruence(x[0].value, y[0].value, z[0].value);
      MembersCongruence(x[1..], y[1..], z[1..]);
    }
  }

  lemma {:induction false} Transitive(a: Value, b: Value, c: Value)
    requires Less(a, b) && Less(b, c)
    ensures Less(a, c)
    decreases Nodes(a) + Nodes(b) + Nodes(c), 1
  {
    match (a.payload, b.payload, c.payload)
    case (Str(x), Str(y), Str(z)) => BytesTransitive(x, y, z);
    case (Arr(x), Arr(y), Arr(z)) => if |x| == |y| == |z| { ItemsTransitive(x, y, z); }
    case (Obj(x), Obj(y), Obj(z)) => if |x| == |y| == |z| { MembersTransitive(x, y, z); }
    case _ =>
  }

  lemma {:induction false} ItemsTransitive(x: seq<Value>, y: seq<Value>, z: seq<Value>)
    requires |x| == |y| == |z| && LessItems(x, y) && LessItems(y, z)
    ensures LessItems(x, z)
    decreases ItemNodes(x) + ItemNodes(y) + ItemNodes(z), 2
  {
    Trichotomy(x[0], y[0]);
    Trichotomy(y[0], z[0]);
    Trichotomy(x[0], z[0]);
    if Equal(x[0], y[0]) {
      EqualCongruence(x[0], y[0], z[0]);
      if Equal(y[0], z[0]) {
        ItemsTransitive(x[1..], y[1..], z[1..]);
      }
    } else if Equal(y[0], z[0]) {
      EqualCongruence(y[0], z[0], x[0]);
    } else {
      Transitive(x[0], y[0], z[0]);
    }
  }

  /** Members are ordered by key, then by value. */
  lemma MemberOrder(x: Member, y: Member)
    ensures LessMember(x, y) <==> BytesLess(x.key, y.key) || (x.key == y.key && Less(x.value, y.value))
    ensures !(LessMember(x, y) && LessMember(y, x))
    ensures LessMember(x, y) || LessMember(y, x) <==> !(x.key == y.key && Equal(x.value, y.value))
  {
    BytesTrichotomy(x.key, y.key);
    Trichotomy(x.value, y.value);
  }

  lemma {:induction false} MembersTransitive(x: seq<Member>, y: seq<Member>, z: seq<Member>)
    requires |x| == |y| == |z| && LessMembers(x, y) && LessMembers(y, z)
    ensures LessMembers(x, z)
    decreases MemberNodes(x) + MemberNodes(y) + MemberNodes(z), 4
  {
    MemberOrder(x[0], y[0]);
    MemberOrder(y[0], z[0]);
    MemberOrder(x[0], z[0]);
    if !LessMember(x[0], y[0]) {
      EqualCongruence(x[0].value, y[0].value, z[0].value);
      if !LessMember(y[0], z[0]) {
        MembersTransitive(x[1..], y[1..], z[1..]);
      }
    } else if !LessMember(y[0], z[0]) {
      EqualCongruence(y[0].value, z[0].value, x[0].value);
    } else if x[0].key == y[0].key == z[0].key {
      Transitive(x[0].value, y[0].value, z[0].value);
    } else if x[0].key != y[0].key && y[0].key != z[0].key {
      BytesTransitive(x[0].key, y[0].key, z[0].key);
    }
  }

  // ---------------------------------------------------------------- what equality identifies

  /** The value without its source ranges. */
  function Plain(v: Value): Value {
    match v.payload
    case Arr(items) => Value(Arr(PlainItems(items)), 0, 0)
    case Obj(members) => Value(Obj(PlainMembers(members)), 0, 0)
    case p => Value(p, 0, 0)
  }

  function PlainItems(items: seq<Value>): (r: seq<Value>)
    ensures |r| == |items|
  {
    if items == [] then [] else [Plain(items[0])] + PlainItems(items[1..])
  }

  function PlainMembers(members: seq<Member>): (r: seq<Member>)
    ensures |r| == |members|
  {
    if members == [] then []
    else [Member(members[0].key, Plain(members[0].value))] + PlainMembers(members[1..])
  }

  /** operator== ignores source ranges and nothing else. */
  lemma {:induction false} EqualIsSamePlain(a: Value, b: Value)
    ensures Equal(a, b) <==> Plain(a) == Plain(b)
    decreases a
  {
    match (a.payload, b.payload)
    case (Str(x), Str(y)) => BytesTrichotomy(x, y);
    case (Arr(x), Arr(y)) => if |x| == |y| { ItemsSamePlain(x, y); }
    case (Obj(x), Obj(y)) => if |x| == |y| { MembersSamePlain(x, y); }
    case _ =>
  }

  lemma {:induction false} ItemsSamePlain(x: seq<Value>, y: seq<Value>)
    requires |x| == |y|
    ensures EqualItems(x, y) <==> PlainItems(x) == PlainItems(y)
    decreases x
  {
    if x != [] {
      EqualIsSamePlain(x[0], y[0]);
      ItemsSamePlain(x[1..], y[1..]);
      var p, q := PlainItems(x), PlainItems(y);
      assert p == q ==> p[0] == q[0] && p[1..] == q[1..];
    }
  }

  lemma {:induction false} MembersSamePlain(x: seq<Member>, y: seq<Member>)
    requires |x| == |y|
    ensures EqualMembers(x, y) <==> PlainMembers(x) == PlainMembers(y)
    decreases x
  {
    if x != [] {
      BytesTrichotomy(x[0].key, y[0].key);
      EqualIsSamePlain(x[0].value, y[0].value);
      MembersSamePlain(x[1..], y[1..]);
      var p, q := PlainMembers(x), PlainMembers(y);
      assert p == q ==> p[0] == q[0] && p[1..] == q[1..];
    }
  }

  /** operator< is a strict total order whose ties are the equal values. */
  lemma StrictTotalOrder(a: Value, b: Value, c: Value)
    ensures !Less(a, a)
    ensures Less(a, b) && Less(b, c) ==> Less(a, c)
    ensures Compare(a, b) == -Compare(b, a) && (Compare(a, b) == -1 <==> Less(a, b))
    ensures Compare(a, b) == 0 <==> Equal(a, b)
    ensures Equal(a, b) <==> Plain(a) == Plain(b)
  {
    Trichotomy(a, a);
    Trichotomy(a, b);
    if Less(a, b) && Less(b, c) {
      Transitive(a, b, c);
    }
    EqualIsSamePlain(a, b);
  }

  // ---------------------------------------------------------------- the order itself

  /** Values of different kinds: null, signed, unsigned, real, string, bool, array, object, in this order. */
  lemma KindsAscend(a: Value, b: Value)
    ensures var p, q := a.payload, b.payload;
            && (p.Null? && !q.Null? ==> Less(a, b))
            && (p.Int? && (q.UInt? || q.Real? || q.Str? || q.Bool? || q.Arr? || q.Obj?) ==> Less(a, b))
            && (p.UInt? && (q.Real? || q.Str? || q.Bool? || q.Arr? || q.Obj?) ==> Less(a, b))
            && (p.Real? && (q.Str? || q.Bool? || q.Arr? || q.Obj?) ==> Less(a, b))
            && (p.Str? && (q.Bool? || q.Arr? || q.Obj?) ==> Less(a, b))
            && (p.Bool? && (q.Arr? || q.Obj?) ==> Less(a, b))
            && (p.Arr? && q.Obj? ==> Less(a, b))
  {
    hide LessItems, LessMembers, BytesLess;
  }

  /** Values of one kind, other than containers: numbers as numbers, false before true, strings by their bytes. */
  lemma LeavesAscend(a: Value, b: Value)
    ensures match (a.payload, b.payload)
            case (Null, Null) => !Less(a, b)
            case (Int(x), Int(y)) => Less(a, b) <==> x < y
            case (UInt(x), UInt(y)) => Less(a, b) <==> x < y
            case (Real(x), Real(y)) => Less(a, b) <==> x < y
            case (Bool(x), Bool(y)) => Less(a, b) <==> x == false && y == true
            case (Str(x), Str(y)) => Less(a, b) <==> BytesBefore(x, y)
            case _ => true
  {
    hide LessItems, LessMembers, BytesLess, BytesBefore;
    match (a.payload, b.payload)
    case (Str(x), Str(y)) => BytesAscend(x, y);
    case _ =>
  }

  /** The first byte that differs decides, and if none does the shorter string is first. */
  ghost predicate BytesBefore(x: string, y: string) {
    exists i: nat :: i <= |x| && i <= |y| && x[..i] == y[..i] &&
      if i == |x| then i < |y| else i < |y| && x[i] as int < y[i] as int
  }

  lemma {:induction false} BytesAscend(x: string, y: string)
    ensures BytesLess(x, y) <==> BytesBefore(x, y)
    decreases |x|
  {
    hide BytesLess, BytesBefore;
    BytesLessStep(x, y);
    if x == "" || y == "" || x[0] != y[0] {
      BytesHere(x, y);
    } else {
      BytesAscend(x[1..], y[1..]);
      BytesFurther(x, y);
    }
  }

  lemma BytesHere(x: string, y: string)
    requires x == "" || y == "" || x[0] != y[0]
    ensures BytesBefore(x, y) <==> y != "" && (x == "" || x[0] < y[0])
  {
    assert x[..0] == y[..0];
    if BytesBefore(x, y) {
      var i: nat :| i <= |x| && i <= |y| && x[..i] == y[..i]
                    && if i == |x| then i < |y| else i < |y| && x[i] as int < y[i] as int;
      if i > 0 { SameFront(x, y, i); }
    }
  }

  lemma SameFront(x: string, y: string, i: nat)
    requires 0 < i <= |x| && i <= |y| && x[..i] == y[..i]
    ensures x[0] == y[0]
  {
    assert x[..i][0] == y[..i][0];
  }

  lemma BytesFurther(x: string, y: string)
    requires x != "" && y != "" && x[0] == y[0]
    ensures BytesBefore(x, y) <==> BytesBefore(x[1..], y[1..])
  {
    var u, v := x[1..], y[1..];
    if BytesBefore(x, y) {
      var i: nat :| i <= |x| && i <= |y| && x[..i] == y[..i]
                    && if i == |x| then i < |y| else i < |y| && x[i] as int < y[i] as int;
      assert i > 0;
      assert u[..i - 1] == x[..i][1..] == y[..i][1..] == v[..i - 1];
    }
    if BytesBefore(u, v) {
      var i: nat :| i <= |u| && i <= |v| && u[..i] == v[..i]
                    && if i == |u| then i < |v| else i < |v| && u[i] as int < v[i] as int;
      assert x[..i + 1] == [x[0]] + u[..i] == [y[0]] + v[..i] == y[..i + 1];
    }
  }

  /** The first elements that differ are in order. */
  ghost predicate ItemsBefore(x: seq<Value>, y: seq<Value>) {
    exists i :: 0 <= i < |x| && i < |y| && ItemDecides(x, y, i)
  }

  ghost predicate ItemDecides(x: seq<Value>, y: seq<Value>, i: nat)
    requires i < |x| && i < |y|
  {
    Less(x[i], y[i]) && forall j :: 0 <= j < i ==> Equal(x[j], y[j])
  }

  lemma {:induction false} ItemsAscend(x: seq<Value>, y: seq<Value>)
    requires |x| == |y|
    ensures LessItems(x, y) <==> ItemsBefore(x, y)
    decreases |x|
  {
    hide Less, Equal;
    if x != [] {
      var u, v := x[1..], y[1..];
      Trichotomy(x[0], y[0]);
      ItemsAscend(u, v);
      if Less(x[0], y[0]) {
        assert ItemDecides(x, y, 0);
      }
      if Equal(x[0], y[0]) && ItemsBefore(u, v) {
        var i :| 0 <= i < |u| && i < |v| && ItemDecides(u, v, i);
        assert forall j :: 0 < j <= i ==> x[j] == u[j - 1] && y[j] == v[j - 1];
        assert ItemDecides(x, y, i + 1);
      }
      if ItemsBefore(x, y) {
        var i :| 0 <= i < |x| && i < |y| && ItemDecides(x, y, i);
        if i > 0 {
          assert forall j :: 0 <= j < i ==> u[j] == x[j + 1] && v[j] == y[j + 1];
          assert ItemDecides(u, v, i - 1);
        }
      }
    }
  }

  /** The first members that differ are in order: by their keys, and for the same key by their values. */
  ghost predicate MembersBefore(x: seq<Member>, y: seq<Member>) {
    exists i :: 0 <= i < |x| && i < |y| && MemberDecides(x, y, i)
  }

  ghost predicate MemberDecides(x: seq<Member>, y: seq<Member>, i: nat)
    requires i < |x| && i < |y|
  {
    (BytesBefore(x[i].key, y[i].key) || (x[i].key == y[i].key && Less(x[i].value, y[i].value))) &&
    forall j :: 0 <= j < i ==> x[j].key == y[j].key && Equal(x[j].value, y[j].value)
  }

  /** Of two members one is less as MembersBefore says, or they are the same. */
  lemma MemberAscends(x: Member, y: Member)
    ensures LessMember(x, y) <==> BytesBefore(x.key, y.key) || (x.key == y.key && Less(x.value, y.value))
    ensures !LessMember(x, y) && !LessMember(y, x) <==> x.key == y.key && Equal(x.value, y.value)
  {
    hide BytesLess, BytesEqual, BytesBefore, Less, Equal;
    BytesAscend(x.key, y.key);
    BytesTrichotomy(x.key, y.key);
    Trichotomy(x.value, y.value);
  }

  lemma {:induction false} MembersAscendTogether(x: seq<Member>, y: seq<Member>)
    requires |x| == |y|
    ensures LessMembers(x, y) <==> MembersBefore(x, y)
    decreases |x|
  {
    hide Less, Equal, LessMember, BytesBefore;
    if x != [] {
      var u, v := x[1..], y[1..];
      MemberAscends(x[0], y[0]);
      MemberAscends(y[0], x[0]);
      MembersAscendTogether(u, v);
      if LessMember(x[0], y[0]) {
        assert MemberDecides(x, y, 0);
      }
      if !LessMember(x[0], y[0]) && !LessMember(y[0], x[0]) && MembersBefore(u, v) {
        var i :| 0 <= i < |u| && i < |v| && MemberDecides(u, v, i);
        assert forall j :: 0 < j <= i ==> x[j] == u[j - 1] && y[j] == v[j - 1];
        assert MemberDecides(x, y, i + 1);
      }
      if MembersBefore(x, y) {
        var i :| 0 <= i < |x| && i < |y| && MemberDecides(x, y, i);
        if i > 0 {
          assert forall j :: 0 <= j < i ==> u[j] == x[j + 1] && v[j] == y[j + 1];
          assert MemberDecides(u, v, i - 1);
        }
      }
    }
  }

  /** Containers: the shorter is first; of two of one length the first difference decides. */
  lemma ContainersAscend(a: Value, b: Value)
    ensures match (a.payload, b.payload)
            case (Arr(x), Arr(y)) => Less(a, b) <==> |x| < |y| || (|x| == |y| && ItemsBefore(x, y))
            case (Obj(x), Obj(y)) => Less(a, b) <==> |x| < |y| || (|x| == |y| && MembersBefore(x, y))
            case _ => true
  {
    hide ItemsBefore, MembersBefore, LessItems, LessMembers;
    match (a.payload, b.payload)
    case (Arr(x), Arr(y)) => if |x| == |y| { ItemsAscend(x, y); }
    case (Obj(x), Obj(y)) => if |x| == |y| { MembersAscendTogether(x, y); }
    case _ =>
  }
}
