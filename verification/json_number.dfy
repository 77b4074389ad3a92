/**
 Writing 64-bit integers (valueToString, uintToString) and reading numbers exactly
 (decodeNumber), in jsoncpp.cpp.
 */
module JsonNumber {
  import opened Wrappers
  import opened JsonText

  const MAX_LARGEST_INT: int := 0x7FFF_FFFF_FFFF_FFFF
  const MIN_LARGEST_INT: int := -0x8000_0000_0000_0000
  const MAX_LARGEST_UINT: int := 0xFFFF_FFFF_FFFF_FFFF
  const UINT_TO_STRING_BUFFER_SIZE: nat := 25

  predicate IsDigit(c: char) {
    '0' <= c <= '9'
  }

  predicate AllDigits(s: string) {
    forall i :: 0 <= i < |s| ==> IsDigit(s[i])
  }

  function DigitValue(c: char): int {
    c as int - '0' as int
  }

  function DigitChar(n: nat): (c: char)
    requires n < 10
    ensures IsDigit(c) && DigitValue(c) == n
  {
    (n + '0' as int) as char
  }

  // ---------------------------------------------------------------- writing

  /** The decimal digits of v, without leading zeros. */
  function Digits(v: nat): (s: string)
    ensures s != "" && AllDigits(s)
  {
    if v < 10 then [DigitChar(v)] else Digits(v / 10) + [DigitChar(v % 10)]
  }

  function Decimal(n: int): (s: string)
    ensures s != ""
  {
    if n < 0 then "-" + Digits(-n) else Digits(n)
  }

  function Power10(k: nat): nat {
    if k == 0 then 1 else 10 * Power10(k - 1)
  }

  lemma {:induction false} DigitsLength(v: nat, k: nat)
    requires k > 0 && v < Power10(k)
    ensures |Digits(v)| <= k
  {
    if v >= 10 {
      assert k > 1;
      DigitsLength(v / 10, k - 1);
    }
  }

  /** 20 digits are enough for 64 bits. */
  lemma DigitsOfUInt(v: nat)
    requires v <= MAX_LARGEST_UINT
    ensures |Digits(v)| <= 20
  {
    assert Power10(5) == 100000;
    assert Power10(10) == 100000 * Power10(5);
    assert Power10(15) == 100000 * Power10(10);
    assert Power10(20) == 100000 * Power10(15);
    DigitsLength(v, 20);
  }

  lemma DigitsStep(v: nat, written: string)
    ensures Digits(v) + written == (if v / 10 != 0 then Digits(v / 10) else "") + ([DigitChar(v % 10)] + written)
    ensures |Digits(v)| == 1 + if v / 10 != 0 then |Digits(v / 10)| else 0
  {
    hide DigitChar;
    if v >= 10 {
      Assoc(Digits(v / 10), [DigitChar(v % 10)], written);
    }
  }

  /** Writes the digits of `value` and a terminating NUL backwards from `current`. */
  method UintToString(value: nat, buffer: array<char>, current: nat) returns (start: nat)
    requires |Digits(value)| + 1 <= current <= buffer.Length
    modifies buffer
    ensures start == current - 1 - |Digits(value)|
    ensures buffer[start..current] == Digits(value) + "\0"
    ensures buffer[..start] == old(buffer[..start]) && buffer[current..] == old(buffer[current..])
  {
    hide Digits, DigitChar;
    start := current - 1;
    buffer[start] := '\0';
    var v := value;
    var more := true;
    while more
      invariant |Digits(value)| - (current - 1 - start) == if more then |Digits(v)| else 0
      invariant 0 <= start < current
      invariant Digits(value) == (if more then Digits(v) else "") + buffer[start..current - 1]
      invariant buffer[current - 1] == '\0'
      invariant buffer[..start] == old(buffer[..start]) && buffer[current..] == old(buffer[current..])
      decreases v, more
    {
      ghost var before := buffer[start..current - 1];
      start := start - 1;
      buffer[start] := DigitChar(v % 10);
      assert buffer[start..current - 1] == [DigitChar(v % 10)] + before;
      DigitsStep(v, before);
      v := v / 10;
      more := v != 0;
    }
    assert buffer[start..current] == buffer[start..current - 1] + [buffer[current - 1]];
  }

  method PrefixMinus(buffer: array<char>, current: nat, ghost text: string) returns (start: nat)
    requires 0 < current <= buffer.Length && buffer[current..] == text
    modifies buffer
    ensures start == current - 1 && buffer[start..] == "-" + text
  {
    start := current - 1;
    buffer[start] := '-';
    assert buffer[start..] == [buffer[start]] + buffer[current..];
  }

  /** The C string that starts at `current`. */
  method TextAt(buffer: array<char>, current: nat, ghost text: string) returns (s: string)
    requires current < buffer.Length && buffer[current..] == text + "\0"
    ensures s == text
  {
    assert (text + "\0")[..|text|] == text;
    s := buffer[current..buffer.Length - 1];
    assert s == buffer[current..][..buffer.Length - 1 - current];
  }

  /** The decimal text of a 64-bit signed integer. */
  method IntToString(value: int) returns (s: string)
    requires MIN_LARGEST_INT <= value <= MAX_LARGEST_INT
    ensures s == Decimal(value)
  {
    hide Digits;
    DigitsOfUInt(if value < 0 then -value else value);
    var buffer := new char[UINT_TO_STRING_BUFFER_SIZE];
    var current := buffer.Length;
    if value == MIN_LARGEST_INT {
      current := UintToString(MAX_LARGEST_INT + 1, buffer, current);
      assert buffer[current..] == Digits(-value) + "\0";
      current := PrefixMinus(buffer, current, Digits(-value) + "\0");
      Assoc("-", Digits(-value), "\0");
    } else if value < 0 {
      current := UintToString(-value, buffer, current);
      assert buffer[current..] == Digits(-value) + "\0";
      current := PrefixMinus(buffer, current, Digits(-value) + "\0");
      Assoc("-", Digits(-value), "\0");
    } else {
      current := UintToString(value, buffer, current);
      assert buffer[current..] == Digits(value) + "\0";
    }
    s := TextAt(buffer, current, Decimal(value));
  }

  /** The decimal text of a 64-bit unsigned integer. */
  method UintToText(value: nat) returns (s: string)
    requires value <= MAX_LARGEST_UINT
    ensures s == Decimal(value)
  {
    DigitsOfUInt(value);
    var buffer := new char[UINT_TO_STRING_BUFFER_SIZE];
    var current := UintToString(value, buffer, buffer.Length);
    assert buffer[current..] == Digits(value) + "\0";
    s := TextAt(buffer, current, Digits(value));
  }

  // ---------------------------------------------------------------- reading

  /** The number a digit string denotes; the empty string denotes 0. */
  function NatOf(s: string): int {
    if s == "" then 0 else NatOf(s[..|s| - 1]) * 10 + DigitValue(s[|s| - 1])
  }

  /** The integer denoted by an optional minus sign and digits. */
  function IntegerOf(text: string): Option<int> {
    if text != "" && text[0] == '-' then
      if AllDigits(text[1..]) then Some(-NatOf(text[1..])) else None
    else
      if AllDigits(text) then Some(NatOf(text)) else None
  }

  datatype Number = SignedNumber(i: int) | UnsignedNumber(u: nat) | NotInteger

  /** Exact integers in the 64-bit ranges; everything else is left to the floating-point reader. */
  function NumberOf(text: string): Number {
    match IntegerOf(text)
    case None => NotInteger
    case Some(n) =>
      if MIN_LARGEST_INT <= n <= MAX_LARGEST_INT then SignedNumber(n)
      else if MAX_LARGEST_INT < n <= MAX_LARGEST_UINT then UnsignedNumber(n)
      else NotInteger
  }

  lemma {:induction false} NatOfDigits(s: string, t: string)
    requires AllDigits(t) && s <= t
    ensures 0 <= NatOf(s) && (|s| < |t| ==> NatOf(s) * 10 <= NatOf(t))
    decreases |t|
  {
    if t != "" {
      var u := t[..|t| - 1];
      assert IsDigit(t[|t| - 1]);
      if |s| < |t| {
        assert s <= u;
        NatOfDigits(s, u);
        if |s| == |u| { assert s == u; }
      } else {
        assert s == t;
        NatOfDigits(u, u);
      }
    }
  }

  /** Reading a number token: digit by digit, with the overflow check before each step. */
  method DecodeNumber(text: string) returns (r: Number)
    requires text != ""
    ensures r == NumberOf(text)
  {
    var isNegative := text[0] == '-';
    var current := if isNegative then 1 else 0;
    var threshold := if isNegative then 922337203685477580 else MAX_LARGEST_UINT / 10;
    var maxLastDigit := if isNegative then 8 else MAX_LARGEST_UINT % 10;
    ghost var limit := if isNegative then -MIN_LARGEST_INT else MAX_LARGEST_UINT;
    ghost var digits := if isNegative then text[1..] else text;
    ghost var k := 0;
    var value := 0;
    while current < |text|
      invariant 0 <= k <= |digits| && current == |text| - |digits| + k
      invariant AllDigits(digits[..k]) && value == NatOf(digits[..k])
      invariant 0 <= value <= limit
    {
      var c := text[current];
      current := current + 1;
      assert c == digits[k];
      if !IsDigit(c) {
        assert !AllDigits(digits);
        return NotInteger;
      }
      var digit := DigitValue(c);
      ghost var next := digits[..k + 1];
      assert next[..k] == digits[..k] && next[k] == c;
      if value >= threshold {
        if value > threshold || current != |text| || digit > maxLastDigit {
          TooLarge(digits, k, threshold, maxLastDigit, limit);
          return NotInteger;
        }
      }
      value := value * 10 + digit;
      k := k + 1;
    }
    assert digits[..k] == digits;
    if isNegative {
      var lastDigit := value % 10;
      r := SignedNumber(-(value / 10) * 10 - lastDigit);
    } else if value <= MAX_LARGEST_INT {
      r := SignedNumber(value);
    } else {
      r := UnsignedNumber(value);
    }
  }

  /** Why the reader gives up: the digits denote more than the limit, or are not all digits. */
  lemma TooLarge(digits: string, k: nat, threshold: int, maxLastDigit: int, limit: int)
    requires k < |digits| && AllDigits(digits[..k + 1])
    requires 0 <= maxLastDigit < 10 && 0 < threshold && limit == threshold * 10 + maxLastDigit
    requires var value := NatOf(digits[..k]);
             value >= threshold && (value > threshold || k + 1 != |digits| || DigitValue(digits[k]) > maxLastDigit)
    ensures AllDigits(digits) ==> NatOf(digits) > limit
  {
    var next := digits[..k + 1];
    assert next[..k] == digits[..k] && next[k] == digits[k];
    assert IsDigit(next[k]);
    if AllDigits(digits) {
      if k + 1 == |digits| {
        assert next == digits;
      } else {
        NatOfDigits(next, digits);
      }
    }
  }

  // ---------------------------------------------------------------- reading what was written

  lemma {:induction false} NatOfDigitsOf(v: nat)
    ensures NatOf(Digits(v)) == v
  {
    if v >= 10 {
      NatOfDigitsOf(v / 10);
      assert Digits(v)[..|Digits(v)| - 1] == Digits(v / 10);
    } else {
      assert Digits(v)[..0] == "";
    }
  }

  /** Every 64-bit integer is read back from its text; unsigned ones that fit come back signed. */
  lemma DecimalRoundTrip(n: int)
    requires MIN_LARGEST_INT <= n <= MAX_LARGEST_UINT
    ensures NumberOf(Decimal(n)) == if n <= MAX_LARGEST_INT then SignedNumber(n) else UnsignedNumber(n)
  {
    if n < 0 {
      assert Decimal(n)[1..] == Digits(-n);
      NatOfDigitsOf(-n);
    } else {
      assert IsDigit(Decimal(n)[0]);
      NatOfDigitsOf(n);
    }
  }

  // ---------------------------------------------------------------- section 6 of RFC 8259

  function AfterMinus(text: string): string {
    if text != "" && text[0] == '-' then text[1..] else text
  }

  /** An integer by the grammar: an optional minus sign, then 0, or digits that do not start with 0. */
  predicate RfcInteger(text: string) {
    var digits := AfterMinus(text);
    digits != "" && AllDigits(digits) && (digits[0] == '0' ==> |digits| == 1)
  }

  /** More than one digit, and the first is 0. */
  predicate LeadingZero(digits: string) {
    |digits| > 1 && digits[0] == '0'
  }

  /** What is read as an integer is one by the grammar, exactly outside a lone minus sign and leading zeros. */
  lemma IntegersRead(text: string)
    requires text != "" && NumberOf(text) != NotInteger
    ensures RfcInteger(text) <==> text != "-" && !LeadingZero(AfterMinus(text))
  {
  }

  /** Every integer of the grammar that fits 64 bits is read as that integer, and no other is. */
  lemma RfcIntegersAreRead(text: string)
    requires RfcInteger(text)
    ensures var n := if text[0] == '-' then -NatOf(text[1..]) else NatOf(text);
            NumberOf(text) == if MIN_LARGEST_INT <= n <= MAX_LARGEST_INT then SignedNumber(n)
                              else if MAX_LARGEST_INT < n <= MAX_LARGEST_UINT then UnsignedNumber(n)
                              else NotInteger
  {
    NatOfDigits(AfterMinus(text), AfterMinus(text));
  }

  /** The two ways in which other texts are read as integers. */
  lemma LoneMinusAndLeadingZero()
    ensures NumberOf("-") == SignedNumber(0) && !RfcInteger("-")
    ensures NumberOf("01") == SignedNumber(1) && !RfcInteger("01")
  {
    assert "-"[1..] == "";
    assert "01"[..1] == "0" && "0"[..0] == "";
  }
}
