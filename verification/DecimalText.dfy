/** Bounds on decimal text of any length, decided without converting it: the fast xs:int
    check, textual comparison of digit strings, and the bounded accumulator for sizes. */
module DecimalText {
  import opened Schema

  // ----- digit strings -----

  predicate IsDigit(c: char) {
    '0' <= c <= '9'
  }

  predicate AllDigits(s: string) {
    forall i :: 0 <= i < |s| ==> IsDigit(s[i])
  }

  function DigitValue(c: char): nat {
    if IsDigit(c) then (c as int) - ('0' as int) else 0
  }

  /** The number a digit string denotes. */
  function Value(s: string): nat {
    if s == "" then 0 else Value(s[..|s| - 1]) * 10 + DigitValue(s[|s| - 1])
  }

  function Pow10(k: nat): nat {
    if k == 0 then 1 else 10 * Pow10(k - 1)
  }

  lemma {:induction false} ValueBelow(s: string)
    ensures Value(s) < Pow10(|s|)
  {
    if s != "" {
      ValueBelow(s[..|s| - 1]);
    }
  }

  lemma {:induction false} ValueSplit(a: string, b: string)
    ensures Value(a + b) == Value(a) * Pow10(|b|) + Value(b)
    decreases |b|
  {
    if b == "" {
      assert a + b == a;
    } else {
      var n := |b| - 1;
      assert (a + b)[..|a + b| - 1] == a + b[..n];
      ValueSplit(a, b[..n]);
      assert Pow10(|b|) == 10 * Pow10(n);
      Regroup(Value(a), Pow10(n));
    }
  }

  lemma Regroup(a: nat, p: nat)
    ensures a * p * 10 == a * (10 * p)
  {
  }

  lemma PowMonotone(j: nat, k: nat)
    requires j <= k
    ensures Pow10(j) <= Pow10(k)
  {
    if j < k {
      PowMonotone(j, k - 1);
    }
  }

  lemma AppendDigit(s: string, c: char)
    ensures Value(s + [c]) == Value(s) * 10 + DigitValue(c)
  {
    assert (s + [c])[..|s + [c]| - 1] == s;
  }

  /** A string's value around the digit at i. */
  lemma SplitAt(s: string, i: nat)
    requires i < |s|
    ensures Value(s) == Value(s[..i + 1]) * Pow10(|s| - i - 1) + Value(s[i + 1..])
    ensures Value(s[..i + 1]) == Value(s[..i]) * 10 + DigitValue(s[i])
  {
    assert s == s[..i + 1] + s[i + 1..] && s[..i + 1] == s[..i] + [s[i]];
    ValueSplit(s[..i + 1], s[i + 1..]);
    AppendDigit(s[..i], s[i]);
  }

  lemma HighDigitsDecide(x: nat, y: nat, p: nat, r: nat, q: nat)
    requires x < y && r < p
    ensures x * p + r < y * p + q
  {
    MulUp(x + 1, y, p);
  }

  /** A first difference decides between two strings of the same length. */
  lemma FirstDifference(a: string, b: string, i: nat)
    requires |a| == |b| && i < |a| && a[..i] == b[..i]
    requires DigitValue(a[i]) < DigitValue(b[i])
    ensures Value(a) < Value(b)
  {
    SplitAt(a, i);
    SplitAt(b, i);
    ValueBelow(a[i + 1..]);
    HighDigitsDecide(Value(a[..i + 1]), Value(b[..i + 1]), Pow10(|a| - i - 1), Value(a[i + 1..]), Value(b[i + 1..]));
  }

  lemma MulUp(a: nat, b: nat, c: nat)
    requires a <= b
    ensures a * c <= b * c
  {
  }

  lemma OneDigit(c: char)
    ensures Value([c]) == DigitValue(c)
  {
    assert [c][..0] == "";
  }

  /** Stripped of leading zeros, or the single zero. */
  predicate Stripped(s: string) {
    AllDigits(s) && s != "" && (s[0] == '0' ==> s == "0")
  }

  lemma LongerIsLarger(a: string, b: string)
    requires AllDigits(b) && |a| < |b| && b[0] != '0'
    ensures Value(a) < Value(b)
  {
    ValueBelow(a);
    PowMonotone(|a|, |b| - 1);
    assert b == [b[0]] + b[1..];
    ValueSplit([b[0]], b[1..]);
    OneDigit(b[0]);
    MulUp(1, DigitValue(b[0]), Pow10(|b| - 1));
  }

  lemma {:induction false} ZerosWorthNothing(s: string, k: nat)
    requires k <= |s| && forall i :: 0 <= i < k ==> s[i] == '0'
    ensures Value(s) == Value(s[k..])
    decreases |s|
  {
    assert s == s[..k] + s[k..];
    ValueSplit(s[..k], s[k..]);
    AllZeros(s[..k]);
  }

  lemma {:induction false} AllZeros(s: string)
    requires forall i :: 0 <= i < |s| ==> s[i] == '0'
    ensures Value(s) == 0
  {
    if s != "" {
      AllZeros(s[..|s| - 1]);
    }
  }

  // ----- comparing digit strings as text -----

  /** Dictionary order. */
  predicate TextBefore(a: string, b: string) {
    if b == "" then false
    else if a == "" then true
    else a[0] < b[0] || (a[0] == b[0] && TextBefore(a[1..], b[1..]))
  }

  lemma {:induction false} TextOrder(a: string, b: string) returns (i: nat)
    requires |a| == |b| && a != b
    ensures i < |a| && a[..i] == b[..i] && a[i] != b[i]
    ensures TextBefore(a, b) <==> a[i] < b[i]
    ensures TextBefore(b, a) <==> b[i] < a[i]
  {
    if a[0] != b[0] {
      i := 0;
    } else {
      assert a == [a[0]] + a[1..] && b == [b[0]] + b[1..];
      var j := TextOrder(a[1..], b[1..]);
      i := j + 1;
      assert a[..i] == [a[0]] + a[1..][..j] && b[..i] == [b[0]] + b[1..][..j];
    }
  }

  lemma {:induction false} NotBeforeItself(a: string)
    ensures !TextBefore(a, a)
  {
    if a != "" {
      NotBeforeItself(a[1..]);
    }
  }

  function CompareUnsigned(a: string, b: string): int {
    if |a| < |b| then -1
    else if |a| > |b| then 1
    else if TextBefore(a, b) then -1
    else if TextBefore(b, a) then 1
    else 0
  }

  /** Comparing stripped digit strings as text orders the numbers, at any length. */
  lemma CompareUnsignedIsOrder(a: string, b: string)
    requires Stripped(a) && Stripped(b)
    ensures CompareUnsigned(a, b) < 0 <==> Value(a) < Value(b)
    ensures CompareUnsigned(a, b) > 0 <==> Value(a) > Value(b)
    ensures CompareUnsigned(a, b) == 0 <==> a == b
  {
    if |a| < |b| {
      LongerIsLarger(a, b);
    } else if |a| > |b| {
      LongerIsLarger(b, a);
    } else if a == b {
      NotBeforeItself(a);
    } else {
      var i := TextOrder(a, b);
      if a[i] < b[i] {
        FirstDifference(a, b, i);
      } else {
        FirstDifference(b, a, i);
      }
    }
  }

  // ----- the fast xs:int check -----

  datatype IntCheck = IntValid | InvalidDecimal | InvalidInteger | BelowMinimum | AboveMaximum

  const INT_MAX: int := 0x7FFF_FFFF
  const INT_MIN: int := -0x8000_0000
  const INT_MAX_DIGITS: string := INT_HIGH_DIGITS + "7"
  const INT_MIN_DIGITS: string := INT_HIGH_DIGITS + "8"
  const INT_HIGH_DIGITS: string := "214748364"

  predicate Signed(s: string) {
    s != "" && (s[0] == '+' || s[0] == '-')
  }

  function Unsigned(s: string): string {
    if Signed(s) then s[1..] else s
  }

  /** An optional sign and at least one digit. */
  predicate IsInteger(s: string) {
    Unsigned(s) != "" && AllDigits(Unsigned(s))
  }

  function SignedValue(s: string): int {
    if Signed(s) && s[0] == '-' then -(Value(Unsigned(s)) as int) else Value(Unsigned(s))
  }

  /** An optional sign, digits, and at most one point among them. */
  predicate IsDecimal(s: string) {
    DigitsAndPoint(Unsigned(s)) && exists c :: c in Unsigned(s) && IsDigit(c)
  }

  /** What the check should answer. */
  function IntCheckOf(s: string): IntCheck {
    if !IsDecimal(s) then InvalidDecimal
    else if !IsInteger(s) then InvalidInteger
    else if SignedValue(s) < INT_MIN then BelowMinimum
    else if SignedValue(s) > INT_MAX then AboveMaximum
    else IntValid
  }

  method SkipLeadingZeros(s: string, start: nat) returns (i: nat)
    requires start <= |s|
    ensures start <= i <= |s| && (forall k :: start <= k < i ==> s[k] == '0') && (i < |s| ==> s[i] != '0')
  {
    i := start;
    while i < |s| && s[i] == '0'
      invariant start <= i <= |s| && forall k :: start <= k < i ==> s[k] == '0'
    {
      i := i + 1;
    }
  }

  /** Compares the rest of a string, digit by digit, with a limit of the same length. */
  method DigitsGreaterThan(s: string, start: nat, limit: string) returns (yes: bool)
    requires start + |limit| == |s| && AllDigits(s[start..]) && AllDigits(limit)
    ensures yes <==> Value(s[start..]) > Value(limit)
  {
    ghost var rest := s[start..];
    for i := 0 to |limit|
      invariant rest[..i] == limit[..i]
    {
      assert s[start + i] == rest[i];
      if s[start + i] != limit[i] {
        if rest[i] > limit[i] {
          FirstDifference(limit, rest, i);
        } else {
          FirstDifference(rest, limit, i);
        }
        return s[start + i] > limit[i];
      }
    }
    assert rest == limit;
    return false;
  }

  /** Digits with at most one point among them. */
  predicate DigitsAndPoint(u: string) {
    && (forall i :: 0 <= i < |u| ==> IsDigit(u[i]) || u[i] == '.')
    && (forall i, j :: 0 <= i < j < |u| ==> u[i] != '.' || u[j] != '.')
  }

  /** Scans the text after the sign: the number of digits and whether a point was seen, or
      nothing when there is something else. */
  method ScanDecimal(s: string, start: nat) returns (r: Option<(nat, bool)>)
    requires start <= |s|
    ensures r.Some? <==> DigitsAndPoint(s[start..])
    ensures r.Some? ==> (r.value.0 > 0 <==> exists c :: c in s[start..] && IsDigit(c))
    ensures r.Some? ==> (r.value.1 <==> !AllDigits(s[start..]))
  {
    var digits, dot := 0, false;
    ghost var u := s[start..];
    for k := 0 to |s| - start
      invariant DigitsAndPoint(u[..k])
      invariant digits > 0 <==> exists c :: c in u[..k] && IsDigit(c)
      invariant dot <==> !AllDigits(u[..k])
      invariant dot <==> '.' in u[..k]
    {
      var c := s[start + k];
      assert u[k] == c && u[..k + 1] == u[..k] + [c];
      if IsDigit(c) {
        digits := digits + 1;
      } else if c == '.' {
        if dot {
          ghost var i :| 0 <= i < k && u[..k][i] == '.';
          assert u[i] == '.' && u[k] == '.';
          return None;
        }
        dot := true;
      } else {
        return None;
      }
    }
    assert u[..|s| - start] == u;
    return Some((digits, dot));
  }

  /** Accepts exactly the signed digit strings with a value of 32 bits, and says why it
      refuses the rest. */
  method ValidateFastInt(s: string) returns (r: IntCheck)
    ensures r == IntCheckOf(s)
  {
    if |s| == 0 {
      return InvalidDecimal;
    }
    var start := if Signed(s) then 1 else 0;
    var negative := s[0] == '-';
    assert s[start..] == Unsigned(s);
    if start == |s| {
      return InvalidDecimal;
    }
    var scan := ScanDecimal(s, start);
    if scan.None? || scan.value.0 == 0 {
      return InvalidDecimal;
    }
    if scan.value.1 {
      return InvalidInteger;
    }
    r := CheckRange(s, start, negative);
  }

  /** Whether the digits from a nonzero one on denote more than a limit. */
  method ExceedsLimit(s: string, digitStart: nat, limit: string) returns (yes: bool)
    requires digitStart < |s| && AllDigits(s[digitStart..]) && s[digitStart] != '0'
    requires AllDigits(limit) && limit != "" && limit[0] != '0'
    ensures yes <==> Value(s[digitStart..]) > Value(limit)
  {
    var digitCount := |s| - digitStart;
    if digitCount == |limit| {
      yes := DigitsGreaterThan(s, digitStart, limit);
      return;
    }
    if digitCount > |limit| {
      LongerIsLarger(limit, s[digitStart..]);
    } else {
      LongerIsLarger(s[digitStart..], limit);
    }
    return digitCount > |limit|;
  }

  /** The range test on the digits after sign and zeros. */
  method CheckRange(s: string, start: nat, negative: bool) returns (r: IntCheck)
    requires IsDecimal(s) && IsInteger(s) && start == (if Signed(s) then 1 else 0) && negative == (s[0] == '-')
    ensures r == IntCheckOf(s)
  {
    var digitStart := SkipLeadingZeros(s, start);
    assert s[start..] == Unsigned(s) && Unsigned(s)[digitStart - start..] == s[digitStart..];
    ZerosWorthNothing(Unsigned(s), digitStart - start);
    if digitStart == |s| {
      return IntValid;
    }
    var limit := if negative then INT_MIN_DIGITS else INT_MAX_DIGITS;
    LimitValues();
    var exceeds := ExceedsLimit(s, digitStart, limit);
    if exceeds {
      return if negative then BelowMinimum else AboveMaximum;
    }
    return IntValid;
  }

  lemma LimitValues()
    ensures Value(INT_MAX_DIGITS) == INT_MAX && Value(INT_MIN_DIGITS) == -INT_MIN
    ensures AllDigits(INT_MAX_DIGITS) && AllDigits(INT_MIN_DIGITS)
    ensures INT_MAX_DIGITS[0] != '0' && INT_MIN_DIGITS[0] != '0'
  {
    PrefixValue();
    AppendDigit(INT_HIGH_DIGITS, '7');
    AppendDigit(INT_HIGH_DIGITS, '8');
  }

  lemma PrefixValue()
    ensures Value(INT_HIGH_DIGITS) == 214748364
  {
    ValueOf(['2', '1', '4', '7', '4', '8', '3', '6', '4'], [2, 21, 214, 2147, 21474, 214748, 2147483, 21474836, 214748364]);
  }

  /** A list of prefix values that fit together is right. */
  lemma {:induction false} ValueOf(s: string, values: seq<nat>)
    requires s != "" && |values| == |s| && values[0] == DigitValue(s[0])
    requires forall i :: 0 < i < |s| ==> values[i] == values[i - 1] * 10 + DigitValue(s[i])
    ensures Value(s) == values[|s| - 1]
    decreases |s|
  {
    if |s| == 1 {
      OneDigit(s[0]);
      assert s == [s[0]];
    } else {
      var n := |s| - 1;
      ValueOf(s[..n], values[..n]);
    }
  }
}
