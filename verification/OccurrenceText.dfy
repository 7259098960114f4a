/** Occurrence attributes and size facets: numbers given as text of any length, checked
    against 32-bit limits without overflow. */
module OccurrenceText {
  import opened Schema
  import opened DecimalText

  const UINT64_LIMIT: nat := 0x1_0000_0000_0000_0000

  // ----- numbers as text -----

  function DigitChar(d: nat): (c: char)
    requires d < 10
    ensures IsDigit(c) && DigitValue(c) == d
  {
    (d + '0' as int) as char
  }

  /** The decimal text of a number. */
  function Digits(n: nat): (s: string)
    ensures Stripped(s) && Value(s) == n
  {
    if n < 10 then
      OneDigit(DigitChar(n));
      [DigitChar(n)]
    else
      var head := Digits(n / 10);
      AppendDigit(head, DigitChar(n % 10));
      head + [DigitChar(n % 10)]
  }

  predicate IsSpace(c: char) {
    c == ' ' || c == '\t' || c == '\r' || c == '\n'
  }

  function TrimLeft(s: string): string {
    if s != "" && IsSpace(s[0]) then TrimLeft(s[1..]) else s
  }

  function TrimRight(s: string): string {
    if s != "" && IsSpace(s[|s| - 1]) then TrimRight(s[..|s| - 1]) else s
  }

  function Trim(s: string): string {
    TrimRight(TrimLeft(s))
  }

  /** The white space of XML: space, tab, carriage return and line feed. */
  predicate AllSpace(s: string) {
    forall i :: 0 <= i < |s| ==> s[i] in [' ', '\t', '\r', '\n']
  }

  lemma {:induction false} TrimLeftParts(s: string) returns (a: string)
    ensures s == a + TrimLeft(s) && AllSpace(a)
    ensures TrimLeft(s) != "" ==> TrimLeft(s)[0] !in [' ', '\t', '\r', '\n']
  {
    if s != "" && IsSpace(s[0]) {
      var rest := TrimLeftParts(s[1..]);
      a := [s[0]] + rest;
    } else {
      a := "";
    }
  }

  lemma {:induction false} TrimRightParts(s: string) returns (b: string)
    ensures s == TrimRight(s) + b && AllSpace(b)
    ensures TrimRight(s) != "" ==> TrimRight(s)[|TrimRight(s)| - 1] !in [' ', '\t', '\r', '\n']
    decreases |s|
  {
    if s != "" && IsSpace(s[|s| - 1]) {
      var rest := TrimRightParts(s[..|s| - 1]);
      b := rest + [s[|s| - 1]];
      assert s == s[..|s| - 1] + [s[|s| - 1]];
    } else {
      b := "";
    }
  }

  /** v has white space at neither end. */
  predicate Tight(v: string) {
    v != "" ==> v[0] !in [' ', '\t', '\r', '\n'] && v[|v| - 1] !in [' ', '\t', '\r', '\n']
  }

  lemma {:induction false} TrimsLeft(a: string, v: string)
    requires AllSpace(a) && (v != "" ==> v[0] !in [' ', '\t', '\r', '\n'])
    ensures TrimLeft(a + v) == v
  {
    if a == "" {
      assert a + v == v;
    } else {
      assert (a + v)[1..] == a[1..] + v;
      TrimsLeft(a[1..], v);
    }
  }

  lemma {:induction false} TrimsRight(v: string, b: string)
    requires AllSpace(b) && (v != "" ==> v[|v| - 1] !in [' ', '\t', '\r', '\n'])
    ensures TrimRight(v + b) == v
    decreases |b|
  {
    if b == "" {
      assert v + b == v;
    } else {
      assert (v + b)[..|v + b| - 1] == v + b[..|b| - 1];
      TrimsRight(v, b[..|b| - 1]);
    }
  }

  /** Trimming takes away exactly the white space at both ends. */
  lemma TrimIff(s: string, v: string)
    ensures v == Trim(s) <==> Tight(v) && exists a, b :: AllSpace(a) && AllSpace(b) && s == a + v + b
  {
    if v == Trim(s) {
      var a := TrimLeftParts(s);
      var b := TrimRightParts(TrimLeft(s));
      assert s == a + v + b;
      assert v != "" ==> v[0] == TrimLeft(s)[0];
    }
    if Tight(v) {
      forall a, b | AllSpace(a) && AllSpace(b) && s == a + v + b
        ensures v == Trim(s)
      {
        TrimmedBetween(a, v, b);
      }
    }
  }

  lemma TrimmedBetween(a: string, v: string, b: string)
    requires AllSpace(a) && AllSpace(b) && Tight(v)
    ensures Trim(a + v + b) == v
  {
    if v == "" {
      assert AllSpace(a + b) && a + v + b == (a + b) + "";
      TrimsLeft(a + b, "");
    } else {
      assert a + v + b == a + (v + b);
      TrimsLeft(a, v + b);
      TrimsRight(v, b);
    }
  }

  /** The text without surrounding space and one plus sign. */
  function CountText(s: string): string {
    var v := Trim(s);
    if v != "" && v[0] == '+' then v[1..] else v
  }

  predicate IsCount(s: string) {
    CountText(s) != "" && AllDigits(CountText(s))
  }

  function CountValue(s: string): nat {
    Value(CountText(s))
  }

  /** The stripped digits of a count, or nothing when the text is no count. */
  method ParseOccurrenceDigits(s: string) returns (r: Option<string>)
    ensures r.Some? <==> IsCount(s)
    ensures r.Some? ==> Stripped(r.value) && Value(r.value) == CountValue(s)
  {
    var v := CountText(s);
    if v == "" {
      return None;
    }
    for i := 0 to |v|
      invariant AllDigits(v[..i])
    {
      if !IsDigit(v[i]) {
        return None;
      }
    }
    assert v[..|v|] == v;
    var start := SkipLeadingZeros(v, 0);
    ZerosWorthNothing(v, start);
    if start == |v| {
      assert v[start..] == "";
      OneDigit('0');
      return Some("0");
    }
    return Some(v[start..]);
  }

  /** Comparing with the text of a limit is comparing with the limit. */
  lemma LimitCompared(digits: string, limit: nat)
    requires Stripped(digits)
    ensures CompareUnsigned(digits, Digits(limit)) > 0 <==> Value(digits) > limit
  {
    CompareUnsignedIsOrder(digits, Digits(limit));
  }

  // ----- occurrence attributes -----

  datatype OccurrenceError = InvalidMin | MinLimit | InvalidMax | MaxLimit | MaxBelowMin

  datatype OccurrenceResult = Parsed(occurs: Occurrence) | Refused(error: OccurrenceError)

  /** A configured limit only lowers the limit of 32 bits; zero configures nothing. */
  function MaxCap(limit: nat): (r: Uint32)
  {
    if limit != 0 && limit < MAX_UINT32 then limit else MAX_UINT32
  }

  /** What the attributes mean, as numbers. */
  function OccurrenceOf(min: Option<string>, max: Option<string>, limit: nat): OccurrenceResult {
    if min.Some? && !IsCount(min.value) then Refused(InvalidMin)
    else if min.Some? && CountValue(min.value) > MAX_UINT32 then Refused(MinLimit)
    else
      var minOccurs: Uint32 := if min.Some? then CountValue(min.value) else 1;
      if max.Some? && Trim(max.value) == "unbounded" then Parsed(Occurrence(minOccurs, 0, true))
      else if max.Some? && !IsCount(max.value) then Refused(InvalidMax)
      else if max.Some? && CountValue(max.value) > MaxCap(limit) then Refused(MaxLimit)
      else
        var maxOccurs: Uint32 := if max.Some? then CountValue(max.value) else 1;
        if maxOccurs < minOccurs then Refused(MaxBelowMin) else Parsed(Occurrence(minOccurs, maxOccurs, false))
  }

  /** A maximum is refused for its size exactly when it exceeds 32 bits or the configured
      limit, where zero configures none; the minimum is held against 32 bits alone. */
  lemma LimitHonoured(min: Option<string>, max: Option<string>, limit: nat)
    ensures OccurrenceOf(min, max, limit) == Refused(MinLimit) <==>
              min.Some? && IsCount(min.value) && CountValue(min.value) > 0xFFFF_FFFF
    ensures OccurrenceOf(min, max, limit) == Refused(MaxLimit) <==>
              && (min.Some? ==> IsCount(min.value) && CountValue(min.value) <= 0xFFFF_FFFF)
              && max.Some? && IsCount(max.value)
              && (CountValue(max.value) > 0xFFFF_FFFF || (limit != 0 && CountValue(max.value) > limit))
  {
    if max.Some? && Trim(max.value) == "unbounded" {
      assert CountText(max.value) == "unbounded" && !IsDigit("unbounded"[0]);
    }
  }

  /** A count that fits 32 bits, once the limit has been checked. */
  function OccurrenceUint32(digits: string): (r: Uint32)
    requires Stripped(digits)
    ensures r as int == if Value(digits) > MAX_UINT32 then MAX_UINT32 else Value(digits)
  {
    LimitCompared(digits, MAX_UINT32);
    if CompareUnsigned(digits, Digits(MAX_UINT32)) > 0 then MAX_UINT32 else Value(digits)
  }

  method ParseMin(min: Option<string>) returns (r: Option<string>, error: OccurrenceError)
    ensures r.Some? ==> Stripped(r.value) && Value(r.value) <= MAX_UINT32
                        && Value(r.value) == if min.Some? then CountValue(min.value) else 1
    ensures r.Some? ==> (min.Some? ==> IsCount(min.value))
    ensures r.None? ==> min.Some? && error == if IsCount(min.value) then MinLimit else InvalidMin
    ensures r.None? && IsCount(min.value) ==> CountValue(min.value) > MAX_UINT32
  {
    error := InvalidMin;
    if min.None? {
      OneDigit('1');
      return Some("1"), error;
    }
    r := ParseOccurrenceDigits(min.value);
    if r.None? { return; }
    LimitCompared(r.value, MAX_UINT32);
    if CompareUnsigned(r.value, Digits(MAX_UINT32)) > 0 {
      return None, MinLimit;
    }
  }

  /** Parses minOccurs and maxOccurs by comparing digits, never numbers too large to hold. */
  method ParseOccurrence(min: Option<string>, max: Option<string>, limit: nat) returns (r: OccurrenceResult)
    ensures r == OccurrenceOf(min, max, limit)
    ensures r.Parsed? ==> r.occurs.Valid()
    ensures r.Parsed? && !r.occurs.unbounded && limit != 0 ==> r.occurs.max <= limit
  {
    var minDigits, minError := ParseMin(min);
    if minDigits.None? {
      return Refused(minError);
    }
    var minOccurs := OccurrenceUint32(minDigits.value);
    var maxDigits := Some("1");
    OneDigit('1');
    if max.Some? {
      if Trim(max.value) == "unbounded" {
        return Parsed(Occurrence(minOccurs, 0, true));
      }
      maxDigits := ParseOccurrenceDigits(max.value);
      if maxDigits.None? {
        return Refused(InvalidMax);
      }
      LimitCompared(maxDigits.value, MaxCap(limit));
      if CompareUnsigned(maxDigits.value, Digits(MaxCap(limit))) > 0 {
        return Refused(MaxLimit);
      }
    }
    CompareUnsignedIsOrder(maxDigits.value, minDigits.value);
    if CompareUnsigned(maxDigits.value, minDigits.value) < 0 {
      return Refused(MaxBelowMin);
    }
    return Parsed(Occurrence(minOccurs, OccurrenceUint32(maxDigits.value), false));
  }

  // ----- size facets -----

  /** A size is an unsigned number, or a zero with any sign. */
  predicate IsSize(s: string) {
    IsInteger(s) && (s[0] == '-' ==> Value(Unsigned(s)) == 0)
  }

  lemma {:induction false} OnlyZerosAreZero(s: string)
    requires AllDigits(s) && Value(s) == 0
    ensures forall i :: 0 <= i < |s| ==> s[i] == '0'
  {
    if s != "" {
      OnlyZerosAreZero(s[..|s| - 1]);
      assert DigitValue(s[|s| - 1]) == 0;
    }
  }

  /** A count is what a nonnegative integer's text may be (section 3.3.20 of XML Schema
      Part 2: Datatypes), except that it has no minus sign: only zeros could have one. */
  lemma CountIffUnsignedSize(s: string)
    ensures IsCount(s) <==> IsSize(Trim(s)) && Trim(s)[0] != '-'
    ensures IsCount(s) ==> CountValue(s) == Value(Unsigned(Trim(s)))
    ensures IsSize(Trim(s)) && !IsCount(s) ==> Value(Unsigned(Trim(s))) == 0
  {
    var v := Trim(s);
    if v != "" && v[0] == '-' {
      assert CountText(s) == v && !IsDigit(v[0]);
    } else {
      assert CountText(s) == Unsigned(v);
    }
  }

  /** A negative zero is a size, and a nonnegative integer, but it is refused as a count. */
  lemma NegativeZeroIsNoCount()
    ensures IsSize("-0") && SizeOf("-0", false) == Size(0)
    ensures !IsCount("-0") && OccurrenceOf(Some("-0"), None, 0) == Refused(InvalidMin)
  {
    assert Trim("-0") == "-0";
    CountIffUnsignedSize("-0");
    OneDigit('0');
    assert Unsigned("-0") == "0" && Value("0") == DigitValue('0');
  }

  /** Accumulates digits until the value leaves 32 bits; from there on the value is only
      known to be too large. It never leaves 64 bits. */
  method AccumulateDigits(s: string, digitStart: nat) returns (r: Option<nat>)
    requires digitStart <= |s|
    ensures r.Some? <==> AllDigits(s[digitStart..])
    ensures r.Some? ==> r.value < UINT64_LIMIT
    ensures r.Some? ==> (r.value > MAX_UINT32 <==> Value(s[digitStart..]) > MAX_UINT32)
    ensures r.Some? && r.value <= MAX_UINT32 ==> r.value == Value(s[digitStart..])
  {
    ghost var rest := s[digitStart..];
    var n := 0;
    for k := 0 to |s| - digitStart
      invariant AllDigits(rest[..k]) && n < UINT64_LIMIT
      invariant n > MAX_UINT32 <==> Value(rest[..k]) > MAX_UINT32
      invariant n <= MAX_UINT32 ==> n == Value(rest[..k])
    {
      var b := s[digitStart + k];
      assert b == rest[k] && rest[..k + 1] == rest[..k] + [b];
      if !IsDigit(b) {
        return None;
      }
      AppendDigit(rest[..k], b);
      if n <= MAX_UINT32 {
        n := n * 10 + DigitValue(b);
      }
    }
    assert rest[..|s| - digitStart] == rest;
    return Some(n);
  }

  method ParseSizeFacetInteger(s: string) returns (r: Option<nat>)
    ensures r.Some? <==> IsSize(s)
    ensures r.Some? ==> r.value < UINT64_LIMIT
    ensures r.Some? ==> (r.value > MAX_UINT32 <==> Value(Unsigned(s)) > MAX_UINT32)
    ensures r.Some? && r.value <= MAX_UINT32 ==> r.value == Value(Unsigned(s))
  {
    if s == "" {
      return None;
    }
    var start := if Signed(s) then 1 else 0;
    var negative := s[0] == '-';
    if start == |s| {
      return None;
    }
    var digitStart := SkipLeadingZeros(s, start);
    ghost var u := Unsigned(s);
    assert u == s[start..] && u[digitStart - start..] == s[digitStart..];
    assert forall i :: 0 <= i < digitStart - start ==> u[i] == '0';
    ZerosWorthNothing(u, digitStart - start);
    if negative && digitStart != |s| {
      NonzeroLeft(u, digitStart - start);
      return None;
    }
    if digitStart == |s| {
      assert s[digitStart..] == "";
      return Some(0);
    }
    r := AccumulateDigits(s, digitStart);
    SplitDigits(u, digitStart - start);
  }

  lemma NonzeroLeft(u: string, k: nat)
    requires k < |u| && u[k] != '0'
    ensures AllDigits(u) ==> Value(u) > 0
  {
    if AllDigits(u) && Value(u) == 0 {
      OnlyZerosAreZero(u);
    }
  }

  lemma SplitDigits(u: string, k: nat)
    requires k <= |u| && forall i :: 0 <= i < k ==> IsDigit(u[i])
    ensures AllDigits(u) <==> AllDigits(u[k..])
  {
    if AllDigits(u[k..]) {
      assert forall i :: k <= i < |u| ==> u[i] == u[k..][i - k];
    }
  }

  datatype SizeResult = Size(value: Uint32) | InvalidSize | NotPositive | SizeLimit

  /** What a size facet means, as a number. */
  function SizeOf(s: string, positive: bool): SizeResult {
    if !IsSize(s) then InvalidSize
    else if positive && Value(Unsigned(s)) == 0 then NotPositive
    else if Value(Unsigned(s)) > MAX_UINT32 then SizeLimit
    else Size(Value(Unsigned(s)))
  }

  /** A size facet's value, with white space collapsed already; only totalDigits must be
      positive. */
  method ParseSizeFacetValue(s: string, positive: bool) returns (r: SizeResult)
    ensures r == SizeOf(s, positive)
  {
    var size := ParseSizeFacetInteger(s);
    if size.None? {
      return InvalidSize;
    }
    if positive && size.value == 0 {
      return NotPositive;
    }
    if size.value > MAX_UINT32 {
      return SizeLimit;
    }
    return Size(size.value);
  }
}
