/** Article numbers: Arabic digits, or a Chinese numeral in its standard form. */
module ArticleNumber {
  import opened Sequences
  import opened Common

  const DIGITS: string := "零一二三四五六七八九"
  const MAX_INT_DIGITS: nat := 4300  // longer texts are refused by `int`

  /** Full-width digits become ASCII ones, and the round zero becomes the written one. */
  function TranslateChar(c: char): char {
    if '０' <= c <= '９' then '0' + (c - '０') else if c == '〇' then '零' else c
  }

  function Translate(s: string): string {
    seq(|s|, i requires 0 <= i < |s| => TranslateChar(s[i]))
  }

  predicate IsAsciiDigit(c: char) {
    '0' <= c <= '9'
  }

  function DigitValue(c: char): nat
    requires IsAsciiDigit(c)
  {
    c as int - '0' as int
  }

  predicate IsArabic(s: string) {
    s != "" && forall i :: 0 <= i < |s| ==> IsAsciiDigit(s[i])
  }

  function ArabicValue(s: string): nat
    requires forall i :: 0 <= i < |s| ==> IsAsciiDigit(s[i])
  {
    if s == "" then 0 else 10 * ArabicValue(s[..|s| - 1]) + DigitValue(s[|s| - 1])
  }

  /** The digit a character writes, if it writes one. */
  function DigitOf(c: char): Option<nat> {
    match c
    case '零' => Some(0)
    case '一' => Some(1)
    case '二' => Some(2)
    case '三' => Some(3)
    case '四' => Some(4)
    case '五' => Some(5)
    case '六' => Some(6)
    case '七' => Some(7)
    case '八' => Some(8)
    case '九' => Some(9)
    case _ => None
  }

  function UnitOf(c: char): Option<nat> {
    match c
    case '十' => Some(10)
    case '百' => Some(100)
    case '千' => Some(1000)
    case _ => None
  }

  function Suffix(unit: nat): string {
    if unit == 1000 then "千" else if unit == 100 then "百" else if unit == 10 then "十" else ""
  }

  // ----- the standard form of a number -----

  function TopUnit(n: nat): nat
    requires 1 <= n <= 9999
    ensures TopUnit(n) <= n < 10 * TopUnit(n) && TopUnit(n) in {1, 10, 100, 1000}
  {
    if n < 10 then 1 else if n < 100 then 10 else if n < 1000 then 100 else 1000
  }

  function Digit(d: nat): string
    requires d <= 9
  {
    [DIGITS[d]]
  }

  /** The numeral with every digit written: the digit and name of the highest unit, then the rest. */
  function Full(n: nat): string
    requires 1 <= n <= 9999
    decreases n, 0
  {
    Digit(n / TopUnit(n)) + Suffix(TopUnit(n)) + Tail(TopUnit(n), n % TopUnit(n))
  }

  /** The rest after a unit, with one zero for any units skipped in between. */
  function Tail(unit: nat, rest: nat): string
    requires rest < unit <= 1000
    decreases rest, 1
  {
    if rest == 0 then "" else (if 10 * rest < unit then "零" else "") + Full(rest)
  }

  /** The standard numeral: ten to nineteen do not write the one. */
  function Reading(n: nat): string
    requires 1 <= n <= 9999
  {
    if 10 <= n <= 19 then Full(n)[1..] else Full(n)
  }

  // ----- parsing -----

  /** The sum so far and the digit waiting for its unit; none once a character is neither digit nor unit. */
  function Sum(s: string, total: nat, section: nat): Option<nat> {
    if s == "" then Some(total + section)
    else if DigitOf(s[0]).Some? then Sum(s[1..], total, DigitOf(s[0]).value)
    else if UnitOf(s[0]).Some? then Sum(s[1..], total + (if section != 0 then section else 1) * UnitOf(s[0]).value, 0)
    else None
  }

  /** The number a text stands for. */
  function Number(value: string): Option<nat> {
    var s := Translate(value);
    if IsArabic(s) then
      if |s| <= MAX_INT_DIGITS && ArabicValue(s) > 0 then Some(ArabicValue(s)) else None
    else
      var total := Sum(s, 0, 0);
      if total.None? || !(1 <= total.value <= 9999) then None
      else
        var n := total.value;
        if s == Reading(n) || (10 <= n <= 19 && s == "一" + Reading(n)) then Some(n) else None
  }

  /** What the accepted texts are: an Arabic numeral, or a Chinese one in standard or in full form. */
  ghost predicate Denotes(s: string, n: nat) {
    n >= 1 && if IsArabic(s) then |s| <= MAX_INT_DIGITS && ArabicValue(s) == n
              else n <= 9999 && (s == Reading(n) || s == Full(n))
  }

  // ----- the loops -----

  method CnNumber(value: string) returns (r: Option<nat>)
    ensures r == Number(value)
  {
    var s := Translate(value);
    if IsArabic(s) {
      if |s| > MAX_INT_DIGITS { return None; }
      var number := ArabicValue(s);
      return if number > 0 then Some(number) else None;
    }
    var sum := ChineseSum(s);
    if sum.None? || !(1 <= sum.value <= 9999) { return None; }
    var total := sum.value;
    var canonical := Canonical(total);
    return if canonical == s || (10 <= total <= 19 && "一" + canonical == s) then Some(total) else None;
  }

  method ChineseSum(s: string) returns (r: Option<nat>)
    ensures r == Sum(s, 0, 0)
  {
    var total: nat, section: nat := 0, 0;
    for i := 0 to |s|
      invariant Sum(s[i..], total, section) == Sum(s, 0, 0)
    {
      assert s[i..][0] == s[i] && s[i..][1..] == s[i + 1..];
      if DigitOf(s[i]).Some? {
        section := DigitOf(s[i]).value;
      } else if UnitOf(s[i]).Some? {
        total := total + (if section != 0 then section else 1) * UnitOf(s[i]).value;
        section := 0;
      } else {
        return None;
      }
    }
    return Some(total + section);
  }

  /** What is still to be written when the units from `unit` down are left. */
  ghost function Pending(nothingYet: bool, zeroNeeded: bool, rest: nat, unit: nat): string
    requires rest < 10 * unit <= 10000 || rest == 0
  {
    if rest == 0 then ""
    else if nothingYet then Reading(rest)
    else (if zeroNeeded || rest < unit then "零" else "") + Full(rest)
  }

  /** What one unit adds to the numeral. */
  function Written(nothingYet: bool, zeroNeeded: bool, digit: nat, unit: nat): string
    requires digit <= 9
  {
    if digit == 0 then ""
    else
      (if zeroNeeded then "零" else "")
      + (if unit == 10 && digit == 1 && nothingYet then "" else Digit(digit)) + Suffix(unit)
  }

  method Canonical(n: nat) returns (canonical: string)
    requires 1 <= n <= 9999
    ensures canonical == Reading(n)
  {
    canonical := "";
    var remaining: nat, zeroNeeded, unit: nat := n, false, 1000;
    while unit > 0
      invariant unit in {1000, 100, 10, 1, 0}
      invariant if unit == 0 then remaining == 0 else remaining < 10 * unit
      invariant zeroNeeded ==> canonical != ""
      invariant canonical + Pending(canonical == "", zeroNeeded, remaining, unit) == Reading(n)
    {
      canonical, zeroNeeded, remaining := WriteUnit(canonical, zeroNeeded, remaining, unit);
      unit := unit / 10;
    }
  }

  method WriteUnit(before: string, zeroBefore: bool, remaining: nat, unit: nat)
    returns (canonical: string, zeroNeeded: bool, rest: nat)
    requires unit in {1000, 100, 10, 1} && remaining < 10 * unit && (zeroBefore ==> before != "")
    ensures if unit == 1 then rest == 0 else rest < 10 * (unit / 10)
    ensures zeroNeeded ==> canonical != ""
    ensures canonical + Pending(canonical == "", zeroNeeded, rest, unit / 10)
            == before + Pending(before == "", zeroBefore, remaining, unit)
  {
    var digit := remaining / unit;
    rest := remaining % unit;
    DigitRange(remaining, unit, digit, rest);
    canonical, zeroNeeded := before, zeroBefore;
    if digit > 0 {
      if zeroNeeded { canonical := canonical + "零"; }
      if !(unit == 10 && digit == 1 && canonical == "") { canonical := canonical + Digit(digit); }
      canonical := canonical + Suffix(unit);
      zeroNeeded := false;
      PendingDigit(before, zeroBefore, remaining, unit, digit, rest, canonical);
    } else if canonical != "" && rest > 0 {
      zeroNeeded := true;
    }
  }

  /** Writing a digit and its unit leaves the tail of the numeral pending. */
  lemma PendingDigit(before: string, zeroBefore: bool, remaining: nat, unit: nat, digit: nat, rest: nat, after: string)
    requires unit in {1000, 100, 10, 1} && unit <= remaining < 10 * unit && (zeroBefore ==> before != "")
    requires digit == remaining / unit && rest == remaining % unit && digit <= 9
    requires after == before + Written(before == "", zeroBefore, digit, unit)
    ensures rest < unit && after + Tail(unit, rest) == before + Pending(before == "", zeroBefore, remaining, unit)
  {
    FullStarts(remaining, unit, digit, rest);
    var written, tail := Written(before == "", zeroBefore, digit, unit), Tail(unit, rest);
    if before == "" {
      ReadingStarts(remaining, unit, digit, rest);
    } else if zeroBefore {
      Regroup("零", Digit(digit) + Suffix(unit), tail);
      Regroup("零", Digit(digit), Suffix(unit));
    } else {
      assert written == Digit(digit) + Suffix(unit);
      assert "" + Full(remaining) == Full(remaining);
    }
    Regroup(before, written, tail);
  }

  lemma DigitRange(remaining: nat, unit: nat, digit: nat, rest: nat)
    requires unit in {1000, 100, 10, 1} && remaining < 10 * unit && digit == remaining / unit
    requires rest == remaining % unit
    ensures digit <= 9 && rest < unit && (digit == 0 <==> remaining < unit) && (digit == 0 ==> rest == remaining)
    ensures unit > 1 ==> unit == 10 * (unit / 10)
    ensures unit == 10 && digit == 1 <==> unit == 10 && 10 <= remaining <= 19
  {
  }

  lemma FullStarts(n: nat, unit: nat, digit: nat, rest: nat)
    requires unit in {1000, 100, 10, 1} && unit <= n < 10 * unit && digit == n / unit && rest == n % unit
    ensures 1 <= digit <= 9 && rest < unit
    ensures Full(n) == Digit(digit) + Suffix(unit) + Tail(unit, rest)
  {
    assert TopUnit(n) == unit;
    DigitRange(n, unit, digit, rest);
  }

  lemma ReadingStarts(n: nat, unit: nat, digit: nat, rest: nat)
    requires unit in {1000, 100, 10, 1} && unit <= n < 10 * unit && digit == n / unit && rest == n % unit
    ensures 1 <= digit <= 9 && rest < unit
    ensures Reading(n) == Written(true, false, digit, unit) + Tail(unit, rest)
  {
    FullStarts(n, unit, digit, rest);
    DigitRange(n, unit, digit, rest);
    if unit == 10 && digit == 1 {
      FullOfTeens(n);
    } else {
      assert "" + Digit(digit) == Digit(digit);
    }
  }

  // ----- what is accepted -----

  lemma DigitReads(d: nat)
    requires d <= 9
    ensures DigitOf(DIGITS[d]) == Some(d) && !IsAsciiDigit(DIGITS[d]) && TranslateChar(DIGITS[d]) == DIGITS[d]
  {
  }

  lemma SumHead(d: nat, unit: nat, tail: string, total: nat, section: nat)
    requires 1 <= d <= 9 && unit in {1000, 100, 10}
    ensures Sum(Digit(d) + Suffix(unit) + tail, total, section) == Sum(tail, total + d * unit, 0)
  {
    DigitReads(d);
    var s := Digit(d) + Suffix(unit) + tail;
    assert s[0] == DIGITS[d] && s[1] == Suffix(unit)[0] && s[1..][1..] == tail;
    assert Sum(s, total, section) == Sum(s[1..], total, d);
  }

  lemma SumZero(tail: string, total: nat)
    ensures Sum("零" + tail, total, 0) == Sum(tail, total, 0)
  {
    assert ("零" + tail)[0] == '零' && ("零" + tail)[1..] == tail;
  }

  lemma SumDigit(d: nat, total: nat, section: nat)
    requires 1 <= d <= 9
    ensures Sum(Digit(d), total, section) == Some(total + d)
  {
    DigitReads(d);
    assert Digit(d)[1..] == "";
  }

  /** A full numeral adds its number to the sum, whatever digit was waiting. */
  lemma {:induction false} SumFull(n: nat, total: nat, section: nat)
    requires 1 <= n <= 9999
    ensures Sum(Full(n), total, section) == Some(total + n)
  {
    var unit := TopUnit(n);
    var d, rest := n / unit, n % unit;
    DigitRange(n, unit, d, rest);
    if unit == 1 {
      assert Full(n) == Digit(n) + "" + "" == Digit(n);
      SumDigit(n, total, section);
    } else {
      SumHead(d, unit, Tail(unit, rest), total, section);
      SumTail(unit, rest, total + d * unit);
    }
  }

  lemma {:induction false} SumTail(unit: nat, rest: nat, total: nat)
    requires unit in {1000, 100, 10} && rest < unit
    ensures Sum(Tail(unit, rest), total, 0) == Some(total + rest)
    decreases rest
  {
    if rest > 0 {
      SumFull(rest, total, 0);
      SumZero(Full(rest), total);
      assert "" + Full(rest) == Full(rest);
    }
  }

  lemma FullOfTeens(n: nat)
    requires 10 <= n <= 19
    ensures Full(n) == "一" + Reading(n) && Reading(n) == "十" + Tail(10, n - 10)
  {
    var rest := n - 10;
    assert TopUnit(n) == 10 && n / 10 == 1 && n % 10 == rest && Suffix(10) == "十" && Digit(1) == "一";
    OneTen(Full(n), Tail(10, rest));
  }

  lemma OneTen(full: string, tail: string)
    requires full == "一" + "十" + tail
    ensures full[1..] == "十" + tail && full == "一" + full[1..]
  {
    assert full == "一" + ("十" + tail);
  }

  lemma SumReading(n: nat)
    requires 1 <= n <= 9999
    ensures Sum(Reading(n), 0, 0) == Some(n)
  {
    if 10 <= n <= 19 {
      FullOfTeens(n);
      SumTen(Tail(10, n - 10));
      SumTail(10, n - 10, 10);
    } else {
      SumFull(n, 0, 0);
    }
  }

  lemma SumTen(tail: string)
    ensures Sum("十" + tail, 0, 0) == Sum(tail, 10, 0)
  {
    assert ("十" + tail)[0] == '十' && ("十" + tail)[1..] == tail;
  }

  /** A text is read as n just when it denotes n: a Chinese numeral is accepted only in its standard form, or with
      the one of ten to nineteen written out. */
  lemma NumberIff(value: string, n: nat)
    ensures Number(value) == Some(n) <==> Denotes(Translate(value), n)
  {
    var s := Translate(value);
    if !IsArabic(s) && 1 <= n <= 9999 {
      SumReading(n);
      SumFull(n, 0, 0);
      if 10 <= n <= 19 { FullOfTeens(n); }
    }
  }

  /** Characters that translation leaves alone and that are not ASCII digits. */
  ghost predicate Plain(s: string) {
    forall i :: 0 <= i < |s| ==> TranslateChar(s[i]) == s[i] && !IsAsciiDigit(s[i])
  }

  lemma {:induction false} FullPlain(n: nat)
    requires 1 <= n <= 9999
    ensures Plain(Full(n)) && Full(n) != ""
  {
    var unit := TopUnit(n);
    DigitRange(n, unit, n / unit, n % unit);
    DigitReads(n / unit);
    if n % unit > 0 { FullPlain(n % unit); }
    assert Plain(Suffix(unit)) && Plain("零") && Plain(Digit(n / unit));
  }

  lemma ReadingPlain(n: nat)
    requires 1 <= n <= 9999
    ensures Translate(Reading(n)) == Reading(n) && !IsArabic(Reading(n))
  {
    FullPlain(n);
    if 10 <= n <= 19 { FullOfTeens(n); }
    assert Plain(Reading(n)) && Reading(n) != "";
    assert !IsAsciiDigit(Reading(n)[0]);
  }

  /** Every number from 1 to 9999 is read back from its standard form. */
  lemma ReadingRoundTrip(n: nat)
    requires 1 <= n <= 9999
    ensures Number(Reading(n)) == Some(n)
  {
    ReadingPlain(n);
    NumberIff(Reading(n), n);
  }

  /** So no two numbers share a standard form. */
  lemma ReadingInjective(m: nat, n: nat)
    requires 1 <= m < n <= 9999
    ensures Reading(m) != Reading(n)
  {
    ReadingRoundTrip(m);
    ReadingRoundTrip(n);
  }
}
