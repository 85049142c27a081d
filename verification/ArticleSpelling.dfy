/** How the accepted article numbers are spelt, digit by digit. */
module ArticleSpelling {
  import opened Common
  import opened ArticleNumber

  // ----- characters that are written in two ways -----

  predicate WritesDigit(c: char, d: nat) {
    c as int == '0' as int + d || c as int == '０' as int + d
  }

  /** The same character, or two ways to write zero in Chinese, or the ASCII and the full-width form of one digit. */
  predicate Alike(a: char, b: char) {
    a == b || (a in "零〇" && b in "零〇") || exists d: nat :: d < 10 && WritesDigit(a, d) && WritesDigit(b, d)
  }

  predicate Variant(v: string, w: string) {
    |v| == |w| && forall i :: 0 <= i < |v| ==> Alike(v[i], w[i])
  }

  lemma AlikeIff(a: char, b: char)
    ensures Alike(a, b) <==> TranslateChar(a) == TranslateChar(b)
  {
    if '0' <= TranslateChar(a) <= '9' {
      var d: nat := TranslateChar(a) as int - '0' as int;
      assert WritesDigit(a, d);
      assert WritesDigit(b, d) <==> TranslateChar(b) == TranslateChar(a);
    }
  }

  lemma VariantIff(v: string, w: string)
    ensures Variant(v, w) <==> Translate(v) == Translate(w)
  {
    if |v| == |w| {
      forall i | 0 <= i < |v| ensures Alike(v[i], w[i]) <==> Translate(v)[i] == Translate(w)[i] {
        AlikeIff(v[i], w[i]);
      }
    }
  }

  /** What denotes a number is in the standard characters already. */
  lemma DenotingIsStandard(s: string, n: nat)
    requires Denotes(s, n)
    ensures Translate(s) == s
  {
    if !IsArabic(s) {
      FullPlain(n);
      ReadingPlain(n);
    }
  }

  /** A text is read as n if and only if it is a variant of an Arabic numeral of n, of the standard Chinese numeral, or
      of the one with the leading one written out. */
  lemma NumberIffVariant(value: string, n: nat)
    ensures Number(value) == Some(n) <==> exists s :: Variant(value, s) && Denotes(s, n)
  {
    NumberIff(value, n);
    if Number(value) == Some(n) {
      DenotingIsStandard(Translate(value), n);
      VariantIff(value, Translate(value));
    }
    forall s | Variant(value, s) && Denotes(s, n) ensures Number(value) == Some(n) {
      DenotingIsStandard(s, n);
      VariantIff(value, s);
    }
  }

  // ----- where the zero stands -----

  /** One digit with its unit; a zero before it if digits come before it but not right before it. */
  function Cell(digit: nat, unit: string, before: bool, adjacent: bool): string
    requires digit <= 9
  {
    if digit == 0 then ""
    else if before && !adjacent then "零" + (Digit(digit) + unit)
    else Digit(digit) + unit
  }

  /** The numeral of the decimal digits a, b, c, d. */
  function Spelled(a: nat, b: nat, c: nat, d: nat): string
    requires a <= 9 && b <= 9 && c <= 9 && d <= 9
  {
    Cell(a, "千", false, false)
    + (Cell(b, "百", a > 0, a > 0) + (Cell(c, "十", a > 0 || b > 0, b > 0) + Cell(d, "", a > 0 || b > 0 || c > 0, c > 0)))
  }

  lemma Ones(d: nat)
    requires 1 <= d <= 9
    ensures Full(d) == Digit(d) == Digit(d) + "" == Spelled(0, 0, 0, d)
  {
    FullStarts(d, 1, d, 0);
  }

  lemma TailOnes(d: nat)
    requires d <= 9
    ensures Tail(10, d) == Cell(d, "", true, true)
  {
    if d > 0 { Ones(d); }
  }

  lemma Tens(c: nat, d: nat)
    requires 1 <= c <= 9 && d <= 9
    ensures Full(10 * c + d) == Cell(c, "十", false, false) + Cell(d, "", true, true)
  {
    FullStarts(10 * c + d, 10, c, d);
    TailOnes(d);
  }

  lemma TailTens(c: nat, d: nat)
    requires c <= 9 && d <= 9
    ensures Tail(100, 10 * c + d) == Cell(c, "十", true, true) + Cell(d, "", true, c > 0)
  {
    if c > 0 {
      Tens(c, d);
      assert "" + Full(10 * c + d) == Full(10 * c + d);
    } else if d > 0 {
      Ones(d);
      assert "" + Cell(d, "", true, false) == Cell(d, "", true, false);
    }
  }

  lemma Hundreds(b: nat, c: nat, d: nat)
    requires 1 <= b <= 9 && c <= 9 && d <= 9
    ensures Full(100 * b + 10 * c + d) ==
            Cell(b, "百", false, false) + (Cell(c, "十", true, true) + Cell(d, "", true, c > 0))
  {
    FullStarts(100 * b + 10 * c + d, 100, b, 10 * c + d);
    TailTens(c, d);
  }

  lemma TailHundreds(b: nat, c: nat, d: nat)
    requires b <= 9 && c <= 9 && d <= 9
    ensures Tail(1000, 100 * b + 10 * c + d) ==
            Cell(b, "百", true, true) + (Cell(c, "十", true, b > 0) + Cell(d, "", true, c > 0))
  {
    if b > 0 {
      TailThousandHundreds(b, c, d);
    } else if c > 0 {
      TailThousandTens(c, d);
      Leading(Cell(c, "十", true, false) + Cell(d, "", true, true));
    } else {
      TailThousandOnes(d);
      Leading(Cell(d, "", true, false));
      Leading("" + Cell(d, "", true, false));
    }
  }

  lemma TailThousandHundreds(b: nat, c: nat, d: nat)
    requires 1 <= b <= 9 && c <= 9 && d <= 9
    ensures Tail(1000, 100 * b + 10 * c + d) ==
            Cell(b, "百", true, true) + (Cell(c, "十", true, true) + Cell(d, "", true, c > 0))
  {
    Hundreds(b, c, d);
    Leading(Full(100 * b + 10 * c + d));
  }

  lemma TailThousandOnes(d: nat)
    requires d <= 9
    ensures Tail(1000, d) == Cell(d, "", true, false)
  {
    if d > 0 { Ones(d); }
  }

  lemma TailThousandTens(c: nat, d: nat)
    requires 1 <= c <= 9 && d <= 9
    ensures Tail(1000, 10 * c + d) == Cell(c, "十", true, false) + Cell(d, "", true, true)
  {
    Tens(c, d);
    AfterGap(Digit(c) + "十", Cell(d, "", true, true));
  }

  lemma AfterGap(first: string, second: string)
    ensures "零" + (first + second) == "" + (("零" + first) + second) == "" + ("" + ("零" + (first + second)))
  {
  }

  lemma Leading(s: string)
    ensures s == "" + s
  {
  }

  lemma Thousands(a: nat, b: nat, c: nat, d: nat)
    requires 1 <= a <= 9 && b <= 9 && c <= 9 && d <= 9
    ensures Full(1000 * a + 100 * b + 10 * c + d) == Spelled(a, b, c, d)
  {
    FullStarts(1000 * a + 100 * b + 10 * c + d, 1000, a, 100 * b + 10 * c + d);
    TailHundreds(b, c, d);
  }

  lemma SpelledHundreds(b: nat, c: nat, d: nat)
    requires 1 <= b <= 9 && c <= 9 && d <= 9
    ensures Full(100 * b + 10 * c + d) == Spelled(0, b, c, d)
  {
    Hundreds(b, c, d);
    Leading(Full(100 * b + 10 * c + d));
  }

  lemma SpelledTens(c: nat, d: nat)
    requires 1 <= c <= 9 && d <= 9
    ensures Full(10 * c + d) == Spelled(0, 0, c, d)
  {
    Tens(c, d);
    Leading(Full(10 * c + d));
    Leading("" + Full(10 * c + d));
  }

  /** The full numeral of a number is spelt from its decimal digits: each digit that is not zero with its unit, and one
      zero wherever such digits have others between them. */
  lemma FullIs(a: nat, b: nat, c: nat, d: nat)
    requires a <= 9 && b <= 9 && c <= 9 && d <= 9 && a + b + c + d > 0
    ensures Full(1000 * a + 100 * b + 10 * c + d) == Spelled(a, b, c, d)
  {
    if a > 0 {
      Thousands(a, b, c, d);
    } else if b > 0 {
      SpelledHundreds(b, c, d);
    } else if c > 0 {
      SpelledTens(c, d);
    } else {
      Ones(d);
    }
  }

  /** The standard numeral is the same but for the one of ten to nineteen. */
  lemma ReadingIs(a: nat, b: nat, c: nat, d: nat)
    requires a <= 9 && b <= 9 && c <= 9 && d <= 9 && a + b + c + d > 0
    ensures Reading(1000 * a + 100 * b + 10 * c + d) ==
            if a == 0 && b == 0 && c == 1 then "十" + Cell(d, "", false, false) else Spelled(a, b, c, d)
  {
    if a == 0 && b == 0 && c == 1 {
      Teens(d);
    } else {
      FullIs(a, b, c, d);
    }
  }

  lemma Teens(d: nat)
    requires d <= 9
    ensures Reading(10 + d) == "十" + Cell(d, "", false, false)
  {
    FullOfTeens(10 + d);
    TailOnes(d);
  }
}
