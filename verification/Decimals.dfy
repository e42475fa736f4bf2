/**
 compareDecimalStrings of src/lib/board/spec.ts: decimal text is ordered digit by digit and never parsed
 to a number. Here it is compared with the exact rational value of the text.
 */
module Decimals {
  import opened JsText
  import opened Numerals

  predicate AllDigits(s: string) {
    forall i | 0 <= i < |s| :: IsDigit(s[i])
  }

  /** Digits, optionally with one point and more digits. */
  predicate IsDecimal(s: string) {
    var (whole, fraction) := Halves(s);
    && whole != "" && AllDigits(whole) && AllDigits(fraction)
    && (|whole| < |s| ==> fraction != "" && |s| == |whole| + 1 + |fraction|)
  }

  /** The first two pieces of splitting at the points. */
  function Halves(s: string): (string, string) {
    var i := PointAt(s);
    if i == |s| then (s, "") else (s[..i], s[i + 1..][..PointAt(s[i + 1..])])
  }

  function PointAt(s: string): (i: nat)
    ensures i <= |s| && (i < |s| ==> s[i] == '.')
  {
    if s == "" || s[0] == '.' then 0 else 1 + PointAt(s[1..])
  }

  /** Leading zeros go while a digit follows. */
  function StripZeros(s: string): string {
    if |s| >= 2 && s[0] == '0' && IsDigit(s[1]) then StripZeros(s[1..]) else s
  }

  function PadEnd(s: string, width: nat): string
    decreases width - |s|
  {
    if |s| >= width then s else PadEnd(s + "0", width)
  }

  function CompareDecimalStrings(left: string, right: string): int {
    var (leftWhole, leftFraction) := Halves(left);
    var (rightWhole, rightFraction) := Halves(right);
    var leftDigits, rightDigits := StripZeros(leftWhole), StripZeros(rightWhole);
    if |leftDigits| != |rightDigits| then (if |leftDigits| < |rightDigits| then -1 else 1)
    else if leftDigits != rightDigits then (if Before(leftDigits, rightDigits) then -1 else 1)
    else
      var width := if |leftFraction| >= |rightFraction| then |leftFraction| else |rightFraction|;
      var leftPadded, rightPadded := PadEnd(leftFraction, width), PadEnd(rightFraction, width);
      if leftPadded == rightPadded then 0 else if Before(leftPadded, rightPadded) then -1 else 1
  }

  // ---------------------------------------------------------------- the value of the text

  function Digit(c: char): nat
    requires IsDigit(c)
  {
    c as int - '0' as int
  }

  function NatOf(s: string): nat
    requires AllDigits(s)
  {
    if s == "" then 0 else 10 * NatOf(s[..|s| - 1]) + Digit(s[|s| - 1])
  }

  function Rational(s: string): real
    requires IsDecimal(s)
  {
    var (whole, fraction) := Halves(s);
    NatOf(whole) as real + NatOf(fraction) as real / Pow10(|fraction|) as real
  }

  lemma {:induction false} NatBound(s: string)
    requires AllDigits(s)
    ensures NatOf(s) < Pow10(|s|)
  {
    if s != "" {
      NatBound(s[..|s| - 1]);
    }
  }

  lemma {:induction false} ZeroInFront(s: string)
    requires AllDigits(s) && s != "" && s[0] == '0'
    ensures NatOf(s) == NatOf(s[1..])
  {
    if |s| > 1 {
      ZeroInFront(s[..|s| - 1]);
      assert s[1..][..|s| - 2] == s[..|s| - 1][1..];
    }
  }

  lemma {:induction false} StripKeepsValue(s: string)
    requires AllDigits(s)
    ensures AllDigits(StripZeros(s)) && NatOf(StripZeros(s)) == NatOf(s)
    ensures |StripZeros(s)| <= |s| && (s != "" ==> StripZeros(s) != "")
    ensures |StripZeros(s)| > 1 ==> StripZeros(s)[0] != '0'
  {
    if |s| >= 2 && s[0] == '0' {
      ZeroInFront(s);
      StripKeepsValue(s[1..]);
    }
  }

  lemma {:induction false} LeadingDigit(s: string)
    requires AllDigits(s) && s != "" && s[0] != '0'
    ensures NatOf(s) >= Pow10(|s| - 1)
  {
    if |s| > 1 {
      LeadingDigit(s[..|s| - 1]);
    }
  }

  lemma {:induction false} Pow10Grows(j: nat, k: nat)
    requires j <= k
    ensures Pow10(j) <= Pow10(k)
  {
    if j < k {
      Pow10Grows(j, k - 1);
    }
  }

  /** Without leading zeros the longer number is the larger. */
  lemma LongerIsLarger(a: string, b: string)
    requires AllDigits(a) && AllDigits(b) && 0 < |a| < |b| && b[0] != '0'
    ensures NatOf(a) < NatOf(b)
  {
    NatBound(a);
    LeadingDigit(b);
    Pow10Grows(|a|, |b| - 1);
  }

  lemma {:induction false} BeforeByLast(a: string, b: string, c: char, d: char)
    requires |a| == |b|
    ensures Before(a + [c], b + [d]) <==> Before(a, b) || (a == b && c < d)
  {
    if a != "" {
      BeforeByLast(a[1..], b[1..], c, d);
      assert (a + [c])[1..] == a[1..] + [c] && (b + [d])[1..] == b[1..] + [d];
      assert a == [a[0]] + a[1..] && b == [b[0]] + b[1..];
    } else {
      assert ([c])[1..] == "" && ([d])[1..] == "";
    }
  }

  /** At equal length text order is number order. */
  lemma {:induction false} TextOrder(a: string, b: string)
    requires AllDigits(a) && AllDigits(b) && |a| == |b|
    ensures Before(a, b) <==> NatOf(a) < NatOf(b)
    ensures a == b <==> NatOf(a) == NatOf(b)
  {
    if a != "" {
      var n := |a| - 1;
      TextOrder(a[..n], b[..n]);
      BeforeByLast(a[..n], b[..n], a[n], b[n]);
      assert a == a[..n] + [a[n]] && b == b[..n] + [b[n]];
    }
  }

  /** Whole numbers compared as the code does. */
  lemma WholeOrder(a: string, b: string)
    requires AllDigits(a) && AllDigits(b) && a != "" && b != ""
    ensures var x, y := StripZeros(a), StripZeros(b);
            && (NatOf(a) < NatOf(b) <==> |x| < |y| || (|x| == |y| && Before(x, y)))
            && (NatOf(a) == NatOf(b) <==> x == y)
  {
    var x, y := StripZeros(a), StripZeros(b);
    StripKeepsValue(a);
    StripKeepsValue(b);
    if |x| < |y| {
      LongerIsLarger(x, y);
    } else if |y| < |x| {
      LongerIsLarger(y, x);
    } else {
      TextOrder(x, y);
    }
  }

  lemma {:induction false} PadScales(s: string, width: nat)
    requires AllDigits(s) && |s| <= width
    ensures var p := PadEnd(s, width); AllDigits(p) && |p| == width && NatOf(p) == NatOf(s) * Pow10(width - |s|)
    decreases width - |s|
  {
    if |s| < width {
      assert (s + "0")[..|s|] == s;
      PadScales(s + "0", width);
      TimesTen(NatOf(s), Pow10(width - |s| - 1));
    }
  }

  lemma TimesTen(n: nat, p: nat)
    ensures 10 * n * p == n * (10 * p)
  {
  }

  lemma {:induction false} Pow10Sum(j: nat, k: nat)
    ensures Pow10(j + k) == Pow10(j) * Pow10(k)
  {
    if j > 0 {
      Pow10Sum(j - 1, k);
      TimesTen(Pow10(j - 1), Pow10(k));
      assert Pow10(j) * Pow10(k) == Pow10(k) * (10 * Pow10(j - 1));
    }
  }

  lemma SameQuotient(n: int, d: int, k: int)
    requires d >= 1 && k >= 1
    ensures d * k >= 1 && (n * k) as real / (d * k) as real == n as real / d as real
  {
    var q := n as real / d as real;
    assert q * d as real == n as real;
    assert (d * k) as real == d as real * k as real;
    assert (n * k) as real == q * d as real * k as real;
  }

  /** Padding leaves the fraction's value alone. */
  lemma FractionPads(s: string, width: nat)
    requires AllDigits(s) && |s| <= width
    ensures var p := PadEnd(s, width);
            && AllDigits(p) && |p| == width
            && NatOf(p) as real / Pow10(width) as real == NatOf(s) as real / Pow10(|s|) as real
  {
    PadScales(s, width);
    Pow10Sum(|s|, width - |s|);
    SameQuotient(NatOf(s), Pow10(|s|), Pow10(width - |s|));
  }

  lemma Quotients(a: int, b: int, d: int)
    requires d >= 1
    ensures a as real / d as real < b as real / d as real <==> a < b
    ensures a as real / d as real == b as real / d as real <==> a == b
    ensures 0 <= a < d ==> 0.0 <= a as real / d as real < 1.0
  {
    var x, y := a as real / d as real, b as real / d as real;
    assert x * d as real == a as real && y * d as real == b as real;
  }

  function Sign(x: real): int {
    if x < 0.0 then -1 else if x > 0.0 then 1 else 0
  }

  /** The comparison is the sign of the exact difference, for all decimal text. */
  lemma CompareIsExact(left: string, right: string)
    requires IsDecimal(left) && IsDecimal(right)
    ensures CompareDecimalStrings(left, right) == Sign(Rational(left) - Rational(right))
  {
    var (lw, lf) := Halves(left);
    var (rw, rf) := Halves(right);
    var width := if |lf| >= |rf| then |lf| else |rf|;
    var lp, rp := PadEnd(lf, width), PadEnd(rf, width);
    WholeOrder(lw, rw);
    WholeOrder(rw, lw);
    FractionPads(lf, width);
    FractionPads(rf, width);
    TextOrder(lp, rp);
    NatBound(lp);
    NatBound(rp);
    Quotients(NatOf(lp), NatOf(rp), Pow10(width));
    Quotients(NatOf(rp), NatOf(lp), Pow10(width));
  }

  /** A total preorder: antisymmetric up to value, transitive, and zero exactly for equal values. */
  lemma CompareIsOrder(a: string, b: string, c: string)
    requires IsDecimal(a) && IsDecimal(b) && IsDecimal(c)
    ensures CompareDecimalStrings(a, b) == -CompareDecimalStrings(b, a)
    ensures CompareDecimalStrings(a, b) <= 0 && CompareDecimalStrings(b, c) <= 0 ==> CompareDecimalStrings(a, c) <= 0
    ensures CompareDecimalStrings(a, b) == 0 <==> Rational(a) == Rational(b)
  {
    CompareIsExact(a, b);
    CompareIsExact(b, a);
    CompareIsExact(b, c);
    CompareIsExact(a, c);
  }

  const BOARD_DECIMAL_MAX_CHARS := 40

  predicate AcceptsDecimal(s: string) {
    |s| <= BOARD_DECIMAL_MAX_CHARS && IsDecimal(s)
  }

  /** The price fields and the ordering rule of a zone annotation. */
  predicate AcceptsZone(priceFrom: string, priceTo: string) {
    && AcceptsDecimal(priceFrom) && AcceptsDecimal(priceTo)
    && !(CompareDecimalStrings(priceFrom, priceTo) >= 0)
  }

  lemma ZoneIsStrict(priceFrom: string, priceTo: string)
    ensures AcceptsZone(priceFrom, priceTo)
       <==> IsDecimal(priceFrom) && IsDecimal(priceTo) && |priceFrom| <= 40 && |priceTo| <= 40
            && Rational(priceFrom) < Rational(priceTo)
  {
    if IsDecimal(priceFrom) && IsDecimal(priceTo) {
      CompareIsExact(priceFrom, priceTo);
    }
  }

  /** Printing a number and reading its digits gives the number back. */
  lemma {:induction false} DecimalReadsBack(n: nat)
    ensures AllDigits(Decimal(n)) && NatOf(Decimal(n)) == n
    ensures n > 0 ==> Decimal(n)[0] != '0'
    decreases n
  {
    if n >= 10 {
      DecimalReadsBack(n / 10);
      assert Decimal(n)[..|Decimal(n)| - 1] == Decimal(n / 10);
    }
  }

  lemma {:induction false} PointBehind(w: string, rest: string)
    requires '.' !in w
    ensures PointAt(w + "." + rest) == |w| && PointAt(w) == |w|
    decreases |w|
  {
    if w == "" {
      assert w + "." + rest == "." + rest;
    } else {
      PointBehind(w[1..], rest);
      assert (w + "." + rest)[1..] == w[1..] + "." + rest;
    }
  }

  lemma DigitsHaveNoPoint(s: string)
    ensures AllDigits(s) ==> '.' !in s
  {
  }

  lemma TwoHalves(whole: string, fraction: string)
    requires AllDigits(whole) && AllDigits(fraction)
    ensures Halves(whole + "." + fraction) == (whole, fraction) && Halves(whole) == (whole, "")
  {
    DigitsHaveNoPoint(whole);
    DigitsHaveNoPoint(fraction);
    PointBehind(whole, fraction);
    PointBehind(fraction, "");
    var s := whole + "." + fraction;
    assert s[..|whole|] == whole && s[|whole| + 1..] == fraction && fraction[..|fraction|] == fraction;
  }

  /** Decimal text is one or more digits, with a point and one or more digits behind it or without. */
  lemma DecimalForm(s: string)
    ensures IsDecimal(s)
       <==> || (s != "" && AllDigits(s))
            || exists whole: string, fraction: string ::
                 s == whole + "." + fraction && whole != "" && fraction != "" && AllDigits(whole) && AllDigits(fraction)
  {
    if IsDecimal(s) {
      var (whole, fraction) := Halves(s);
      if |whole| < |s| {
        var i := PointAt(s);
        assert fraction == s[i + 1..] && s == s[..i] + [s[i]] + s[i + 1..];
      }
    }
    if s != "" && AllDigits(s) {
      TwoHalves(s, "");
    }
    forall whole: string, fraction: string
      | s == whole + "." + fraction && whole != "" && fraction != "" && AllDigits(whole) && AllDigits(fraction)
      ensures IsDecimal(s)
    {
      TwoHalves(whole, fraction);
    }
  }

  lemma {:induction false} NatAppend(a: string, b: string)
    requires AllDigits(a) && AllDigits(b)
    ensures AllDigits(a + b) && NatOf(a + b) == NatOf(a) * Pow10(|b|) + NatOf(b)
    decreases |b|
  {
    if b == "" {
      assert a + b == a;
    } else {
      var front, p := b[..|b| - 1], Pow10(|b| - 1);
      NatAppend(a, front);
      assert (a + b)[..|a + b| - 1] == a + front;
      assert 10 * (NatOf(a) * p) == NatOf(a) * (10 * p);
    }
  }

  lemma Scaled(a: real, b: real, p: real)
    requires p > 0.0
    ensures (a + b / p) * p == a * p + b
  {
    var q := b / p;
    assert q * p == b;
    assert (a + q) * p == a * p + q * p;
  }

  lemma ScaledSum(a: nat, b: nat, p: nat, value: real, sum: nat)
    requires p > 0 && value == a as real + b as real / p as real && sum == a * p + b
    ensures value * p as real == sum as real
  {
    Scaled(a as real, b as real, p as real);
    assert (a * p) as real == a as real * p as real;
  }

  lemma HalvesValue(whole: string, fraction: string, s: string)
    requires AllDigits(whole) && AllDigits(fraction) && whole != "" && fraction != "" && s == whole + "." + fraction
    ensures IsDecimal(s)
    ensures Rational(s) == NatOf(whole) as real + NatOf(fraction) as real / Pow10(|fraction|) as real
  {
    TwoHalves(whole, fraction);
  }

  /** A number that has these digits with the point so many places from the right. */
  predicate Shifted(value: real, places: nat, digits: nat) {
    value * Pow10(places) as real == digits as real
  }

  lemma SumShifted(a: nat, b: nat, places: nat, value: real, sum: nat)
    requires value == a as real + b as real / Pow10(places) as real && sum == a * Pow10(places) + b
    ensures Shifted(value, places, sum)
  {
    ScaledSum(a, b, Pow10(places), value, sum);
  }

  lemma DigitsShift(whole: string, fraction: string, value: real)
    requires AllDigits(whole) && AllDigits(fraction)
    requires value == NatOf(whole) as real + NatOf(fraction) as real / Pow10(|fraction|) as real
    ensures AllDigits(whole + fraction) && Shifted(value, |fraction|, NatOf(whole + fraction))
  {
    NatAppend(whole, fraction);
    SumShifted(NatOf(whole), NatOf(fraction), |fraction|, value, NatOf(whole + fraction));
  }

  /** The value of decimal text is what its digits say, the point being where it is. */
  lemma PointShifts(whole: string, fraction: string, s: string)
    requires AllDigits(whole) && AllDigits(fraction) && whole != "" && fraction != "" && s == whole + "." + fraction
    ensures IsDecimal(s) && AllDigits(whole + fraction) && Shifted(Rational(s), |fraction|, NatOf(whole + fraction))
  {
    HalvesValue(whole, fraction, s);
    DigitsShift(whole, fraction, Rational(s));
  }
}
