/**
 * The arithmetic of `calculate_price_gmp_listing` (backend/formatter.py):
 * the digit-splitting price heuristic and the grey-market premium, with
 * Python's `round` on exact reals.
 */
module Pricing {
  import opened Wrappers
  import opened Text

  /** Python's `round(x)`: nearest integer, ties to the even neighbour. */
  function RoundHalfEven(x: real): (n: int)
    ensures x - 0.5 <= n as real <= x + 0.5
    ensures n as real == x - 0.5 || n as real == x + 0.5 ==> n % 2 == 0
  {
    var f := x.Floor;
    var frac := x - f as real;
    if frac < 0.5 then f
    else if frac > 0.5 then f + 1
    else if f % 2 == 0 then f else f + 1
  }

  /** Python's `round(x, 2)`, taken on exact reals (binary floating point is not modelled). */
  function Round2(x: real): (r: real)
    ensures x - 0.005 <= r <= x + 0.005
    ensures x >= 0.0 ==> r >= 0.0
    ensures r == 0.0 <==> -0.005 <= x <= 0.005
    ensures (r * 100.0).Floor as real == r * 100.0
  {
    RoundHalfEven(x * 100.0) as real / 100.0
  }

  /** `amount * (percentage / 100)`. */
  function PercentOf(amount: real, percentage: real): real {
    amount * (percentage / 100.0)
  }

  /** `round(price * (percentage / 100), 2)`. */
  function Premium(price: nat, percentage: real): (gmp: real)
    ensures PercentOf(price as real, percentage) - 0.005 <= gmp <= PercentOf(price as real, percentage) + 0.005
    ensures (gmp * 100.0).Floor as real == gmp * 100.0
  {
    Round2(PercentOf(price as real, percentage))
  }

  /** A non-negative percentage gives a non-negative premium. */
  lemma PremiumNonNegative(price: nat, percentage: real)
    requires percentage >= 0.0
    ensures Premium(price, percentage) >= 0.0
  {
    var rate := percentage / 100.0;
    assert rate >= 0.0;
    assert PercentOf(price as real, percentage) == price as real * rate >= 0.0;
  }

  /** The price and grey-market premium carried from line to line. */
  datatype Quote = Quote(price: nat, gmp: real)

  /** Why a line's record is dropped: the exception that escapes the per-line body. */
  datatype Drop =
    | InvalidFloat      // ValueError from float(...)
    | EmptyPriceDigits  // ValueError from int('')
    | PriceUnbound      // UnboundLocalError: no line has set `price` yet
    | ZeroPrice         // ZeroDivisionError from 15000/price

  function Min(a: int, b: int): int { if a <= b then a else b }

  /** `min(round(len / 3), 3)`: how many leading digits make the price. */
  function SplitPoint(len: nat): (split: nat)
    ensures split <= len && split <= 3
  {
    var r := RoundHalfEven(len as real / 3.0);
    assert r >= 0;
    Min(r, 3)
  }

  /** len/3 is never halfway between integers, so the rounding is `(len + 1) div 3`. */
  lemma SplitPointFormula(len: nat)
    ensures SplitPoint(len) == Min((len + 1) / 3, 3)
    ensures SplitPoint(len) <= len
    ensures len >= 2 ==> SplitPoint(len) >= 1
  {
    var q, m := len / 3, len % 3;
    var x := len as real / 3.0;
    assert x == q as real + m as real / 3.0;
    assert x.Floor == q;
    var r := RoundHalfEven(x);
    if m == 2 {
      assert r == q + 1;
    } else {
      assert r == q;
    }
    assert r == (len + 1) / 3;
  }

  /**
   * `calculate_price_gmp_listing(num_str, percentage)`: the price is the value
   * of the first `SplitPoint` digits, re-read from one digit fewer when above
   * 4000, and the premium is `round(price * (percentage / 100), 2)`.
   */
  function PriceAndGmp(numStr: string, percentage: real): (r: Result<Quote, Drop>)
    requires AllDigits(numStr)
    ensures r.Ok? ==> r.value.gmp == Premium(r.value.price, percentage)
    ensures r.Err? ==> r.error == EmptyPriceDigits
  {
    var split := SplitPoint(|numStr|);
    if split == 0 then Err(EmptyPriceDigits)
    else
      var first := DigitsValue(numStr[..split]);
      var price :=
        if first > 4000 then
          (if split == 1 then Err(EmptyPriceDigits) else Ok(DigitsValue(numStr[..split - 1])))
        else Ok(first);
      match price
      case Err(e) => Err(e)
      case Ok(p) => Ok(Quote(p, Premium(p, percentage)))
  }

  /** At most three digits are read, so the price is at most 999. */
  lemma PriceAtMost999(numStr: string)
    requires AllDigits(numStr)
    ensures DigitsValue(numStr[..SplitPoint(|numStr|)]) <= 999
  {
    SplitPointFormula(|numStr|);
    var split := SplitPoint(|numStr|);
    DigitsValueBound(numStr[..split]);
    assert Pow10(split) <= 1000 by {
      assert Pow10(0) == 1 && Pow10(1) == 10 && Pow10(2) == 100 && Pow10(3) == 1000;
    }
  }

  /**
   * The outcome of the price heuristic in closed form: a one-digit run raises
   * on `int('')`; otherwise the price is the value of the first
   * `min((len + 1) div 3, 3)` digits, never above 999, so the `> 4000`
   * correction never applies.
   */
  lemma PriceAndGmpOutcome(numStr: string, percentage: real)
    requires AllDigits(numStr)
    ensures |numStr| <= 1 ==> PriceAndGmp(numStr, percentage) == Err(EmptyPriceDigits)
    ensures |numStr| >= 2 ==>
      var p := DigitsValue(numStr[..Min((|numStr| + 1) / 3, 3)]);
      p <= 999 && PriceAndGmp(numStr, percentage) == Ok(Quote(p, Premium(p, percentage)))
  {
    SplitPointFormula(|numStr|);
    PriceAtMost999(numStr);
  }

  /** A run of two or three digits is not read whole: only its first digit is the price. */
  lemma ShortRunFirstDigit(numStr: string, percentage: real)
    requires AllDigits(numStr) && 2 <= |numStr| <= 3
    ensures PriceAndGmp(numStr, percentage).Ok?
    ensures PriceAndGmp(numStr, percentage).value.price == DigitsValue(numStr[..1])
  {
    PriceAndGmpOutcome(numStr, percentage);
  }

  /** The premium has the sign of the percentage and is absent (zero) only for tiny products. */
  lemma GmpZeroIff(numStr: string, percentage: real)
    requires AllDigits(numStr) && percentage >= 0.0
    requires PriceAndGmp(numStr, percentage).Ok?
    ensures var q := PriceAndGmp(numStr, percentage).value;
      q.gmp >= 0.0 && (q.gmp == 0.0 <==> q.price as real * percentage <= 0.5)
  {
    var q := PriceAndGmp(numStr, percentage).value;
    PremiumNonNegative(q.price, percentage);
    assert PercentOf(q.price as real, percentage) == q.price as real * percentage / 100.0;
  }

  /** The sample token `120 (10%)`: three digits give a one-digit price. */
  lemma PriceExampleThreeDigits()
    ensures PriceAndGmp("120", 10.0) == Ok(Quote(1, 0.1))
  {
    PriceAndGmpOutcome("120", 10.0);
    assert "120"[..1] == "1";
    assert RoundHalfEven(10.0) == 10;
  }

  /** `12--00 (10%)` reads as `120000`: the price is 12. */
  lemma PriceExampleDashes()
    ensures Replace("12--00", "--", "00") == "120000"
    ensures PriceAndGmp("120000", 10.0) == Ok(Quote(12, 1.2))
  {
    DashesBecomeZeros("12", "00");
    assert "12--00" == "12" + "--" + "00";
    assert "12" + "00" + "00" == "120000";
    PriceExampleSixDigits();
  }

  /** Six digits give a two-digit price: `120000` at 10% is price 12, GMP 1.2. */
  lemma PriceExampleSixDigits()
    ensures PriceAndGmp("120000", 10.0) == Ok(Quote(12, 1.2))
  {
    PriceAndGmpOutcome("120000", 10.0);
    assert "120000"[..2] == "12";
    assert DigitsValue("12") == 12 by { assert "12"[..1] == "1"; }
    assert Premium(12, 10.0) == 1.2 by {
      assert PercentOf(12.0, 10.0) == 1.2;
      assert RoundHalfEven(120.0) == 120;
    }
  }

  /** A one-digit run makes `int('')` raise. */
  lemma PriceExampleOneDigit()
    ensures PriceAndGmp("7", 10.0) == Err(EmptyPriceDigits)
  {
    PriceAndGmpOutcome("7", 10.0);
  }
}
