/**
 The percentage late fee: amount_due * percent / 100, quantized to whole cents.
 Amounts are integer cents and percents integer hundredths, so the exact fee is
 cents * hundredths / 10000. `Decimal.quantize` rounds half to even.
 */
module LateFee {

  /** The nearest integer to num / den, ties going to the even neighbour. */
  function RoundHalfEven(num: nat, den: nat): nat
    requires den > 0
  {
    var q := num / den;
    var twice := 2 * (num % den);
    if twice < den then q
    else if twice > den then q + 1
    else if q % 2 == 0 then q
    else q + 1
  }

  /** What "nearest, ties to even" means, without saying how to compute it. */
  ghost predicate IsHalfEven(num: nat, den: int, q: int)
    requires den > 0
  {
    && -den <= 2 * (num - q * den) <= den
    && (2 * (num - q * den) == den || 2 * (num - q * den) == -den ==> q % 2 == 0)
  }

  /** Multiplying a strict integer inequality by a positive denominator. */
  lemma StrictMultiple(a: int, b: int, den: int)
    requires den > 0 && a < b
    ensures a * den + den <= b * den
  {
    var k := b - a - 1;
    assert k * den >= 0;
    assert b == a + 1 + k;
  }

  lemma HalfEvenUnique(num: nat, den: nat, p: int, q: int)
    requires den > 0 && IsHalfEven(num, den, p) && IsHalfEven(num, den, q)
    ensures p == q
  {
    if p < q {
      StrictMultiple(p, q, den);
      if p + 1 < q { StrictMultiple(p + 1, q, den); }
    } else if q < p {
      StrictMultiple(q, p, den);
      if q + 1 < p { StrictMultiple(q + 1, p, den); }
    }
  }

  lemma RoundHalfEvenNearest(num: nat, den: nat)
    requires den > 0
    ensures IsHalfEven(num, den, RoundHalfEven(num, den))
  {
    var q, r := num / den, num % den;
    assert num == q * den + r;
    assert (q + 1) * den == q * den + den;
  }

  /** RoundHalfEven is the one and only integer that is nearest with ties to even. */
  lemma RoundHalfEvenMeaning(num: nat, den: nat, q: int)
    requires den > 0
    ensures IsHalfEven(num, den, q) <==> q == RoundHalfEven(num, den)
  {
    RoundHalfEvenNearest(num, den);
    if IsHalfEven(num, den, q) {
      HalfEvenUnique(num, den, q, RoundHalfEven(num, den));
    }
  }

  lemma RoundHalfEvenMonotone(a: nat, b: nat, den: nat)
    requires den > 0 && a <= b
    ensures RoundHalfEven(a, den) <= RoundHalfEven(b, den)
  {
    var p, q := RoundHalfEven(a, den), RoundHalfEven(b, den);
    RoundHalfEvenMeaning(a, den, p);
    RoundHalfEvenMeaning(b, den, q);
    if q < p {
      StrictMultiple(q, p, den);
    }
  }

  /** The fee in cents for `cents` of rent at `hundredths` of a percent. */
  function PercentFee(cents: nat, hundredths: nat): nat {
    RoundHalfEven(cents * hundredths, 10000)
  }

  lemma PercentFeeNearest(cents: nat, hundredths: nat)
    ensures var fee := PercentFee(cents, hundredths);
            && -5000 <= cents * hundredths - 10000 * fee <= 5000
            && (cents * hundredths - 10000 * fee in {-5000, 5000} ==> fee % 2 == 0)
  {
    RoundHalfEvenMeaning(cents * hundredths, 10000, PercentFee(cents, hundredths));
  }

  lemma PercentFeeMonotone(cents: nat, cents': nat, hundredths: nat, hundredths': nat)
    requires cents <= cents' && hundredths <= hundredths'
    ensures PercentFee(cents, hundredths) <= PercentFee(cents', hundredths')
  {
    assert cents * hundredths <= cents' * hundredths' by {
      assert cents * hundredths <= cents * hundredths' by { assert cents * (hundredths' - hundredths) >= 0; }
      assert cents * hundredths' <= cents' * hundredths' by { assert (cents' - cents) * hundredths' >= 0; }
    }
    RoundHalfEvenMonotone(cents * hundredths, cents' * hundredths', 10000);
  }

  /** A fee of at most 100% never exceeds the rent it is charged on. */
  lemma PercentFeeWithinRent(cents: nat, hundredths: nat)
    requires hundredths <= 10000
    ensures PercentFee(cents, hundredths) <= cents
  {
    PercentFeeMonotone(cents, cents, hundredths, 10000);
    RoundHalfEvenMeaning(cents * 10000, 10000, cents);
  }

  /** The fee rounds to something chargeable exactly above half a cent. */
  lemma PercentFeePositive(cents: nat, hundredths: nat)
    ensures PercentFee(cents, hundredths) > 0 <==> cents * hundredths > 5000
  {
    var fee := PercentFee(cents, hundredths);
    RoundHalfEvenMeaning(cents * hundredths, 10000, fee);
    RoundHalfEvenMeaning(cents * hundredths, 10000, 0);
  }
}
