/** Earnings from an hourly rate (backend `app/utils/money.py`) and the two
    rounding rules the system uses: Python `round` on the server, JavaScript
    `Math.round` in the browser. Both are modelled on exact rationals `n / d`. */
module Money {
  import opened Arith

  const SecondsPerHour: int := 3600

  /** `n / d` rounded to the nearest integer, ties going to the even neighbour
      (Python's `round`). The two ensures determine the result uniquely
      (see `RoundHalfEvenUnique`). */
  function RoundHalfEven(n: int, d: int): (q: int)
    requires d > 0
    ensures 2 * Abs(n - q * d) <= d
    ensures 2 * Abs(n - q * d) == d ==> q % 2 == 0
  {
    var f := n / d;
    var rem := n % d;
    DivMod(n, d);
    assert (f + 1) * d == f * d + d;
    if 2 * rem < d then f
    else if 2 * rem > d then f + 1
    else if f % 2 == 0 then f
    else f + 1
  }

  /** `n / d` rounded to the nearest integer, ties going up (JavaScript's
      `Math.round`, that is `floor(x + 1/2)`). */
  function RoundHalfUp(n: int, d: int): (q: int)
    requires d > 0
    ensures -d <= 2 * (n - q * d) < d
  {
    var q := (2 * n + d) / (2 * d);
    DivMod(2 * n + d, 2 * d);
    assert q * (2 * d) == 2 * (q * d);
    q
  }

  /** Only one integer is within half of `n / d` with ties broken towards even. */
  lemma RoundHalfEvenUnique(n: int, d: int, q: int)
    requires d > 0
    requires 2 * Abs(n - q * d) <= d
    requires 2 * Abs(n - q * d) == d ==> q % 2 == 0
    ensures q == RoundHalfEven(n, d)
  {
    var p := RoundHalfEven(n, d);
    if q < p {
      MulStep(q, p, d);
    } else if p < q {
      MulStep(p, q, d);
    }
  }

  /** Rounding preserves order: a larger numerator never rounds lower. */
  lemma RoundHalfEvenMonotone(n1: int, n2: int, d: int)
    requires d > 0 && n1 <= n2
    ensures RoundHalfEven(n1, d) <= RoundHalfEven(n2, d)
  {
    var q1 := RoundHalfEven(n1, d);
    var q2 := RoundHalfEven(n2, d);
    if q2 < q1 {
      MulStep(q2, q1, d);
    }
  }

  /** `cents_from_hourly_rate`: the pay, in cents, for `seconds` of work at
      `ratePerHourCents`; 0 for no time, otherwise `rate * seconds / 3600`
      rounded half-to-even. */
  function CentsFromHourlyRate(ratePerHourCents: int, seconds: int): (cents: int)
    ensures seconds <= 0 ==> cents == 0
    ensures seconds > 0 ==>
              2 * Abs(ratePerHourCents * seconds - cents * SecondsPerHour) <= SecondsPerHour
    ensures seconds > 0 ==>
              (2 * Abs(ratePerHourCents * seconds - cents * SecondsPerHour) == SecondsPerHour
               ==> cents % 2 == 0)
  {
    if seconds <= 0 then 0
    else RoundHalfEven(ratePerHourCents * seconds, SecondsPerHour)
  }

  /** A whole number of hours earns exactly the rate times the hours. */
  lemma CentsForWholeHours(ratePerHourCents: int, hours: int)
    requires hours > 0
    ensures CentsFromHourlyRate(ratePerHourCents, hours * SecondsPerHour) == ratePerHourCents * hours
  {
    var n := ratePerHourCents * (hours * SecondsPerHour);
    assert n - (ratePerHourCents * hours) * SecondsPerHour == 0;
    RoundHalfEvenUnique(n, SecondsPerHour, ratePerHourCents * hours);
  }

  /** The pinned values: one hour and half an hour at 3500, a fraction of a cent
      rounding up, and a half-cent tie rounding to even. */
  lemma CentsExamples()
    ensures CentsFromHourlyRate(3500, 3600) == 3500
    ensures CentsFromHourlyRate(3500, 1800) == 1750
    ensures CentsFromHourlyRate(3333, 1) == 1
    ensures CentsFromHourlyRate(1, 1800) == 0
    ensures CentsFromHourlyRate(1, 5400) == 2
  {
    RoundHalfEvenUnique(3500 * 3600, 3600, 3500);
    RoundHalfEvenUnique(3500 * 1800, 3600, 1750);
    RoundHalfEvenUnique(3333, 3600, 1);
    RoundHalfEvenUnique(1800, 3600, 0);
    RoundHalfEvenUnique(5400, 3600, 2);
  }

  /** A non-negative rate never earns a negative amount. */
  lemma CentsNonNegative(ratePerHourCents: int, seconds: int)
    requires ratePerHourCents >= 0
    ensures CentsFromHourlyRate(ratePerHourCents, seconds) >= 0
  {
    if seconds > 0 {
      RoundHalfEvenMonotone(0, ratePerHourCents * seconds, SecondsPerHour);
      RoundHalfEvenUnique(0, SecondsPerHour, 0);
    }
  }

  /** At a non-negative rate, more time never earns less. */
  lemma CentsMonotone(ratePerHourCents: int, s1: int, s2: int)
    requires ratePerHourCents >= 0 && s1 <= s2
    ensures CentsFromHourlyRate(ratePerHourCents, s1) <= CentsFromHourlyRate(ratePerHourCents, s2)
  {
    CentsNonNegative(ratePerHourCents, s2);
    if s1 > 0 {
      var n1, n2 := ratePerHourCents * s1, ratePerHourCents * s2;
      MulMonotone(ratePerHourCents, s1, s2);
      RoundHalfEvenMonotone(n1, n2, SecondsPerHour);
    }
  }

  /** Browser and server rounding agree except on an exact tie whose upper
      neighbour is odd, where `Math.round` gives one more than Python's `round`. */
  lemma HalfUpVersusHalfEven(n: int, d: int)
    requires d > 0
    ensures var up := RoundHalfUp(n, d);
            var even := RoundHalfEven(n, d);
            && (up == even || up == even + 1)
            && (up == even + 1 <==> 2 * (up * d - n) == d && up % 2 != 0)
  {
    var up := RoundHalfUp(n, d);
    if 2 * (up * d - n) == d && up % 2 != 0 {
      assert (up - 1) * d == up * d - d;
      RoundHalfEvenUnique(n, d, up - 1);
    } else {
      RoundHalfEvenUnique(n, d, up);
    }
  }
}
