/** Instants and whole-second durations (backend `app/utils/time.py`). */
module TimeUtil {
  import Arith

  /** A timezone-aware UTC datetime, as microseconds since 1970-01-01T00:00:00Z
      (the resolution of Python `datetime` and Postgres `timestamptz`). */
  type Instant = int

  const MicrosPerSecond: int := 1_000_000

  /** `max(0, seconds)`. */
  function ClampNonnegativeSeconds(seconds: int): (r: nat)
    ensures r >= seconds
    ensures seconds >= 0 ==> r == seconds
    ensures seconds < 0 ==> r == 0
  {
    if seconds < 0 then 0 else seconds
  }

  /** Clamping a clamped value changes nothing. */
  lemma ClampIdempotent(seconds: int)
    ensures ClampNonnegativeSeconds(ClampNonnegativeSeconds(seconds)) == ClampNonnegativeSeconds(seconds)
  {
  }

  /** Python `int(x / d)` for an exact quotient: division truncating toward zero
      (Dafny's own `/` is Euclidean and would floor negative numerators). */
  function TruncDiv(a: int, d: int): (q: int)
    requires d > 0
    ensures a >= 0 ==> 0 <= q * d <= a < q * d + d
    ensures a < 0 ==> q * d - d < a <= q * d <= 0
  {
    if a >= 0 then
      NonNegativeDiv(a, d);
      a / d
    else
      NonNegativeDiv(-a, d);
      assert (-((-a) / d)) * d == -(((-a) / d) * d);
      -((-a) / d)
  }

  /** The floor quotient of a non-negative number, times the divisor, lies
      within one divisor below it and is not negative. */
  lemma NonNegativeDiv(a: int, d: int)
    requires a >= 0 && d > 0
    ensures 0 <= (a / d) * d <= a < (a / d) * d + d
  {
    Arith.DivMod(a, d);
    if a / d < 0 {
      Arith.MulStep(a / d, 0, d);
    }
  }

  /** `int((ended_at - started_at).total_seconds())` clamped at zero: the whole
      seconds elapsed from `startedAt` to `endedAt`, or 0 when the end precedes the start. */
  function SecondsBetween(startedAt: Instant, endedAt: Instant): (r: nat)
    ensures endedAt <= startedAt ==> r == 0
    ensures endedAt >= startedAt ==>
              r * MicrosPerSecond <= endedAt - startedAt < (r + 1) * MicrosPerSecond
  {
    ClampNonnegativeSeconds(TruncDiv(endedAt - startedAt, MicrosPerSecond))
  }

  /** An entry that ends when it starts lasts zero seconds. */
  lemma SecondsBetweenSelf(t: Instant)
    ensures SecondsBetween(t, t) == 0
  {
  }

  /** A later end never shortens the duration. */
  lemma SecondsBetweenMonotone(startedAt: Instant, e1: Instant, e2: Instant)
    requires e1 <= e2
    ensures SecondsBetween(startedAt, e1) <= SecondsBetween(startedAt, e2)
  {
    var r1 := SecondsBetween(startedAt, e1);
    var r2 := SecondsBetween(startedAt, e2);
    if e1 > startedAt {
      assert r2 * MicrosPerSecond <= e2 - startedAt < (r2 + 1) * MicrosPerSecond;
    }
  }
}
