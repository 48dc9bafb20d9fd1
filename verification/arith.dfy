/** Integer facts the money and time computations lean on. */
module Arith {

  function Abs(x: int): nat {
    if x < 0 then -x else x
  }

  /** Euclidean division by a positive divisor: the quotient is the floor and
      the remainder lies in `[0, d)`. */
  lemma DivMod(a: int, d: int)
    requires d > 0
    ensures a == (a / d) * d + a % d
    ensures 0 <= a % d < d
    ensures (a / d) * d <= a < (a / d) * d + d
  {
    assert a == d * (a / d) + a % d;
  }

  /** Multiplying by a positive factor preserves the order of integers, spaced by at least that factor. */
  lemma MulStep(q1: int, q2: int, d: int)
    requires d > 0 && q1 < q2
    ensures q1 * d + d <= q2 * d
    ensures q2 == q1 + 1 ==> q2 * d == q1 * d + d
    ensures q2 > q1 + 1 ==> q1 * d + 2 * d <= q2 * d
  {
    var k := q2 - q1;
    assert q2 * d == q1 * d + k * d;
    MulAtLeast(k, d);
  }

  lemma {:induction false} MulAtLeast(k: nat, d: int)
    requires d > 0
    ensures k * d >= 0
    ensures k >= 1 ==> k * d >= d
    ensures k >= 2 ==> k * d >= 2 * d
  {
    if k > 0 {
      MulAtLeast(k - 1, d);
      assert k * d == (k - 1) * d + d;
    }
  }

  /** Multiplying by a non-negative factor preserves order. */
  lemma MulMonotone(a: int, b: int, c: int)
    requires a >= 0 && b <= c
    ensures a * b <= a * c
  {
    var k := c - b;
    assert a * c == a * b + a * k;
  }
}
