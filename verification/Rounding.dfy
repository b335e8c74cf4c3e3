/** Rounding to cents, over the reals: `Math.round` takes halves upwards. */
module Rounding {

  /** `Number.EPSILON` */
  const EPSILON: real := 1.0 / 4503599627370496.0

  function Round(x: real): int {
    (x + 0.5).Floor
  }

  function Cents(x: real): real {
    Round(x * 100.0) as real / 100.0
  }

  lemma RoundMonotone(x: real, y: real)
    requires x <= y
    ensures Round(x) <= Round(y)
  {
    assert (x + 0.5).Floor as real <= x + 0.5 && y + 0.5 < (y + 0.5).Floor as real + 1.0;
  }

  lemma CentsMonotone(x: real, y: real)
    requires x <= y
    ensures Cents(x) <= Cents(y)
  {
    RoundMonotone(x * 100.0, y * 100.0);
  }

  /** Rounding moves a number by half a cent at most, and not at all when it is a number of cents. */
  lemma CentsNear(x: real)
    ensures x - 0.005 < Cents(x) <= x + 0.005
    ensures x * 100.0 == (x * 100.0).Floor as real ==> Cents(x) == x
  {
    if x * 100.0 == (x * 100.0).Floor as real {
      assert (x * 100.0 + 0.5).Floor == (x * 100.0).Floor;
    }
  }

  lemma CentsSign(x: real)
    ensures Cents(x) <= 0.0 <==> x < 0.005
    ensures x >= 0.0 ==> Cents(x) >= 0.0
  {
    if x < 0.005 { assert x * 100.0 + 0.5 < 1.0; }
  }
}
