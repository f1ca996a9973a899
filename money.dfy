/** Rent amounts are whole cents; the rate of change is an exact rational
    number (positive to increase, negative to decrease). */
module Money {

  /** `rent * (1 + rate)`, in (fractional) cents. */
  function CalculateNewMonthlyRent(rentCents: int, rentChangeRate: real): (x: real)
    ensures rentChangeRate == 0.0 ==> x == rentCents as real
    ensures rentCents >= 0 && rentChangeRate > 0.0 ==> x >= rentCents as real
    ensures rentCents >= 0 && -1.0 <= rentChangeRate <= 0.0 ==> 0.0 <= x <= rentCents as real
  {
    var r := rentCents as real;
    assert r * (1.0 + rentChangeRate) == r + r * rentChangeRate;
    assert rentCents >= 0 && rentChangeRate > 0.0 ==> r * rentChangeRate >= 0.0;
    assert rentCents >= 0 && rentChangeRate <= 0.0 ==> r * rentChangeRate <= 0.0;
    assert rentCents >= 0 && -1.0 <= rentChangeRate ==> r * rentChangeRate >= -r;
    r * (1.0 + rentChangeRate)
  }

  /** Rounding of an amount in cents to whole cents, as
      `parseFloat(amount.toFixed(2))` does to an amount in currency units:
      to the nearest cent, a tie going away from zero. */
  function Round2(x: real): (n: int)
    ensures x >= 0.0 ==> (n as real) - 0.5 <= x < (n as real) + 0.5
    ensures x < 0.0 ==> (n as real) - 0.5 < x <= (n as real) + 0.5
  {
    if x >= 0.0 then (x + 0.5).Floor else -((-x + 0.5).Floor)
  }

  /** Rounding an amount that already is whole cents changes nothing. */
  lemma Round2OfWholeCents(c: int)
    ensures Round2(c as real) == c
  {
  }

  /** Rounding preserves order. */
  lemma Round2Monotone(x: real, y: real)
    requires x <= y
    ensures Round2(x) <= Round2(y)
  {
  }

  /** An amount between two whole-cent amounts rounds to an amount between them. */
  lemma Round2Between(lo: int, x: real, hi: int)
    requires lo as real <= x <= hi as real
    ensures lo <= Round2(x) <= hi
  {
  }
}
