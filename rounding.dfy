/** `Float#round(2)` applied to an exact quotient of integers. The result is
    kept as an integer count of hundredths, so 1.33 is 133 and 66.67 is 6667. */
module Rounding {

  type Hundredths = int

  /** `r` hundredths is the nearest hundredth to num/den, a tie going to the
      larger magnitude: r - 1/2 <= 100 * num / den < r + 1/2 for a
      non-negative quotient. */
  ghost predicate NearestHundredth(r: Hundredths, num: nat, den: int)
    requires den > 0
  {
    den * (2 * r - 1) <= 200 * num < den * (2 * r + 1)
  }

  lemma DivBounds(x: int, y: int)
    requires x >= 0 && y > 0
    ensures y * (x / y) <= x < y * (x / y) + y
  {
  }

  /** Round half up of a non-negative quotient. */
  function RoundHalfUp(num: nat, den: int): (r: nat)
    requires den > 0
    ensures NearestHundredth(r, num, den)
  {
    DivBounds(200 * num + den, 2 * den);
    (200 * num + den) / (2 * den)
  }

  /** `(num.to_f / den).round(2)`: half away from zero, as Ruby rounds. */
  function Round2(num: int, den: int): (r: Hundredths)
    requires den > 0
    ensures num >= 0 ==> r >= 0 && NearestHundredth(r, num, den)
    ensures num < 0 ==> r <= 0 && NearestHundredth(-r, -num, den)
  {
    if num >= 0 then RoundHalfUp(num, den) else -(RoundHalfUp(-num, den) as int)
  }

  lemma MulCancel(a: int, x: int, y: int)
    requires a > 0 && a * x < a * y
    ensures x < y
  {
  }

  /** At most one hundredth is nearest: Round2 is the only possible answer. */
  lemma {:induction false} NearestIsUnique(r: int, r': int, num: nat, den: int)
    requires den > 0
    requires NearestHundredth(r, num, den) && NearestHundredth(r', num, den)
    ensures r == r'
  {
    MulCancel(den, 2 * r - 1, 2 * r' + 1);
    MulCancel(den, 2 * r' - 1, 2 * r + 1);
  }

  /** A ratio part/whole with 0 <= part <= whole, as a percentage, rounds
      into [0, 100]; it is 100 exactly when part == whole. */
  lemma {:induction false} PercentageBounds(part: nat, whole: int)
    requires 0 < whole && part <= whole
    ensures 0 <= Round2(100 * part, whole) <= 10000
    ensures part == whole ==> Round2(100 * part, whole) == 10000
  {
    var r := Round2(100 * part, whole);
    assert whole * (2 * r - 1) <= 200 * (100 * part);
    assert 200 * (100 * part) <= whole * 20000 by {
      assert 20000 * part <= 20000 * whole;
    }
    MulCancel(whole, 2 * r - 1, 20001);
    if part == whole {
      assert NearestHundredth(10000, 100 * part, whole);
      NearestIsUnique(r, 10000, 100 * part, whole);
    }
  }
}
