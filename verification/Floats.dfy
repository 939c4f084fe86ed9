/** Rounding to 32-bit floating-point numbers, of which 24 bits are significant; half way between
    two of them, to the even one. Values are not negative and below the largest float. */
module Floats {

  const TWO_TO_23 := 8388608.0
  const TWO_TO_24 := 16777216.0

  function Fraction(x: real): real { x - x.Floor as real }

  function RoundHalfEven(x: real): int {
    if Fraction(x) < 0.5 || (Fraction(x) == 0.5 && x.Floor % 2 == 0) then x.Floor else x.Floor + 1
  }

  // Rounding does not pass a whole number, and reaches it from half way on if it is even, from
  // past half way on if it is odd.
  lemma RoundReaches(x: real, n: int)
    requires x <= n as real
    ensures RoundHalfEven(x) <= n
    ensures RoundHalfEven(x) == n <==> n as real - x < 0.5 || (n as real - x == 0.5 && n % 2 == 0)
  {
    assert x.Floor <= n;
    if x.Floor < n - 1 {
      assert x < (n - 1) as real;
    } else if x.Floor == n - 1 {
      assert n as real - x == 1.0 - Fraction(x);
    }
  }

  // Doubles until all 24 bits are before the point, rounds there, and halves as often; `k` bounds
  // the doublings, as 2^-149 is the finest spacing there is.
  function Scaled(x: real, k: nat): (y: real)
    requires 0.0 <= x < TWO_TO_24
    ensures 0.0 <= y
    decreases k
  {
    if k == 0 || x >= TWO_TO_23 then RoundHalfEven(x) as real else Scaled(2.0 * x, k - 1) / 2.0
  }

  function Float(x: real): (y: real)
    requires 0.0 <= x
    ensures 0.0 <= y
    decreases x.Floor
  {
    if x >= TWO_TO_24 then 2.0 * Float(x / 2.0) else Scaled(x, 149)
  }

  // The distance between neighbouring floats around x.
  function Spacing(x: real, k: nat): real
    requires 0.0 <= x < TWO_TO_24
    decreases k
  {
    if k == 0 || x >= TWO_TO_23 then 1.0 else Spacing(2.0 * x, k - 1) / 2.0
  }

  function Ulp(x: real): real
    requires 0.0 <= x
    decreases x.Floor
  {
    if x >= TWO_TO_24 then 2.0 * Ulp(x / 2.0) else Spacing(x, 149)
  }

  // The same for floats, with half a spacing for half a unit.
  lemma {:induction false} ScaledReaches(x: real, k: nat, n: int)
    requires 0.0 <= x < TWO_TO_24 && x <= n as real
    ensures 0.0 < Spacing(x, k) <= 1.0 && Scaled(x, k) <= n as real
    ensures Scaled(x, k) == n as real <==>
              || n as real - x < Spacing(x, k) / 2.0
              || (n as real - x == Spacing(x, k) / 2.0 && (Spacing(x, k) < 1.0 || n % 2 == 0))
    decreases k
  {
    if k == 0 || x >= TWO_TO_23 {
      RoundReaches(x, n);
    } else {
      assert (2 * n) as real == 2.0 * n as real;
      ScaledReaches(2.0 * x, k - 1, 2 * n);
    }
  }

  // The spacing that no doubling refines further.
  function Finest(k: nat): real { if k == 0 then 1.0 else Finest(k - 1) / 2.0 }

  function Times(m: int, unit: real): real { m as real * unit }

  lemma TimesHalf(m: int, unit: real)
    ensures Times(m, unit / 2.0) == Times(m, unit) / 2.0
  {
  }

  // The result is a multiple of the spacing.
  lemma {:induction false} ScaledIsMultiple(x: real, k: nat) returns (m: int)
    requires 0.0 <= x < TWO_TO_24
    ensures Scaled(x, k) == Times(m, Spacing(x, k))
    decreases k
  {
    if k == 0 || x >= TWO_TO_23 {
      m := RoundHalfEven(x);
    } else {
      m := ScaledIsMultiple(2.0 * x, k - 1);
      TimesHalf(m, Spacing(2.0 * x, k - 1));
    }
  }

  // It is no further away than half the spacing, which leaves x 24 bits, or is the finest.
  lemma {:induction false} ScaledIsNear(x: real, k: nat)
    requires 0.0 <= x < TWO_TO_24
    ensures -Spacing(x, k) / 2.0 <= Scaled(x, k) - x <= Spacing(x, k) / 2.0
    ensures x < TWO_TO_24 * Spacing(x, k)
    ensures TWO_TO_23 * Spacing(x, k) <= x || Spacing(x, k) == Finest(k)
    decreases k
  {
    if k > 0 && x < TWO_TO_23 {
      ScaledIsNear(2.0 * x, k - 1);
    }
  }

  // What Float is: a nearest multiple of a spacing that leaves 24 bits.
  lemma {:induction false} FloatIsNearest(x: real)
    requires 0.0 <= x
    ensures -Ulp(x) / 2.0 <= Float(x) - x <= Ulp(x) / 2.0
    ensures x < TWO_TO_24 * Ulp(x) && (TWO_TO_23 * Ulp(x) <= x || Ulp(x) == Finest(149))
    ensures exists m :: Float(x) == Times(m, Ulp(x))
    decreases x.Floor
  {
    if x >= TWO_TO_24 {
      FloatIsNearest(x / 2.0);
      var m :| Float(x / 2.0) == Times(m, Ulp(x / 2.0));
      TimesHalf(m, Ulp(x));
      FinestIsFine(149);
    } else {
      ScaledIsNear(x, 149);
      var m := ScaledIsMultiple(x, 149);
    }
  }

  lemma {:induction false} FinestIsFine(k: nat)
    ensures 0.0 < Finest(k) <= 1.0
  {
    if k > 0 { FinestIsFine(k - 1); }
  }

  // ---- When a float is at least some bound ----

  function Ceiling(x: real): int { -(-x).Floor }

  // x is within half a unit of the first multiple of the unit that is at least `bound`; just half
  // is enough if that multiple is even.
  predicate RoundsUpTo(x: real, bound: real, unit: real)
    requires 0.0 < unit
  {
    var n := Ceiling(bound / unit);
    Times(n, unit) - x < unit / 2.0 || (Times(n, unit) - x == unit / 2.0 && n % 2 == 0)
  }

  lemma WholeRoundsUpTo(x: real, bound: real)
    ensures RoundHalfEven(x) as real >= bound <==> RoundsUpTo(x, bound, 1.0)
  {
    var n := Ceiling(bound);
    assert RoundHalfEven(x) as real >= bound <==> RoundHalfEven(x) >= n;
    assert Times(n, 1.0) == n as real;
    if RoundHalfEven(x) >= n {
      assert n as real - x <= 0.5;
    }
  }

  lemma RoundsUpToScales(x: real, bound: real, unit: real)
    requires 0.0 < unit
    ensures RoundsUpTo(2.0 * x, 2.0 * bound, unit) <==> RoundsUpTo(x, bound, unit / 2.0)
  {
    QuotientScales(bound, unit);
    TimesHalf(Ceiling(2.0 * bound / unit), unit);
  }

  lemma QuotientScales(bound: real, unit: real)
    requires 0.0 < unit
    ensures 2.0 * bound / unit == bound / (unit / 2.0)
  {
  }

  lemma {:induction false} ScaledReachesBound(x: real, k: nat, bound: real)
    requires 0.0 <= x < TWO_TO_24
    ensures 0.0 < Spacing(x, k)
    ensures Scaled(x, k) >= bound <==> RoundsUpTo(x, bound, Spacing(x, k))
    decreases k
  {
    if k == 0 || x >= TWO_TO_23 {
      WholeRoundsUpTo(x, bound);
    } else {
      ScaledReachesBound(2.0 * x, k - 1, 2.0 * bound);
      RoundsUpToScales(x, bound, Spacing(2.0 * x, k - 1));
    }
  }

  // A float reaches a bound exactly if the number it is rounded from does up to half a spacing.
  lemma {:induction false} FloatReachesBound(x: real, bound: real)
    requires 0.0 <= x
    ensures 0.0 < Ulp(x)
    ensures Float(x) >= bound <==> RoundsUpTo(x, bound, Ulp(x))
    decreases x.Floor
  {
    if x >= TWO_TO_24 {
      FloatReachesBound(x / 2.0, bound / 2.0);
      RoundsUpToScales(x / 2.0, bound / 2.0, Ulp(x));
    } else {
      ScaledReachesBound(x, 149, bound);
    }
  }

  // ---- Whole numbers and halves ----

  lemma FloatBelowWhole(x: real, n: int)
    requires 0.0 <= x <= n as real <= TWO_TO_24
    ensures Float(x) <= n as real
  {
    if x < TWO_TO_24 {
      ScaledReaches(x, 149, n);
    } else {
      ScaledReaches(x / 2.0, 149, 0x80_0000);
    }
  }

  // The same for a half, where both neighbours of an odd number of halves are closer than that.
  lemma FloatReachesHalf(x: real, n: int)
    requires 0.0 <= x <= n as real + 0.5 && x < TWO_TO_23
    ensures Float(x) <= n as real + 0.5
    ensures Float(x) == n as real + 0.5 <==>
              || n as real + 0.5 - x < Ulp(x) / 2.0
              || (n as real + 0.5 - x == Ulp(x) / 2.0 && Ulp(x) < 0.5)
  {
    assert (2 * n + 1) as real == 2.0 * (n as real + 0.5);
    ScaledReaches(2.0 * x, 148, 2 * n + 1);
  }

  lemma FloatOfWhole(n: nat)
    requires n as real < TWO_TO_24
    ensures Float(n as real) == n as real
  {
    ScaledReaches(n as real, 149, n);
  }
}
