// Which numbers are finite doubles, and which double an integer becomes.
module Doubles {
  const TWO_TO_53: int := 9_007_199_254_740_992

  function Pow2(e: nat): (p: nat)
    ensures p > 0
  {
    if e == 0 then 1 else 2 * Pow2(e - 1)
  }

  // binary64 of IEEE 754: 53 bits and an exponent.
  predicate IsScaled(x: real, m: int, e: int) {
    && -TWO_TO_53 < m < TWO_TO_53 && -1074 <= e <= 971
    && if e >= 0 then x == (m * Pow2(e)) as real else x * Pow2(-e) as real == m as real
  }

  ghost predicate IsDouble(x: real) {
    exists m, e :: IsScaled(x, m, e)
  }

  lemma SmallIsDouble(n: int)
    requires -TWO_TO_53 <= n <= TWO_TO_53
    ensures IsDouble(n as real)
  {
    if n == TWO_TO_53 || n == -TWO_TO_53 {
      assert Pow2(1) == 2 * Pow2(0);
      assert IsScaled(n as real, n / 2, 1);
    } else {
      assert IsScaled(n as real, n, 0);
    }
  }

  // The next number after 2^53 is none: the one after it is even.
  lemma BigOddIsNoDouble()
    ensures !IsDouble((TWO_TO_53 + 1) as real)
  {
    var n := TWO_TO_53 + 1;
    if IsDouble(n as real) {
      var m, e :| IsScaled(n as real, m, e);
      if e > 0 {
        ScaledIsEven(n, m, e);
      } else if e < 0 {
        IntegerIsUnscaled(n, m, -e);
      }
      assert false;
    }
  }

  lemma ScaledIsEven(n: int, m: int, e: nat)
    requires e > 0 && IsScaled(n as real, m, e)
    ensures n % 2 == 0
  {
    assert m * Pow2(e) == 2 * (m * Pow2(e - 1));
  }

  lemma IntegerIsUnscaled(n: nat, m: int, k: nat)
    requires n as real * Pow2(k) as real == m as real
    ensures n <= m
  {
    assert (n * Pow2(k)) as real == n as real * Pow2(k) as real;
    MulAtLeast(n, Pow2(k));
  }

  lemma MulAtLeast(n: nat, p: nat)
    requires p > 0
    ensures n * p >= n
  {
  }

  // ------------------------------------------------------- rounding

  // The nearest multiple of a unit, a tie going to the even one.
  function Nearest(n: nat, unit: nat): nat
    requires unit > 0
  {
    var q, r := n / unit, n % unit;
    (if 2 * r > unit || (2 * r == unit && q % 2 == 1) then q + 1 else q) * unit
  }

  // Rounding to 53 bits, in the smallest unit that is enough.
  function RoundFrom(n: nat, unit: nat): nat
    requires unit > 0
    decreases n - unit
  {
    if n < TWO_TO_53 * unit then Nearest(n, unit) else RoundFrom(n, 2 * unit)
  }

  function Round(n: int): int {
    if n < 0 then 0 - RoundFrom(-n, 1) else RoundFrom(n, 1)
  }

  lemma {:induction false} NextMultiple(a: nat, b: nat, unit: nat)
    requires a < b
    ensures a * unit + unit <= b * unit
  {
    assert b * unit == (b - 1) * unit + unit;
    if a < b - 1 {
      NextMultiple(a, b - 1, unit);
    }
  }

  lemma SameMultiple(a: nat, q: nat, r: nat, unit: nat)
    requires a * unit == q * unit + r && r < unit
    ensures a == q && r == 0
  {
    if a > q {
      NextMultiple(q, a, unit);
    } else if a < q {
      NextMultiple(a, q, unit);
    }
  }

  lemma MultipleIsNearest(a: nat, unit: nat)
    requires unit > 0
    ensures Nearest(a * unit, unit) == a * unit
  {
    var n := a * unit;
    assert n == (n / unit) * unit + n % unit;
    SameMultiple(a, n / unit, n % unit, unit);
  }

  lemma Regroup(m: nat, p: nat, unit: nat)
    ensures (m * (2 * p)) * unit == (m * p) * (2 * unit)
  {
    assert m * (2 * p) == 2 * (m * p);
    assert (2 * (m * p)) * unit == 2 * ((m * p) * unit);
  }

  // A multiple m * 2^e of the unit is not changed by rounding if m has 53 bits.
  lemma {:induction false} RoundKeepsScaled(m: nat, e: nat, unit: nat)
    requires m < TWO_TO_53 && unit > 0
    ensures RoundFrom((m * Pow2(e)) * unit, unit) == (m * Pow2(e)) * unit
  {
    if (m * Pow2(e)) * unit < TWO_TO_53 * unit {
      MultipleIsNearest(m * Pow2(e), unit);
    } else if e > 0 {
      Regroup(m, Pow2(e - 1), unit);
      RoundKeepsScaled(m, e - 1, 2 * unit);
    } else {
      assert m * Pow2(0) == m;
      NextMultiple(m, TWO_TO_53, unit);
    }
  }

  lemma NaturalDoubleIsExact(n: nat)
    requires IsDouble(n as real)
    ensures RoundFrom(n, 1) == n
  {
    var m, e :| IsScaled(n as real, m, e);
    if e < 0 {
      IntegerIsUnscaled(n, m, -e);
      MultipleIsNearest(n, 1);
    } else {
      assert n == m * Pow2(e);
      assert m >= 0;
      RoundKeepsScaled(m, e, 1);
    }
  }

  // An integer that is a double stays what it is.
  lemma DoubleIsExact(n: int)
    requires IsDouble(n as real)
    ensures Round(n) == n
  {
    if n < 0 {
      var m, e :| IsScaled(n as real, m, e);
      assert IsScaled((-n) as real, -m, e);
      NaturalDoubleIsExact(-n);
    } else {
      NaturalDoubleIsExact(n);
    }
  }

  // 2^53 + 1 is rounded down.
  lemma BigOddIsRounded()
    ensures Round(TWO_TO_53 + 1) == TWO_TO_53
  {
    var n := TWO_TO_53 + 1;
    assert RoundFrom(n, 1) == RoundFrom(n, 2) == Nearest(n, 2);
  }
}
