/** The integer square root the liquidity tests use to predict the first
    mint: Newton's iteration on unbounded naturals, started from the guess
    `value / 2 + 1`, stopped as soon as the iterate no longer decreases. */
module NewtonSqrt {
  import opened Arith

  /** `r` is the floor of the square root of `n`. */
  predicate IsFloorSqrt(n: nat, r: nat)
  {
    r * r <= n < (r + 1) * (r + 1)
  }

  /** Reference definition of the floor square root, independent of Newton's
      method: step from the root of `n - 1` to the root of `n`. */
  function FloorSqrt(n: nat): (r: nat)
    ensures IsFloorSqrt(n, r)
  {
    if n == 0 then 0
    else
      var s := FloorSqrt(n - 1);
      if (s + 1) * (s + 1) <= n then
        assert (s + 2) * (s + 2) == (s + 1) * (s + 1) + 2 * s + 3;
        s + 1
      else s
  }

  /** There is only one floor square root. */
  lemma FloorSqrtUnique(n: nat, r: nat)
    requires IsFloorSqrt(n, r)
    ensures r == FloorSqrt(n)
  {
    var s := FloorSqrt(n);
    if r < s {
      SquareMonotone(r + 1, s);
    } else if s < r {
      SquareMonotone(s + 1, r);
    }
  }

  /** On a perfect square the floor root is exact. */
  lemma FloorSqrtOfSquare(k: nat)
    ensures FloorSqrt(k * k) == k
  {
    assert (k + 1) * (k + 1) == k * k + 2 * k + 1;
    FloorSqrtUnique(k * k, k);
  }

  /** The starting guess `n / 2 + 1` (and `n` itself) is never below the root. */
  lemma InitialGuessAboveRoot(n: nat, r: nat)
    requires n > 0 && r * r <= n
    ensures r <= n / 2 + 1 && r <= n
  {
    assert (r - 1) * (r - 1) == r * r - 2 * r + 1;
    if r > 0 {
      MulMonotone(1, r, r);
    }
  }

  /** A Newton step from any positive `x` lands at or above every `r` with
      `r * r <= n` (the integer form of the arithmetic-geometric mean bound). */
  lemma NewtonStepAboveRoot(n: nat, x: nat, r: nat)
    requires x > 0 && r * r <= n
    ensures r <= (n / x + x) / 2
  {
    var q := n / x;
    FloorDivBounds(n, x);
    if q + x < 2 * r {
      var w: nat := 2 * r - x;
      MulMonotone(q + 1, w, x);
      MeanBelowSquare(r, x);
      // n < (q + 1) * x <= w * x <= r * r <= n
    }
  }

  /** `(2r - x) * x` never exceeds `r * r`: it falls short by `(r - x)^2`. */
  lemma MeanBelowSquare(r: int, x: int)
    ensures (2 * r - x) * x <= r * r
  {
    var d := r - x;
    assert 2 * r - x == r + d && x == r - d;
    assert (r + d) * (r - d) == r * r - d * d;
    assert d * d >= 0;
  }

  /** Above the root a Newton step strictly decreases the iterate. */
  lemma NewtonStepDescends(n: nat, z: nat)
    requires z > 0 && n < z * z
    ensures (n / z + z) / 2 < z
  {
    FloorDivBounds(n, z);
    if n / z >= z {
      MulMonotone(z, n / z, z);
    }
  }

  /** Newton's integer square root as the test helper writes it. For every
      `value` other than 2 it returns the floor root; for 2 the first guess
      already equals `value`, the loop never runs and 2 comes back. */
  method Sqrt(value: nat) returns (z: nat)
    ensures z <= value
    ensures value == 0 ==> z == 0
    ensures value != 2 ==> IsFloorSqrt(value, z)
    ensures value == 2 ==> z == 2
  {
    if value == 0 {
      return 0;
    }
    ghost var r := FloorSqrt(value);
    InitialGuessAboveRoot(value, r);
    z := value;
    var x := value / 2 + 1;
    while x < z
      invariant r <= x && r <= z <= value
      invariant (z == value && x == value / 2 + 1) || x == (value / z + z) / 2
      invariant value <= 2 ==> z == value && x == value / 2 + 1
      decreases z
    {
      z := x;
      NewtonStepAboveRoot(value, z, r);
      x := (value / z + z) / 2;
    }
    if z == value && x == value / 2 + 1 {
      // the loop never ran: value / 2 + 1 >= value, so value is 1 or 2
      assert value <= 2;
    } else {
      if value < z * z {
        NewtonStepDescends(value, z);
      }
      if z > r {
        SquareMonotone(r + 1, z);
      }
    }
  }

  /** On a perfect square the helper is exact, as the 100-ether test relies on. */
  method SqrtOfSquare(k: nat) returns (z: nat)
    ensures z == k
  {
    z := Sqrt(k * k);
    FloorSqrtOfSquare(k);
    FloorSqrtUnique(k * k, z);
  }

  /** The value the helper returns for 2 is not its floor root (which is 1). */
  method SqrtOfTwoOvershoots() returns (z: nat)
    ensures z == 2 && !IsFloorSqrt(2, z) && FloorSqrt(2) == 1
  {
    z := Sqrt(2);
    FloorSqrtUnique(2, 1);
  }

  /** The square root as evidently intended: Newton's loop only from 4 up,
      1 for 1, 2 and 3, and 0 for 0. It is the floor root for every input. */
  method ISqrt(value: nat) returns (z: nat)
    ensures IsFloorSqrt(value, z)
    ensures z == FloorSqrt(value)
  {
    if value > 3 {
      z := Sqrt(value);
    } else if value != 0 {
      z := 1;
    } else {
      z := 0;
    }
    FloorSqrtUnique(value, z);
  }
}
