/** The random draws and numeric conversions the generator relies on.
    A draw is a nondeterministic choice among the values the .NET method can
    return; which value a seeded generator actually returns is not modelled. */
module Draws {
  import opened Wrappers
  import opened ExtReal

  const IntMin: int := -0x8000_0000
  const IntMax: int := 0x7fff_ffff

  /** `Random.Next(a, b)`: a value in the half-open range `[a, b)`, exactly
      `a` when the range is empty, and `ArgumentOutOfRangeException` when
      `a > b`. */
  method Next(a: int, b: int) returns (r: Result<int>)
    ensures r.Failure? <==> a > b
    ensures r.Failure? ==> r.error == ArgumentOutOfRange
    ensures r.Success? && a == b ==> r.value == a
    ensures r.Success? && a < b ==> a <= r.value < b
    ensures r.Success? ==> CanDraw(a, b, r.value)
  {
    if a > b {
      return Failure(ArgumentOutOfRange);
    }
    if a == b {
      return Success(a);
    }
    var x :| a <= x < b;
    return Success(x);
  }

  /** `x` is a value that `Random.Next(a, b)` may return. */
  predicate CanDraw(a: int, b: int, x: int) {
    (a == b && x == a) || (a < b && a <= x < b)
  }

  /** `Random.NextDouble()`: a value in `[0, 1)`. */
  method NextDouble() returns (r: real)
    ensures 0.0 <= r < 1.0
  {
    r :| 0.0 <= r < 1.0;
  }

  /** The C# cast `(int)x` of a finite double in range: rounding toward
      zero. */
  function Truncate(x: real): (r: int)
    ensures x >= 0.0 ==> r >= 0 && r as real <= x < r as real + 1.0
    ensures x < 0.0 ==> r <= 0 && r as real - 1.0 < x <= r as real
  {
    if x >= 0.0 then x.Floor else -((-x).Floor)
  }

  /** The C# cast `(int)x` of a double. A finite value whose truncation fits
      in 32 bits is truncated; for NaN, the infinities and values out of range
      the result depends on the platform, so any 32-bit value is allowed. */
  method ToInt(x: Ext) returns (r: int)
    ensures IntMin <= r <= IntMax
    ensures x.Fin? && IntMin <= Truncate(x.v) <= IntMax ==> r == Truncate(x.v)
  {
    if x.Fin? && IntMin <= Truncate(x.v) <= IntMax {
      r := Truncate(x.v);
    } else {
      r :| IntMin <= r <= IntMax;
    }
  }

  /** Truncation keeps whole numbers and is monotone. */
  lemma TruncateMonotone(x: real, y: real)
    requires x <= y
    ensures Truncate(x) <= Truncate(y)
  {
    if x < 0.0 && y >= 0.0 {
    } else if x >= 0.0 {
      assert x.Floor <= y.Floor;
    } else {
      assert (-y).Floor <= (-x).Floor;
    }
  }

  lemma TruncateWhole(n: int)
    ensures Truncate(n as real) == n
  {
  }
}
