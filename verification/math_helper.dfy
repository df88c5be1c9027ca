/** `MathHelper.ClampValue`: an integer clamped from below by `min` and from
    above by `max`, computed as `Math.Max(min, Math.Min(value, max))`. */
module MathHelper {

  /** `int.MaxValue`, the default upper bound. */
  const IntMax: int := 0x7fff_ffff

  /** Clamping with the source's defaults: `min` is 0 and `max` is `int.MaxValue`.
      When `min > max` the lower bound wins. */
  function ClampValue(value: int, min: int := 0, max: int := IntMax): (r: int)
    ensures r >= min
    ensures min <= max ==> r <= max
    ensures min <= value <= max ==> r == value
    ensures min <= max && value < min ==> r == min
    ensures min <= max && value > max ==> r == max
    ensures min > max ==> r == min
  {
    var m := if value < max then value else max;
    if min > m then min else m
  }

  /** Clamping twice is clamping once. */
  lemma ClampIdempotent(value: int, min: int, max: int)
    ensures ClampValue(ClampValue(value, min, max), min, max) == ClampValue(value, min, max)
  {
  }

  /** A larger input never clamps to a smaller result. */
  lemma ClampMonotone(a: int, b: int, min: int, max: int)
    requires a <= b
    ensures ClampValue(a, min, max) <= ClampValue(b, min, max)
  {
  }
}
