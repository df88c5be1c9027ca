/** The `Rgb` colour of the province parser: three bytes compared component by
    component. */
module RgbColor {

  newtype byte = x: int | 0 <= x < 256

  datatype Rgb = Rgb(r: byte, g: byte, b: byte)

  /** `operator ==`. */
  predicate Eq(a: Rgb, c: Rgb) {
    a.r == c.r && a.g == c.g && a.b == c.b
  }

  /** `operator !=`. */
  predicate Neq(a: Rgb, c: Rgb) {
    !Eq(a, c)
  }

  /** `Equals(Rgb)`. */
  predicate Equals(a: Rgb, other: Rgb) {
    a.r == other.r && a.g == other.g && a.b == other.b
  }

  /** The argument of `Equals(object?)`: null, a boxed `Rgb`, or a value of
      another type. */
  datatype Object = Null | BoxedRgb(value: Rgb) | OtherObject

  /** `Equals(object?)`. */
  predicate EqualsObject(a: Rgb, obj: Object) {
    obj.BoxedRgb? && Equals(a, obj.value)
  }

  /** The operators and both `Equals` agree with component-wise equality, which
      is equality of the colours, and `!=` negates `==`. */
  lemma EqualityAgrees(a: Rgb, c: Rgb)
    ensures Eq(a, c) <==> a == c
    ensures Equals(a, c) <==> Eq(a, c)
    ensures Neq(a, c) <==> !Eq(a, c)
    ensures EqualsObject(a, BoxedRgb(c)) <==> Eq(a, c)
    ensures !EqualsObject(a, Null) && !EqualsObject(a, OtherObject)
  {
  }

  /** `Equals` is an equivalence relation. */
  lemma EqualsIsEquivalence(a: Rgb, c: Rgb, d: Rgb)
    ensures Equals(a, a)
    ensures Equals(a, c) ==> Equals(c, a)
    ensures Equals(a, c) && Equals(c, d) ==> Equals(a, d)
  {
  }
}
