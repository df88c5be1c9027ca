/** IEEE doubles as far as the generator's scores need them: a real value, an
    infinity of either sign, or NaN. A division by zero yields an infinity or
    NaN instead of failing, and the .NET comparer orders NaN below every
    other value. Rounding and signed zeros are not modelled. */
module ExtReal {

  datatype Ext = NaN | NegInf | PosInf | Fin(v: real)

  /** `double.IsNaN`. */
  predicate IsNaN(x: Ext) {
    x.NaN?
  }

  /** IEEE addition: NaN propagates and opposite infinities give NaN. */
  function Add(a: Ext, b: Ext): (r: Ext)
    ensures (a.NaN? || b.NaN?) ==> r.NaN?
    ensures a.Fin? && b.Fin? ==> r == Fin(a.v + b.v)
    ensures (a.PosInf? && b.NegInf?) || (a.NegInf? && b.PosInf?) ==> r.NaN?
    ensures a.PosInf? && !b.NaN? && !b.NegInf? ==> r.PosInf?
    ensures a.NegInf? && !b.NaN? && !b.PosInf? ==> r.NegInf?
  {
    match (a, b)
    case (NaN, _) => NaN
    case (_, NaN) => NaN
    case (PosInf, NegInf) => NaN
    case (NegInf, PosInf) => NaN
    case (PosInf, _) => PosInf
    case (_, PosInf) => PosInf
    case (NegInf, _) => NegInf
    case (_, NegInf) => NegInf
    case (Fin(x), Fin(y)) => Fin(x + y)
  }

  /** IEEE addition is commutative. */
  lemma AddCommutes(a: Ext, b: Ext)
    ensures Add(a, b) == Add(b, a)
  {
  }

  /** Multiplication by a positive constant keeps NaN and the infinities. */
  function Scale(c: real, x: Ext): (r: Ext)
    requires c > 0.0
    ensures x.Fin? <==> r.Fin?
    ensures x.Fin? ==> r.v == c * x.v
    ensures !x.Fin? ==> r == x
  {
    match x
    case Fin(v) => Fin(c * v)
    case _ => x
  }

  /** The sign of a value that is not NaN: -1, 0 or 1. */
  function Sign(x: Ext): int
    requires !x.NaN?
  {
    match x
    case PosInf => 1
    case NegInf => -1
    case Fin(v) => if v > 0.0 then 1 else if v < 0.0 then -1 else 0
  }

  /** IEEE multiplication: NaN propagates, zero times an infinity is NaN, and
      otherwise an infinite factor gives the infinity of the product's sign. */
  function Mul(a: Ext, b: Ext): (r: Ext)
    ensures (a.NaN? || b.NaN?) ==> r.NaN?
    ensures a.Fin? && b.Fin? ==> r == Fin(a.v * b.v)
    ensures r.Fin? ==> a.Fin? && b.Fin?
    ensures !a.Fin? && !a.NaN? && b == Fin(0.0) ==> r.NaN?
    ensures a == Fin(0.0) && !b.Fin? ==> r.NaN?
  {
    match (a, b)
    case (NaN, _) => NaN
    case (_, NaN) => NaN
    case (Fin(x), Fin(y)) => Fin(x * y)
    case _ =>
      if Sign(a) == 0 || Sign(b) == 0 then NaN
      else if Sign(a) == Sign(b) then PosInf
      else NegInf
  }

  /** IEEE division; a zero denominator is taken as positive zero. */
  function Div(a: Ext, b: Ext): (r: Ext)
    ensures (a.NaN? || b.NaN?) ==> r.NaN?
    ensures a.Fin? && b.Fin? && b.v != 0.0 ==> r == Fin(a.v / b.v)
    ensures a.Fin? && b == Fin(0.0) ==> (r.NaN? <==> a.v == 0.0)
    ensures a.Fin? && b == Fin(0.0) && a.v > 0.0 ==> r.PosInf?
    ensures a.Fin? && b == Fin(0.0) && a.v < 0.0 ==> r.NegInf?
    ensures !a.Fin? && !b.Fin? ==> r.NaN?
    ensures a.Fin? && (b.PosInf? || b.NegInf?) ==> r == Fin(0.0)
  {
    match (a, b)
    case (NaN, _) => NaN
    case (_, NaN) => NaN
    case (Fin(x), Fin(y)) =>
      if y != 0.0 then Fin(x / y)
      else if x > 0.0 then PosInf
      else if x < 0.0 then NegInf
      else NaN
    case (Fin(_), _) => Fin(0.0)
    case (PosInf, Fin(y)) => if y < 0.0 then NegInf else PosInf
    case (NegInf, Fin(y)) => if y < 0.0 then PosInf else NegInf
    case (_, _) => NaN
  }

  /** The position of a value in the .NET comparer's order. */
  function Rank(x: Ext): int {
    match x
    case NaN => 0
    case NegInf => 1
    case Fin(_) => 2
    case PosInf => 3
  }

  /** `x.CompareTo(y) < 0` for doubles: NaN lies below everything else. */
  predicate Less(x: Ext, y: Ext) {
    if x.Fin? && y.Fin? then x.v < y.v else Rank(x) < Rank(y)
  }

  /** The comparer's order is a strict total order on the four kinds of
      value: irreflexive, transitive, and any two distinct values compare. */
  lemma LessIsStrictTotal(x: Ext, y: Ext, z: Ext)
    ensures !Less(x, x)
    ensures Less(x, y) && Less(y, z) ==> Less(x, z)
    ensures x != y ==> Less(x, y) || Less(y, x)
    ensures Less(x, y) ==> !Less(y, x)
  {
  }

  /** LINQ's `Max` over doubles: NaN values are skipped unless every value is
      NaN; of the rest the greatest is returned. */
  function MaxOf(xs: seq<Ext>): (m: Ext)
    requires |xs| > 0
    ensures m in xs
    ensures m.NaN? <==> forall i :: 0 <= i < |xs| ==> xs[i].NaN?
    ensures forall i :: 0 <= i < |xs| && !xs[i].NaN? ==> !Less(m, xs[i])
    decreases |xs|
  {
    if |xs| == 1 then xs[0]
    else
      var rest := MaxOf(xs[1..]);
      assert forall i :: 1 <= i < |xs| ==> xs[i] == xs[1..][i - 1];
      if xs[0].NaN? then rest
      else if rest.NaN? || Less(rest, xs[0]) then xs[0]
      else rest
  }
}
