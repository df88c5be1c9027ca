/** Sums over sets and sequences of reals, and the averages the validators
    take with LINQ's `Average`, which throws on an empty sequence. */
module Stats {
  import opened Wrappers

  /** The sum of `v` over the ids in `s`, in no particular order. */
  ghost function SetSum(s: set<int>, v: map<int, real>): real
    requires s <= v.Keys
    decreases s
  {
    if s == {} then 0.0
    else
      HasElement(s);
      var x: int :| x in s;
      v[x] + SetSum(s - {x}, v)
  }

  lemma HasElement(s: set<int>)
    requires s != {}
    ensures exists x: int :: x in s
  {
    if forall x: int :: x !in s {
      assert false;
    }
  }

  /** A subset that misses an element of the larger set is smaller. */
  lemma ProperSubsetSmaller(a: set<int>, b: set<int>, x: int)
    requires a <= b && x in b && x !in a
    ensures |a| < |b|
  {
    assert b == a + (b - a);
    assert a * (b - a) == {};
    assert x in b - a;
  }

  /** Any element may be taken out first: the sum does not depend on the
      enumeration order. */
  lemma {:induction false} SetSumRemove(s: set<int>, v: map<int, real>, y: int)
    requires s <= v.Keys
    requires y in s
    ensures SetSum(s, v) == v[y] + SetSum(s - {y}, v)
    decreases s
  {
    var x :| x in s && SetSum(s, v) == v[x] + SetSum(s - {x}, v);
    if x != y {
      SetSumRemove(s - {x}, v, y);
      SetSumRemove(s - {y}, v, x);
      assert s - {x} - {y} == s - {y} - {x};
    }
  }

  /** Summing over a set of ids one element at a time, in any order; this is
      `Sum` over a hash set. */
  method SumOver(s: set<int>, v: map<int, real>) returns (total: real)
    requires s <= v.Keys
    ensures total == SetSum(s, v)
  {
    total := 0.0;
    var rest := s;
    while rest != {}
      invariant rest <= s
      invariant total + SetSum(rest, v) == SetSum(s, v)
      decreases rest
    {
      var x :| x in rest;
      SetSumRemove(rest, v, x);
      total := total + v[x];
      rest := rest - {x};
    }
  }

  /** A sum of non-negative values is non-negative. */
  lemma {:induction false} SetSumNonNegative(s: set<int>, v: map<int, real>)
    requires s <= v.Keys
    requires forall x :: x in s ==> v[x] >= 0.0
    ensures SetSum(s, v) >= 0.0
    decreases s
  {
    if s != {} {
      HasElement(s);
      var x: int :| x in s;
      SetSumRemove(s, v, x);
      SetSumNonNegative(s - {x}, v);
    }
  }

  /** The sum of a sequence, first element last. */
  function Sum(xs: seq<real>): real
    decreases |xs|
  {
    if |xs| == 0 then 0.0 else Sum(xs[..|xs| - 1]) + xs[|xs| - 1]
  }

  /** `Average`: the mean, or `InvalidOperationException` on no values. */
  function Average(xs: seq<real>): (r: Result<real>)
    ensures r.Failure? <==> |xs| == 0
    ensures r.Failure? ==> r.error == InvalidOperation
    ensures r.Success? ==> r.value * |xs| as real == Sum(xs)
  {
    if |xs| == 0 then Failure(InvalidOperation) else Success(Sum(xs) / |xs| as real)
  }

  /** The squared distances of the values from `m`. */
  function SquaredDeviations(xs: seq<real>, m: real): (r: seq<real>)
    ensures |r| == |xs|
    ensures forall i :: 0 <= i < |xs| ==> r[i] == (xs[i] - m) * (xs[i] - m)
  {
    seq(|xs|, i requires 0 <= i < |xs| => (xs[i] - m) * (xs[i] - m))
  }

  /** The population variance: the average squared distance from the mean.
      The source takes its square root. */
  function Variance(xs: seq<real>): (r: Result<real>)
    ensures r.Failure? <==> |xs| == 0
    ensures r.Failure? ==> r.error == InvalidOperation
    ensures r.Success? ==> r.value >= 0.0
  {
    match Average(xs)
    case Failure(e) => Failure(e)
    case Success(mean) =>
      SquaresNonNegative(xs, mean);
      SumNonNegative(SquaredDeviations(xs, mean));
      Average(SquaredDeviations(xs, mean))
  }

  lemma SquaresNonNegative(xs: seq<real>, m: real)
    ensures forall i :: 0 <= i < |xs| ==> SquaredDeviations(xs, m)[i] >= 0.0
  {
    forall i | 0 <= i < |xs|
      ensures (xs[i] - m) * (xs[i] - m) >= 0.0
    {
      SquareNonNegative(xs[i] - m);
    }
  }

  lemma SquareNonNegative(d: real)
    ensures d * d >= 0.0
  {
    if d < 0.0 {
      assert d * d == (-d) * (-d);
    }
  }

  lemma {:induction false} SumNonNegative(xs: seq<real>)
    requires forall i :: 0 <= i < |xs| ==> xs[i] >= 0.0
    ensures Sum(xs) >= 0.0
    decreases |xs|
  {
    if |xs| > 0 {
      SumNonNegative(xs[..|xs| - 1]);
    }
  }

  /** `n` copies of `c` sum to `n * c`. */
  lemma {:induction false} SumConstant(xs: seq<real>, c: real)
    requires forall i :: 0 <= i < |xs| ==> xs[i] == c
    ensures Sum(xs) == |xs| as real * c
    decreases |xs|
  {
    if |xs| > 0 {
      SumConstant(xs[..|xs| - 1], c);
    }
  }

  /** Equal values have no variance. */
  lemma EqualValuesNoVariance(xs: seq<real>)
    requires |xs| > 0
    requires forall i :: 0 <= i < |xs| ==> xs[i] == xs[0]
    ensures Variance(xs).value == 0.0
  {
    var n := |xs| as real;
    var mean := Average(xs).value;
    var sq := SquaredDeviations(xs, mean);
    SumConstant(xs, xs[0]);
    assert mean * n == Sum(xs);
    assert Sum(xs) == n * xs[0];
    CancelPositive(mean, xs[0], n);
    forall i | 0 <= i < |sq|
      ensures sq[i] == 0.0
    {
      var d := xs[i] - mean;
      assert d == 0.0;
      assert sq[i] == d * d;
    }
    SumConstant(sq, 0.0);
    CancelPositive(Average(sq).value, 0.0, n);
  }

  lemma CancelPositive(a: real, b: real, n: real)
    requires n > 0.0 && a * n == n * b
    ensures a == b
  {
  }
}
