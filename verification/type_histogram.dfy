/** The archetype histogram both validators report: LINQ's `GroupBy` on the
    country archetype followed by `ToDictionary` with each group's size. */
module TypeHistogram {
  import opened Archetypes

  /** The number of entries equal to `t`. */
  function Count(types: seq<CountryType>, t: CountryType): nat
    decreases |types|
  {
    if |types| == 0 then 0
    else Count(types[..|types| - 1], t) + (if types[|types| - 1] == t then 1 else 0)
  }

  /** `t` occurs exactly when its count is positive. */
  lemma {:induction false} CountPositive(types: seq<CountryType>, t: CountryType)
    ensures Count(types, t) > 0 <==> t in types
    decreases |types|
  {
    if |types| > 0 {
      var init := types[..|types| - 1];
      CountPositive(init, t);
      assert types == init + [types[|types| - 1]];
    }
  }

  /** The three counts add up to the length. */
  lemma {:induction false} CountsCover(types: seq<CountryType>)
    ensures Count(types, CountryIndustrial) + Count(types, CountryResource) + Count(types, CountryBalanced) == |types|
    decreases |types|
  {
    if |types| > 0 {
      CountsCover(types[..|types| - 1]);
    }
  }

  /** The entry of `t`, zero when it is absent. */
  function Entry(d: map<CountryType, nat>, t: CountryType): nat {
    if t in d then d[t] else 0
  }

  /** The histogram: an entry for each archetype that occurs, holding its
      number of occurrences. */
  method Histogram(types: seq<CountryType>) returns (d: map<CountryType, nat>)
    ensures forall t :: t in d <==> t in types
    ensures forall t :: t in d ==> d[t] >= 1 && d[t] == Count(types, t)
    ensures Entry(d, CountryIndustrial) + Entry(d, CountryResource) + Entry(d, CountryBalanced) == |types|
  {
    d := map[];
    var i := 0;
    while i < |types|
      invariant 0 <= i <= |types|
      invariant forall t :: t in d <==> Count(types[..i], t) > 0
      invariant forall t :: t in d ==> d[t] == Count(types[..i], t)
    {
      assert types[..i + 1][..i] == types[..i];
      d := d[types[i] := Entry(d, types[i]) + 1];
      i := i + 1;
    }
    assert types[..i] == types;
    forall t
      ensures t in d <==> t in types
    {
      CountPositive(types, t);
    }
    CountsCover(types);
  }
}
