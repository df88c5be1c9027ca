/** The value rebalancing the legacy generator runs after the growth loop:
    the countries are ranked by value, the i-th poorest is given the i-th
    smallest target value, and every passable state of a country that is off
    its target by more than five percent has its factories and resources
    scaled by the ratio and clamped to the ceilings. The target values are
    draws from a normal distribution, which the model takes as given. */
module LegacyBalance {
  import opened Wrappers
  import opened ExtReal
  import opened Archetypes
  import opened Sequences
  import Draws
  import Limits
  import MathHelper
  import Stats
  import LegacyStates
  import opened LegacyCountries

  /** `ClampValue(value, max)`: `Math.Max(0, Math.Min(value, max))`. */
  function ClampValue(value: int, max: int): (r: int)
    ensures r == MathHelper.ClampValue(value, 0, max)
  {
    var low := if value < max then value else max;
    if low > 0 then low else 0
  }

  /** The value a cast and a clamp may produce from the double `x`: any
      value within `[0, limit]`, and exactly the clamped truncation when `x`
      is finite and its truncation fits in 32 bits. */
  predicate CastClamped(x: Ext, limit: int, out: int) {
    0 <= out <= limit
    && (x.Fin? && Draws.IntMin <= Draws.Truncate(x.v) <= Draws.IntMax ==> out == ClampValue(Draws.Truncate(x.v), limit))
  }

  /** `(int)x` followed by `ClampValue(_, limit)`. */
  method CastClamp(x: Ext, limit: int) returns (out: int)
    requires limit >= 0
    ensures CastClamped(x, limit, out)
  {
    var v := Draws.ToInt(x);
    out := ClampValue(v, limit);
  }

  /** The Balanced archetype's jittered ratio for a draw `u` of `NextDouble`. */
  function Jitter(ratio: Ext, u: real): Ext {
    Mul(ratio, Fin(0.8 + u * 0.4))
  }

  /** `out` is what scaling `x` by the ratio jittered with some draw from
      `[0, 1)` may produce. */
  ghost predicate JitterClamped(x: int, ratio: Ext, limit: int, out: int) {
    exists u :: 0.0 <= u < 1.0 && CastClamped(Mul(Fin(x as real), Jitter(ratio, u)), limit, out)
  }

  /** The state keeps everything but its factories and resources. */
  predicate SameShape(a: LegacyStates.StateMap, b: LegacyStates.StateMap) {
    a.id == b.id && a.isImpassable == b.isImpassable && a.edges == b.edges
    && a.props.stateType == b.props.stateType && a.props.maxFactories == b.props.maxFactories
    && a.props.victoryPoint == b.props.victoryPoint
  }

  /** Factories and resources within their ceilings. */
  predicate Clamped(s: LegacyStates.StateMap) {
    0 <= s.props.factories <= Limits.MaxMaxFactories && 0 <= s.props.resources <= Limits.MaxResources
  }

  /** `after` is what `AdjustStateProperties` may make of `before` for the
      ratio: Industrial states scale factories by 1.2 times the ratio and
      resources by the ratio, Resource states the other way round, and
      Balanced states scale each by the ratio jittered into `[0.8, 1.2)`.
      Each result is cast and clamped; nothing else changes. */
  ghost predicate Adjusted(before: LegacyStates.StateMap, ratio: Ext, after: LegacyStates.StateMap) {
    var f := Fin(before.props.factories as real);
    var res := Fin(before.props.resources as real);
    SameShape(before, after) && Clamped(after)
    && (before.props.stateType == Industrial ==>
          CastClamped(Mul(Mul(f, ratio), Fin(1.2)), Limits.MaxMaxFactories, after.props.factories)
          && CastClamped(Mul(res, ratio), Limits.MaxResources, after.props.resources))
    && (before.props.stateType == Resource ==>
          CastClamped(Mul(Mul(res, ratio), Fin(1.2)), Limits.MaxResources, after.props.resources)
          && CastClamped(Mul(f, ratio), Limits.MaxMaxFactories, after.props.factories))
    && (before.props.stateType == Balanced ==>
          JitterClamped(before.props.factories, ratio, Limits.MaxMaxFactories, after.props.factories)
          && JitterClamped(before.props.resources, ratio, Limits.MaxResources, after.props.resources))
  }

  /** `AdjustStateProperties`: the per-archetype scaling, cast and clamp. */
  method AdjustStateProperties(s: LegacyStates.StateMap, ratio: Ext) returns (r: LegacyStates.StateMap)
    ensures Adjusted(s, ratio, r)
  {
    var f := Fin(s.props.factories as real);
    var res := Fin(s.props.resources as real);
    var factories, resources;
    if s.props.stateType == Industrial {
      factories := CastClamp(Mul(Mul(f, ratio), Fin(1.2)), Limits.MaxMaxFactories);
      resources := CastClamp(Mul(res, ratio), Limits.MaxResources);
    } else if s.props.stateType == Resource {
      resources := CastClamp(Mul(Mul(res, ratio), Fin(1.2)), Limits.MaxResources);
      factories := CastClamp(Mul(f, ratio), Limits.MaxMaxFactories);
    } else {
      var u1 := Draws.NextDouble();
      var u2 := Draws.NextDouble();
      factories := CastClamp(Mul(f, Jitter(ratio, u1)), Limits.MaxMaxFactories);
      resources := CastClamp(Mul(res, Jitter(ratio, u2)), Limits.MaxResources);
    }
    r := LegacyStates.SetResources(LegacyStates.SetFactories(s, factories), resources);
  }

  /** An Industrial state with 5 factories and 10 resources, scaled by a
      ratio of 2, ends with 12 factories and 20 resources. */
  lemma IndustrialScaledByTwo(s: LegacyStates.StateMap, r: LegacyStates.StateMap)
    requires s.props.stateType == Industrial && s.props.factories == 5 && s.props.resources == 10
    requires Adjusted(s, Fin(2.0), r)
    ensures r.props.factories == 12 && r.props.resources == 20
  {
    assert Mul(Mul(Fin(5.0), Fin(2.0)), Fin(1.2)) == Fin(12.0);
    assert Draws.Truncate(12.0) == 12;
    assert Mul(Fin(10.0), Fin(2.0)) == Fin(20.0);
    assert Draws.Truncate(20.0) == 20;
  }

  /** A ratio that leaves a country alone: NaN, or within five percent of
      one. */
  predicate CloseEnough(ratio: Ext) {
    ratio.NaN? || (ratio.Fin? && 0.95 <= ratio.v <= 1.05)
  }

  /** The country's target divided by its value in `m`. */
  ghost function Ratio(m: Table, c: CountryMap, target: real): Ext
    requires c.states <= m.Keys
  {
    Div(Fin(target), Fin(Stats.SetSum(c.states, Values(m))))
  }

  /** One step of the rebalancing: `after` is `before` when the ratio is
      close enough; otherwise every passable member is adjusted once by the
      ratio, and every other state is untouched. */
  ghost predicate AdjustedCountry(before: Table, c: CountryMap, target: real, after: Table)
    requires c.states <= before.Keys
  {
    var ratio := Ratio(before, c, target);
    after.Keys == before.Keys
    && (CloseEnough(ratio) ==> after == before)
    && (forall id :: id in before && (id !in c.states || before[id].isImpassable) ==> after[id] == before[id])
    && (!CloseEnough(ratio) ==>
          forall id :: id in c.states && !before[id].isImpassable ==> Adjusted(before[id], ratio, after[id]))
  }

  /** One step of the rebalancing: the country's value is measured against
      its target; unless the ratio is close enough, every passable member is
      adjusted once. */
  method AdjustCountry(m: Table, c: CountryMap, target: real) returns (m': Table)
    requires c.states <= m.Keys
    ensures AdjustedCountry(m, c, target, m')
    ensures forall id :: id in m ==> SameShape(m[id], m'[id])
    ensures forall id :: id in m && id in c.states && !m[id].isImpassable && m'[id] != m[id] ==> Clamped(m'[id])
  {
    var current := GetValue(m, c);
    var ratio := Div(Fin(target), Fin(current.value));
    if CloseEnough(ratio) {
      return m;
    }
    var members := Enumerate(c.states);
    m' := m;
    ghost var done: set<int> := {};
    var i := 0;
    while i < |members|
      invariant 0 <= i <= |members|
      invariant m'.Keys == m.Keys && done <= c.states
      invariant forall j :: 0 <= j < i ==> members[j] in done
      invariant forall j :: i <= j < |members| ==> members[j] !in done
      invariant forall id :: id in m && (id !in done || m[id].isImpassable) ==> m'[id] == m[id]
      invariant forall id :: id in done && !m[id].isImpassable ==> Adjusted(m[id], ratio, m'[id])
    {
      var id := members[i];
      if !m'[id].isImpassable {
        var adjusted := AdjustStateProperties(m'[id], ratio);
        m' := m'[id := adjusted];
      }
      done := done + {id};
      i := i + 1;
    }
    assert done == c.states by {
      forall id | id in c.states
        ensures id in done
      {
        var j :| 0 <= j < |members| && members[j] == id;
      }
    }
  }

  /** Every entry of `order` is a position of `values`. */
  predicate InRange(values: seq<real>, order: seq<int>) {
    forall a :: 0 <= a < |order| ==> 0 <= order[a] < |values|
  }

  /** Position `i` comes before position `j` in a stable sort by value. */
  predicate Precedes(values: seq<real>, i: int, j: int)
    requires 0 <= i < |values| && 0 <= j < |values|
  {
    values[i] < values[j] || (values[i] == values[j] && i < j)
  }

  /** `order` lists positions of `values` sorted by value, equal values in
      their original order: what the stable `OrderBy` produces. */
  predicate StablySorted(values: seq<real>, order: seq<int>) {
    InRange(values, order)
    && forall a, b :: 0 <= a < b < |order| ==> Precedes(values, order[a], order[b])
  }

  /** Every position listed comes before every position not yet listed. */
  predicate Below(values: seq<real>, order: seq<int>, used: set<int>)
    requires InRange(values, order)
  {
    forall a, j :: 0 <= a < |order| && 0 <= j < |values| && j !in used ==> Precedes(values, order[a], j)
  }

  /** The positions `0 .. n - 1`. */
  function Positions(n: nat): (r: set<int>)
    ensures forall j :: j in r <==> 0 <= j < n
    ensures |r| == n
  {
    if n == 0 then {} else
      var r := Positions(n - 1) + {n - 1};
      assert n - 1 !in Positions(n - 1);
      r
  }

  /** `OrderBy(value)`: a permutation of the positions, stably sorted by
      value. Each step selects the earliest remaining position of least
      value. */
  method SortByValue(values: seq<real>) returns (order: seq<int>)
    ensures |order| == |values| && Distinct(order)
    ensures forall j :: j in order <==> 0 <= j < |values|
    ensures StablySorted(values, order)
  {
    order := [];
    var used: set<int> := {};
    while |order| < |values|
      invariant Distinct(order) && |used| == |order| && |order| <= |values|
      invariant forall j :: j in used <==> j in order
      invariant used <= Positions(|values|)
      invariant StablySorted(values, order) && Below(values, order, used)
      decreases |values| - |order|
    {
      SubsetSmaller(used, Positions(|values|));
      var best := SelectLeast(values, used);
      AppendLeast(values, order, used, best);
      order := order + [best];
      used := used + {best};
    }
    SubsetEqual(used, Positions(|values|));
  }

  /** Appending the least remaining position keeps the order stably sorted
      and below the rest. */
  lemma AppendLeast(values: seq<real>, order: seq<int>, used: set<int>, best: int)
    requires StablySorted(values, order) && Below(values, order, used)
    requires forall j :: j in used <==> j in order
    requires 0 <= best < |values| && best !in used
    requires forall j :: 0 <= j < |values| && j !in used && j != best ==> Precedes(values, best, j)
    ensures StablySorted(values, order + [best])
    ensures Below(values, order + [best], used + {best})
  {
    var o := order + [best];
    assert InRange(values, o);
    forall a, b | 0 <= a < b < |o|
      ensures Precedes(values, o[a], o[b])
    {
      if b == |order| {
        assert o[a] == order[a];
      } else {
        assert o[a] == order[a] && o[b] == order[b];
      }
    }
    forall a, j | 0 <= a < |o| && 0 <= j < |values| && j !in used + {best}
      ensures Precedes(values, o[a], j)
    {
      if a < |order| {
        assert o[a] == order[a];
      }
    }
  }

  /** The earliest position outside `used` of least value. */
  method SelectLeast(values: seq<real>, used: set<int>) returns (best: int)
    requires exists j :: 0 <= j < |values| && j !in used
    ensures 0 <= best < |values| && best !in used
    ensures forall j :: 0 <= j < |values| && j !in used && j != best ==> Precedes(values, best, j)
  {
    best := -1;
    var j := 0;
    while j < |values|
      invariant 0 <= j <= |values|
      invariant best == -1 ==> forall k :: 0 <= k < j ==> k in used
      invariant best != -1 ==> 0 <= best < j && best !in used
      invariant best != -1 ==> forall k :: 0 <= k < j && k !in used && k != best ==> Precedes(values, best, k)
    {
      if j !in used && (best == -1 || values[j] < values[best]) {
        best := j;
      }
      j := j + 1;
    }
  }

  lemma SubsetSmaller(a: set<int>, b: set<int>)
    requires a <= b && |a| < |b|
    ensures exists x :: x in b && x !in a
  {
    var d := b - a;
    assert b == a + d;
    Stats.HasElement(d);
  }

  lemma SubsetEqual(a: set<int>, b: set<int>)
    requires a <= b && |a| == |b|
    ensures a == b
  {
    var d := b - a;
    assert b == a + d;
    assert |d| == 0;
  }

  /** The countries' values, in order. */
  method CountryValues(m: Table, countries: seq<CountryMap>) returns (values: seq<real>)
    requires forall i :: 0 <= i < |countries| ==> countries[i].states <= m.Keys
    ensures |values| == |countries|
    ensures forall i :: 0 <= i < |countries| ==> values[i] == Stats.SetSum(countries[i].states, Values(m))
  {
    values := [];
    var i := 0;
    while i < |countries|
      invariant 0 <= i <= |countries| && |values| == i
      invariant forall j :: 0 <= j < i ==> values[j] == Stats.SetSum(countries[j].states, Values(m))
    {
      var v := GetValue(m, countries[i]);
      values := values + [v.value];
      i := i + 1;
    }
  }

  /** `ApplyValueDistribution` for the sorted target values `targets`: the
      countries in ascending order of their value before the pass, the i-th
      measured against the i-th target. The ghost `tables` are the table
      before each step: step `i` adjusts country `order[i]` against
      `targets[i]`, its ratio taken on the table the earlier steps left.
      Only passable member states change, they keep everything but factories
      and resources, and what changes ends within the ceilings. */
  method ApplyValueDistribution(m: Table, countries: seq<CountryMap>, targets: seq<real>)
    returns (m': Table, order: seq<int>, ghost tables: seq<Table>)
    requires |targets| == |countries|
    requires forall i :: 0 <= i < |countries| ==> countries[i].states <= m.Keys
    ensures |order| == |countries| && Distinct(order) && (forall j :: j in order <==> 0 <= j < |countries|)
    ensures StablySorted(seq(|countries|, i requires 0 <= i < |countries| => Stats.SetSum(countries[i].states, Values(m))), order)
    ensures |tables| == |order| + 1 && tables[0] == m && tables[|order|] == m'
    ensures forall i :: 0 <= i < |order| ==>
              tables[i].Keys == m.Keys && AdjustedCountry(tables[i], countries[order[i]], targets[i], tables[i + 1])
    ensures m'.Keys == m.Keys
    ensures forall id :: id in m && m[id].isImpassable ==> m'[id] == m[id]
    ensures forall id :: id in m && (forall i :: 0 <= i < |countries| ==> id !in countries[i].states) ==> m'[id] == m[id]
    ensures forall id :: id in m ==> SameShape(m[id], m'[id])
    ensures forall id :: id in m && m'[id] != m[id] ==> Clamped(m'[id])
  {
    var values := CountryValues(m, countries);
    assert values == seq(|countries|, i requires 0 <= i < |countries| => Stats.SetSum(countries[i].states, Values(m)));
    order := SortByValue(values);
    m' := m;
    tables := [m];
    var i := 0;
    while i < |order|
      invariant 0 <= i <= |order|
      invariant |tables| == i + 1 && tables[0] == m && tables[i] == m'
      invariant forall k :: 0 <= k < i ==>
                  tables[k].Keys == m.Keys && AdjustedCountry(tables[k], countries[order[k]], targets[k], tables[k + 1])
      invariant m'.Keys == m.Keys
      invariant forall id :: id in m && m[id].isImpassable ==> m'[id] == m[id]
      invariant forall id :: id in m && (forall k :: 0 <= k < |countries| ==> id !in countries[k].states) ==> m'[id] == m[id]
      invariant forall id :: id in m ==> SameShape(m[id], m'[id])
      invariant forall id :: id in m && m'[id] != m[id] ==> Clamped(m'[id])
    {
      assert order[i] in order;
      var next := AdjustCountry(m', countries[order[i]], targets[i]);
      StepKeeps(m, m', next, countries, order[i]);
      ExtendSteps(m, countries, order, targets, tables, i, next);
      m' := next;
      tables := tables + [next];
      i := i + 1;
    }
  }

  /** Appending one more step to the recorded tables. */
  lemma ExtendSteps(m: Table, countries: seq<CountryMap>, order: seq<int>, targets: seq<real>,
                    tables: seq<Table>, i: int, next: Table)
    requires 0 <= i < |order| && |targets| == |countries| && |order| == |countries|
    requires forall a :: 0 <= a < |order| ==> 0 <= order[a] < |countries|
    requires forall k :: 0 <= k < |countries| ==> countries[k].states <= m.Keys
    requires |tables| == i + 1 && tables[i].Keys == m.Keys
    requires forall k :: 0 <= k < i ==>
               tables[k].Keys == m.Keys && AdjustedCountry(tables[k], countries[order[k]], targets[k], tables[k + 1])
    requires AdjustedCountry(tables[i], countries[order[i]], targets[i], next)
    ensures forall k :: 0 <= k < i + 1 ==>
              (tables + [next])[k].Keys == m.Keys
              && AdjustedCountry((tables + [next])[k], countries[order[k]], targets[k], (tables + [next])[k + 1])
  {
    var t := tables + [next];
    forall k | 0 <= k < i + 1
      ensures t[k].Keys == m.Keys && AdjustedCountry(t[k], countries[order[k]], targets[k], t[k + 1])
    {
      assert t[k] == tables[k];
      if k < i {
        assert t[k + 1] == tables[k + 1];
      }
    }
  }

  /** One country's adjustment keeps the pass's guarantees. */
  lemma StepKeeps(m: Table, before: Table, after: Table, countries: seq<CountryMap>, k: int)
    requires 0 <= k < |countries|
    requires before.Keys == m.Keys && after.Keys == m.Keys
    requires forall id :: id in m && m[id].isImpassable ==> before[id] == m[id]
    requires forall id :: id in m && (forall i :: 0 <= i < |countries| ==> id !in countries[i].states) ==> before[id] == m[id]
    requires forall id :: id in m ==> SameShape(m[id], before[id])
    requires forall id :: id in m && before[id] != m[id] ==> Clamped(before[id])
    requires forall id :: id in before && (id !in countries[k].states || before[id].isImpassable) ==> after[id] == before[id]
    requires forall id :: id in before ==> SameShape(before[id], after[id])
    requires forall id :: id in before && id in countries[k].states && !before[id].isImpassable && after[id] != before[id] ==> Clamped(after[id])
    ensures forall id :: id in m && m[id].isImpassable ==> after[id] == m[id]
    ensures forall id :: id in m && (forall i :: 0 <= i < |countries| ==> id !in countries[i].states) ==> after[id] == m[id]
    ensures forall id :: id in m ==> SameShape(m[id], after[id])
    ensures forall id :: id in m && after[id] != m[id] ==> Clamped(after[id])
  {
  }
}
