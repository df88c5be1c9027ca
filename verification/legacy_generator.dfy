/** The legacy generator's pipeline: building the state table from the
    loaded states, checking there are enough passable states, choosing one
    passable seed per country, growing the countries greedily until none has
    a passable border state left, and rebalancing the values. */
module LegacyGenerator {
  import opened Wrappers
  import opened Archetypes
  import opened Sequences
  import opened TmpStates
  import Draws
  import Limits
  import StateProperties
  import LegacyStates
  import opened LegacyCountries
  import LegacyScores
  import LegacyBalance

  /** The generator: its state table, the number of countries to make, and
      the mean and spread of the target values. */
  datatype Generator = Generator(table: Table, countriesCount: int, valueMean: real, valueStdDev: real)

  /** The table the constructor's loop builds: one entry per id, and for an
      id that occurs more than once the last state with it wins. */
  function Latest(states: seq<TmpState>): map<int, TmpState>
    decreases |states|
  {
    if |states| == 0 then map[]
    else Latest(states[..|states| - 1])[states[|states| - 1].id := states[|states| - 1]]
  }

  /** The table has an entry for exactly the ids some state carries. */
  lemma {:induction false} LatestKeys(states: seq<TmpState>, id: int)
    ensures id in Latest(states) <==> exists i :: 0 <= i < |states| && states[i].id == id
    decreases |states|
  {
    if |states| > 0 {
      var rest := states[..|states| - 1];
      LatestKeys(rest, id);
      assert forall i :: 0 <= i < |rest| ==> rest[i] == states[i];
    }
  }

  /** Position `i` holds the last state with id `id`. */
  predicate LastWith(states: seq<TmpState>, id: int, i: int) {
    0 <= i < |states| && states[i].id == id && forall j :: i < j < |states| ==> states[j].id != id
  }

  /** The table keeps, for each id, the last state that carries it. */
  lemma {:induction false} LatestIsLast(states: seq<TmpState>, id: int)
    requires id in Latest(states)
    ensures exists i :: LastWith(states, id, i) && Latest(states)[id] == states[i]
    decreases |states|
  {
    var n := |states|;
    var rest := states[..n - 1];
    var last := states[n - 1];
    assert Latest(states) == Latest(rest)[last.id := last];
    if last.id == id {
      assert LastWith(states, id, n - 1);
    } else {
      LatestIsLast(rest, id);
      var i :| LastWith(rest, id, i) && Latest(rest)[id] == rest[i];
      assert states[i] == rest[i];
      assert forall j :: i < j < n - 1 ==> states[j] == rest[j];
      assert LastWith(states, id, i);
    }
  }

  /** The entry built for a loaded state: id, impassability, victory points
      and edges copied; the slot count is the archetype's, factories and
      resources are draws from the archetype's ranges, and all stay within
      the ceilings. */
  predicate BuiltFrom(s: LegacyStates.StateMap, t: TmpState) {
    var k := s.props.stateType;
    s.id == t.id && s.isImpassable == t.isImpassable && s.edges == t.adjacencies
    && s.props.victoryPoint == t.victoryPoint && StateProperties.WithinCeilings(s.props)
    && s.props.maxFactories == LegacyStates.MaxFactoriesOf(k, Limits.MaxMaxFactories)
    && Draws.CanDraw(LegacyStates.FactoryRange(k, Limits.MaxMaxFactories).0,
                     LegacyStates.FactoryRange(k, Limits.MaxMaxFactories).1, s.props.factories)
    && Draws.CanDraw(LegacyStates.ResourceRange(k, Limits.MaxResources).0,
                     LegacyStates.ResourceRange(k, Limits.MaxResources).1, s.props.resources)
  }

  /** The ids of the passable states of a table. */
  function PassableIds(m: Table): (r: set<int>)
    ensures forall id :: id in r <==> id in m && !m[id].isImpassable
  {
    set id | id in m && !m[id].isImpassable
  }

  /** The number of distinct ids whose last loaded state is passable. */
  function PassableCount(states: seq<TmpState>): nat {
    var latest := Latest(states);
    |set id | id in latest && !latest[id].isImpassable|
  }

  /** `(StateType)Next(0, 3)`: any archetype. */
  method DrawType() returns (t: StateType) {
    var k := Draws.Next(0, 3);
    t := if k.value == 0 then Industrial else if k.value == 1 then Resource else Balanced;
  }

  /** The constructor: one table entry per loaded state with a drawn
      archetype, the last state winning for a repeated id, followed by
      `ValidateStateCount`, which throws `ArgumentException` when there are
      fewer passable states than countries to make. */
  method New(states: seq<TmpState>, countriesCount: int, valueMean: real, valueStdDev: real)
    returns (r: Result<Generator>)
    ensures r.Failure? <==> PassableCount(states) < countriesCount
    ensures r.Failure? ==> r.error == ArgumentException
    ensures r.Success? ==> r.value.countriesCount == countriesCount
                           && r.value.valueMean == valueMean && r.value.valueStdDev == valueStdDev
    ensures r.Success? ==> r.value.table.Keys == Latest(states).Keys
    ensures r.Success? ==> forall id :: id in r.value.table ==> BuiltFrom(r.value.table[id], Latest(states)[id])
    ensures r.Success? ==> countriesCount <= |PassableIds(r.value.table)|
  {
    var m: Table := map[];
    var i := 0;
    while i < |states|
      invariant 0 <= i <= |states|
      invariant m.Keys == Latest(states[..i]).Keys
      invariant forall id :: id in m ==> BuiltFrom(m[id], Latest(states[..i])[id])
    {
      var t := DrawType();
      var s := LegacyStates.NewStateMap(states[i], t);
      m := m[states[i].id := s];
      assert states[..i + 1][..i] == states[..i];
      i := i + 1;
    }
    assert states[..i] == states;
    var latest := Latest(states);
    assert m.Keys == latest.Keys && forall id :: id in m ==> BuiltFrom(m[id], latest[id]);
    assert PassableIds(m) == set id | id in latest && !latest[id].isImpassable by {
      forall id | id in latest && !latest[id].isImpassable
        ensures id in PassableIds(m)
      {
        assert BuiltFrom(m[id], latest[id]);
      }
      forall id | id in PassableIds(m)
        ensures id in latest && !latest[id].isImpassable
      {
        assert BuiltFrom(m[id], latest[id]);
      }
    }
    if |PassableIds(m)| < countriesCount {
      return Failure(ArgumentException);
    }
    r := Success(Generator(m, countriesCount, valueMean, valueStdDev));
  }

  /** `SelectSeeds`: the passable states in a random order, the first
      `countriesCount` of them (none for a negative count, all when there
      are fewer). */
  method SelectSeeds(g: Generator) returns (seeds: seq<int>)
    ensures Distinct(seeds)
    ensures forall s :: s in seeds ==> s in PassableIds(g.table)
    ensures g.countriesCount <= 0 ==> seeds == []
    ensures 0 <= g.countriesCount <= |PassableIds(g.table)| ==> |seeds| == g.countriesCount
    ensures g.countriesCount > |PassableIds(g.table)| ==> |seeds| == |PassableIds(g.table)|
  {
    var shuffled := Enumerate(PassableIds(g.table));
    var k := if g.countriesCount < 0 then 0 else if g.countriesCount > |shuffled| then |shuffled| else g.countriesCount;
    seeds := shuffled[..k];
    assert forall s :: s in seeds ==> s in shuffled;
  }

  /** A country that lists `id` in its passable border counts towards the
      type match of `id`. */
  lemma {:induction false} ContainingPositive(m: Table, countries: seq<CountryMap>, i: int, id: int)
    requires forall j :: 0 <= j < |countries| ==> countries[j].border <= m.Keys
    requires 0 <= i < |countries| && id in PassableBorder(m, countries[i])
    ensures LegacyScores.Containing(m, countries, id) > 0
    decreases |countries|
  {
    var n := |countries|;
    if i < n - 1 {
      var rest := countries[..n - 1];
      assert rest[i] == countries[i];
      ContainingPositive(m, rest, i, id);
    }
  }

  /** No passable state borders the country: every border state is
      impassable. */
  predicate Exhausted(m: Table, c: CountryMap) {
    forall s :: s in c.border && s in m ==> m[s].isImpassable
  }

  /** What the growth loop keeps true of every country. */
  ghost predicate AllValid(m: Table, countries: seq<CountryMap>) {
    forall j :: 0 <= j < |countries| ==> Valid(m, countries[j])
  }

  /** Valid countries in a closed table have their borders in the table. */
  lemma BordersInTable(m: Table, countries: seq<CountryMap>)
    requires Closed(m) && AllValid(m, countries)
    ensures forall j :: 0 <= j < |countries| ==> countries[j].border <= m.Keys
  {
    forall j | 0 <= j < |countries|
      ensures countries[j].border <= m.Keys
    {
      BorderInTable(m, countries[j]);
    }
  }

  /** `TryExpandCountry` for the `i`-th country: nothing when its passable
      border is empty, otherwise the state `SelectState` picks from that
      border joins it. No other country changes. */
  method TryExpandCountry(m: Table, countries: seq<CountryMap>, i: int)
    returns (expanded: bool, countries': seq<CountryMap>, added: int)
    requires Closed(m) && AllValid(m, countries) && 0 <= i < |countries|
    ensures expanded <==> !Exhausted(m, countries[i])
    ensures !expanded ==> countries' == countries
    ensures |countries'| == |countries| && countries'[i].id == countries[i].id
    ensures forall j :: 0 <= j < |countries| && j != i ==> countries'[j] == countries[j]
    ensures expanded ==> added in PassableIds(m) && added !in countries[i].states
                         && countries'[i].states == countries[i].states + {added}
    ensures AllValid(m, countries')
  {
    BordersInTable(m, countries);
    var border := GetPassableBorder(m, countries[i]);
    var candidates := border.value;
    if |candidates| == 0 {
      return false, countries, countries[i].id;
    }
    assert candidates[0] in candidates;
    forall k | 0 <= k < |candidates|
      ensures candidates[k] in m && LegacyScores.Containing(m, countries, candidates[k]) > 0
    {
      ContainingPositive(m, countries, i, candidates[k]);
    }
    var selected := LegacyScores.SelectState(m, countries, candidates);
    added := selected.value;
    var grown := AddState(m, countries[i], added);
    countries' := countries[i := grown.value];
    expanded := true;
  }

  /** For each country, the passable states it does not hold yet. */
  function Remaining(m: Table, countries: seq<CountryMap>): nat
    decreases |countries|
  {
    if |countries| == 0 then 0 else |PassableIds(m) - countries[0].states| + Remaining(m, countries[1..])
  }

  /** Growing one country by a passable state it lacked shrinks the
      remaining count. */
  lemma {:induction false} RemainingShrinks(m: Table, countries: seq<CountryMap>, i: int, c: CountryMap, added: int)
    requires 0 <= i < |countries|
    requires added in PassableIds(m) && added !in countries[i].states
    requires c.states == countries[i].states + {added}
    ensures Remaining(m, countries[i := c]) < Remaining(m, countries)
    decreases |countries|
  {
    var after := countries[i := c];
    if i == 0 {
      assert after[1..] == countries[1..];
      var p := PassableIds(m);
      assert p - countries[0].states == (p - c.states) + {added};
    } else {
      assert after[1..] == countries[1..][i - 1 := c];
      RemainingShrinks(m, countries[1..], i - 1, c, added);
    }
  }

  /** One sweep of the growth loop: every country in order tries to expand.
      The sweep reports a change exactly when some country grew, which
      shrinks the remaining count; a sweep without a change leaves every
      passable border empty. */
  method Sweep(m: Table, countries: seq<CountryMap>) returns (changed: bool, countries': seq<CountryMap>)
    requires Closed(m) && AllValid(m, countries)
    ensures |countries'| == |countries| && AllValid(m, countries')
    ensures forall j :: 0 <= j < |countries| ==> countries'[j].id == countries[j].id
    ensures changed ==> Remaining(m, countries') < Remaining(m, countries)
    ensures !changed ==> countries' == countries
    ensures !changed ==> forall j :: 0 <= j < |countries'| ==> Exhausted(m, countries'[j])
  {
    changed := false;
    countries' := countries;
    var i := 0;
    while i < |countries|
      invariant 0 <= i <= |countries|
      invariant |countries'| == |countries| && AllValid(m, countries')
      invariant forall j :: 0 <= j < |countries| ==> countries'[j].id == countries[j].id
      invariant changed ==> Remaining(m, countries') < Remaining(m, countries)
      invariant !changed ==> countries' == countries
      invariant !changed ==> forall j :: 0 <= j < i ==> Exhausted(m, countries'[j])
    {
      var expanded, next, added := TryExpandCountry(m, countries', i);
      if expanded {
        RemainingShrinks(m, countries', i, next[i], added);
        assert next == countries'[i := next[i]];
        changed := true;
      }
      countries' := next;
      i := i + 1;
    }
  }

  /** The countries the growth loop produces: seeded at `seeds`, valid, and
      with no passable border state left. */
  ghost predicate Grown(m: Table, seeds: seq<int>, countries: seq<CountryMap>) {
    |countries| == |seeds|
    && (forall j :: 0 <= j < |seeds| ==> countries[j].id == seeds[j])
    && AllValid(m, countries)
    && (forall j :: 0 <= j < |countries| ==> Exhausted(m, countries[j]))
  }

  /** A country per seed, in order: `seeds.Select(n => new CountryMap(n))`. */
  method SeedCountries(m: Table, seeds: seq<int>) returns (countries: seq<CountryMap>)
    requires forall s :: s in seeds ==> s in m
    ensures |countries| == |seeds| && AllValid(m, countries)
    ensures forall j :: 0 <= j < |seeds| ==> countries[j].id == seeds[j] && countries[j].states == {seeds[j]}
  {
    countries := [];
    var i := 0;
    while i < |seeds|
      invariant 0 <= i <= |seeds| && |countries| == i
      invariant forall j :: 0 <= j < i ==> countries[j].id == seeds[j] && countries[j].states == {seeds[j]}
      invariant AllValid(m, countries)
    {
      assert seeds[i] in seeds;
      var c := LegacyCountries.New(m, seeds[i]);
      countries := countries + [c.value];
      i := i + 1;
    }
  }

  /** The growth loop: a country per seed, then sweeps until a sweep changes
      nothing. Each sweep that changes something gives some country a
      passable state it lacked, so the loop ends. */
  method Grow(m: Table, seeds: seq<int>) returns (countries: seq<CountryMap>)
    requires Closed(m) && forall s :: s in seeds ==> s in m
    ensures Grown(m, seeds, countries)
  {
    countries := SeedCountries(m, seeds);
    var changed := true;
    while changed
      invariant |countries| == |seeds| && AllValid(m, countries)
      invariant forall j :: 0 <= j < |seeds| ==> countries[j].id == seeds[j]
      invariant !changed ==> forall j :: 0 <= j < |countries| ==> Exhausted(m, countries[j])
      decreases Remaining(m, countries) + (if changed then 1 else 0)
    {
      changed, countries := Sweep(m, countries);
    }
  }

  /** `Divide`: seeds, growth and rebalancing. The normal draws the target
      values come from are a parameter, one per country; they are sorted
      before use, as `GenerateNormalDistribution` does. The ghost results
      record the rebalancing: `targetOrder` sorts the draws, `ranking` sorts
      the grown countries by value, and `tables` holds the table before each
      step, step `i` adjusting country `ranking[i]` against the `i`-th
      smallest draw. */
  method Divide(g: Generator, gaussians: seq<real>)
    returns (countries: seq<CountryMap>, table: Table,
             ghost targetOrder: seq<int>, ghost ranking: seq<int>, ghost tables: seq<Table>)
    requires Closed(g.table) && g.countriesCount <= |PassableIds(g.table)|
    requires |gaussians| == (if g.countriesCount < 0 then 0 else g.countriesCount)
    ensures |countries| == |gaussians|
    ensures Distinct(seq(|countries|, j requires 0 <= j < |countries| => countries[j].id))
    ensures forall j :: 0 <= j < |countries| ==> countries[j].id in PassableIds(g.table)
    ensures Grown(g.table, seq(|countries|, j requires 0 <= j < |countries| => countries[j].id), countries)
    ensures |targetOrder| == |gaussians| && Distinct(targetOrder) && LegacyBalance.StablySorted(gaussians, targetOrder)
    ensures |ranking| == |countries| && Distinct(ranking) && (forall j :: j in ranking <==> 0 <= j < |countries|)
    ensures LegacyBalance.StablySorted(seq(|countries|, j requires 0 <= j < |countries| => Stats.SetSum(countries[j].states, Values(g.table))), ranking)
    ensures |tables| == |countries| + 1 && tables[0] == g.table && tables[|countries|] == table
    ensures forall i :: 0 <= i < |countries| ==>
              tables[i].Keys == g.table.Keys
              && LegacyBalance.AdjustedCountry(tables[i], countries[ranking[i]], gaussians[targetOrder[i]], tables[i + 1])
    ensures table.Keys == g.table.Keys
    ensures forall id :: id in g.table ==> LegacyBalance.SameShape(g.table[id], table[id])
    ensures forall id :: id in g.table && g.table[id].isImpassable ==> table[id] == g.table[id]
    ensures forall id :: id in g.table && table[id] != g.table[id] ==> LegacyBalance.Clamped(table[id])
  {
    var seeds := SelectSeeds(g);
    countries := Grow(g.table, seeds);
    assert seq(|countries|, j requires 0 <= j < |countries| => countries[j].id) == seeds;
    var order := LegacyBalance.SortByValue(gaussians);
    var targets := seq(|order|, k requires 0 <= k < |order| => gaussians[order[k]]);
    targetOrder := order;
    table, ranking, tables := LegacyBalance.ApplyValueDistribution(g.table, countries, targets);
  }

  /** A grown country holds every passable neighbour of each member: the
      legacy border does not exclude states other countries hold, so growth
      only stops once the whole passable region around the seed is taken. */
  lemma GrownIsClosed(m: Table, c: CountryMap, v: int, w: int)
    requires Valid(m, c) && Exhausted(m, c)
    requires v in c.states && w in m[v].edges && w in m && !m[w].isImpassable
    ensures w in c.states
  {
    var g := Adjacent(m);
    assert v in g && w in g[v];
    assert w in Graph.Successors(g);
    assert Graph.HasPredecessorIn(g, c.states, w);
  }

  /** Two adjacent passable states seeded as two countries: once grown,
      both countries hold both states. */
  lemma SharedStates(m: Table, countries: seq<CountryMap>)
    requires m.Keys == {1, 2} && m[1].edges == {2} && m[2].edges == {1}
    requires !m[1].isImpassable && !m[2].isImpassable
    requires Grown(m, [1, 2], countries)
    ensures countries[0].states == {1, 2} && countries[1].states == {1, 2}
  {
    assert Valid(m, countries[0]) && Valid(m, countries[1]);
    GrownIsClosed(m, countries[0], 1, 2);
    GrownIsClosed(m, countries[1], 2, 1);
  }
}
