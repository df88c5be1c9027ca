/** The legacy generator's `Validator`: the same three checks as the newer
    validator, over the legacy countries and the generator's state table. */
module LegacyValidator {
  import opened Wrappers
  import opened Archetypes
  import Graph
  import Bfs
  import Stats
  import TypeHistogram
  import opened LegacyCountries

  /** The edges the connectivity search may follow for country `c`: from any
      state to a neighbour that is a member of `c` or impassable. */
  function ConnGraph(m: Table, c: CountryMap): (g: Graph.Adjacency)
    requires Closed(m)
    ensures g.Keys == m.Keys
    ensures forall v, u :: v in m && u in m[v].edges ==> (u in g[v] <==> u in c.states || m[u].isImpassable)
    ensures forall v :: v in g ==> g[v] <= m[v].edges
    ensures Graph.Closed(g)
  {
    map v | v in m :: set u | u in m[v].edges && (u in c.states || m[u].isImpassable)
  }

  /** The states the search from the country's seed reaches. */
  ghost function Reached(m: Table, c: CountryMap): set<int>
    requires Closed(m)
  {
    Graph.Closure(ConnGraph(m, c), c.id)
  }

  /** `CheckConnectivity`: a breadth-first search from each country's seed;
      false as soon as the number of states reached differs from the
      country's number of states. */
  method CheckConnectivity(countries: seq<CountryMap>, m: Table) returns (connected: bool)
    requires Closed(m)
    requires forall i :: 0 <= i < |countries| ==> countries[i].id in m
    ensures connected <==> forall i :: 0 <= i < |countries| ==> |Reached(m, countries[i])| == StateCount(countries[i])
    ensures |countries| == 0 ==> connected
  {
    var i := 0;
    while i < |countries|
      invariant 0 <= i <= |countries|
      invariant forall j :: 0 <= j < i ==> |Reached(m, countries[j])| == StateCount(countries[j])
    {
      var visited := Bfs.VisitAll(ConnGraph(m, countries[i]), countries[i].id);
      if |visited| != StateCount(countries[i]) {
        return false;
      }
      i := i + 1;
    }
    return true;
  }

  /** The search stays within the seed, the members and the impassable
      states. */
  lemma ReachedWithin(m: Table, c: CountryMap)
    requires Closed(m)
    ensures forall v :: v in Reached(m, c) ==> v == c.id || v in c.states || (v in m && m[v].isImpassable)
  {
    var g := ConnGraph(m, c);
    var allowed := {c.id} + (set v | v in m && (v in c.states || m[v].isImpassable));
    forall v | v in Reached(m, c)
      ensures v in allowed
    {
      var k: nat :| v in Graph.Reach(g, c.id, k);
      Graph.ClosedSetHoldsReach(g, c.id, allowed, k);
    }
  }

  /** For a valid country in a table with no impassable state outside it,
      the count check passes exactly when every member is reached. */
  lemma ConnectedIffMembersReached(m: Table, c: CountryMap)
    requires Closed(m) && c.id in c.states && c.states <= m.Keys
    requires forall v :: v in m && m[v].isImpassable ==> v in c.states
    ensures |Reached(m, c)| == StateCount(c) <==> c.states <= Reached(m, c)
  {
    ReachedWithin(m, c);
    var r := Reached(m, c);
    assert r <= c.states;
    if !(c.states <= r) {
      var x :| x in c.states && x !in r;
      Stats.ProperSubsetSmaller(r, c.states, x);
    }
    if c.states <= r {
      assert r == c.states;
    }
  }

  /** The archetype of each country, in order. */
  function TypesOf(countries: seq<CountryMap>): (r: seq<CountryType>)
    ensures |r| == |countries|
    ensures forall i :: 0 <= i < |countries| ==> r[i] == countries[i].countryType
  {
    seq(|countries|, i requires 0 <= i < |countries| => countries[i].countryType)
  }

  /** `GetTypeDistribution`: the number of countries of each archetype that
      occurs. */
  method GetTypeDistribution(countries: seq<CountryMap>) returns (d: map<CountryType, nat>)
    ensures forall t :: t in d <==> exists i :: 0 <= i < |countries| && countries[i].countryType == t
    ensures forall t :: t in d ==> d[t] >= 1 && d[t] == TypeHistogram.Count(TypesOf(countries), t)
    ensures TypeHistogram.Entry(d, CountryIndustrial) + TypeHistogram.Entry(d, CountryResource)
            + TypeHistogram.Entry(d, CountryBalanced) == |countries|
  {
    var types := TypesOf(countries);
    d := TypeHistogram.Histogram(types);
    forall t | t in d
      ensures exists i :: 0 <= i < |countries| && countries[i].countryType == t
    {
      var i :| 0 <= i < |types| && types[i] == t;
    }
  }

  /** Every country's members are in the table. */
  predicate InTable(countries: seq<CountryMap>, m: Table) {
    forall i :: 0 <= i < |countries| ==> countries[i].states <= m.Keys
  }

  /** The value of each country, in order. */
  ghost function CountryValues(countries: seq<CountryMap>, m: Table): seq<real>
    requires InTable(countries, m)
  {
    seq(|countries|, i requires 0 <= i < |countries| => Stats.SetSum(countries[i].states, Values(m)))
  }

  /** Every country has the value of the first. */
  ghost predicate AllValuesEqual(countries: seq<CountryMap>, m: Table)
    requires InTable(countries, m)
  {
    forall i :: 0 <= i < |countries| ==>
      Stats.SetSum(countries[i].states, Values(m)) == Stats.SetSum(countries[0].states, Values(m))
  }

  /** `CalculateValueStdDev` without the square root: the population
      variance of the country values. A member missing from the table throws
      `KeyNotFoundException` while the values are collected; `Average` throws
      on no countries. */
  method ValueSpread(countries: seq<CountryMap>, m: Table) returns (r: Result<real>)
    ensures r.Failure? <==> |countries| == 0 || !InTable(countries, m)
    ensures r.Failure? ==> r.error == (if |countries| == 0 then InvalidOperation else KeyNotFound)
    ensures r.Success? ==> r.value >= 0.0
    ensures r.Success? && AllValuesEqual(countries, m) ==> r.value == 0.0
    ensures r.Success? ==> r == Stats.Variance(CountryValues(countries, m))
  {
    var values: seq<real> := [];
    var i := 0;
    while i < |countries|
      invariant 0 <= i <= |countries| && |values| == i
      invariant InTable(countries[..i], m)
      invariant forall j :: 0 <= j < i ==> values[j] == Stats.SetSum(countries[j].states, Values(m))
    {
      var v := GetValue(m, countries[i]);
      if v.Failure? {
        return Failure(KeyNotFound);
      }
      values := values + [v.value];
      i := i + 1;
    }
    assert countries[..i] == countries;
    assert values == CountryValues(countries, m);
    r := Stats.Variance(values);
    if |countries| > 0 && AllValuesEqual(countries, m) {
      Stats.EqualValuesNoVariance(values);
    }
  }

  /** The three results of `Validate`. */
  datatype ValidatorResult = ValidatorResult(isConnected: bool, valueSpread: real, countryTypeDistribution: map<CountryType, nat>)

  /** `Validate`: connectivity, value spread and archetype histogram; it
      throws where the spread does. */
  method Validate(countries: seq<CountryMap>, m: Table) returns (r: Result<ValidatorResult>)
    requires Closed(m)
    requires forall i :: 0 <= i < |countries| ==> countries[i].id in m
    ensures r.Failure? <==> |countries| == 0 || !InTable(countries, m)
    ensures r.Success? ==>
              (r.value.isConnected <==> forall i :: 0 <= i < |countries| ==> |Reached(m, countries[i])| == StateCount(countries[i]))
    ensures r.Success? ==> r.value.valueSpread >= 0.0
    ensures r.Success? ==> Stats.Variance(CountryValues(countries, m)) == Success(r.value.valueSpread)
    ensures r.Success? ==> forall t :: t in r.value.countryTypeDistribution ==>
                             r.value.countryTypeDistribution[t] == TypeHistogram.Count(TypesOf(countries), t)
  {
    var connected := CheckConnectivity(countries, m);
    var spread := ValueSpread(countries, m);
    if spread.Failure? {
      return Failure(spread.error);
    }
    var distribution := GetTypeDistribution(countries);
    r := Success(ValidatorResult(connected, spread.value, distribution));
  }
}
