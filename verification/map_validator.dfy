/** The checks the object-based generator runs over a finished partition: is
    every country connected through its own and impassable states, how far do
    the country values spread, and how many countries has each archetype. */
module MapValidators {
  import opened Wrappers
  import opened Archetypes
  import Graph
  import Bfs
  import Stats
  import CountryInfos
  import TypeHistogram

  type World = CountryInfos.World
  type Country = CountryInfos.Country

  /** The edges the connectivity search may follow for country `c`: from any
      state to an adjacent state that is a member of `c` or impassable. */
  function ConnGraph(w: World, c: Country): (g: Graph.Adjacency)
    requires CountryInfos.Closed(w)
    ensures g.Keys == w.Keys
    ensures forall v, u :: v in w && u in w[v].adjacent ==> (u in g[v] <==> u in c.states || w[u].isImpassable)
    ensures forall v :: v in g ==> g[v] <= w[v].adjacent
  {
    map v | v in w :: set u | u in w[v].adjacent && (u in c.states || w[u].isImpassable)
  }

  /** The states the search from `c`'s initial state reaches. */
  ghost function Reached(w: World, c: Country): set<int>
    requires CountryInfos.Closed(w)
  {
    Graph.Closure(ConnGraph(w, c), c.initialId)
  }

  /** `CheckConnectivity`: for each country in turn, a breadth-first search
      from its initial state; the answer is false as soon as the number of
      states reached differs from the country's number of states. */
  method CheckConnectivity(countries: seq<Country>, w: World) returns (connected: bool)
    requires CountryInfos.Closed(w)
    requires forall i :: 0 <= i < |countries| ==> countries[i].initialId in w
    ensures connected <==> forall i :: 0 <= i < |countries| ==> |Reached(w, countries[i])| == |countries[i].states|
    ensures |countries| == 0 ==> connected
  {
    var i := 0;
    while i < |countries|
      invariant 0 <= i <= |countries|
      invariant forall j :: 0 <= j < i ==> |Reached(w, countries[j])| == |countries[j].states|
    {
      var g := ConnGraph(w, countries[i]);
      ClosedConnGraph(w, countries[i]);
      var visited := Bfs.VisitAll(g, countries[i].initialId);
      if |visited| != |countries[i].states| {
        return false;
      }
      i := i + 1;
    }
    return true;
  }

  lemma ClosedConnGraph(w: World, c: Country)
    requires CountryInfos.Closed(w)
    ensures Graph.Closed(ConnGraph(w, c))
  {
  }

  /** The search never leaves the initial state, the members and the
      impassable states. */
  lemma ReachedWithin(w: World, c: Country)
    requires CountryInfos.Closed(w)
    ensures forall v :: v in Reached(w, c) ==> v == c.initialId || v in c.states || (v in w && w[v].isImpassable)
  {
    var g := ConnGraph(w, c);
    var allowed := {c.initialId} + (set v | v in w && (v in c.states || w[v].isImpassable));
    forall v | v in Reached(w, c)
      ensures v in allowed
    {
      var k: nat :| v in Graph.Reach(g, c.initialId, k);
      Graph.ClosedSetHoldsReach(g, c.initialId, allowed, k);
    }
  }

  /** For a country that starts at one of its states and has no impassable
      neighbour to wander into, the count check passes exactly when every
      member is reached. */
  lemma ConnectedIffMembersReached(w: World, c: Country)
    requires CountryInfos.Closed(w)
    requires c.initialId in c.states && c.states <= w.Keys
    requires forall v :: v in w && w[v].isImpassable ==> v in c.states
    ensures |Reached(w, c)| == |c.states| <==> c.states <= Reached(w, c)
  {
    ReachedWithin(w, c);
    var r := Reached(w, c);
    assert r <= c.states;
    if !(c.states <= r) {
      var x :| x in c.states && x !in r;
      Stats.ProperSubsetSmaller(r, c.states, x);
    }
    if c.states <= r {
      assert r == c.states;
    }
  }

  /** The archetype of each country, in order. */
  function TypesOf(countries: seq<Country>): (r: seq<CountryType>)
    ensures |r| == |countries|
    ensures forall i :: 0 <= i < |countries| ==> r[i] == countries[i].countryType
  {
    seq(|countries|, i requires 0 <= i < |countries| => countries[i].countryType)
  }

  /** `GetTypeDistribution`: how many countries have each archetype, with an
      entry only for the archetypes that occur. */
  method GetTypeDistribution(countries: seq<Country>) returns (d: map<CountryType, nat>)
    ensures forall t :: t in d <==> exists i :: 0 <= i < |countries| && countries[i].countryType == t
    ensures forall t :: t in d ==> d[t] >= 1 && d[t] == TypeHistogram.Count(TypesOf(countries), t)
    ensures TypeHistogram.Entry(d, CountryIndustrial) + TypeHistogram.Entry(d, CountryResource)
            + TypeHistogram.Entry(d, CountryBalanced) == |countries|
  {
    var types := TypesOf(countries);
    d := TypeHistogram.Histogram(types);
    forall t | t in d
      ensures exists i :: 0 <= i < |countries| && countries[i].countryType == t
    {
      var i :| 0 <= i < |types| && types[i] == t;
    }
  }

  /** `CalculateValueStdDev` without the final square root: the population
      variance of the country values. LINQ's `Average` throws on no
      countries. */
  method ValueSpread(countries: seq<Country>, w: World) returns (r: Result<real>)
    requires forall i :: 0 <= i < |countries| ==> countries[i].states <= w.Keys
    ensures r.Failure? <==> |countries| == 0
    ensures r.Failure? ==> r.error == InvalidOperation
    ensures r.Success? ==> r.value >= 0.0
    ensures r.Success? && AllValuesEqual(countries, w) ==> r.value == 0.0
    ensures r == Stats.Variance(CountryValues(countries, w))
  {
    var values: seq<real> := [];
    var i := 0;
    while i < |countries|
      invariant 0 <= i <= |countries|
      invariant |values| == i
      invariant forall j :: 0 <= j < i ==> values[j] == Stats.SetSum(countries[j].states, CountryInfos.Values(w))
    {
      var v := CountryInfos.GetValue(w, countries[i]);
      values := values + [v];
      i := i + 1;
    }
    assert values == CountryValues(countries, w);
    r := Stats.Variance(values);
    if |countries| > 0 && AllValuesEqual(countries, w) {
      assert forall j :: 0 <= j < |values| ==> values[j] == values[0];
      Stats.EqualValuesNoVariance(values);
    }
  }

  /** The value of each country, in order. */
  ghost function CountryValues(countries: seq<Country>, w: World): seq<real>
    requires forall i :: 0 <= i < |countries| ==> countries[i].states <= w.Keys
  {
    seq(|countries|, i requires 0 <= i < |countries| => Stats.SetSum(countries[i].states, CountryInfos.Values(w)))
  }

  /** Every country has the value of the first. */
  ghost predicate AllValuesEqual(countries: seq<Country>, w: World)
    requires forall i :: 0 <= i < |countries| ==> countries[i].states <= w.Keys
  {
    forall i :: 0 <= i < |countries| ==>
      Stats.SetSum(countries[i].states, CountryInfos.Values(w)) == Stats.SetSum(countries[0].states, CountryInfos.Values(w))
  }

  /** The three results of `Validate`. */
  datatype ValidatorResult = ValidatorResult(isConnected: bool, valueSpread: real, countryTypeDistribution: map<CountryType, nat>)

  /** `Validate`: connectivity, value spread and archetype histogram. It
      fails exactly when there are no countries, where the spread throws. */
  method Validate(countries: seq<Country>, w: World) returns (r: Result<ValidatorResult>)
    requires CountryInfos.Closed(w)
    requires forall i :: 0 <= i < |countries| ==> countries[i].initialId in w && countries[i].states <= w.Keys
    ensures r.Failure? <==> |countries| == 0
    ensures r.Success? ==>
              (r.value.isConnected <==> forall i :: 0 <= i < |countries| ==> |Reached(w, countries[i])| == |countries[i].states|)
    ensures r.Success? ==> r.value.valueSpread >= 0.0
    ensures r.Success? ==> Stats.Variance(CountryValues(countries, w)) == Success(r.value.valueSpread)
    ensures r.Success? ==> forall t :: t in r.value.countryTypeDistribution ==> r.value.countryTypeDistribution[t] == TypeHistogram.Count(TypesOf(countries), t)
  {
    var connected := CheckConnectivity(countries, w);
    var spread := ValueSpread(countries, w);
    if spread.Failure? {
      return Failure(spread.error);
    }
    var distribution := GetTypeDistribution(countries);
    r := Success(ValidatorResult(connected, spread.value, distribution));
  }
}
