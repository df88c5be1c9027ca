/** The country of the legacy generator: member ids and a border of ids,
    with all state data looked up in the generator's table. Unlike the newer
    id-based country, its border does not exclude states other countries own.
    A lookup of an id the table lacks throws `KeyNotFoundException`. */
module LegacyCountries {
  import opened Wrappers
  import opened Archetypes
  import opened Sequences
  import Graph
  import Stats
  import LegacyStates

  /** The generator's table of states, keyed by id. */
  type Table = map<int, LegacyStates.StateMap>

  datatype CountryMap = CountryMap(id: int, countryType: CountryType, states: set<int>, border: set<int>)

  /** The table's edges as a successor map. */
  function Adjacent(m: Table): (g: Graph.Adjacency)
    ensures g.Keys == m.Keys
    ensures forall id :: id in m ==> g[id] == m[id].edges
  {
    map id | id in m :: m[id].edges
  }

  function Types(m: Table): (t: map<int, StateType>)
    ensures t.Keys == m.Keys
    ensures forall id :: id in m ==> t[id] == m[id].props.stateType
  {
    map id | id in m :: m[id].props.stateType
  }

  /** The value of every state, zero for impassable ones. */
  function Values(m: Table): (v: map<int, real>)
    ensures v.Keys == m.Keys
    ensures forall id :: id in m ==> v[id] == LegacyStates.GetValue(m[id])
  {
    map id | id in m :: LegacyStates.GetValue(m[id])
  }

  /** Every edge leads to a state of the table. */
  predicate Closed(m: Table) {
    forall id :: id in m ==> m[id].edges <= m.Keys
  }

  /** The border a country must have: the states next to a member that are
      not members. */
  predicate BorderExact(m: Table, c: CountryMap) {
    c.border == Graph.Step(Adjacent(m), c.states) - c.states
  }

  ghost predicate TypeAgrees(m: Table, c: CountryMap)
    requires c.states <= m.Keys
  {
    exists t :: MostFrequent(c.states, Types(m), t) && c.countryType == ToCountryType(t)
  }

  /** What every country of the generator keeps true: its seed is a member,
      its members are in the table, its border is exact and its archetype is
      a majority archetype. */
  ghost predicate Valid(m: Table, c: CountryMap) {
    c.id in c.states && c.states <= m.Keys && BorderExact(m, c) && TypeAgrees(m, c)
  }

  /** `UpdateBorders` after `added` joined `states`: the added state's edges
      to non-members join the border, and the added state leaves it. */
  function UpdateBorders(border: set<int>, states: set<int>, added: int, edges: set<int>): (r: set<int>)
    ensures forall s :: s in r <==> (s in border || (s in edges && s !in states)) && s != added
  {
    (border + (set e | e in edges && e !in states)) - {added}
  }

  /** The incremental update keeps the border exact. */
  lemma BorderStaysExact(m: Table, c: CountryMap, added: int)
    requires added in m
    ensures BorderExact(m, c) ==>
              UpdateBorders(c.border, c.states + {added}, added, m[added].edges)
              == Graph.Step(Adjacent(m), c.states + {added}) - (c.states + {added})
  {
    Graph.StepInsert(Adjacent(m), c.states, added);
  }

  /** `UpdateCountryType`: the country archetype of the archetype with the
      most members; every member is looked up in the table. */
  function UpdateCountryType(m: Table, c: CountryMap): (r: Result<CountryMap>)
    requires c.states != {}
    ensures r.Failure? <==> !(c.states <= m.Keys)
    ensures r.Failure? ==> r.error == KeyNotFound
    ensures r.Success? ==> r.value == c.(countryType := r.value.countryType) && TypeAgrees(m, r.value)
  {
    if !(c.states <= m.Keys) then Failure(KeyNotFound)
    else Success(c.(countryType := ToCountryType(Majority(c.states, Types(m)))))
  }

  /** `AddState`: the id joins the members, the border gains the new state's
      edges to non-members and loses the new state, and the archetype is
      recomputed. */
  function AddState(m: Table, c: CountryMap, added: int): (r: Result<CountryMap>)
    ensures r.Failure? <==> !(c.states + {added} <= m.Keys)
    ensures r.Failure? ==> r.error == KeyNotFound
    ensures r.Success? ==> r.value.id == c.id && r.value.states == c.states + {added}
    ensures r.Success? ==> added !in r.value.border && r.value.border <= c.border + m[added].edges
    ensures r.Success? && BorderExact(m, c) ==> BorderExact(m, r.value)
    ensures r.Success? && Valid(m, c) ==> Valid(m, r.value)
    ensures r.Success? ==> TypeAgrees(m, r.value)
  {
    if added !in m then Failure(KeyNotFound)
    else
      var states := c.states + {added};
      BorderStaysExact(m, c, added);
      UpdateCountryType(m, c.(states := states, border := UpdateBorders(c.border, states, added, m[added].edges)))
  }

  /** The constructor: the seed names the country and is its only member. */
  function New(m: Table, seed: int): (r: Result<CountryMap>)
    ensures r.Failure? <==> seed !in m
    ensures r.Success? ==> r.value.id == seed && r.value.states == {seed}
    ensures r.Success? ==> r.value.border == m[seed].edges - {seed}
    ensures r.Success? ==> Valid(m, r.value)
  {
    var empty := CountryMap(seed, CountryIndustrial, {}, {});
    assert Graph.Step(Adjacent(m), {}) == {};
    if seed in m then
      Graph.StepSingleton(Adjacent(m), seed);
      AddState(m, empty, seed)
    else
      AddState(m, empty, seed)
  }

  /** The passable border states, as a set. */
  function PassableBorder(m: Table, c: CountryMap): (r: set<int>)
    requires c.border <= m.Keys
    ensures forall s :: s in r <==> s in c.border && !m[s].isImpassable
  {
    set s | s in c.border && !m[s].isImpassable
  }

  /** `GetPassableBorder`: the border states that are not impassable, in the
      hash set's order. Every border state is looked up in the table. */
  method GetPassableBorder(m: Table, c: CountryMap) returns (r: Result<seq<int>>)
    ensures r.Failure? <==> !(c.border <= m.Keys)
    ensures r.Failure? ==> r.error == KeyNotFound
    ensures r.Success? ==> forall s :: s in r.value <==> s in c.border && !m[s].isImpassable
    ensures r.Success? ==> Distinct(r.value)
    ensures r.Success? && BorderExact(m, c) ==>
              forall s :: s in r.value <==> s in Graph.Step(Adjacent(m), c.states) && s !in c.states && !m[s].isImpassable
  {
    if !(c.border <= m.Keys) {
      return Failure(KeyNotFound);
    }
    var passable := Enumerate(PassableBorder(m, c));
    r := Success(passable);
  }

  /** In a closed table a valid country's border is in the table, so asking
      for the passable border never fails. */
  lemma BorderInTable(m: Table, c: CountryMap)
    requires Closed(m) && c.states <= m.Keys && BorderExact(m, c)
    ensures c.border <= m.Keys
  {
    forall s | s in c.border
      ensures s in m
    {
      var v :| v in c.states && v in Adjacent(m) && s in Adjacent(m)[v];
    }
  }

  /** `GetValue`: the sum of the members' values. */
  method GetValue(m: Table, c: CountryMap) returns (r: Result<real>)
    ensures r.Failure? <==> !(c.states <= m.Keys)
    ensures r.Failure? ==> r.error == KeyNotFound
    ensures r.Success? ==> r.value == Stats.SetSum(c.states, Values(m))
  {
    if !(c.states <= m.Keys) {
      return Failure(KeyNotFound);
    }
    var total := Stats.SumOver(c.states, Values(m));
    r := Success(total);
  }

  /** `StateCount`. */
  function StateCount(c: CountryMap): nat {
    |c.states|
  }

  /** Adding a member again changes neither the members nor the count. */
  lemma AddMemberAgain(m: Table, c: CountryMap, added: int)
    requires added in c.states
    requires AddState(m, c, added).Success?
    ensures AddState(m, c, added).value.states == c.states
    ensures StateCount(AddState(m, c, added).value) == StateCount(c)
  {
    assert c.states + {added} == c.states;
  }
}
