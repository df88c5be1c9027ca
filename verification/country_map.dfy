/** The id-based country of the object-based generator. A country holds the ids
    of its states and a border of state ids; all state data is looked up in a
    shared table of state infos, and states another country already occupies
    never enter the border. A lookup of an id the table lacks throws
    `KeyNotFoundException`. */
module CountryMaps {
  import opened Wrappers
  import opened Archetypes
  import opened Sequences
  import Graph
  import Stats
  import StateInfos

  /** The shared table of state infos, keyed by state id. */
  type StateTable = map<int, StateInfos.StateInfo>

  datatype CountryMap = CountryMap(id: int, countryType: CountryType, states: set<int>, border: set<int>)

  /** The states named in an edge list. */
  function EdgeSet(edges: seq<int>): (r: set<int>)
    ensures forall e :: e in r <==> e in edges
  {
    set e | e in edges
  }

  /** The table's adjacency as a successor map. */
  function Adjacent(m: StateTable): (g: Graph.Adjacency)
    ensures g.Keys == m.Keys
    ensures forall id :: id in m ==> g[id] == EdgeSet(m[id].edges)
  {
    map id | id in m :: EdgeSet(m[id].edges)
  }

  function Types(m: StateTable): (t: map<int, StateType>)
    ensures t.Keys == m.Keys
    ensures forall id :: id in m ==> t[id] == m[id].props.stateType
  {
    map id | id in m :: m[id].props.stateType
  }

  /** The value of every state, zero for impassable ones. */
  function Values(m: StateTable): (v: map<int, real>)
    ensures v.Keys == m.Keys
    ensures forall id :: id in m ==> v[id] == StateInfos.GetValue(m[id])
  {
    map id | id in m :: StateInfos.GetValue(m[id])
  }

  /** `StateCount`. */
  function StateCount(c: CountryMap): nat {
    |c.states|
  }

  /** The border a country must have: the states next to a member that are
      neither members nor occupied. */
  predicate BorderExact(m: StateTable, c: CountryMap, occupied: set<int>) {
    c.border == Graph.Step(Adjacent(m), c.states) - c.states - occupied
  }

  /** The country's archetype belongs to a most frequent archetype among its
      states. */
  ghost predicate TypeAgrees(m: StateTable, c: CountryMap)
    requires c.states <= m.Keys
  {
    exists t :: MostFrequent(c.states, Types(m), t) && c.countryType == ToCountryType(t)
  }

  /** `UpdateBorders` after `added` joined `states`: the added state's edges
      to states that are neither members nor occupied join the border, then
      the added state and every occupied state leave it. */
  function UpdateBorders(border: set<int>, states: set<int>, occupied: set<int>, added: int, edges: seq<int>): (r: set<int>)
    ensures forall s :: s in r <==> (s in border || (s in edges && s !in states)) && s != added && s !in occupied
  {
    var grown := border + (set e | e in edges && e !in states && e !in occupied);
    var pruned := grown - {added};
    pruned - (set e | e in pruned && e in occupied)
  }

  /** When the occupied set has only grown, the incremental update keeps the
      border exact. */
  lemma BorderStaysExact(m: StateTable, c: CountryMap, before: set<int>, occupied: set<int>, added: int)
    requires added in m
    requires before <= occupied
    ensures BorderExact(m, c, before) ==>
              UpdateBorders(c.border, c.states + {added}, occupied, added, m[added].edges)
              == Graph.Step(Adjacent(m), c.states + {added}) - (c.states + {added}) - occupied
  {
    Graph.StepInsert(Adjacent(m), c.states, added);
  }

  /** `UpdateCountryType`: the country archetype of the archetype with the
      most members. The table lookup of every member fails on a missing id,
      and `First` fails on a country without states. */
  function UpdateCountryType(m: StateTable, c: CountryMap): (r: Result<CountryMap>)
    ensures r.Failure? <==> c.states == {} || !(c.states <= m.Keys)
    ensures r.Failure? && c.states != {} ==> r.error == KeyNotFound
    ensures r.Failure? && c.states == {} ==> r.error == InvalidOperation
    ensures r.Success? ==> r.value == c.(countryType := r.value.countryType) && TypeAgrees(m, r.value)
  {
    if !(c.states <= m.Keys) then Failure(KeyNotFound)
    else if c.states == {} then Failure(InvalidOperation)
    else Success(c.(countryType := ToCountryType(Majority(c.states, Types(m)))))
  }

  /** `AddState`: the id joins the members (a set, so adding a member again
      changes nothing there), then the border and the archetype are updated.
      Every member must be in the table. */
  function AddState(m: StateTable, c: CountryMap, occupied: set<int>, added: int): (r: Result<CountryMap>)
    ensures r.Failure? <==> !(c.states + {added} <= m.Keys)
    ensures r.Failure? ==> r.error == KeyNotFound
    ensures r.Success? ==> r.value.id == c.id && r.value.states == c.states + {added}
    ensures r.Success? ==> added !in r.value.border && r.value.border * occupied == {}
    ensures r.Success? && c.border * c.states == {} ==> r.value.border * r.value.states == {}
    ensures r.Success? ==> r.value.border <= c.border + EdgeSet(m[added].edges)
    ensures r.Success? && added in c.states ==> r.value.states == c.states && StateCount(r.value) == StateCount(c)
    ensures r.Success? ==> TypeAgrees(m, r.value)
  {
    if added !in m then Failure(KeyNotFound)
    else
      var states := c.states + {added};
      UpdateCountryType(m, c.(states := states, border := UpdateBorders(c.border, states, occupied, added, m[added].edges)))
  }

  /** An addition keeps the border exact when the occupied set has only grown
      since the last update. */
  lemma AddStateKeepsBorderExact(m: StateTable, c: CountryMap, before: set<int>, occupied: set<int>, added: int)
    requires before <= occupied
    requires BorderExact(m, c, before)
    requires AddState(m, c, occupied, added).Success?
    ensures BorderExact(m, AddState(m, c, occupied, added).value, occupied)
  {
    BorderStaysExact(m, c, before, occupied, added);
  }

  /** The constructor: the initial state names the country and is its only
      member. */
  function New(m: StateTable, occupied: set<int>, initial: int): (r: Result<CountryMap>)
    ensures r.Failure? <==> initial !in m
    ensures r.Success? ==> r.value.id == initial && r.value.states == {initial}
    ensures r.Success? ==> BorderExact(m, r.value, occupied)
    ensures r.Success? ==> TypeAgrees(m, r.value)
  {
    var empty := CountryMap(initial, CountryIndustrial, {}, {});
    assert Graph.Step(Adjacent(m), {}) == {};
    var r := AddState(m, empty, occupied, initial);
    if initial in m then
      AddStateKeepsBorderExact(m, empty, {}, occupied, initial);
      r
    else
      r
  }

  /** `GetPassableBorder`: the border states that are not impassable. Every
      border state is looked up in the table. */
  method GetPassableBorder(m: StateTable, c: CountryMap) returns (r: Result<seq<int>>)
    ensures r.Failure? <==> !(c.border <= m.Keys)
    ensures r.Failure? ==> r.error == KeyNotFound
    ensures r.Success? ==> forall s :: s in r.value <==> s in c.border && !m[s].isImpassable
    ensures r.Success? ==> Distinct(r.value)
  {
    if !(c.border <= m.Keys) {
      return Failure(KeyNotFound);
    }
    var passable := Enumerate(set s | s in c.border && !m[s].isImpassable);
    r := Success(passable);
  }

  /** `GetValue`: the sum of the members' values. */
  method GetValue(m: StateTable, c: CountryMap) returns (r: Result<real>)
    ensures r.Failure? <==> !(c.states <= m.Keys)
    ensures r.Failure? ==> r.error == KeyNotFound
    ensures r.Success? ==> r.value == Stats.SetSum(c.states, Values(m))
  {
    if !(c.states <= m.Keys) {
      return Failure(KeyNotFound);
    }
    var total := Stats.SumOver(c.states, Values(m));
    r := Success(total);
  }

  /** Adding a new member adds its value to the country's value. */
  lemma AddStateAddsValue(m: StateTable, c: CountryMap, occupied: set<int>, added: int)
    requires AddState(m, c, occupied, added).Success?
    requires added !in c.states
    ensures Stats.SetSum(AddState(m, c, occupied, added).value.states, Values(m))
            == Stats.SetSum(c.states, Values(m)) + StateInfos.GetValue(m[added])
  {
    Stats.SetSumRemove(c.states + {added}, Values(m), added);
    assert c.states + {added} - {added} == c.states;
  }
}
