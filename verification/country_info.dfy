/** The country bookkeeping of the object-based generator: a country owns a set
    of states, keeps the states next to them in a border set that it updates on
    every addition, and takes the archetype most common among its states.

    The state objects a country holds are not part of this model beyond what the
    country reads and writes of them; they are the entries of a `World` keyed by
    state id, and two state objects are taken to be the same object exactly when
    their ids agree. */
module CountryInfos {
  import opened Wrappers
  import opened Archetypes
  import opened Sequences
  import Graph
  import Stats
  import TextFields

  /** What a country reads of a state object, and the owner it writes. */
  datatype Member = Member(
    isOcean: bool,
    isImpassable: bool,
    adjacent: set<int>,
    stateType: StateType,
    value: real,
    owner: Option<string>)

  type World = map<int, Member>

  /** Every adjacent state of a state is itself a state of the world. */
  predicate Closed(w: World) {
    forall id :: id in w ==> w[id].adjacent <= w.Keys
  }

  datatype Country = Country(
    tag: string,
    countryType: CountryType,
    initialId: int,
    states: set<int>,
    borders: set<int>)

  /** The adjacency of the world as a successor map. */
  function Adjacent(w: World): (g: Graph.Adjacency)
    ensures g.Keys == w.Keys
    ensures forall id :: id in w ==> g[id] == w[id].adjacent
  {
    map id | id in w :: w[id].adjacent
  }

  /** The archetype of every state. */
  function Types(w: World): (t: map<int, StateType>)
    ensures t.Keys == w.Keys
    ensures forall id :: id in w ==> t[id] == w[id].stateType
  {
    map id | id in w :: w[id].stateType
  }

  /** The value of every state. */
  function Values(w: World): (v: map<int, real>)
    ensures v.Keys == w.Keys
    ensures forall id :: id in w ==> v[id] == w[id].value
  {
    map id | id in w :: w[id].value
  }

  /** `string.IsNullOrWhiteSpace` for a string that is not null. */
  predicate Blank(s: string) {
    forall i :: 0 <= i < |s| ==> TextFields.IsWhiteSpace(s[i])
  }

  /** The border a country must have: every state next to a member that is not
      itself a member. */
  predicate BordersExact(w: World, c: Country) {
    c.borders == Graph.Step(Adjacent(w), c.states) - c.states
  }

  /** The country's archetype belongs to a most frequent archetype among its
      states. */
  ghost predicate TypeAgrees(w: World, c: Country)
    requires c.states <= w.Keys
  {
    exists t :: MostFrequent(c.states, Types(w), t) && c.countryType == ToCountryType(t)
  }

  /** What every country keeps true between additions. */
  ghost predicate Valid(w: World, c: Country) {
    c.states <= w.Keys && c.initialId in c.states && BordersExact(w, c) && TypeAgrees(w, c)
  }

  /** `UpdateBorders` after `added` has joined `states`: the added state's
      neighbours outside the country join the border, then the added state and
      every member leave it. */
  function UpdateBorders(borders: set<int>, states: set<int>, added: int, adjacent: set<int>): (r: set<int>)
    requires added in states
    ensures forall s :: s in r <==> (s in borders || s in adjacent) && s !in states
  {
    var grown := borders + (set s | s in adjacent && s !in states);
    var pruned := grown - {added};
    pruned - (set s | s in pruned && s in states)
  }

  /** The incremental update keeps the border exact. */
  lemma BordersStayExact(w: World, c: Country, added: int)
    requires c.states <= w.Keys && added in w
    ensures BordersExact(w, c) ==>
              UpdateBorders(c.borders, c.states + {added}, added, w[added].adjacent)
              == Graph.Step(Adjacent(w), c.states + {added}) - (c.states + {added})
  {
    Graph.StepInsert(Adjacent(w), c.states, added);
  }

  /** `UpdateCountryType`: with no states the archetype is left as it is,
      otherwise it becomes the country archetype of a most frequent state
      archetype. */
  function UpdateCountryType(w: World, c: Country): (r: Country)
    requires c.states <= w.Keys
    ensures r == c.(countryType := r.countryType)
    ensures c.states == {} ==> r == c
    ensures TypeAgrees(w, r)
    ensures c.states != {} ==> exists s :: s in c.states && w[s].stateType == TypeOf(r.countryType)
  {
    var t := Majority(c.states, Types(w));
    var r := if c.states == {} then c else c.(countryType := ToCountryType(t));
    assert MostFrequent(r.states, Types(w), t);
    if c.states == {} then
      CountsCover(c.states, Types(w));
      var t0 := TypeOf(c.countryType);
      assert forall u :: CountOf(c.states, Types(w), u) == 0;
      assert MostFrequent(c.states, Types(w), t0);
      r
    else
      var same := set id | id in c.states && Types(w)[id] == t;
      assert |same| > 0;
      Stats.HasElement(same);
      r
  }

  /** The state archetype a country archetype stands for. */
  function TypeOf(c: CountryType): (t: StateType)
    ensures ToCountryType(t) == c
  {
    match c
    case CountryIndustrial => Industrial
    case CountryResource => Resource
    case CountryBalanced => Balanced
  }

  /** A country and the world after a state joined it. */
  datatype Placed = Placed(country: Country, world: World)

  /** `AddState`: the state's owner becomes this country, the state joins
      the members, and the border and the archetype are updated. The source
      asserts a non-blank tag and a state that is not yet a member. */
  function AddState(w: World, c: Country, id: int): (r: Placed)
    requires !Blank(c.tag)
    requires id in w && c.states <= w.Keys
    requires id !in c.states
    ensures r.world == w[id := w[id].(owner := Some(c.tag))]
    ensures Adjacent(r.world) == Adjacent(w)
    ensures r.country.tag == c.tag && r.country.initialId == c.initialId
    ensures r.country.states == c.states + {id}
    ensures r.country.borders * r.country.states == {}
    ensures BordersExact(w, c) ==> BordersExact(r.world, r.country)
    ensures TypeAgrees(r.world, r.country)
    ensures Valid(w, c) ==> Valid(r.world, r.country)
  {
    var w' := w[id := w[id].(owner := Some(c.tag))];
    assert Adjacent(w') == Adjacent(w);
    assert Types(w') == Types(w);
    var states := c.states + {id};
    var grown := c.(states := states, borders := UpdateBorders(c.borders, states, id, w[id].adjacent));
    BordersStayExact(w, c, id);
    Placed(UpdateCountryType(w', grown), w')
  }

  /** The constructor: the seed state is the first and only member, and it
      is owned by the new country. */
  function New(w: World, initial: int, tag: string): (r: Placed)
    requires !Blank(tag)
    requires initial in w
    ensures r.country.tag == tag && r.country.initialId == initial
    ensures r.country.states == {initial}
    ensures r.world == w[initial := w[initial].(owner := Some(tag))]
    ensures r.country.borders == w[initial].adjacent - {initial}
    ensures Valid(r.world, r.country)
  {
    var empty := Country(tag, CountryIndustrial, initial, {}, {});
    assert BordersExact(w, empty) by {
      assert Graph.Step(Adjacent(w), {}) == {};
    }
    var r := AddState(w, empty, initial);
    assert r.country.borders == Graph.Step(Adjacent(w), {initial}) - {initial};
    Graph.StepSingleton(Adjacent(w), initial);
    r
  }

  /** `GetPassableBorder`: the border states that are not impassable, in
      no particular order. */
  method GetPassableBorder(w: World, c: Country) returns (r: seq<int>)
    requires c.borders <= w.Keys
    ensures forall s :: s in r <==> s in c.borders && !w[s].isImpassable
    ensures Distinct(r)
    ensures BordersExact(w, c) ==>
              forall s :: s in r <==> s in Graph.Step(Adjacent(w), c.states) && s !in c.states && !w[s].isImpassable
  {
    r := Enumerate(set s | s in c.borders && !w[s].isImpassable);
  }

  /** `GetValue`: the sum of the members' values, in the hash set's order. */
  method GetValue(w: World, c: Country) returns (total: real)
    requires c.states <= w.Keys
    ensures total == Stats.SetSum(c.states, Values(w))
    ensures (forall s :: s in c.states ==> w[s].value >= 0.0) ==> total >= 0.0
  {
    total := Stats.SumOver(c.states, Values(w));
    if forall s :: s in c.states ==> w[s].value >= 0.0 {
      Stats.SetSumNonNegative(c.states, Values(w));
    }
  }

  /** Adding a state adds its value to the country's value. */
  lemma AddStateAddsValue(w: World, c: Country, id: int)
    requires !Blank(c.tag)
    requires id in w && c.states <= w.Keys
    requires id !in c.states
    ensures Stats.SetSum(AddState(w, c, id).country.states, Values(AddState(w, c, id).world))
            == Stats.SetSum(c.states, Values(w)) + w[id].value
  {
    var r := AddState(w, c, id);
    assert Values(r.world) == Values(w);
    Stats.SetSumRemove(c.states + {id}, Values(w), id);
    assert c.states + {id} - {id} == c.states;
  }

  /** `ClearOceanStates`: every ocean member leaves the country; the border
      and the archetype are not recomputed. */
  function ClearOceanStates(w: World, c: Country): (r: Country)
    requires c.states <= w.Keys
    ensures r == c.(states := r.states)
    ensures forall s :: s in r.states <==> s in c.states && !w[s].isOcean
  {
    c.(states := set s | s in c.states && !w[s].isOcean)
  }

  /** Clearing twice clears nothing more, and no ocean state is left. */
  lemma ClearOceanStatesIdempotent(w: World, c: Country)
    requires c.states <= w.Keys
    ensures ClearOceanStates(w, ClearOceanStates(w, c)) == ClearOceanStates(w, c)
    ensures forall s :: s in ClearOceanStates(w, c).states ==> !w[s].isOcean
  {
  }
}
