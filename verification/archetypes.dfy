/** The state and country archetypes, and the majority rule that derives a
    country's archetype from the archetypes of its states. */
module Archetypes {

  datatype StateType = Industrial | Resource | Balanced

  datatype CountryType = CountryIndustrial | CountryResource | CountryBalanced

  /** The `switch` of the `UpdateCountryType` methods: the same-named country
      archetype, with `Balanced` as the default arm. */
  function ToCountryType(t: StateType): (c: CountryType)
    ensures t == Industrial <==> c == CountryIndustrial
    ensures t == Resource <==> c == CountryResource
    ensures t == Balanced <==> c == CountryBalanced
  {
    match t
    case Industrial => CountryIndustrial
    case Resource => CountryResource
    case Balanced => CountryBalanced
  }

  /** The number of ids in `ids` whose archetype in `types` is `t`. */
  function CountOf(ids: set<int>, types: map<int, StateType>, t: StateType): nat
    requires ids <= types.Keys
  {
    |set id | id in ids && types[id] == t|
  }

  /** `t` occurs at least as often as every archetype. */
  ghost predicate MostFrequent(ids: set<int>, types: map<int, StateType>, t: StateType)
    requires ids <= types.Keys
  {
    forall u: StateType :: CountOf(ids, types, u) <= CountOf(ids, types, t)
  }

  /** Comparing with the three archetypes one by one shows `t` most frequent. */
  lemma MostFrequentOfThree(ids: set<int>, types: map<int, StateType>, t: StateType)
    requires ids <= types.Keys
    requires CountOf(ids, types, Industrial) <= CountOf(ids, types, t)
    requires CountOf(ids, types, Resource) <= CountOf(ids, types, t)
    requires CountOf(ids, types, Balanced) <= CountOf(ids, types, t)
    ensures MostFrequent(ids, types, t)
  {
    forall u: StateType
      ensures CountOf(ids, types, u) <= CountOf(ids, types, t)
    {
      match u
      case Industrial =>
      case Resource =>
      case Balanced =>
    }
  }

  /** A most frequent archetype among `ids`. The source breaks ties by the
      enumeration order of its hash set, which the model does not know; the
      model breaks them in the order Industrial, Resource, Balanced. */
  function Majority(ids: set<int>, types: map<int, StateType>): (t: StateType)
    requires ids <= types.Keys
    ensures MostFrequent(ids, types, t)
    ensures ids != {} ==> CountOf(ids, types, t) > 0
  {
    var i, r, b := CountOf(ids, types, Industrial), CountOf(ids, types, Resource), CountOf(ids, types, Balanced);
    CountsCover(ids, types);
    var t := if i >= r && i >= b then Industrial else if r >= b then Resource else Balanced;
    MostFrequentOfThree(ids, types, t);
    t
  }

  /** The three counts add up to the number of ids. */
  lemma CountsCover(ids: set<int>, types: map<int, StateType>)
    requires ids <= types.Keys
    ensures CountOf(ids, types, Industrial) + CountOf(ids, types, Resource) + CountOf(ids, types, Balanced) == |ids|
  {
    var si := set id | id in ids && types[id] == Industrial;
    var sr := set id | id in ids && types[id] == Resource;
    var sb := set id | id in ids && types[id] == Balanced;
    assert ids == si + sr + sb;
    assert si * sr == {} && (si + sr) * sb == {};
    assert |si + sr| == |si| + |sr|;
  }
}
