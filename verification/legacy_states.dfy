/** The states of the legacy all-in-one generator: the `StateProperty`
    struct with its per-archetype draws, and the `StateMap` class that wraps
    it together with the state's id, impassability and edge set. The struct
    has the fields and the value score of the newer attribute bundle. */
module LegacyStates {
  import opened Wrappers
  import opened Archetypes
  import opened Draws
  import opened TmpStates
  import Limits
  import StateProperties

  type StateProperty = StateProperties.StateProperty

  /** The range the factories are drawn from, for a slot ceiling `limit`. */
  function FactoryRange(t: StateType, limit: int): (int, int) {
    match t
    case Industrial => (Truncate(limit as real * 0.7), limit)
    case Resource => (0, Truncate(limit as real * 0.3))
    case Balanced => (Truncate(limit as real * 0.3), Truncate(limit as real * 0.7))
  }

  /** The range the resources are drawn from, for a resource ceiling `limit`. */
  function ResourceRange(t: StateType, limit: int): (int, int) {
    match t
    case Industrial => (0, Truncate(limit as real * 0.3))
    case Resource => (Truncate(limit as real * 0.7), limit)
    case Balanced => (Truncate(limit as real * 0.3), Truncate(limit as real * 0.7))
  }

  /** The slot count each archetype gets. */
  function MaxFactoriesOf(t: StateType, limit: int): int {
    match t
    case Industrial => limit
    case Resource => Truncate(limit as real * 0.5)
    case Balanced => Truncate(limit as real * 0.8)
  }

  /** The struct constructor: type and victory points are copied, the slot
      count is fixed by the archetype, and factories and resources are drawn
      from the archetype's ranges. A draw from a reversed range throws. */
  method NewProperty(victoryPoint: int, t: StateType, slotLimit: int, resourceLimit: int)
    returns (r: Result<StateProperty>)
    ensures r.Failure? <==> FactoryRange(t, slotLimit).0 > FactoryRange(t, slotLimit).1
                            || ResourceRange(t, resourceLimit).0 > ResourceRange(t, resourceLimit).1
    ensures r.Failure? ==> r.error == ArgumentOutOfRange
    ensures r.Success? ==> r.value.stateType == t && r.value.victoryPoint == victoryPoint
    ensures r.Success? ==> r.value.maxFactories == MaxFactoriesOf(t, slotLimit)
    ensures r.Success? ==> CanDraw(FactoryRange(t, slotLimit).0, FactoryRange(t, slotLimit).1, r.value.factories)
    ensures r.Success? ==> CanDraw(ResourceRange(t, resourceLimit).0, ResourceRange(t, resourceLimit).1, r.value.resources)
  {
    var (fa, fb) := FactoryRange(t, slotLimit);
    var (ra, rb) := ResourceRange(t, resourceLimit);
    var f :- Next(fa, fb);
    var res :- Next(ra, rb);
    return Success(StateProperties.StateProperty(t, f, MaxFactoriesOf(t, slotLimit), res, victoryPoint));
  }

  /** With ceilings that are not negative every range is a valid range. */
  lemma RangesValid(t: StateType, slotLimit: int, resourceLimit: int)
    requires slotLimit >= 0 && resourceLimit >= 0
    ensures FactoryRange(t, slotLimit).0 <= FactoryRange(t, slotLimit).1
    ensures ResourceRange(t, resourceLimit).0 <= ResourceRange(t, resourceLimit).1
  {
    TruncateMonotone(slotLimit as real * 0.3, slotLimit as real * 0.7);
    TruncateMonotone(resourceLimit as real * 0.3, resourceLimit as real * 0.7);
    TruncateMonotone(resourceLimit as real * 0.7, resourceLimit as real);
    TruncateMonotone(slotLimit as real * 0.7, slotLimit as real);
    TruncateWhole(slotLimit);
    TruncateWhole(resourceLimit);
  }

  /** A state never has more factories than slots, for any ceilings that are
      not negative. */
  lemma FactoriesWithinSlots(t: StateType, slotLimit: int, f: int)
    requires slotLimit >= 0
    requires CanDraw(FactoryRange(t, slotLimit).0, FactoryRange(t, slotLimit).1, f)
    ensures 0 <= f <= MaxFactoriesOf(t, slotLimit)
  {
    TruncateMonotone(slotLimit as real * 0.3, slotLimit as real * 0.5);
    TruncateMonotone(slotLimit as real * 0.7, slotLimit as real * 0.8);
    TruncateMonotone(0.0, slotLimit as real * 0.3);
    TruncateMonotone(0.0, slotLimit as real * 0.7);
  }

  /** The ranges under the generator's ceilings of 25 slots and 600
      resources. */
  lemma DefaultRanges()
    ensures FactoryRange(Industrial, 25) == (17, 25) && ResourceRange(Industrial, 600) == (0, 180)
    ensures FactoryRange(Resource, 25) == (0, 7) && ResourceRange(Resource, 600) == (420, 600)
    ensures FactoryRange(Balanced, 25) == (7, 17) && ResourceRange(Balanced, 600) == (180, 420)
    ensures MaxFactoriesOf(Industrial, 25) == 25 && MaxFactoriesOf(Resource, 25) == 12 && MaxFactoriesOf(Balanced, 25) == 20
  {
    assert Truncate(25.0 * 0.7) == 17;
    assert Truncate(25.0 * 0.3) == 7;
    assert Truncate(25.0 * 0.5) == 12;
    assert Truncate(25.0 * 0.8) == 20;
    assert Truncate(600.0 * 0.3) == 180;
    assert Truncate(600.0 * 0.7) == 420;
  }

  datatype StateMap = StateMap(id: int, isImpassable: bool, props: StateProperty, edges: set<int>)

  /** The `StateMap` constructor: id, impassability and victory points come
      from the `TmpState`, the edges are a copy of its adjacencies, and the
      attributes are drawn under the default ceilings, which never fails and
      stays within the ceilings. */
  method NewStateMap(state: TmpState, t: StateType) returns (s: StateMap)
    ensures s.id == state.id && s.isImpassable == state.isImpassable && s.edges == state.adjacencies
    ensures s.props.stateType == t && s.props.victoryPoint == state.victoryPoint
    ensures s.props.maxFactories == MaxFactoriesOf(t, Limits.MaxMaxFactories)
    ensures CanDraw(FactoryRange(t, Limits.MaxMaxFactories).0, FactoryRange(t, Limits.MaxMaxFactories).1, s.props.factories)
    ensures CanDraw(ResourceRange(t, Limits.MaxResources).0, ResourceRange(t, Limits.MaxResources).1, s.props.resources)
    ensures StateProperties.WithinCeilings(s.props)
  {
    RangesValid(t, Limits.MaxMaxFactories, Limits.MaxResources);
    DefaultRanges();
    var p := NewProperty(state.victoryPoint, t, Limits.MaxMaxFactories, Limits.MaxResources);
    var props := p.value;
    s := StateMap(state.id, state.isImpassable, props, state.adjacencies);
  }

  /** `GetValue`: nothing for an impassable state, otherwise the struct's
      value. */
  function GetValue(s: StateMap): (v: real)
    ensures s.isImpassable ==> v == 0.0
    ensures !s.isImpassable ==> v == StateProperties.Value(s.props)
  {
    if s.isImpassable then 0.0 else StateProperties.Value(s.props)
  }

  /** A state within the ceilings is worth between 0 and 100. */
  lemma GetValueBounded(s: StateMap)
    requires StateProperties.WithinCeilings(s.props)
    requires 0 <= s.props.victoryPoint <= Limits.MaxVictoryPoint
    ensures 0.0 <= GetValue(s) <= 100.0
  {
  }

  function Factories(s: StateMap): int {
    s.props.factories
  }

  function Resources(s: StateMap): int {
    s.props.resources
  }

  /** The `Factories` setter writes through to the struct; reading back
      gives the value set, and nothing else changes. */
  function SetFactories(s: StateMap, value: int): (r: StateMap)
    ensures Factories(r) == value
    ensures Resources(r) == Resources(s)
    ensures r.id == s.id && r.edges == s.edges && r.isImpassable == s.isImpassable
    ensures r.props.stateType == s.props.stateType && r.props.maxFactories == s.props.maxFactories
    ensures r.props.victoryPoint == s.props.victoryPoint
  {
    s.(props := s.props.(factories := value))
  }

  /** The `Resources` setter, likewise. */
  function SetResources(s: StateMap, value: int): (r: StateMap)
    ensures Resources(r) == value
    ensures Factories(r) == Factories(s)
    ensures r.id == s.id && r.edges == s.edges && r.isImpassable == s.isImpassable
    ensures r.props.stateType == s.props.stateType && r.props.maxFactories == s.props.maxFactories
    ensures r.props.victoryPoint == s.props.victoryPoint
  {
    s.(props := s.props.(resources := value))
  }
}
