/** `StateInfo`: a state of the newer generator, with its id, its adjacent
    state ids, whether it is impassable, and its attribute bundle. */
module StateInfos {
  import opened Wrappers
  import opened Archetypes
  import Limits
  import StateProperties

  datatype StateInfo = StateInfo(id: int, edges: seq<int>, isImpassable: bool, props: StateProperties.StateProperty)

  /** The constructor. The bundle is drawn with the default ceilings of 25
      factory slots and 600 resources; a failing draw fails the
      construction, which happens for every Industrial state. */
  method New(id: int, adjacent: seq<int>, isImpassable: bool, victoryPoint: int, t: StateType)
    returns (r: Result<StateInfo>)
    ensures r.Success? ==> r.value.id == id && r.value.edges == adjacent && r.value.isImpassable == isImpassable
    ensures r.Success? ==> r.value.props.stateType == t && r.value.props.victoryPoint == victoryPoint
    ensures r.Success? ==> StateProperties.WithinCeilings(r.value.props)
    ensures r.Success? <==> t != Industrial
  {
    var props :- StateProperties.New(victoryPoint, t, Limits.MaxMaxFactories, Limits.MaxResources);
    return Success(StateInfo(id, adjacent, isImpassable, props));
  }

  /** `GetValue`: nothing for an impassable state, otherwise the bundle's
      value. */
  function GetValue(s: StateInfo): (v: real)
    ensures s.isImpassable ==> v == 0.0
    ensures !s.isImpassable ==> v == StateProperties.Value(s.props)
  {
    if s.isImpassable then 0.0 else StateProperties.Value(s.props)
  }

  /** A state whose attributes respect the ceilings is worth between 0 and
      100. */
  lemma GetValueBounded(s: StateInfo)
    requires StateProperties.WithinCeilings(s.props)
    requires 0 <= s.props.victoryPoint <= Limits.MaxVictoryPoint
    ensures 0.0 <= GetValue(s) <= 100.0
  {
  }

  function Factories(s: StateInfo): int {
    s.props.factories
  }

  function Resources(s: StateInfo): int {
    s.props.resources
  }

  /** The `Factories` setter writes through to the bundle; reading back gives
      the value set, and nothing else changes. */
  function SetFactories(s: StateInfo, value: int): (r: StateInfo)
    ensures Factories(r) == value
    ensures Resources(r) == Resources(s)
    ensures r.id == s.id && r.edges == s.edges && r.isImpassable == s.isImpassable
    ensures r.props.stateType == s.props.stateType && r.props.maxFactories == s.props.maxFactories
    ensures r.props.victoryPoint == s.props.victoryPoint
  {
    s.(props := s.props.(factories := value))
  }

  /** The `Resources` setter, likewise. */
  function SetResources(s: StateInfo, value: int): (r: StateInfo)
    ensures Resources(r) == value
    ensures Factories(r) == Factories(s)
    ensures r.id == s.id && r.edges == s.edges && r.isImpassable == s.isImpassable
    ensures r.props.stateType == s.props.stateType && r.props.maxFactories == s.props.maxFactories
    ensures r.props.victoryPoint == s.props.victoryPoint
  {
    s.(props := s.props.(resources := value))
  }
}
