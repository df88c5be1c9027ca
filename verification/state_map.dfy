/** `StateMap` of the newer generator: a state built from a `TmpState`, its
    edges copied into an array. */
module StateMaps {
  import opened Wrappers
  import opened Archetypes
  import opened TmpStates
  import Limits
  import Sequences
  import StateProperties

  datatype StateMap = StateMap(id: int, edges: seq<int>, isImpassable: bool, props: StateProperties.StateProperty)

  /** The constructor: id, impassability and victory points come from the
      `TmpState`, and the edges are its adjacencies, each listed once. */
  method New(state: TmpState, t: StateType) returns (r: Result<StateMap>)
    ensures r.Success? ==> r.value.id == state.id && r.value.isImpassable == state.isImpassable
    ensures r.Success? ==> (forall e :: e in r.value.edges <==> e in state.adjacencies)
    ensures r.Success? ==> Sequences.Distinct(r.value.edges) && |r.value.edges| == |state.adjacencies|
    ensures r.Success? ==> r.value.props.stateType == t && r.value.props.victoryPoint == state.victoryPoint
    ensures r.Success? ==> StateProperties.WithinCeilings(r.value.props)
    ensures r.Success? <==> t != Industrial
  {
    var edges := Sequences.Enumerate(state.adjacencies);
    var props :- StateProperties.New(state.victoryPoint, t, Limits.MaxMaxFactories, Limits.MaxResources);
    return Success(StateMap(state.id, edges, state.isImpassable, props));
  }

  /** `GetValue`: nothing for an impassable state, otherwise the bundle's
      value. */
  function GetValue(s: StateMap): (v: real)
    ensures s.isImpassable ==> v == 0.0
    ensures !s.isImpassable ==> v == StateProperties.Value(s.props)
  {
    if s.isImpassable then 0.0 else StateProperties.Value(s.props)
  }

  /** A state whose attributes respect the ceilings is worth between 0 and
      100. */
  lemma GetValueBounded(s: StateMap)
    requires StateProperties.WithinCeilings(s.props)
    requires 0 <= s.props.victoryPoint <= Limits.MaxVictoryPoint
    ensures 0.0 <= GetValue(s) <= 100.0
  {
  }

  function Factories(s: StateMap): int {
    s.props.factories
  }

  function Resources(s: StateMap): int {
    s.props.resources
  }

  /** The `Factories` setter writes through to the bundle; reading back gives
      the value set, and nothing else changes. */
  function SetFactories(s: StateMap, value: int): (r: StateMap)
    ensures Factories(r) == value
    ensures Resources(r) == Resources(s)
    ensures r.id == s.id && r.edges == s.edges && r.isImpassable == s.isImpassable
    ensures r.props.stateType == s.props.stateType && r.props.maxFactories == s.props.maxFactories
    ensures r.props.victoryPoint == s.props.victoryPoint
  {
    s.(props := s.props.(factories := value))
  }

  /** The `Resources` setter, likewise. */
  function SetResources(s: StateMap, value: int): (r: StateMap)
    ensures Resources(r) == value
    ensures Factories(r) == Factories(s)
    ensures r.id == s.id && r.edges == s.edges && r.isImpassable == s.isImpassable
    ensures r.props.stateType == s.props.stateType && r.props.maxFactories == s.props.maxFactories
    ensures r.props.victoryPoint == s.props.victoryPoint
  {
    s.(props := s.props.(resources := value))
  }
}
