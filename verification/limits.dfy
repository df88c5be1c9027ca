/** The attribute ceilings of a state and the weights of the value score.
    Both the legacy generator and the newer one declare the same constants. */
module Limits {

  const MaxMaxFactories: int := 25
  const MaxResources: int := 600
  const MaxVictoryPoint: int := 50
  const FactoriesWeight: real := 0.4
  const MaxFactoriesWeight: real := 0.15
  const ResourcesWeight: real := 0.25
  const VictoryPointWeight: real := 0.20

  /** Every attribute lies between 0 and its ceiling. */
  predicate WithinCeilings(factories: int, maxFactories: int, resources: int, victoryPoint: int) {
    0 <= factories <= MaxMaxFactories && 0 <= maxFactories <= MaxMaxFactories
    && 0 <= resources <= MaxResources && 0 <= victoryPoint <= MaxVictoryPoint
  }

  /** Every attribute is at its ceiling. */
  predicate AtCeilings(factories: int, maxFactories: int, resources: int, victoryPoint: int) {
    factories == MaxMaxFactories && maxFactories == MaxMaxFactories
    && resources == MaxResources && victoryPoint == MaxVictoryPoint
  }

  /** A state's value: each attribute as a percentage of its ceiling,
      weighted. The weights add up to one, so a state whose attributes lie
      within their ceilings scores between 0 and 100. */
  function Value(factories: int, maxFactories: int, resources: int, victoryPoint: int): (r: real)
    ensures WithinCeilings(factories, maxFactories, resources, victoryPoint) ==> 0.0 <= r <= 100.0
    ensures factories == 0 && maxFactories == 0 && resources == 0 && victoryPoint == 0 ==> r == 0.0
    ensures AtCeilings(factories, maxFactories, resources, victoryPoint) ==> r == 100.0
  {
    factories as real / MaxMaxFactories as real * 100.0 * FactoriesWeight
    + maxFactories as real / MaxMaxFactories as real * 100.0 * MaxFactoriesWeight
    + resources as real / MaxResources as real * 100.0 * ResourcesWeight
    + victoryPoint as real / MaxVictoryPoint as real * 100.0 * VictoryPointWeight
  }

  /** The value grows with every attribute. */
  lemma ValueMonotone(f: int, m: int, r: int, v: int, f2: int, m2: int, r2: int, v2: int)
    requires f <= f2 && m <= m2 && r <= r2 && v <= v2
    ensures Value(f, m, r, v) <= Value(f2, m2, r2, v2)
  {
  }
}
