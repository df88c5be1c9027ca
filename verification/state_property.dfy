/** `StateProperty` of the newer generator: the attributes drawn for one
    state. A size category bounds the state's factory slots, and archetype
    rules then draw its factories and resources. */
module StateProperties {
  import opened Wrappers
  import opened Archetypes
  import opened Draws
  import Limits
  import MathHelper

  /** The `StateCategory` enum. */
  datatype StateCategory =
    | Wasteland | Pastoral | Rural | Town | LargeTown | City | LargeCity | Metropolis | Megalopolis

  /** The integer value of each category, which is also its number of
      factory slots. */
  function CategoryValue(c: StateCategory): int {
    match c
    case Wasteland => 0
    case Pastoral => 1
    case Rural => 2
    case Town => 4
    case LargeTown => 5
    case City => 6
    case LargeCity => 8
    case Metropolis => 10
    case Megalopolis => 12
  }

  /** `Enum.IsDefined` followed by the cast: the category whose value is `v`,
      if there is one. */
  function CategoryOf(v: int): (r: Option<StateCategory>)
    ensures r.Some? ==> CategoryValue(r.value) == v
    ensures r.None? ==> forall c: StateCategory :: CategoryValue(c) != v
  {
    if v == 0 then Some(Wasteland)
    else if v == 1 then Some(Pastoral)
    else if v == 2 then Some(Rural)
    else if v == 4 then Some(Town)
    else if v == 5 then Some(LargeTown)
    else if v == 6 then Some(City)
    else if v == 8 then Some(LargeCity)
    else if v == 10 then Some(Metropolis)
    else if v == 12 then Some(Megalopolis)
    else None
  }

  /** Casting a category to its value and back gives the category. */
  lemma CategoryRoundTrip(c: StateCategory)
    ensures CategoryOf(CategoryValue(c)) == Some(c)
  {
  }

  predicate IsDefined(v: int) {
    CategoryOf(v).Some?
  }

  /** The list `RandomCategories` builds: the defined categories with values
      from `min` to `max`, in increasing order. */
  function DefinedBetween(min: int, max: int): (r: seq<StateCategory>)
    ensures forall c :: c in r <==> min <= CategoryValue(c) <= max
    decreases if max < min then 0 else max - min + 1
  {
    if max < min then []
    else
      var front := DefinedBetween(min, max - 1);
      match CategoryOf(max)
      case Some(c) => front + [c]
      case None => front
  }

  /** `RandomCategories`: shuffles the defined categories in `[min, max]` and
      takes the first, so any of them may come out; with none defined,
      `First` throws `InvalidOperationException`. */
  method RandomCategories(min: int, max: int) returns (r: Result<StateCategory>)
    ensures r.Failure? <==> forall v :: min <= v <= max ==> !IsDefined(v)
    ensures r.Failure? ==> r.error == InvalidOperation
    ensures r.Success? ==> min <= CategoryValue(r.value) <= max
  {
    var categories: seq<StateCategory> := [];
    var i := min;
    while i <= max
      invariant min <= i
      invariant i <= max + 1 || i == min
      invariant categories == DefinedBetween(min, i - 1)
      decreases max - i
    {
      if CategoryOf(i).Some? {
        categories := categories + [CategoryOf(i).value];
      }
      i := i + 1;
    }
    assert forall c :: c in categories <==> min <= CategoryValue(c) <= max;
    assert forall v :: min <= v <= max && IsDefined(v) ==> CategoryOf(v).value in categories;
    if |categories| == 0 {
      return Failure(InvalidOperation);
    }
    var k :| 0 <= k < |categories|;
    var c := categories[k];
    CategoryRoundTrip(c);
    assert IsDefined(CategoryValue(c));
    return Success(c);
  }

  /** The attribute bundle of one state. */
  datatype StateProperty = StateProperty(
    stateType: StateType,
    factories: int,
    maxFactories: int,
    resources: int,
    victoryPoint: int)

  /** The `Value` property. */
  function Value(p: StateProperty): real {
    Limits.Value(p.factories, p.maxFactories, p.resources, p.victoryPoint)
  }

  /** The range of category values the constructor draws the factory slots
      from, for a slot ceiling `limit`. */
  function SlotRange(t: StateType, limit: int): (int, int) {
    match t
    case Industrial => (Truncate(0.70 * limit as real), Truncate(1.0 * limit as real))
    case Resource => (Truncate(0.1 * limit as real), Truncate(0.3 * limit as real))
    case Balanced => (Truncate(0.3 * limit as real), Truncate(0.7 * limit as real))
  }

  /** Factories and resources `GenerateIndustrialProperties` may produce for
      `m` slots and a resource ceiling `limit`: factories from
      `[m/2, 0.7 m)`, a resource cap drawn from `[10 factories, 0.3 limit)`,
      and resources up to that cap. */
  ghost predicate IndustrialOutcome(m: int, limit: int, f: int, res: int) {
    exists cap :: IndustrialDraws(m, limit, f, cap, res)
  }

  /** The three draws of `GenerateIndustrialProperties`, with the resource
      cap made explicit. */
  predicate IndustrialDraws(m: int, limit: int, f: int, cap: int, res: int) {
    CanDraw(Truncate(m as real * 0.5), Truncate(m as real * 0.7), f)
    && CanDraw(f * 10, Truncate(limit as real * 0.3), cap)
    && CanDraw(0, cap + 1, res)
  }

  /** Factories and resources `GenerateResourceProperties` may produce:
      resources from `[0.7 limit, limit]`, then factories up to the smaller
      of `0.005 resources` and `0.7 m`. */
  predicate ResourceOutcome(m: int, limit: int, f: int, res: int) {
    CanDraw(Truncate(limit as real * 0.7), limit + 1, res)
    && CanDraw(0, IntMin(Truncate(res as real * 0.005), Truncate(m as real * 0.7)) + 1, f)
  }

  /** Factories and resources `GenerateBalancedProperties` may produce:
      factories from `[0.3 m, 0.7 m]` and resources from
      `[0.3 limit, 0.7 limit]`; resources further than 50 from
      `50 factories` are replaced by `50 factories` plus a jitter in
      `[-25, 25]`, clamped into `[0, limit]`. */
  ghost predicate BalancedOutcome(m: int, limit: int, f: int, res: int) {
    CanDraw(Truncate(m as real * 0.3), Truncate(m as real * 0.7) + 1, f)
    && exists first :: FirstResources(limit, first) && Rebalanced(limit, f, first, res)
  }

  /** The first resource draw of `GenerateBalancedProperties`. */
  predicate FirstResources(limit: int, first: int) {
    CanDraw(Truncate(limit as real * 0.3), Truncate(limit as real * 0.7) + 1, first)
  }

  /** The correction of a first draw `first` that lies further than 50 from
      `50 f`. */
  ghost predicate Rebalanced(limit: int, f: int, first: int, res: int) {
    if Distance(first, f * 50) > 50 then exists d :: Jittered(limit, f, d, res) else res == first
  }

  /** `res` is `50 f` plus the jitter `d`, clamped into `[0, limit]`. */
  predicate Jittered(limit: int, f: int, d: int, res: int) {
    CanDraw(-25, 26, d) && res == MathHelper.ClampValue(f * 50 + d, 0, limit)
  }

  function IntMin(a: int, b: int): (r: int)
    ensures r <= a && r <= b && (r == a || r == b)
  {
    if a < b then a else b
  }

  function Distance(a: int, b: int): (r: int)
    ensures r >= 0 && (r == a - b || r == b - a)
  {
    if a < b then b - a else a - b
  }

  /** `GenerateIndustrialProperties`; a draw whose range is reversed throws. */
  method GenerateIndustrial(m: int, limit: int) returns (r: Result<(int, int)>)
    ensures r.Success? ==> IndustrialOutcome(m, limit, r.value.0, r.value.1)
    ensures r.Failure? ==> r.error == ArgumentOutOfRange
    ensures Truncate(m as real * 0.5) > Truncate(m as real * 0.7) ==> r.Failure?
    ensures 0 <= m && 10 * Truncate(m as real * 0.7) <= Truncate(limit as real * 0.3) ==> r.Success?
  {
    var f :- Next(Truncate(m as real * 0.5), Truncate(m as real * 0.7));
    if 0 <= m {
      TruncateMonotone(m as real * 0.5, m as real * 0.7);
    }
    var cap :- Next(f * 10, Truncate(limit as real * 0.3));
    var res :- Next(0, cap + 1);
    assert IndustrialDraws(m, limit, f, cap, res);
    return Success((f, res));
  }

  /** `GenerateResourceProperties`. */
  method GenerateResource(m: int, limit: int) returns (r: Result<(int, int)>)
    ensures r.Success? ==> ResourceOutcome(m, limit, r.value.0, r.value.1)
    ensures r.Failure? ==> r.error == ArgumentOutOfRange
    ensures 0 <= m && 0 <= limit ==> r.Success?
  {
    var res :- Next(Truncate(limit as real * 0.7), limit + 1);
    var cap := IntMin(Truncate(res as real * 0.005), Truncate(m as real * 0.7));
    var f :- Next(0, cap + 1);
    return Success((f, res));
  }

  /** `GenerateBalancedProperties`. */
  method GenerateBalanced(m: int, limit: int) returns (r: Result<(int, int)>)
    ensures r.Success? ==> BalancedOutcome(m, limit, r.value.0, r.value.1)
    ensures r.Failure? <==> Truncate(m as real * 0.3) > Truncate(m as real * 0.7) + 1
                            || Truncate(limit as real * 0.3) > Truncate(limit as real * 0.7) + 1
    ensures r.Failure? ==> r.error == ArgumentOutOfRange
  {
    var f :- Next(Truncate(m as real * 0.3), Truncate(m as real * 0.7) + 1);
    var first :- Next(Truncate(limit as real * 0.3), Truncate(limit as real * 0.7) + 1);
    var res := first;
    if Distance(first, f * 50) > 50 {
      var jitter := Next(-25, 26);
      var d := jitter.value;
      res := MathHelper.ClampValue(f * 50 + d, 0, limit);
      assert Jittered(limit, f, d, res);
    }
    assert FirstResources(limit, first) && Rebalanced(limit, f, first, res);
    return Success((f, res));
  }

  /** The factories and resources the archetype's rule may produce. */
  ghost predicate Outcome(t: StateType, m: int, limit: int, f: int, res: int) {
    match t
    case Industrial => IndustrialOutcome(m, limit, f, res)
    case Resource => ResourceOutcome(m, limit, f, res)
    case Balanced => BalancedOutcome(m, limit, f, res)
  }

  /** The constructor: draws the factory slots as a category from the
      archetype's range, then the factories and resources by the
      archetype's rule. The archetype and the victory points are copied. */
  method New(victoryPoint: int, t: StateType, slotLimit: int, resourceLimit: int) returns (r: Result<StateProperty>)
    ensures r.Success? ==> r.value.stateType == t && r.value.victoryPoint == victoryPoint
    ensures r.Success? ==> IsDefined(r.value.maxFactories)
    ensures r.Success? ==> SlotRange(t, slotLimit).0 <= r.value.maxFactories <= SlotRange(t, slotLimit).1
    ensures r.Success? ==> Outcome(t, r.value.maxFactories, resourceLimit, r.value.factories, r.value.resources)
    ensures (forall v :: SlotRange(t, slotLimit).0 <= v <= SlotRange(t, slotLimit).1 ==> !IsDefined(v))
            ==> r == Failure(InvalidOperation)
    ensures r.Failure? ==> r.error == InvalidOperation || r.error == ArgumentOutOfRange
    ensures t == Industrial && slotLimit == Limits.MaxMaxFactories ==> r == Failure(InvalidOperation)
    ensures t != Industrial && slotLimit == Limits.MaxMaxFactories && resourceLimit == Limits.MaxResources
            ==> r.Success? && WithinCeilings(r.value)
  {
    var range := SlotRange(t, slotLimit);
    if t != Industrial && slotLimit == Limits.MaxMaxFactories {
      DefaultSlotRanges();
      assert IsDefined(if t == Resource then 2 else 8);
    }
    var category :- RandomCategories(range.0, range.1);
    var m := CategoryValue(category);
    CategoryRoundTrip(category);
    var drawn: Result<(int, int)>;
    match t {
      case Industrial => drawn := GenerateIndustrial(m, resourceLimit);
      case Resource => drawn := GenerateResource(m, resourceLimit);
      case Balanced => drawn := GenerateBalanced(m, resourceLimit);
    }
    if t == Industrial && slotLimit == Limits.MaxMaxFactories {
      IndustrialSlotsUndefined();
    }
    if t != Industrial && slotLimit == Limits.MaxMaxFactories && resourceLimit == Limits.MaxResources {
      if t == Balanced {
        TruncateMonotone(m as real * 0.3, m as real * 0.7);
        TruncateMonotone(Limits.MaxResources as real * 0.3, Limits.MaxResources as real * 0.7);
      }
    }
    var pair :- drawn;
    var (f, res) := pair;
    r := Success(StateProperty(t, f, m, res, victoryPoint));
    if t != Industrial && slotLimit == Limits.MaxMaxFactories && resourceLimit == Limits.MaxResources {
      if t == Resource {
        ResourceBounds(m, resourceLimit, f, res);
      } else {
        BalancedBounds(m, resourceLimit, f, res);
      }
    }
  }

  /** Factories and slots within `[0, 25]` and resources within `[0, 600]`. */
  predicate WithinCeilings(p: StateProperty) {
    0 <= p.factories <= Limits.MaxMaxFactories
    && 0 <= p.maxFactories <= Limits.MaxMaxFactories
    && 0 <= p.resources <= Limits.MaxResources
  }

  /** With the ceiling of 25 slots, the Industrial range `[17, 25]` holds no
      category, so every Industrial state fails to construct. */
  lemma IndustrialSlotsUndefined()
    ensures SlotRange(Industrial, Limits.MaxMaxFactories) == (17, 25)
    ensures forall v :: 17 <= v <= 25 ==> !IsDefined(v)
  {
  }

  /** With the ceiling of 25 slots the Resource range is `[2, 7]` and the
      Balanced range `[7, 17]`. */
  lemma DefaultSlotRanges()
    ensures SlotRange(Resource, Limits.MaxMaxFactories) == (2, 7)
    ensures SlotRange(Balanced, Limits.MaxMaxFactories) == (7, 17)
  {
  }

  /** Industrial factories lie in `[m/2, 0.7 m]`, and resources between 0 and
      `0.3 limit`, which is also at least ten times the factories. */
  lemma IndustrialBounds(m: int, limit: int, f: int, res: int)
    requires 0 <= m && IndustrialOutcome(m, limit, f, res)
    ensures Truncate(m as real * 0.5) <= f <= Truncate(m as real * 0.7)
    ensures 0 <= res <= Truncate(limit as real * 0.3)
    ensures 10 * f <= Truncate(limit as real * 0.3)
  {
    var cap :| IndustrialDraws(m, limit, f, cap, res);
  }

  /** Resource-state resources lie in `[0.7 limit, limit]` and factories in
      `[0, min(0.005 resources, 0.7 m)]`. */
  lemma ResourceBounds(m: int, limit: int, f: int, res: int)
    requires 0 <= m && 0 <= limit && ResourceOutcome(m, limit, f, res)
    ensures Truncate(limit as real * 0.7) <= res <= limit
    ensures 0 <= f <= Truncate(res as real * 0.005) && f <= Truncate(m as real * 0.7)
  {
  }

  /** Balanced factories lie in `[0.3 m, 0.7 m]` and the final resources in
      `[0, limit]`. */
  lemma BalancedBounds(m: int, limit: int, f: int, res: int)
    requires 0 <= m && 0 <= limit && BalancedOutcome(m, limit, f, res)
    ensures Truncate(m as real * 0.3) <= f <= Truncate(m as real * 0.7)
    ensures 0 <= res <= limit
  {
    var first :| FirstResources(limit, first) && Rebalanced(limit, f, first, res);
    if Distance(first, f * 50) > 50 {
      var d :| Jittered(limit, f, d, res);
    }
  }
}
