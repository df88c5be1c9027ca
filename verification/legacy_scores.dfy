/** How the legacy generator picks the state a country grows into: every
    candidate gets a value, a dispersion (its mean hop distance to the other
    countries' seeds) and a type match (the share of bordering countries whose
    archetype names the candidate's), each is divided by its maximum over the
    candidates, and the weighted sum decides. The arithmetic is IEEE
    arithmetic, so a zero maximum yields NaN scores rather than an error. */
module LegacyScores {
  import opened Wrappers
  import opened ExtReal
  import opened Archetypes
  import Graph
  import Bfs
  import EnumExtensions
  import LegacyStates
  import opened LegacyCountries

  /** The edges the shortest-path search follows: into states that are not
      impassable. */
  function PassableGraph(m: Table): (g: Graph.Adjacency)
    requires Closed(m)
    ensures g.Keys == m.Keys
    ensures forall v, u :: v in m && u in m[v].edges ==> (u in g[v] <==> !m[u].isImpassable)
    ensures forall v :: v in g ==> g[v] <= m[v].edges
  {
    map v | v in m :: set u | u in m[v].edges && !m[u].isImpassable
  }

  lemma PassableGraphClosed(m: Table)
    requires Closed(m)
    ensures Graph.Closed(PassableGraph(m))
  {
  }

  /** `ShortestPathLengthBfs`: 0 from a state to itself, otherwise the least
      number of hops into passable states, or -1 when there is no such path. */
  method ShortestPathLengthBfs(m: Table, start: int, end: int) returns (d: int)
    requires Closed(m)
    requires start == end || start in m
    ensures d == Graph.Distance(PassableGraph(m), start, end)
    ensures start == end ==> d == 0
    ensures d == -1 <==> !Graph.Reachable(PassableGraph(m), start, end)
  {
    PassableGraphClosed(m);
    d := Bfs.ShortestPath(PassableGraph(m), start, end);
    if start == end {
      Graph.DistanceIsLeastHops(PassableGraph(m), start, end, 0);
    }
  }

  /** The hop distances from `id` to the seeds of the other countries,
      summed. */
  ghost function SumDistances(m: Table, countries: seq<CountryMap>, id: int): int
    requires Closed(m)
    decreases |countries|
  {
    if |countries| == 0 then 0
    else
      var last := countries[|countries| - 1];
      SumDistances(m, countries[..|countries| - 1], id)
      + (if last.id != id then Graph.Distance(PassableGraph(m), id, last.id) else 0)
  }

  /** The dispersion of `id`: the summed distances over the number of other
      countries, an IEEE division. */
  ghost function DispersionOf(m: Table, countries: seq<CountryMap>, id: int): Ext
    requires Closed(m)
  {
    Div(Fin(SumDistances(m, countries, id) as real), Fin((|countries| - 1) as real))
  }

  /** `CalculateDispersion`. With a single country it divides by zero and is
      not finite; otherwise it is a finite mean. */
  method CalculateDispersion(m: Table, countries: seq<CountryMap>, id: int) returns (d: Ext)
    requires Closed(m) && id in m
    ensures d == DispersionOf(m, countries, id)
    ensures d.Fin? <==> |countries| != 1
  {
    var sum := 0;
    var i := 0;
    while i < |countries|
      invariant 0 <= i <= |countries|
      invariant sum == SumDistances(m, countries[..i], id)
    {
      assert countries[..i + 1][..i] == countries[..i];
      if countries[i].id != id {
        var hops := ShortestPathLengthBfs(m, id, countries[i].id);
        sum := sum + hops;
      }
      i := i + 1;
    }
    assert countries[..i] == countries;
    d := Div(Fin(sum as real), Fin((|countries| - 1) as real));
  }

  /** The number of countries whose passable border holds `id`. */
  function Containing(m: Table, countries: seq<CountryMap>, id: int): nat
    requires forall i :: 0 <= i < |countries| ==> countries[i].border <= m.Keys
    decreases |countries|
  {
    if |countries| == 0 then 0
    else
      var last := countries[|countries| - 1];
      Containing(m, countries[..|countries| - 1], id) + (if id in PassableBorder(m, last) then 1 else 0)
  }

  /** The number of those countries whose archetype names the archetype of
      `id`. */
  function Matching(m: Table, countries: seq<CountryMap>, id: int): (n: nat)
    requires id in m
    requires forall i :: 0 <= i < |countries| ==> countries[i].border <= m.Keys
    ensures n <= Containing(m, countries, id)
    decreases |countries|
  {
    if |countries| == 0 then 0
    else
      var last := countries[|countries| - 1];
      Matching(m, countries[..|countries| - 1], id)
      + (if id in PassableBorder(m, last) && EnumExtensions.EqualsForType(last.countryType, m[id].props.stateType) then 1 else 0)
  }

  /** The type match of `id`, defined when some country borders it. */
  function TypeMatchOf(m: Table, countries: seq<CountryMap>, id: int): (r: real)
    requires id in m
    requires forall i :: 0 <= i < |countries| ==> countries[i].border <= m.Keys
    requires Containing(m, countries, id) > 0
    ensures 0.0 <= r <= 1.0
  {
    var k, n := Matching(m, countries, id) as real, Containing(m, countries, id) as real;
    FractionBounds(k, n);
    k / n
  }

  lemma FractionBounds(k: real, n: real)
    requires 0.0 <= k <= n && n > 0.0
    ensures 0.0 <= k / n <= 1.0
  {
  }

  lemma FractionTimes(k: real, n: real)
    requires n > 0.0
    ensures (k / n) * n == k
  {
  }

  /** The two counts behind the type match, one country at a time. */
  method CountBorders(m: Table, countries: seq<CountryMap>, id: int) returns (containing: nat, matching: nat)
    requires id in m
    requires forall i :: 0 <= i < |countries| ==> countries[i].border <= m.Keys
    ensures containing == Containing(m, countries, id)
    ensures matching == Matching(m, countries, id)
  {
    containing, matching := 0, 0;
    var i := 0;
    while i < |countries|
      invariant 0 <= i <= |countries|
      invariant containing == Containing(m, countries[..i], id)
      invariant matching == Matching(m, countries[..i], id)
    {
      assert countries[..i + 1][..i] == countries[..i];
      var border := GetPassableBorder(m, countries[i]);
      if id in border.value {
        containing := containing + 1;
        if EnumExtensions.EqualsForType(countries[i].countryType, m[id].props.stateType) {
          matching := matching + 1;
        }
      }
      i := i + 1;
    }
    assert countries[..i] == countries;
  }

  /** `CalculateTypeMatch`: the average over the countries whose passable
      border holds `id` of 1 for a matching archetype and 0 otherwise.
      `Average` throws when no country borders `id`. */
  method CalculateTypeMatch(m: Table, countries: seq<CountryMap>, id: int) returns (r: Result<real>)
    requires id in m
    requires forall i :: 0 <= i < |countries| ==> countries[i].border <= m.Keys
    ensures r.Failure? <==> Containing(m, countries, id) == 0
    ensures r.Failure? ==> r.error == InvalidOperation
    ensures r.Success? ==> r.value == TypeMatchOf(m, countries, id)
    ensures r.Success? ==> r.value * Containing(m, countries, id) as real == Matching(m, countries, id) as real
  {
    var containing, matching := CountBorders(m, countries, id);
    if containing == 0 {
      return Failure(InvalidOperation);
    }
    FractionTimes(matching as real, containing as real);
    r := Success(matching as real / containing as real);
  }

  /** The three raw measures of one candidate. */
  datatype Measures = Measures(value: Ext, dispersion: Ext, typeMatch: Ext)

  /** The weighted score of one candidate against the maxima. */
  function Combine(s: Measures, max: Measures): Ext {
    Add(Add(Scale(0.5, Div(s.value, max.value)), Scale(0.3, Div(s.dispersion, max.dispersion))),
        Scale(0.2, Div(s.typeMatch, max.typeMatch)))
  }

  /** Every candidate is in the table and bordered by some country. */
  predicate Scorable(m: Table, countries: seq<CountryMap>, candidates: seq<int>)
    requires forall i :: 0 <= i < |countries| ==> countries[i].border <= m.Keys
  {
    forall i :: 0 <= i < |candidates| ==> candidates[i] in m && Containing(m, countries, candidates[i]) > 0
  }

  /** The measures of every candidate. */
  ghost function MeasuresOf(m: Table, countries: seq<CountryMap>, candidates: seq<int>): (r: seq<Measures>)
    requires Closed(m)
    requires forall i :: 0 <= i < |countries| ==> countries[i].border <= m.Keys
    requires Scorable(m, countries, candidates)
    ensures |r| == |candidates|
  {
    seq(|candidates|, i requires 0 <= i < |candidates| =>
      Measures(Fin(LegacyStates.GetValue(m[candidates[i]])),
               DispersionOf(m, countries, candidates[i]),
               Fin(TypeMatchOf(m, countries, candidates[i]))))
  }

  /** The maxima LINQ's `Max` takes of each measure. */
  function Maxima(ms: seq<Measures>): Measures
    requires |ms| > 0
  {
    Measures(MaxOf(seq(|ms|, i requires 0 <= i < |ms| => ms[i].value)),
             MaxOf(seq(|ms|, i requires 0 <= i < |ms| => ms[i].dispersion)),
             MaxOf(seq(|ms|, i requires 0 <= i < |ms| => ms[i].typeMatch)))
  }

  /** The weighted scores. */
  function Scores(ms: seq<Measures>): (r: seq<Ext>)
    requires |ms| > 0
    ensures |r| == |ms|
  {
    var max := Maxima(ms);
    seq(|ms|, i requires 0 <= i < |ms| => Combine(ms[i], max))
  }

  /** Position `k` holds a greatest score under the .NET comparer, and no
      earlier position holds one: what a stable descending sort puts
      first. */
  predicate IsFirstMax(xs: seq<Ext>, k: int) {
    0 <= k < |xs|
    && (forall j :: 0 <= j < |xs| ==> !Less(xs[k], xs[j]))
    && (forall j :: 0 <= j < k ==> Less(xs[j], xs[k]))
  }

  /** `OrderByDescending(...).First()` on the scores. */
  method FirstMax(xs: seq<Ext>) returns (k: int)
    requires |xs| > 0
    ensures IsFirstMax(xs, k)
  {
    k := 0;
    var i := 1;
    while i < |xs|
      invariant 0 <= k < i <= |xs|
      invariant forall j :: 0 <= j < i ==> !Less(xs[k], xs[j])
      invariant forall j :: 0 <= j < k ==> Less(xs[j], xs[k])
    {
      if Less(xs[k], xs[i]) {
        forall j | 0 <= j < i
          ensures Less(xs[j], xs[i])
        {
          LessIsStrictTotal(xs[j], xs[k], xs[i]);
        }
        k := i;
      } else {
        LessIsStrictTotal(xs[k], xs[i], xs[k]);
      }
      i := i + 1;
    }
  }

  /** `SelectState`: the candidate with the first greatest score. `Max`
      throws on no candidates and `Average` on a candidate no country
      borders. */
  method SelectState(m: Table, countries: seq<CountryMap>, candidates: seq<int>) returns (r: Result<int>)
    requires Closed(m)
    requires forall i :: 0 <= i < |candidates| ==> candidates[i] in m
    requires forall i :: 0 <= i < |countries| ==> countries[i].border <= m.Keys
    ensures r.Failure? <==> |candidates| == 0 || !Scorable(m, countries, candidates)
    ensures r.Failure? ==> r.error == InvalidOperation
    ensures r.Success? ==> r.value in candidates
    ensures r.Success? ==>
              exists k :: 0 <= k < |candidates| && r.value == candidates[k]
                          && IsFirstMax(Scores(MeasuresOf(m, countries, candidates)), k)
  {
    var measures: seq<Measures> := [];
    var i := 0;
    while i < |candidates|
      invariant 0 <= i <= |candidates|
      invariant |measures| == i
      invariant forall j :: 0 <= j < i ==> Containing(m, countries, candidates[j]) > 0
      invariant forall j :: 0 <= j < i ==>
                  measures[j] == Measures(Fin(LegacyStates.GetValue(m[candidates[j]])),
                                          DispersionOf(m, countries, candidates[j]),
                                          Fin(TypeMatchOf(m, countries, candidates[j])))
    {
      var id := candidates[i];
      var dispersion := CalculateDispersion(m, countries, id);
      var typeMatch := CalculateTypeMatch(m, countries, id);
      if typeMatch.Failure? {
        return Failure(InvalidOperation);
      }
      measures := measures + [Measures(Fin(LegacyStates.GetValue(m[id])), dispersion, Fin(typeMatch.value))];
      i := i + 1;
    }
    if |candidates| == 0 {
      return Failure(InvalidOperation);
    }
    assert measures == MeasuresOf(m, countries, candidates);
    var k := FirstMax(Scores(measures));
    r := Success(candidates[k]);
  }
}
