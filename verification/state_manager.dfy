/** `StateInfoManager`: turns the states read from the map files, plus the
    ocean clusters, into the generator's state list, and derives which
    states are adjacent from the adjacency of their provinces. */
module StateManager {
  import opened Wrappers
  import opened Archetypes
  import opened Sequences
  import ProvinceParser

  type Provinces = map<int, ProvinceParser.Province>

  /** A state of the map files: its id and its province ids. */
  datatype State = State(id: int, provinces: seq<int>)

  /** Land states carry the coastal flag and a drawn archetype; ocean
      clusters carry neither. */
  datatype Kind = Land(isCoastal: bool, stateType: StateType) | Ocean

  /** A `StateInfo` as the manager builds it. `adjacent` holds positions in
      the manager's list (the source holds references to the same objects),
      and is `None` when `SetAdjacent` was never called. */
  datatype ManagedState = ManagedState(id: int, provinces: seq<int>, kind: Kind, adjacent: Option<seq<int>>)

  /** Province `p` is among the adjacencies of the known province `q`. */
  predicate Match(provinces: Provinces, p: int, q: int) {
    q in provinces && p in provinces[q].adjacencies
  }

  /** The test of `LookupStateAdjacencies`: some province of the first state
      is adjacent to a known province of the second, as the second records
      it. */
  ghost predicate Linked(provinces: Provinces, pa: seq<int>, pb: seq<int>) {
    exists x, y :: 0 <= x < |pa| && 0 <= y < |pb| && Match(provinces, pa[x], pb[y])
  }

  /** A state is coastal when one of its provinces is known and coastal. */
  ghost predicate Coastal(provinces: Provinces, ps: seq<int>) {
    exists x :: 0 <= x < |ps| && ps[x] in provinces && provinces[ps[x]].isCoastal
  }

  /** The `Any` over a state's provinces. */
  method IsCoastal(provinces: Provinces, ps: seq<int>) returns (b: bool)
    ensures b <==> Coastal(provinces, ps)
  {
    var x := 0;
    while x < |ps|
      invariant 0 <= x <= |ps|
      invariant forall x' :: 0 <= x' < x ==> !(ps[x'] in provinces && provinces[ps[x']].isCoastal)
    {
      if ps[x] in provinces && provinces[ps[x]].isCoastal {
        return true;
      }
      x := x + 1;
    }
    return false;
  }

  /** Appends `v` to the list under `k`, creating the list when missing. */
  function Add(adj: map<int, seq<int>>, k: int, v: int): (r: map<int, seq<int>>)
    ensures r.Keys == adj.Keys + {k}
    ensures r[k] == (if k in adj then adj[k] else []) + [v]
    ensures forall k' :: k' in adj && k' != k ==> r[k'] == adj[k']
  {
    adj[k := (if k in adj then adj[k] else []) + [v]]
  }

  /** `LookupStateAdjacencies` for the states at positions `a` and `b`: on
      the first province pair that matches, `b` is appended to the list of
      `a`'s id and `a` to the list of `b`'s id, and the search stops. */
  method LookupStateAdjacencies(provinces: Provinces, a: int, idA: int, pa: seq<int>, b: int, idB: int, pb: seq<int>,
                                adj: map<int, seq<int>>)
    returns (r: map<int, seq<int>>)
    ensures Linked(provinces, pa, pb) ==> r == Add(Add(adj, idA, b), idB, a)
    ensures !Linked(provinces, pa, pb) ==> r == adj
  {
    var x := 0;
    while x < |pa|
      invariant 0 <= x <= |pa|
      invariant forall x', y :: 0 <= x' < x && 0 <= y < |pb| ==> !Match(provinces, pa[x'], pb[y])
    {
      var y := 0;
      while y < |pb|
        invariant 0 <= y <= |pb|
        invariant forall y' :: 0 <= y' < y ==> !Match(provinces, pa[x], pb[y'])
      {
        if Match(provinces, pa[x], pb[y]) {
          return Add(Add(adj, idA, b), idB, a);
        }
        y := y + 1;
      }
      x := x + 1;
    }
    return adj;
  }

  /** The ids of the list are pairwise distinct. */
  ghost predicate DistinctIds(infos: seq<ManagedState>) {
    forall a, b :: 0 <= a < b < |infos| ==> infos[a].id != infos[b].id
  }

  /** The states at positions `a` and `b` pass the test, taken in the order
      the pair loop takes them (lower position first). */
  ghost predicate LinkedPair(provinces: Provinces, provs: seq<seq<int>>, a: int, b: int)
    requires 0 <= a < |provs| && 0 <= b < |provs|
  {
    if a < b then Linked(provinces, provs[a], provs[b]) else Linked(provinces, provs[b], provs[a])
  }

  /** The pair loop has examined the pair `x < y` before reaching `(i, j)`. */
  predicate Examined(x: int, y: int, i: int, j: int) {
    x < i || (x == i && y < j)
  }

  /** The partners of `a` found before reaching `(i, j)`. */
  ghost function Partners(provinces: Provinces, provs: seq<seq<int>>, a: int, i: int, j: int): set<int>
    requires 0 <= a < |provs|
  {
    set b | 0 <= b < |provs| && b != a && LinkedPair(provinces, provs, a, b)
                               && Examined(if a < b then a else b, if a < b then b else a, i, j)
  }

  /** What the adjacency map holds before the pair `(i, j)` is examined,
      when ids are distinct: an entry exactly for the states with partners,
      listing each partner once. */
  ghost predicate MapHolds(provinces: Provinces, ids: seq<int>, provs: seq<seq<int>>, adj: map<int, seq<int>>,
                           i: int, j: int)
    requires |ids| == |provs|
  {
    forall a :: 0 <= a < |ids| ==>
      (ids[a] in adj <==> Partners(provinces, provs, a, i, j) != {})
      && (ids[a] in adj ==>
            Distinct(adj[ids[a]])
            && forall b :: b in adj[ids[a]] <==> b in Partners(provinces, provs, a, i, j))
  }

  /** Examining the pair `(i, j)` adds `j` to the partners of `i` and `i` to
      those of `j` when they are linked, and nothing else. */
  lemma PartnersStep(provinces: Provinces, provs: seq<seq<int>>, a: int, i: int, j: int)
    requires 0 <= a < |provs| && 0 <= i < j < |provs|
    ensures Partners(provinces, provs, a, i, j + 1)
         == Partners(provinces, provs, a, i, j)
            + (if a == i && Linked(provinces, provs[i], provs[j]) then {j} else {})
            + (if a == j && Linked(provinces, provs[i], provs[j]) then {i} else {})
    ensures a == i ==> j !in Partners(provinces, provs, a, i, j)
    ensures a == j ==> i !in Partners(provinces, provs, a, i, j)
  {
    var before := Partners(provinces, provs, a, i, j);
    var after := Partners(provinces, provs, a, i, j + 1);
    var linked := Linked(provinces, provs[i], provs[j]);
    forall b | 0 <= b < |provs|
      ensures b in after <==> b in before || (a == i && linked && b == j) || (a == j && linked && b == i)
    {
      var lo, hi := if a < b then a else b, if a < b then b else a;
      assert Examined(lo, hi, i, j + 1) <==> Examined(lo, hi, i, j) || (lo == i && hi == j);
      if lo == i && hi == j {
        assert (a == i && b == j) || (a == j && b == i);
        assert LinkedPair(provinces, provs, a, b) == linked;
      }
    }
  }

  /** No pair is examined before the first. */
  lemma PartnersInitial(provinces: Provinces, provs: seq<seq<int>>, a: int)
    requires 0 <= a < |provs|
    ensures Partners(provinces, provs, a, 0, 1) == {}
  {
  }

  /** Finishing the row of `i` is starting the row of `i + 1`. */
  lemma PartnersRow(provinces: Provinces, provs: seq<seq<int>>, a: int, i: int)
    requires 0 <= a < |provs| && 0 <= i
    ensures Partners(provinces, provs, a, i, |provs|) == Partners(provinces, provs, a, i + 1, i + 2)
  {
  }

  /** After the last row every pair has been examined. */
  lemma PartnersAll(provinces: Provinces, provs: seq<seq<int>>, a: int, b: int)
    requires 0 <= a < |provs| && 0 <= b < |provs|
    ensures b in Partners(provinces, provs, a, |provs|, |provs| + 1) <==> b != a && LinkedPair(provinces, provs, a, b)
  {
  }

  /** The map update of one examined pair keeps `MapHolds`. */
  lemma LookupKeepsMap(provinces: Provinces, ids: seq<int>, provs: seq<seq<int>>, adj: map<int, seq<int>>,
                       i: int, j: int, r: map<int, seq<int>>)
    requires |ids| == |provs| && 0 <= i < j < |ids|
    requires forall a, b :: 0 <= a < b < |ids| ==> ids[a] != ids[b]
    requires MapHolds(provinces, ids, provs, adj, i, j)
    requires Linked(provinces, provs[i], provs[j]) ==> r == Add(Add(adj, ids[i], j), ids[j], i)
    requires !Linked(provinces, provs[i], provs[j]) ==> r == adj
    ensures MapHolds(provinces, ids, provs, r, i, j + 1)
  {
    forall a | 0 <= a < |ids|
      ensures (ids[a] in r <==> Partners(provinces, provs, a, i, j + 1) != {})
      ensures ids[a] in r ==> (Distinct(r[ids[a]])
                               && forall b :: b in r[ids[a]] <==> b in Partners(provinces, provs, a, i, j + 1))
    {
      PartnersStep(provinces, provs, a, i, j);
      assert a != i ==> ids[a] != ids[i];
      assert a != j ==> ids[a] != ids[j];
    }
  }

  /** The constructor. `oceanIds` stands for the ids the `StateInfo`
      constructor gives ocean clusters from its counter, which is not part
      of this model. The archetype of each land state is drawn at random. */
  method Build(states: seq<State>, provinces: Provinces, oceans: seq<seq<int>>, oceanIds: seq<int>)
    returns (infos: seq<ManagedState>)
    requires |oceanIds| == |oceans|
    ensures |infos| == |states| + |oceans|
    ensures forall i :: 0 <= i < |states| ==>
              infos[i].id == states[i].id && infos[i].provinces == states[i].provinces && infos[i].kind.Land?
    ensures forall i :: 0 <= i < |states| ==>
              (infos[i].kind.isCoastal <==> Coastal(provinces, states[i].provinces))
    ensures forall o :: 0 <= o < |oceans| ==>
              infos[|states| + o] == ManagedState(oceanIds[o], oceans[o], Ocean, infos[|states| + o].adjacent)
    ensures DistinctIds(infos) ==> forall a, b :: 0 <= a < |infos| && 0 <= b < |infos| ==>
              ((infos[a].adjacent.Some? && b in infos[a].adjacent.value)
                 <==> (b != a && LinkedPair(provinces, ProvincesOf(infos), a, b)))
    ensures DistinctIds(infos) ==> forall a :: 0 <= a < |infos| && infos[a].adjacent.Some? ==>
              Distinct(infos[a].adjacent.value) && infos[a].adjacent.value != []
  {
    var initial := Initial(states, provinces, oceans, oceanIds);
    var adj := PairLoop(provinces, initial);
    infos := SetAdjacent(provinces, initial, adj);
    assert IdsOf(infos) == IdsOf(initial);
    assert ProvincesOf(infos) == ProvincesOf(initial);
  }

  /** The list before adjacency: the land states in input order, then the
      ocean clusters, none of them with adjacency set. */
  method Initial(states: seq<State>, provinces: Provinces, oceans: seq<seq<int>>, oceanIds: seq<int>)
    returns (infos: seq<ManagedState>)
    requires |oceanIds| == |oceans|
    ensures |infos| == |states| + |oceans|
    ensures forall i :: 0 <= i < |states| ==>
              infos[i].id == states[i].id && infos[i].provinces == states[i].provinces && infos[i].kind.Land?
    ensures forall i :: 0 <= i < |states| ==>
              (infos[i].kind.isCoastal <==> Coastal(provinces, states[i].provinces))
    ensures forall o :: 0 <= o < |oceans| ==> infos[|states| + o] == ManagedState(oceanIds[o], oceans[o], Ocean, None)
    ensures forall i :: 0 <= i < |infos| ==> infos[i].adjacent.None?
  {
    infos := [];
    var i := 0;
    while i < |states|
      invariant 0 <= i <= |states| && |infos| == i
      invariant forall k :: 0 <= k < i ==>
                  infos[k].id == states[k].id && infos[k].provinces == states[k].provinces
                  && infos[k].kind.Land? && infos[k].adjacent.None?
      invariant forall k :: 0 <= k < i ==> (infos[k].kind.isCoastal <==> Coastal(provinces, states[k].provinces))
    {
      var coastal := IsCoastal(provinces, states[i].provinces);
      var t: StateType :| true;
      infos := infos + [ManagedState(states[i].id, states[i].provinces, Land(coastal, t), None)];
      i := i + 1;
    }
    var o := 0;
    while o < |oceans|
      invariant 0 <= o <= |oceans| && |infos| == |states| + o
      invariant forall k :: 0 <= k < |states| ==>
                  infos[k].id == states[k].id && infos[k].provinces == states[k].provinces
                  && infos[k].kind.Land? && infos[k].adjacent.None?
      invariant forall k :: 0 <= k < |states| ==> (infos[k].kind.isCoastal <==> Coastal(provinces, states[k].provinces))
      invariant forall k :: 0 <= k < o ==> infos[|states| + k] == ManagedState(oceanIds[k], oceans[k], Ocean, None)
    {
      infos := infos + [ManagedState(oceanIds[o], oceans[o], Ocean, None)];
      o := o + 1;
    }
    forall i | |states| <= i < |infos|
      ensures infos[i].adjacent.None?
    {
      assert infos[|states| + (i - |states|)] == ManagedState(oceanIds[i - |states|], oceans[i - |states|], Ocean, None);
    }
  }

  function ProvincesOf(infos: seq<ManagedState>): (r: seq<seq<int>>)
    ensures |r| == |infos| && forall k :: 0 <= k < |infos| ==> r[k] == infos[k].provinces
  {
    seq(|infos|, k requires 0 <= k < |infos| => infos[k].provinces)
  }

  function IdsOf(infos: seq<ManagedState>): (r: seq<int>)
    ensures |r| == |infos| && forall k :: 0 <= k < |infos| ==> r[k] == infos[k].id
  {
    seq(|infos|, k requires 0 <= k < |infos| => infos[k].id)
  }

  /** The loop over every pair `i < j` of the list. */
  method PairLoop(provinces: Provinces, infos: seq<ManagedState>) returns (adj: map<int, seq<int>>)
    ensures DistinctIds(infos) ==>
              MapHolds(provinces, IdsOf(infos), ProvincesOf(infos), adj, |infos|, |infos| + 1)
  {
    var ids, provs := IdsOf(infos), ProvincesOf(infos);
    adj := map[];
    forall a | 0 <= a < |infos| {
      PartnersInitial(provinces, provs, a);
    }
    var i := 0;
    while i < |infos|
      invariant 0 <= i <= |infos|
      invariant DistinctIds(infos) ==> MapHolds(provinces, ids, provs, adj, i, i + 1)
    {
      adj := Row(provinces, ids, provs, adj, i);
      forall a | 0 <= a < |infos| {
        PartnersRow(provinces, provs, a, i);
      }
      i := i + 1;
    }
  }

  /** The inner loop of the pair loop: the pairs `(i, j)` for `j > i`. */
  method Row(provinces: Provinces, ids: seq<int>, provs: seq<seq<int>>, adj0: map<int, seq<int>>, i: int)
    returns (adj: map<int, seq<int>>)
    requires |ids| == |provs| && 0 <= i < |ids|
    requires (forall a, b :: 0 <= a < b < |ids| ==> ids[a] != ids[b]) ==> MapHolds(provinces, ids, provs, adj0, i, i + 1)
    ensures (forall a, b :: 0 <= a < b < |ids| ==> ids[a] != ids[b]) ==> MapHolds(provinces, ids, provs, adj, i, |ids|)
  {
    adj := adj0;
    var j := i + 1;
    while j < |ids|
      invariant i + 1 <= j <= |ids|
      invariant (forall a, b :: 0 <= a < b < |ids| ==> ids[a] != ids[b]) ==> MapHolds(provinces, ids, provs, adj, i, j)
    {
      var next := LookupStateAdjacencies(provinces, i, ids[i], provs[i], j, ids[j], provs[j], adj);
      if forall a, b :: 0 <= a < b < |ids| ==> ids[a] != ids[b] {
        LookupKeepsMap(provinces, ids, provs, adj, i, j, next);
      }
      adj := next;
      j := j + 1;
    }
  }

  /** The final pass: every state whose id has an entry gets that list. */
  method SetAdjacent(provinces: Provinces, infos: seq<ManagedState>, adj: map<int, seq<int>>)
    returns (r: seq<ManagedState>)
    requires DistinctIds(infos) ==>
               MapHolds(provinces, IdsOf(infos), ProvincesOf(infos), adj, |infos|, |infos| + 1)
    ensures |r| == |infos|
    ensures forall a :: 0 <= a < |infos| ==> r[a] == infos[a].(adjacent := r[a].adjacent)
    ensures forall a :: 0 <= a < |infos| ==>
              r[a].adjacent == (if infos[a].id in adj then Some(adj[infos[a].id]) else infos[a].adjacent)
    ensures DistinctIds(infos) && (forall a :: 0 <= a < |infos| ==> infos[a].adjacent.None?) ==>
              forall a, b :: 0 <= a < |infos| && 0 <= b < |infos| ==>
                ((r[a].adjacent.Some? && b in r[a].adjacent.value)
                   <==> (b != a && LinkedPair(provinces, ProvincesOf(infos), a, b)))
    ensures DistinctIds(infos) ==> forall a :: 0 <= a < |infos| && infos[a].id in adj ==>
              Distinct(adj[infos[a].id]) && adj[infos[a].id] != []
  {
    r := [];
    var a := 0;
    while a < |infos|
      invariant 0 <= a <= |infos| && |r| == a
      invariant forall k :: 0 <= k < a ==>
                  r[k] == infos[k].(adjacent := if infos[k].id in adj then Some(adj[infos[k].id]) else infos[k].adjacent)
    {
      var s := infos[a];
      if s.id in adj {
        s := s.(adjacent := Some(adj[s.id]));
      }
      r := r + [s];
      a := a + 1;
    }
    if DistinctIds(infos) {
      var provs := ProvincesOf(infos);
      forall a, b | 0 <= a < |infos| && 0 <= b < |infos|
        ensures infos[a].id in adj ==> (b in adj[infos[a].id] <==> b != a && LinkedPair(provinces, provs, a, b))
        ensures infos[a].id !in adj ==> !(b != a && LinkedPair(provinces, provs, a, b))
      {
        PartnersAll(provinces, provs, a, b);
      }
      forall a | 0 <= a < |infos| && infos[a].id in adj
        ensures adj[infos[a].id] != []
      {
        var b :| b in Partners(provinces, provs, a, |infos|, |infos| + 1);
        assert b in adj[infos[a].id];
      }
    }
  }

  /** Adjacency is symmetric and irreflexive. */
  lemma AdjacencySymmetric(provinces: Provinces, infos: seq<ManagedState>, a: int, b: int)
    requires 0 <= a < |infos| && 0 <= b < |infos|
    requires forall x, y :: 0 <= x < |infos| && 0 <= y < |infos| ==>
               ((infos[x].adjacent.Some? && y in infos[x].adjacent.value)
                  <==> (y != x && LinkedPair(provinces, ProvincesOf(infos), x, y)))
    ensures (infos[a].adjacent.Some? && b in infos[a].adjacent.value)
            <==> (infos[b].adjacent.Some? && a in infos[b].adjacent.value)
    ensures !(infos[a].adjacent.Some? && a in infos[a].adjacent.value)
  {
    var provs := ProvincesOf(infos);
    assert LinkedPair(provinces, provs, a, b) == LinkedPair(provinces, provs, b, a);
  }
}
