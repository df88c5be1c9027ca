/** Directed graphs over state ids, given as successor maps, and the notions of
    reachability, hop distance and closure that the breadth-first searches of the
    generator and the validators compute. A successor map already holds the
    filtered edges a search may follow (for example only edges into passable
    states). */
module Graph {

  type Adjacency = map<int, set<int>>

  /** Every successor is itself a node of the map, so a search never looks up an
      absent key. */
  ghost predicate Closed(g: Adjacency) {
    forall v :: v in g ==> g[v] <= g.Keys
  }

  /** The nodes one edge away from `s`. */
  function Step(g: Adjacency, s: set<int>): set<int> {
    set w | w in Successors(g) && HasPredecessorIn(g, s, w)
  }

  /** Every node some edge points to. */
  function Successors(g: Adjacency): set<int> {
    set v, w | v in g && w in g[v] :: w
  }

  predicate HasPredecessorIn(g: Adjacency, s: set<int>, w: int) {
    exists v :: v in s && v in g && w in g[v]
  }

  /** The nodes reachable from `start` in at most `k` hops. */
  function Reach(g: Adjacency, start: int, k: nat): set<int>
    decreases k
  {
    if k == 0 then {start} else Reach(g, start, k - 1) + Step(g, Reach(g, start, k - 1))
  }

  ghost predicate Reachable(g: Adjacency, start: int, v: int) {
    exists k: nat :: v in Reach(g, start, k)
  }

  /** A walk of `|p| - 1` hops from `p[0]` to `p[|p| - 1]`. */
  ghost predicate IsPath(g: Adjacency, p: seq<int>) {
    |p| >= 1 && forall i :: 0 <= i < |p| - 1 ==> p[i] in g && p[i + 1] in g[p[i]]
  }

  ghost predicate PathBetween(g: Adjacency, p: seq<int>, a: int, b: int) {
    IsPath(g, p) && p[0] == a && p[|p| - 1] == b
  }

  /** The set of nodes reachable from `start`. */
  ghost function Closure(g: Adjacency, start: int): set<int> {
    set v | v in g.Keys + {start} && Reachable(g, start, v)
  }

  lemma {:induction false} ReachMonotone(g: Adjacency, start: int, j: nat, k: nat)
    requires j <= k
    ensures Reach(g, start, j) <= Reach(g, start, k)
    decreases k - j
  {
    if j < k {
      ReachMonotone(g, start, j, k - 1);
    }
  }

  lemma ReachStep(g: Adjacency, start: int, k: nat, v: int, w: int)
    requires v in Reach(g, start, k) && v in g && w in g[v]
    ensures w in Reach(g, start, k + 1)
  {
    assert w in Step(g, Reach(g, start, k));
  }

  /** A set that holds `start` and is closed under successors holds every node
      within any number of hops. */
  lemma {:induction false} ClosedSetHoldsReach(g: Adjacency, start: int, s: set<int>, k: nat)
    requires start in s
    requires forall v :: v in s && v in g ==> g[v] <= s
    ensures Reach(g, start, k) <= s
  {
    if k > 0 {
      ClosedSetHoldsReach(g, start, s, k - 1);
    }
  }

  /** Reachability within `k` hops is the existence of a walk of at most `k` hops. */
  lemma {:induction false} ReachHasPath(g: Adjacency, start: int, v: int, k: nat)
    requires v in Reach(g, start, k)
    ensures exists p :: PathBetween(g, p, start, v) && |p| <= k + 1
    decreases k
  {
    if k == 0 {
      assert PathBetween(g, [start], start, v);
    } else if v in Reach(g, start, k - 1) {
      ReachHasPath(g, start, v, k - 1);
    } else {
      var u :| u in Reach(g, start, k - 1) && u in g && v in g[u];
      ReachHasPath(g, start, u, k - 1);
      var p :| PathBetween(g, p, start, u) && |p| <= k;
      var q := p + [v];
      assert forall i :: 0 <= i < |q| - 1 ==> q[i] in g && q[i + 1] in g[q[i]] by {
        forall i | 0 <= i < |q| - 1
          ensures q[i] in g && q[i + 1] in g[q[i]]
        {
          if i < |p| - 1 {
            assert q[i] == p[i] && q[i + 1] == p[i + 1];
          } else {
            assert q[i] == u && q[i + 1] == v;
          }
        }
      }
      assert PathBetween(g, q, start, v);
    }
  }

  lemma {:induction false} PathInReach(g: Adjacency, p: seq<int>)
    requires IsPath(g, p)
    ensures p[|p| - 1] in Reach(g, p[0], |p| - 1)
    decreases |p|
  {
    if |p| > 1 {
      var q := p[..|p| - 1];
      assert IsPath(g, q) by {
        forall i | 0 <= i < |q| - 1
          ensures q[i] in g && q[i + 1] in g[q[i]]
        {
          assert q[i] == p[i] && q[i + 1] == p[i + 1];
        }
      }
      PathInReach(g, q);
      ReachStep(g, p[0], |p| - 2, p[|p| - 2], p[|p| - 1]);
    }
  }

  /** Both directions: `v` is within `k` hops iff some walk of at most `k` hops
      leads from `start` to `v`. */
  lemma ReachIffPath(g: Adjacency, start: int, v: int, k: nat)
    ensures v in Reach(g, start, k) <==> exists p :: PathBetween(g, p, start, v) && |p| <= k + 1
  {
    if v in Reach(g, start, k) {
      ReachHasPath(g, start, v, k);
    }
    if p :| PathBetween(g, p, start, v) && |p| <= k + 1 {
      PathInReach(g, p);
      ReachMonotone(g, start, |p| - 1, k);
    }
  }

  /** The least number of hops from `start` to `v`, or -1 when `v` is unreachable. */
  ghost function Distance(g: Adjacency, start: int, v: int): (d: int)
    ensures d >= -1
    ensures d >= 0 ==> v in Reach(g, start, d) && (d == 0 || v !in Reach(g, start, d - 1))
    ensures d == -1 <==> !Reachable(g, start, v)
  {
    if Reachable(g, start, v) then
      LeastHopsExist(g, start, v);
      var d: nat :| v in Reach(g, start, d) && (d == 0 || v !in Reach(g, start, d - 1));
      d
    else
      -1
  }

  lemma LeastHopsExist(g: Adjacency, start: int, v: int)
    requires Reachable(g, start, v)
    ensures exists d: nat :: v in Reach(g, start, d) && (d == 0 || v !in Reach(g, start, d - 1))
  {
    var k: nat :| v in Reach(g, start, k);
    LeastHopsBelow(g, start, v, k);
  }

  /** Searching down from a hop count that reaches `v` finds the least one. */
  lemma {:induction false} LeastHopsBelow(g: Adjacency, start: int, v: int, k: nat)
    requires v in Reach(g, start, k)
    ensures exists d: nat :: d <= k && v in Reach(g, start, d) && (d == 0 || v !in Reach(g, start, d - 1))
    decreases k
  {
    if k > 0 && v in Reach(g, start, k - 1) {
      LeastHopsBelow(g, start, v, k - 1);
    } else {
      assert k <= k && v in Reach(g, start, k) && (k == 0 || v !in Reach(g, start, k - 1));
    }
  }

  /** A hop count that reaches `v` when the one below it does not is the distance. */
  lemma DistanceIsLeastHops(g: Adjacency, start: int, v: int, k: nat)
    requires v in Reach(g, start, k)
    requires k == 0 || v !in Reach(g, start, k - 1)
    ensures Distance(g, start, v) == k
  {
    assert Reachable(g, start, v);
    var d := Distance(g, start, v);
    assert d >= 0;
    if d < k {
      ReachMonotone(g, start, d, k - 1);
      assert false;
    } else if d > k {
      ReachMonotone(g, start, k, d - 1);
      assert false;
    }
  }

  /** The hop distance is the length of a shortest walk. */
  lemma DistanceIsShortestPath(g: Adjacency, start: int, v: int)
    ensures Distance(g, start, v) >= 0 ==>
              exists p :: PathBetween(g, p, start, v) && |p| == Distance(g, start, v) + 1
    ensures forall p :: PathBetween(g, p, start, v) ==>
              0 <= Distance(g, start, v) && Distance(g, start, v) + 1 <= |p|
  {
    var d := Distance(g, start, v);
    if d >= 0 {
      ReachHasPath(g, start, v, d);
      var p :| PathBetween(g, p, start, v) && |p| <= d + 1;
      if |p| < d + 1 {
        PathInReach(g, p);
        ReachMonotone(g, start, |p| - 1, d - 1);
        assert false;
      }
    }
    forall p | PathBetween(g, p, start, v)
      ensures 0 <= d && d + 1 <= |p|
    {
      PathInReach(g, p);
      if |p| < d + 1 {
        ReachMonotone(g, start, |p| - 1, d - 1);
      }
    }
  }

  /** Adding a node to `s` adds exactly that node's successors to the step:
      the incremental border update of a country rests on this. */
  lemma StepInsert(g: Adjacency, s: set<int>, a: int)
    requires a in g
    ensures Step(g, s + {a}) == Step(g, s) + g[a]
  {
    forall w | w in g[a]
      ensures w in Step(g, s + {a})
    {
      assert w in Successors(g);
      assert HasPredecessorIn(g, s + {a}, w);
    }
    forall w | w in Step(g, s + {a})
      ensures w in Step(g, s) + g[a]
    {
      var v :| v in s + {a} && v in g && w in g[v];
      if v != a {
        assert HasPredecessorIn(g, s, w);
      }
    }
  }

  /** The step from a single node is its successor set. */
  lemma StepSingleton(g: Adjacency, a: int)
    requires a in g
    ensures Step(g, {a}) == g[a]
  {
    StepInsert(g, {}, a);
    assert {} + {a} == {a};
    assert Step(g, {}) == {};
  }
}
