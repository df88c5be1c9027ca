/** The two breadth-first searches of the generator, over a successor map that
    already holds only the edges the search may follow. Both mark a node visited
    when it is dequeued, so the queue may hold a node more than once; both
    enqueue a successor only when it is not yet visited, and visit successors in
    the hash-set order of the source, which the model leaves open. */
module Bfs {
  import opened Graph

  function QueueNodes(q: seq<(int, nat)>): set<int> {
    set i | 0 <= i < |q| :: q[i].0
  }

  /** The queued nodes that carry hop count `d`. */
  function NodesAt(q: seq<(int, nat)>, d: nat): set<int> {
    set i | 0 <= i < |q| && q[i].1 == d :: q[i].0
  }

  lemma QueueNodesTail(q: seq<(int, nat)>)
    requires |q| > 0
    ensures QueueNodes(q) == {q[0].0} + QueueNodes(q[1..])
    ensures forall d: nat :: NodesAt(q, d) == (if q[0].1 == d then {q[0].0} else {}) + NodesAt(q[1..], d)
  {
    forall v | v in QueueNodes(q)
      ensures v in {q[0].0} + QueueNodes(q[1..])
    {
      var i :| 0 <= i < |q| && q[i].0 == v;
      if i > 0 {
        assert q[1..][i - 1] == q[i];
      }
    }
    forall v | v in QueueNodes(q[1..])
      ensures v in QueueNodes(q)
    {
      var i :| 0 <= i < |q[1..]| && q[1..][i].0 == v;
      assert q[i + 1] == q[1..][i];
    }
    forall d: nat
      ensures NodesAt(q, d) == (if q[0].1 == d then {q[0].0} else {}) + NodesAt(q[1..], d)
    {
      forall v | v in NodesAt(q, d)
        ensures v in (if q[0].1 == d then {q[0].0} else {}) + NodesAt(q[1..], d)
      {
        var i :| 0 <= i < |q| && q[i].1 == d && q[i].0 == v;
        if i > 0 {
          assert q[1..][i - 1] == q[i];
        }
      }
      forall v | v in NodesAt(q[1..], d)
        ensures v in NodesAt(q, d)
      {
        var i :| 0 <= i < |q[1..]| && q[1..][i].1 == d && q[1..][i].0 == v;
        assert q[i + 1] == q[1..][i];
      }
    }
  }

  /** Any element of a non-empty set: the enumeration order of a hash set is left open. */
  method PickOne<T>(s: set<T>) returns (x: T)
    requires s != {}
    ensures x in s
  {
    x :| x in s;
  }

  /** `q` is `queue` followed by the elements of `unseen`, each at hop count `d`. */
  ghost predicate Enqueued(queue: seq<(int, nat)>, unseen: set<int>, d: nat, q: seq<(int, nat)>) {
    && |q| >= |queue| && (forall i :: 0 <= i < |queue| ==> q[i] == queue[i])
    && (forall i :: |queue| <= i < |q| ==> q[i].1 == d && q[i].0 in unseen)
    && QueueNodes(q) == QueueNodes(queue) + unseen
    && NodesAt(q, d) == NodesAt(queue, d) + unseen
  }

  /** Appends every element of `unseen` at hop count `d`, in an order the model
      leaves open. */
  method EnqueueAll(queue: seq<(int, nat)>, unseen: set<int>, d: nat) returns (q: seq<(int, nat)>)
    ensures Enqueued(queue, unseen, d, q)
  {
    q := queue;
    var rest := unseen;
    while rest != {}
      invariant rest <= unseen
      invariant |q| >= |queue| && forall i :: 0 <= i < |queue| ==> q[i] == queue[i]
      invariant forall i :: |queue| <= i < |q| ==> q[i].1 == d && q[i].0 in unseen
      invariant QueueNodes(q) == QueueNodes(queue) + (unseen - rest)
      invariant NodesAt(q, d) == NodesAt(queue, d) + (unseen - rest)
      decreases rest
    {
      var e := PickOne(rest);
      AppendEntry(q, e, d);
      q := q + [(e, d)];
      rest := rest - {e};
    }
  }

  /** Appending entry `(e, d)` adds `e` to the queued nodes and to those at `d`. */
  lemma AppendEntry(q: seq<(int, nat)>, e: int, d: nat)
    ensures QueueNodes(q + [(e, d)]) == QueueNodes(q) + {e}
    ensures NodesAt(q + [(e, d)], d) == NodesAt(q, d) + {e}
  {
    var q' := q + [(e, d)];
    assert q'[|q|] == (e, d);
    assert forall i :: 0 <= i < |q| ==> q'[i] == q[i];
  }

  /** Once every node within `dd` hops is visited, every visited node has its
      successors visited or queued, and the queue only holds hop count `dd + 1`,
      every node within `dd + 1` hops is visited or queued at `dd + 1`. */
  lemma FrontAdvance(g: Adjacency, start: int, visited: set<int>, q: seq<(int, nat)>, dd: nat)
    requires Reach(g, start, dd) <= visited
    requires forall v :: v in visited ==> v in g && g[v] <= visited + QueueNodes(q)
    requires forall i :: 0 <= i < |q| ==> q[i].1 == dd + 1
    ensures Reach(g, start, dd + 1) <= visited + NodesAt(q, dd + 1)
  {
    assert QueueNodes(q) == NodesAt(q, dd + 1);
    forall w | w in Step(g, Reach(g, start, dd))
      ensures w in visited + NodesAt(q, dd + 1)
    {
      var v :| v in Reach(g, start, dd) && v in g && w in g[v];
    }
  }

  /** The queue holds hop count `queue[0].1` before index `m` and one more from
      `m` on, with at least one entry at the front's count. */
  ghost predicate Layered(queue: seq<(int, nat)>, m: nat) {
    && m <= |queue|
    && (|queue| > 0 ==> m > 0)
    && forall i :: 0 <= i < |queue| ==> queue[i].1 == queue[0].1 + (if i < m then 0 else 1)
  }

  /** The invariant of the shortest-path search at the top of its loop: queued
      entries carry a hop count that reaches them, the queue is layered at `m`,
      `end` was never visited, visited nodes have their successors visited or
      queued, and every node within fewer hops than the front entry is visited
      while every node within the front's hop count is visited or queued at it. */
  ghost predicate SearchInv(g: Adjacency, start: int, end: int, visited: set<int>, queue: seq<(int, nat)>, m: nat) {
    SearchShape(g, start, end, visited, queue, m) && SearchCover(g, start, visited, queue)
  }

  /** The shape half of the invariant: nodes resolvable, hop counts that reach
      them, layering, and `end` not visited. */
  ghost predicate SearchShape(g: Adjacency, start: int, end: int, visited: set<int>, queue: seq<(int, nat)>, m: nat) {
    && visited <= g.Keys
    && (forall i :: 0 <= i < |queue| ==> queue[i].0 in g || queue[i].0 == end)
    && (forall i :: 0 <= i < |queue| ==> queue[i].0 in Reach(g, start, queue[i].1))
    && Layered(queue, m)
    && end !in visited
  }

  /** The coverage half of the invariant: successors of visited nodes are
      visited or queued, and the layers below and at the front are covered. */
  ghost predicate SearchCover(g: Adjacency, start: int, visited: set<int>, queue: seq<(int, nat)>) {
    && (forall v :: v in visited ==> v in g && g[v] <= visited + QueueNodes(queue))
    && start in visited + QueueNodes(queue)
    && (|queue| > 0 && queue[0].1 > 0 ==> Reach(g, start, queue[0].1 - 1) <= visited)
    && (|queue| > 0 ==> Reach(g, start, queue[0].1) <= visited + NodesAt(queue, queue[0].1))
  }

  /** The split index once the front entry is taken and `next` follows. */
  function NextSplit(m: nat, next: seq<(int, nat)>): nat {
    if m <= 1 then |next| else m - 1
  }

  /** When the front entry is the only one at its hop count and it is visited,
      every node within that hop count is visited. */
  lemma LayerDone(g: Adjacency, start: int, visited: set<int>, queue: seq<(int, nat)>)
    requires |queue| > 0 && queue[0].0 in visited
    requires forall i :: 1 <= i < |queue| ==> queue[i].1 == queue[0].1 + 1
    requires Reach(g, start, queue[0].1) <= visited + NodesAt(queue, queue[0].1)
    ensures Reach(g, start, queue[0].1) <= visited
  {
    assert NodesAt(queue, queue[0].1) == {queue[0].0};
  }

  /** Taking the last entry of the front layer moves the search on to the
      next hop count. */
  lemma LayerAdvances(g: Adjacency, start: int, visited: set<int>, queue: seq<(int, nat)>,
                      next: seq<(int, nat)>)
    requires |queue| > 0 && queue[0].0 in visited
    requires forall i :: 1 <= i < |queue| ==> queue[i].1 == queue[0].1 + 1
    requires forall i :: 0 <= i < |next| ==> next[i].1 == queue[0].1 + 1
    requires forall v :: v in visited ==> v in g && g[v] <= visited + QueueNodes(next)
    requires Reach(g, start, queue[0].1) <= visited + NodesAt(queue, queue[0].1)
    ensures Reach(g, start, queue[0].1) <= visited
    ensures Reach(g, start, queue[0].1 + 1) <= visited + NodesAt(next, queue[0].1 + 1)
  {
    LayerDone(g, start, visited, queue);
    FrontAdvance(g, start, visited, next, queue[0].1);
  }

  /** The layer facts of the invariant after the front entry `queue[0]` is
      taken, `visited` already holding it, and `next` follows: `next` keeps the
      rest of the front layer first and then holds only the following count. */
  lemma LayersAfterPop(g: Adjacency, start: int, visited: set<int>, queue: seq<(int, nat)>, m: nat,
                       next: seq<(int, nat)>)
    requires |queue| > 0 && queue[0].0 in visited
    requires Layered(queue, m)
    requires m > 1 ==> |next| > 0 && next[0].1 == queue[0].1
    requires m <= 1 ==> forall i :: 0 <= i < |next| ==> next[i].1 == queue[0].1 + 1
    requires NodesAt(queue, queue[0].1) <= {queue[0].0} + NodesAt(next, queue[0].1)
    requires forall v :: v in visited ==> v in g && g[v] <= visited + QueueNodes(next)
    requires queue[0].1 > 0 ==> Reach(g, start, queue[0].1 - 1) <= visited
    requires Reach(g, start, queue[0].1) <= visited + NodesAt(queue, queue[0].1)
    ensures |next| > 0 && next[0].1 > 0 ==> Reach(g, start, next[0].1 - 1) <= visited
    ensures |next| > 0 ==> Reach(g, start, next[0].1) <= visited + NodesAt(next, next[0].1)
  {
    var dist := queue[0].1;
    if |next| > 0 {
      if m > 1 {
        CoverAfterTake(Reach(g, start, dist), visited, queue[0].0, NodesAt(queue, dist), NodesAt(next, dist));
      } else {
        assert forall i :: 1 <= i < |queue| ==> queue[i].1 == dist + 1;
        LayerAdvances(g, start, visited, queue, next);
        assert next[0].1 == dist + 1;
      }
    }
  }

  /** Set reasoning for taking a covered element: if `r` is covered by `visited`
      and the front layer, and the front layer is `a` (now visited) plus what
      remains queued, the remainder still covers `r`. */
  lemma CoverAfterTake(r: set<int>, visited: set<int>, a: int, layer: set<int>, rest: set<int>)
    requires r <= visited + layer && layer <= {a} + rest && a in visited
    ensures r <= visited + rest
  {
  }

  /** The shape facts of the invariant (nodes resolvable, hop counts that reach
      them, layering) for a queue `next` made of the tail of `queue` followed by
      entries one hop beyond the front's count. */
  lemma ShapeAfterPop(g: Adjacency, start: int, end: int, queue: seq<(int, nat)>, m: nat, next: seq<(int, nat)>)
    requires |queue| > 0
    requires forall i :: 0 <= i < |queue| ==> queue[i].0 in g || queue[i].0 == end
    requires forall i :: 0 <= i < |queue| ==> queue[i].0 in Reach(g, start, queue[i].1)
    requires Layered(queue, m)
    requires |next| >= |queue| - 1 && forall i :: 0 <= i < |queue| - 1 ==> next[i] == queue[i + 1]
    requires forall i :: |queue| - 1 <= i < |next| ==>
               next[i].1 == queue[0].1 + 1 && next[i].0 in g && next[i].0 in Reach(g, start, next[i].1)
    ensures forall i :: 0 <= i < |next| ==> next[i].0 in g || next[i].0 == end
    ensures forall i :: 0 <= i < |next| ==> next[i].0 in Reach(g, start, next[i].1)
    ensures Layered(next, NextSplit(m, next))
    ensures m > 1 ==> |next| > 0 && next[0].1 == queue[0].1
    ensures m <= 1 ==> forall i :: 0 <= i < |next| ==> next[i].1 == queue[0].1 + 1
  {
    if m > 1 {
      assert next[0] == queue[1];
    }
  }

  /** The closure facts of the invariant after the front entry is taken and
      `visited'` (which holds it) and `next` replace `visited` and `queue`. */
  lemma ClosureAfterPop(g: Adjacency, start: int, visited: set<int>, queue: seq<(int, nat)>,
                        visited': set<int>, next: seq<(int, nat)>)
    requires |queue| > 0
    requires forall v :: v in visited ==> v in g && g[v] <= visited + QueueNodes(queue)
    requires start in visited + QueueNodes(queue)
    requires visited <= visited' && queue[0].0 in visited'
    requires QueueNodes(queue[1..]) <= QueueNodes(next)
    requires forall v :: v in visited' - visited ==> v in g && g[v] <= visited' + QueueNodes(next)
    ensures forall v :: v in visited' ==> v in g && g[v] <= visited' + QueueNodes(next)
    ensures start in visited' + QueueNodes(next)
  {
    QueueNodesTail(queue);
  }

  /** Dropping a front entry that is already visited keeps the invariant. */
  lemma SkipKeepsInv(g: Adjacency, start: int, end: int, visited: set<int>, queue: seq<(int, nat)>, m: nat)
    requires SearchInv(g, start, end, visited, queue, m)
    requires |queue| > 0 && queue[0].0 in visited
    ensures SearchInv(g, start, end, visited, queue[1..], NextSplit(m, queue[1..]))
  {
    ShapeAfterPop(g, start, end, queue, m, queue[1..]);
    SkipKeepsClosure(g, start, visited, queue);
    SkipKeepsLayers(g, start, visited, queue, m);
  }

  /** Successors of visited nodes, and `start`, stay covered when a visited
      front entry is dropped. */
  lemma SkipKeepsClosure(g: Adjacency, start: int, visited: set<int>, queue: seq<(int, nat)>)
    requires |queue| > 0 && queue[0].0 in visited
    requires forall v :: v in visited ==> v in g && g[v] <= visited + QueueNodes(queue)
    requires start in visited + QueueNodes(queue)
    ensures forall v :: v in visited ==> v in g && g[v] <= visited + QueueNodes(queue[1..])
    ensures start in visited + QueueNodes(queue[1..])
  {
    QueueNodesTail(queue);
  }

  /** The layer facts stay when a visited front entry is dropped. */
  lemma SkipKeepsLayers(g: Adjacency, start: int, visited: set<int>, queue: seq<(int, nat)>, m: nat)
    requires |queue| > 0 && queue[0].0 in visited
    requires Layered(queue, m)
    requires forall v :: v in visited ==> v in g && g[v] <= visited + QueueNodes(queue[1..])
    requires queue[0].1 > 0 ==> Reach(g, start, queue[0].1 - 1) <= visited
    requires Reach(g, start, queue[0].1) <= visited + NodesAt(queue, queue[0].1)
    ensures |queue| > 1 && queue[1].1 > 0 ==> Reach(g, start, queue[1].1 - 1) <= visited
    ensures |queue| > 1 ==> Reach(g, start, queue[1].1) <= visited + NodesAt(queue[1..], queue[1].1)
  {
    var tail := queue[1..];
    QueueNodesTail(queue);
    if m > 1 {
      assert tail[0] == queue[1];
    }
    LayersAfterPop(g, start, visited, queue, m, tail);
  }

  /** A queue that extends the tail of `queue` with entries at another hop count
      than `d` agrees with the tail on every entry and on the nodes at `d`. */
  lemma PrefixFacts(queue: seq<(int, nat)>, next: seq<(int, nat)>, d: nat)
    requires |queue| > 0
    requires |next| >= |queue| - 1 && forall i :: 0 <= i < |queue| - 1 ==> next[i] == queue[1..][i]
    requires forall i :: |queue| - 1 <= i < |next| ==> next[i].1 != d
    ensures forall i :: 0 <= i < |queue| - 1 ==> next[i] == queue[i + 1]
    ensures NodesAt(next, d) == NodesAt(queue[1..], d)
  {
    var tail := queue[1..];
    forall i | 0 <= i < |tail|
      ensures next[i] == queue[i + 1]
    {
      assert next[i] == tail[i];
    }
    forall v | v in NodesAt(next, d)
      ensures v in NodesAt(tail, d)
    {
      var i :| 0 <= i < |next| && next[i].1 == d && next[i].0 == v;
      assert i < |tail| && tail[i] == next[i];
    }
    forall v | v in NodesAt(tail, d)
      ensures v in NodesAt(next, d)
    {
      var i :| 0 <= i < |tail| && tail[i].1 == d && tail[i].0 == v;
      assert next[i] == tail[i];
    }
  }

  /** Visiting the front entry and queueing its unvisited successors one hop
      further keeps the invariant. */
  lemma VisitKeepsInv(g: Adjacency, start: int, end: int, visited: set<int>, queue: seq<(int, nat)>, m: nat,
                      next: seq<(int, nat)>)
    requires Closed(g)
    requires SearchInv(g, start, end, visited, queue, m)
    requires |queue| > 0 && queue[0].0 !in visited && queue[0].0 != end
    requires Enqueued(queue[1..], g[queue[0].0] - (visited + {queue[0].0}), queue[0].1 + 1, next)
    ensures queue[0].0 in g
    ensures SearchInv(g, start, end, visited + {queue[0].0}, next, NextSplit(m, next))
  {
    PrefixFacts(queue, next, queue[0].1);
    VisitKeepsShape(g, start, end, visited, queue, m, next);
    VisitKeepsCover(g, start, end, visited, queue, m, next);
  }

  /** The shape half after a visit. */
  lemma VisitKeepsShape(g: Adjacency, start: int, end: int, visited: set<int>, queue: seq<(int, nat)>, m: nat,
                        next: seq<(int, nat)>)
    requires Closed(g)
    requires SearchShape(g, start, end, visited, queue, m)
    requires |queue| > 0 && queue[0].0 !in visited && queue[0].0 != end
    requires |next| >= |queue| - 1 && forall i :: 0 <= i < |queue| - 1 ==> next[i] == queue[i + 1]
    requires forall i :: |queue| - 1 <= i < |next| ==> next[i].1 == queue[0].1 + 1 && next[i].0 in g[queue[0].0]
    ensures SearchShape(g, start, end, visited + {queue[0].0}, next, NextSplit(m, next))
  {
    NewEntriesReach(g, start, queue, next);
    ShapeAfterPop(g, start, end, queue, m, next);
  }

  /** The coverage half after a visit. */
  lemma VisitKeepsCover(g: Adjacency, start: int, end: int, visited: set<int>, queue: seq<(int, nat)>, m: nat,
                        next: seq<(int, nat)>)
    requires Closed(g)
    requires SearchInv(g, start, end, visited, queue, m)
    requires |queue| > 0 && queue[0].0 !in visited && queue[0].0 != end
    requires |next| >= |queue| - 1 && forall i :: 0 <= i < |queue| - 1 ==> next[i] == queue[i + 1]
    requires forall i :: |queue| - 1 <= i < |next| ==> next[i].1 == queue[0].1 + 1
    requires QueueNodes(next) == QueueNodes(queue[1..]) + (g[queue[0].0] - (visited + {queue[0].0}))
    requires NodesAt(next, queue[0].1) == NodesAt(queue[1..], queue[0].1)
    ensures SearchCover(g, start, visited + {queue[0].0}, next)
  {
    var (current, dist) := queue[0];
    var visited' := visited + {current};
    SuccessorsCovered(g[current], visited, current, QueueNodes(queue[1..]), QueueNodes(next));
    ClosureAfterPop(g, start, visited, queue, visited', next);
    QueueNodesTail(queue);
    if m > 1 {
      assert next[0] == queue[1];
    }
    LayersAfterPop(g, start, visited', queue, m, next);
  }

  /** The entries appended behind the tail are successors of the front entry,
      so their hop count reaches them. */
  lemma NewEntriesReach(g: Adjacency, start: int, queue: seq<(int, nat)>, next: seq<(int, nat)>)
    requires |queue| > 0 && queue[0].0 in g && queue[0].0 in Reach(g, start, queue[0].1)
    requires forall i :: |queue| - 1 <= i < |next| ==> next[i].1 == queue[0].1 + 1 && next[i].0 in g[queue[0].0]
    requires g[queue[0].0] <= g.Keys
    ensures forall i :: |queue| - 1 <= i < |next| ==>
              next[i].1 == queue[0].1 + 1 && next[i].0 in g && next[i].0 in Reach(g, start, next[i].1)
  {
    forall i | |queue| - 1 <= i < |next|
      ensures next[i].0 in Reach(g, start, next[i].1)
    {
      ReachStep(g, start, queue[0].1, queue[0].0, next[i].0);
    }
  }

  /** Set reasoning for the successors of a newly visited node: they are
      visited, the node itself, or among the queued nodes. */
  lemma SuccessorsCovered(succ: set<int>, visited: set<int>, c: int, rest: set<int>, queued: set<int>)
    requires queued == rest + (succ - (visited + {c}))
    ensures succ <= (visited + {c}) + queued
  {
  }

  /** The hop count of the legacy generator's `ShortestPathLengthBfs`: the least
      number of hops from `start` to `end`, 0 when they coincide, and -1 when
      `end` cannot be reached. */
  method ShortestPath(g: Adjacency, start: int, end: int) returns (d: int)
    requires Closed(g)
    requires start == end || start in g
    ensures d == Distance(g, start, end)
  {
    var visited: set<int> := {};
    var queue: seq<(int, nat)> := [(start, 0)];
    ghost var m: nat := 1;
    SearchStarts(g, start, end);
    while |queue| > 0
      invariant SearchInv(g, start, end, visited, queue, m)
      decreases g.Keys - visited, |queue|
    {
      var (current, dist) := queue[0];
      if current == end {
        FoundAtFront(g, start, end, visited, dist);
        return dist;
      }
      if current in visited {
        SkipKeepsInv(g, start, end, visited, queue, m);
        m := NextSplit(m, queue[1..]);
        queue := queue[1..];
      } else {
        visited, queue, m := VisitFront(g, start, end, visited, queue, m);
      }
    }
    NotFound(g, start, end, visited, m);
    return -1;
  }

  /** Visits the front entry of the shortest-path search: it joins the
      visited nodes and its unvisited successors are queued one hop further. */
  method VisitFront(g: Adjacency, start: int, end: int, visited: set<int>, queue: seq<(int, nat)>, ghost m: nat)
    returns (visited': set<int>, queue': seq<(int, nat)>, ghost m': nat)
    requires Closed(g)
    requires SearchInv(g, start, end, visited, queue, m)
    requires |queue| > 0 && queue[0].0 !in visited && queue[0].0 != end
    ensures queue[0].0 in g && visited' == visited + {queue[0].0}
    ensures SearchInv(g, start, end, visited', queue', m')
  {
    var current := queue[0].0;
    assert current in g;
    queue' := EnqueueAll(queue[1..], g[current] - (visited + {current}), queue[0].1 + 1);
    VisitKeepsInv(g, start, end, visited, queue, m, queue');
    m' := NextSplit(m, queue');
    visited' := visited + {current};
  }

  lemma SearchStarts(g: Adjacency, start: int, end: int)
    requires start == end || start in g
    ensures SearchInv(g, start, end, {}, [(start, 0)], 1)
  {
    var queue: seq<(int, nat)> := [(start, 0)];
    assert queue[0] == (start, 0);
    assert QueueNodes(queue) == {start} && NodesAt(queue, 0) == {start};
  }

  /** The front entry, when it is `end`, carries the distance: its hop count
      reaches it and every node within one hop fewer is visited, which `end`
      never is. */
  lemma FoundAtFront(g: Adjacency, start: int, end: int, visited: set<int>, k: nat)
    requires end in Reach(g, start, k) && end !in visited
    requires k > 0 ==> Reach(g, start, k - 1) <= visited
    ensures Distance(g, start, end) == k
  {
    DistanceIsLeastHops(g, start, end, k);
  }

  /** An empty queue leaves a visited set closed under successors without `end`. */
  lemma NotFound(g: Adjacency, start: int, end: int, visited: set<int>, m: nat)
    requires SearchInv(g, start, end, visited, [], m)
    ensures Distance(g, start, end) == -1
  {
    forall k: nat
      ensures end !in Reach(g, start, k)
    {
      ClosedSetHoldsReach(g, start, visited, k);
    }
  }

  /** The invariant of the validators' search: the visited and queued nodes
      are reachable, and visited nodes have their successors visited or queued. */
  ghost predicate VisitInv(g: Adjacency, start: int, visited: set<int>, queue: seq<(int, nat)>) {
    && visited <= Closure(g, start)
    && QueueNodes(queue) <= Closure(g, start)
    && (forall v :: v in visited ==> v in g && g[v] <= visited + QueueNodes(queue))
    && start in visited + QueueNodes(queue)
  }

  /** The node set visited by the validators' connectivity search: exactly the
      nodes reachable from `start`. */
  method VisitAll(g: Adjacency, start: int) returns (visited: set<int>)
    requires Closed(g)
    requires start in g
    ensures visited == Closure(g, start)
  {
    visited := {};
    var queue: seq<(int, nat)> := [(start, 0)];
    VisitStarts(g, start);
    while |queue| > 0
      invariant VisitInv(g, start, visited, queue)
      decreases Closure(g, start) - visited, |queue|
    {
      var current := queue[0].0;
      var tail := queue[1..];
      QueueNodesTail(queue);
      if current in visited {
        queue := tail;
        continue;
      }
      var unseen := g[current] - (visited + {current});
      var next := EnqueueAll(tail, unseen, 0);
      VisitStep(g, start, visited, queue, next);
      visited := visited + {current};
      queue := next;
    }
    VisitEnds(g, start, visited);
  }

  lemma VisitStarts(g: Adjacency, start: int)
    requires start in g
    ensures VisitInv(g, start, {}, [(start, 0)])
  {
    var queue: seq<(int, nat)> := [(start, 0)];
    assert queue[0] == (start, 0);
    assert QueueNodes(queue) == {start};
    assert start in Reach(g, start, 0);
  }

  /** The successors of a reachable node are reachable. */
  lemma SuccessorsReachable(g: Adjacency, start: int, c: int)
    requires Closed(g) && c in g && c in Closure(g, start)
    ensures g[c] <= Closure(g, start)
  {
    var k: nat :| c in Reach(g, start, k);
    forall w | w in g[c]
      ensures w in Closure(g, start)
    {
      ReachStep(g, start, k, c, w);
    }
  }

  lemma VisitStep(g: Adjacency, start: int, visited: set<int>, queue: seq<(int, nat)>, next: seq<(int, nat)>)
    requires Closed(g)
    requires VisitInv(g, start, visited, queue)
    requires |queue| > 0 && queue[0].0 !in visited && queue[0].0 in g
    requires QueueNodes(next) == QueueNodes(queue[1..]) + (g[queue[0].0] - (visited + {queue[0].0}))
    ensures VisitInv(g, start, visited + {queue[0].0}, next)
  {
    var c := queue[0].0;
    QueueNodesTail(queue);
    SuccessorsReachable(g, start, c);
    SuccessorsCovered(g[c], visited, c, QueueNodes(queue[1..]), QueueNodes(next));
  }

  /** With nothing left in the queue the visited set is closed under successors
      and so holds every reachable node. */
  lemma VisitEnds(g: Adjacency, start: int, visited: set<int>)
    requires VisitInv(g, start, visited, [])
    ensures visited == Closure(g, start)
  {
    forall v | v in Closure(g, start)
      ensures v in visited
    {
      var k: nat :| v in Reach(g, start, k);
      ClosedSetHoldsReach(g, start, visited, k);
    }
  }
}
