/**
 * The cost-optimal search of Grafo.dijkstra: the heap of (cost, vertex)
 * entries, the main settle-and-relax loop, and the reconstruction of the
 * path by following predecessors back from the destination.
 */
module ShortestPath {
  import opened Wrappers
  import opened Network
  import opened StringOrder
  import opened DijkstraSteps

  /** Python's order on (cost, vertex) tuples: by cost, ties broken by the vertex string. */
  predicate EntryLe(a: Entry, b: Entry) {
    a.0 < b.0 || (a.0 == b.0 && LexLe(a.1, b.1))
  }

  /** Extract-min of the heap: the position of the least entry in tuple order. */
  function MinIndex(pq: seq<Entry>): (k: nat)
    requires |pq| > 0
    ensures k < |pq|
  {
    if |pq| == 1 then 0
    else
      var k' := MinIndex(pq[1..]);
      if EntryLe(pq[0], pq[1..][k']) then 0 else k' + 1
  }

  /** The entry MinIndex picks is no greater than any other, so heappop returns it. */
  lemma {:induction false} MinIndexIsLeast(pq: seq<Entry>)
    requires |pq| > 0
    ensures forall j :: 0 <= j < |pq| ==> EntryLe(pq[MinIndex(pq)], pq[j])
    ensures forall j :: 0 <= j < |pq| ==> pq[MinIndex(pq)].0 <= pq[j].0
    decreases |pq|
  {
    if |pq| == 1 {
      LexLeReflexive(pq[0].1);
    } else {
      var rest := pq[1..];
      MinIndexIsLeast(rest);
      var m := rest[MinIndex(rest)];
      if EntryLe(pq[0], m) {
        forall j | 0 < j < |pq| ensures EntryLe(pq[0], pq[j]) {
          assert pq[j] == rest[j - 1];
          if pq[0].0 == m.0 && m.0 == pq[j].0 { LexLeTransitive(pq[0].1, m.1, pq[j].1); }
        }
        LexLeReflexive(pq[0].1);
      } else {
        LexLeTotal(pq[0].1, m.1);
        forall j | 0 <= j < |pq| ensures EntryLe(m, pq[j]) {
          if j > 0 { assert pq[j] == rest[j - 1]; }
        }
      }
    }
  }

  /** The queue without the entry at position k. */
  function RemoveAt(pq: seq<Entry>, k: nat): (r: seq<Entry>)
    requires k < |pq|
    ensures |r| == |pq| - 1
    ensures forall x :: x in pq && x != pq[k] ==> x in r
    ensures forall x :: x in r ==> x in pq
  {
    assert pq == pq[..k] + [pq[k]] + pq[k + 1..];
    pq[..k] + pq[k + 1..]
  }

  /**
   * What the main loop keeps: the bookkeeping, a consistent queue and frontier,
   * every settled vertex relaxed, settled costs optimal under non-negative
   * weights, and the destination not yet settled.
   */
  ghost predicate SearchInv(g: Net, c: Criterion, o: Vertex, d: Vertex, dist: map<Vertex, Cost>,
                            pred: map<Vertex, Option<Vertex>>, visited: set<Vertex>,
                            rank: map<Vertex, nat>, pq: seq<Entry>)
  {
    Shape(g, c, o, dist, pred, visited, rank) &&
    QueueOk(g, dist, pq) && Frontier(g, dist, visited, pq) &&
    AllRelaxed(g, c, dist, visited, {}) &&
    (NonNegative(g, c) ==> Settled(g, c, o, dist, visited)) &&
    d !in visited
  }

  /** The initial state (only the origin reached, at cost 0, queued once) satisfies the loop invariant. */
  lemma InitStep(g: Net, c: Criterion, o: Vertex, d: Vertex, dist: map<Vertex, Cost>, pred: map<Vertex, Option<Vertex>>)
    requires Closed(g) && o in g.vertices && d in g.vertices
    requires dist == (map v | v in g.vertices :: Inf)[o := Fin(0.0)]
    requires pred == map v | v in g.vertices :: None
    ensures SearchInv(g, c, o, d, dist, pred, {}, map[], [(0.0, o)])
  {
    assert forall v :: v in g.vertices && v != o ==> dist[v].Inf?;
    assert (dist[o].value, o) in [(0.0, o)];
  }

  /** Dropping a queue entry of an already settled vertex keeps the loop invariant. */
  lemma StaleStep(g: Net, c: Criterion, o: Vertex, d: Vertex, dist: map<Vertex, Cost>,
                  pred: map<Vertex, Option<Vertex>>, visited: set<Vertex>,
                  rank: map<Vertex, nat>, pq: seq<Entry>, k: nat)
    requires SearchInv(g, c, o, d, dist, pred, visited, rank, pq)
    requires k < |pq| && pq[k].1 in visited
    ensures SearchInv(g, c, o, d, dist, pred, visited, rank, RemoveAt(pq, k))
  {
    var pq' := RemoveAt(pq, k);
    forall j | 0 <= j < |pq'| ensures pq'[j].1 in g.vertices && dist[pq'[j].1].Fin? && dist[pq'[j].1].value <= pq'[j].0 {
      assert pq'[j] in pq';
    }
  }

  /**
   * Settling u with the next rank keeps every predecessor link valid: u's own
   * predecessor p was settled before it, and since p's out-edges are relaxed,
   * u's cost is exactly p's plus the cheapest edge p -> u.
   */
  lemma VisitLinks(g: Net, c: Criterion, o: Vertex, dist: map<Vertex, Cost>,
                   pred: map<Vertex, Option<Vertex>>, visited: set<Vertex>,
                   rank: map<Vertex, nat>, u: Vertex, visited': set<Vertex>, rank': map<Vertex, nat>)
    requires Shape(g, c, o, dist, pred, visited, rank) && u in g.vertices && u !in visited
    requires AllRelaxed(g, c, dist, visited, {})
    requires visited' == visited + {u} && rank' == rank[u := |visited|]
    ensures forall v {:trigger PredOk(g, c, dist, pred, visited', rank', v)} ::
              v in g.vertices && pred[v].Some? ==> PredOk(g, c, dist, pred, visited', rank', v)
  {
    forall v | v in g.vertices && pred[v].Some? ensures PredOk(g, c, dist, pred, visited', rank', v) {
      assert PredOk(g, c, dist, pred, visited, rank, v);
      if v == u {
        var p := pred[u].value;
        var es := Succ(g, p);
        MinWeightIsLeast(es, u, c);
        var i :| 0 <= i < |es| && es[i].destino == u && Weight(es[i], c) == MinWeight(es, u, c).value;
        assert Relaxed(g, c, dist, visited, p);
        assert es[i] in es;
      }
    }
  }

  /**
   * Settling u, the least entry of the queue, keeps the bookkeeping: u gets the
   * next rank, and when nothing was settled before u is the origin.
   */
  lemma VisitShape(g: Net, c: Criterion, o: Vertex, dist: map<Vertex, Cost>,
                   pred: map<Vertex, Option<Vertex>>, visited: set<Vertex>,
                   rank: map<Vertex, nat>, pq: seq<Entry>, k: nat, u: Vertex,
                   visited': set<Vertex>, rank': map<Vertex, nat>)
    requires Shape(g, c, o, dist, pred, visited, rank) && QueueOk(g, dist, pq)
    requires AllRelaxed(g, c, dist, visited, {})
    requires k < |pq| && u == pq[k].1 && u !in visited
    requires visited' == visited + {u} && rank' == rank[u := |visited|]
    ensures Shape(g, c, o, dist, pred, visited', rank')
  {
    assert |visited'| == |visited| + 1;
    assert u == o || visited != {} by {
      assert pred[u].None? || PredOk(g, c, dist, pred, visited, rank, u);
    }
    VisitLinks(g, c, o, dist, pred, visited, rank, u, visited', rank');
  }

  /** Settling u keeps the queue and frontier consistent and every earlier settled vertex relaxed. */
  lemma VisitQueue(g: Net, c: Criterion, o: Vertex, dist: map<Vertex, Cost>,
                   pred: map<Vertex, Option<Vertex>>, visited: set<Vertex>,
                   rank: map<Vertex, nat>, pq: seq<Entry>, k: nat, u: Vertex)
    requires Shape(g, c, o, dist, pred, visited, rank) && QueueOk(g, dist, pq) && Frontier(g, dist, visited, pq)
    requires AllRelaxed(g, c, dist, visited, {})
    requires k < |pq| && u == pq[k].1 && u !in visited
    ensures forall v :: v in visited + {u} ==> dist[v].Fin?
    ensures QueueOk(g, dist, RemoveAt(pq, k)) && Frontier(g, dist, visited + {u}, RemoveAt(pq, k))
    ensures AllRelaxed(g, c, dist, visited + {u}, {u})
  {
    var pq' := RemoveAt(pq, k);
    forall j | 0 <= j < |pq'| ensures pq'[j].1 in g.vertices && dist[pq'[j].1].Fin? && dist[pq'[j].1].value <= pq'[j].0 {
      assert pq'[j] in pq';
    }
    forall x | x in visited ensures Relaxed(g, c, dist, visited + {u}, x) {
      assert Relaxed(g, c, dist, visited, x);
    }
  }

  /** Settling u keeps settled costs optimal under non-negative weights. */
  lemma VisitSettled(g: Net, c: Criterion, o: Vertex, dist: map<Vertex, Cost>,
                     pred: map<Vertex, Option<Vertex>>, visited: set<Vertex>,
                     rank: map<Vertex, nat>, pq: seq<Entry>, k: nat, u: Vertex)
    requires Shape(g, c, o, dist, pred, visited, rank) && QueueOk(g, dist, pq) && Frontier(g, dist, visited, pq)
    requires AllRelaxed(g, c, dist, visited, {}) && NonNegative(g, c) && Settled(g, c, o, dist, visited)
    requires k < |pq| && forall j :: 0 <= j < |pq| ==> pq[k].0 <= pq[j].0
    requires u == pq[k].1 && u !in visited
    ensures Settled(g, c, o, dist, visited + {u})
  {
    SettleStep(g, c, o, dist, pred, visited, rank, pq, k, u);
  }

  /** Settling u, the least entry of the queue, sets up the relaxation of its out-edges. */
  lemma VisitStep(g: Net, c: Criterion, o: Vertex, d: Vertex, dist: map<Vertex, Cost>,
                  pred: map<Vertex, Option<Vertex>>, visited: set<Vertex>,
                  rank: map<Vertex, nat>, pq: seq<Entry>, k: nat, u: Vertex,
                  visited': set<Vertex>, rank': map<Vertex, nat>, pq': seq<Entry>)
    requires SearchInv(g, c, o, d, dist, pred, visited, rank, pq)
    requires k < |pq| && forall j :: 0 <= j < |pq| ==> pq[k].0 <= pq[j].0
    requires u == pq[k].1 && u !in visited
    requires visited' == visited + {u} && rank' == rank[u := |visited|] && pq' == RemoveAt(pq, k)
    ensures RelaxInv(g, c, o, u, dist, dist, pred, visited', rank', pq', 0)
    ensures Shape(g, c, o, dist, pred, visited', rank')
    ensures NonNegative(g, c) ==> Settled(g, c, o, dist, visited')
    ensures |g.vertices - visited'| < |g.vertices - visited|
  {
    VisitShape(g, c, o, dist, pred, visited, rank, pq, k, u, visited', rank');
    VisitQueue(g, c, o, dist, pred, visited, rank, pq, k, u);
    if NonNegative(g, c) {
      VisitSettled(g, c, o, dist, pred, visited, rank, pq, k, u);
    }
    assert g.vertices - visited' < g.vertices - visited;
  }

  /** Relaxing the out-edges of u changes no settled cost, so the loop invariant is restored. */
  lemma RelaxedStep(g: Net, c: Criterion, o: Vertex, d: Vertex, dist0: map<Vertex, Cost>, dist: map<Vertex, Cost>,
                    pred: map<Vertex, Option<Vertex>>, visited: set<Vertex>, rank: map<Vertex, nat>, pq: seq<Entry>)
    requires Shape(g, c, o, dist, pred, visited, rank)
    requires QueueOk(g, dist, pq) && Frontier(g, dist, visited, pq) && AllRelaxed(g, c, dist, visited, {})
    requires dist0.Keys == g.vertices && forall x :: x in visited ==> dist[x] == dist0[x]
    requires NonNegative(g, c) ==> Settled(g, c, o, dist0, visited)
    requires d !in visited
    ensures SearchInv(g, c, o, d, dist, pred, visited, rank, pq)
  {
  }

  /**
   * When the queue runs empty the settled set holds every vertex reachable from
   * the origin, and no unsettled vertex has a finite cost.
   */
  lemma ExhaustedStep(g: Net, c: Criterion, o: Vertex, d: Vertex, dist: map<Vertex, Cost>,
                      pred: map<Vertex, Option<Vertex>>, visited: set<Vertex>, rank: map<Vertex, nat>)
    requires SearchInv(g, c, o, d, dist, pred, visited, rank, []) && d in g.vertices
    ensures !Reachable(g, o, d) && dist[d].Inf? && d != o
  {
    assert o in visited by {
      assert (dist[o].value, o) !in [];
    }
    forall x | x in visited ensures forall v :: v in Dests(Succ(g, x)) ==> v in visited {
      assert Relaxed(g, c, dist, visited, x);
      forall v | v in Dests(Succ(g, x)) ensures v in visited {
        var es := Succ(g, x);
        var i :| 0 <= i < |es| && Dests(es)[i] == v;
        assert es[i] in es;
        assert (dist[v].value, v) !in [];
      }
    }
    if Reachable(g, o, d) {
      ClosedSetHoldsReachable(g, visited, o, d);
    }
    assert dist[d].Inf?;
  }

  /**
   * The main loop of dijkstra: pop the least entry, skip it when its vertex is
   * already settled, settle it, stop at the destination, otherwise relax its
   * out-edges. On return the destination is settled, or it is unreachable and
   * its cost infinite; with non-negative weights every settled cost is optimal.
   */
  method Search(g: Net, c: Criterion, o: Vertex, d: Vertex)
    returns (dist: map<Vertex, Cost>, pred: map<Vertex, Option<Vertex>>, visited: set<Vertex>, ghost rank: map<Vertex, nat>)
    requires Closed(g) && o in g.vertices && d in g.vertices
    ensures Shape(g, c, o, dist, pred, visited, rank)
    ensures NonNegative(g, c) ==> Settled(g, c, o, dist, visited)
    ensures d !in visited ==> !Reachable(g, o, d) && dist[d].Inf? && d != o
  {
    dist := (map v | v in g.vertices :: Inf)[o := Fin(0.0)];
    pred := map v | v in g.vertices :: None;
    visited := {};
    rank := map[];
    var pq: seq<Entry> := [(0.0, o)];
    InitStep(g, c, o, d, dist, pred);
    while pq != []
      invariant SearchInv(g, c, o, d, dist, pred, visited, rank, pq)
      decreases |g.vertices - visited|, |pq|
    {
      var k := MinIndex(pq);
      MinIndexIsLeast(pq);
      var u := pq[k].1;
      if u in visited {
        StaleStep(g, c, o, d, dist, pred, visited, rank, pq, k);
        pq := RemoveAt(pq, k);
        continue;
      }
      ghost var visited0, rank0, pq0 := visited, rank, pq;
      pq := RemoveAt(pq, k);
      rank := rank[u := |visited|];
      visited := visited + {u};
      VisitStep(g, c, o, d, dist, pred, visited0, rank0, pq0, k, u, visited, rank, pq);
      if u == d {
        break;
      }
      ghost var dist0 := dist;
      dist, pred, pq := Relax(g, c, o, u, dist, pred, visited, rank, pq);
      RelaxedStep(g, c, o, d, dist0, dist, pred, visited, rank, pq);
    }
    if d !in visited {
      ExhaustedStep(g, c, o, d, dist, pred, visited, rank);
    }
  }

  /**
   * What the walk back along predecessors keeps: path is a walk ending at the
   * destination whose first vertex has cur as predecessor; when the destination
   * was settled every vertex on it is settled, ranks increase along it (so it
   * repeats no vertex), and the cost of reaching its first vertex plus its own
   * cost is exactly the destination's cost; otherwise the destination has no
   * predecessor and the walk stops at once.
   */
  ghost predicate ChainInv(g: Net, c: Criterion, o: Vertex, d: Vertex, dist: map<Vertex, Cost>,
                           pred: map<Vertex, Option<Vertex>>, visited: set<Vertex>, rank: map<Vertex, nat>,
                           path: seq<Vertex>, cur: Option<Vertex>)
  {
    Shape(g, c, o, dist, pred, visited, rank) && d in g.vertices &&
    (cur.Some? ==> cur.value in g.vertices) &&
    (path == [] ==> cur == Some(d)) &&
    (path != [] ==> IsWalk(g, path) && path[|path| - 1] == d && path[0] in g.vertices && pred[path[0]] == cur) &&
    (d in visited ==>
       (forall i :: 0 <= i < |path| ==> path[i] in visited) &&
       (cur.Some? ==> cur.value in visited) &&
       (forall i, j :: 0 <= i < j < |path| ==> rank[path[i]] < rank[path[j]]) &&
       (path != [] ==> dist[path[0]].Fin? && PathCost(g, path, c).Fin? &&
                       dist[path[0]].value + PathCost(g, path, c).value == dist[d].value)) &&
    (d !in visited ==> dist[d].Inf? && (path == [] || (path == [d] && cur.None?)))
  }

  /** The walk back terminates: settled vertices by rank, an unsettled destination first. */
  ghost function ChainMeasure(visited: set<Vertex>, rank: map<Vertex, nat>, cur: Option<Vertex>): nat
    requires rank.Keys == visited
  {
    if cur.None? then 0 else if cur.value in visited then rank[cur.value] + 1 else |visited| + 1
  }

  /** Ranks still increase along the path after prepending a vertex ranked below its first vertex. */
  lemma PrependRank(rank: map<Vertex, nat>, v: Vertex, path: seq<Vertex>)
    requires v in rank && path != [] && forall i :: 0 <= i < |path| ==> path[i] in rank
    requires forall i, j :: 0 <= i < j < |path| ==> rank[path[i]] < rank[path[j]]
    requires rank[v] < rank[path[0]]
    ensures forall i :: 0 <= i < |[v] + path| ==> ([v] + path)[i] in rank
    ensures forall i, j :: 0 <= i < j < |[v] + path| ==> rank[([v] + path)[i]] < rank[([v] + path)[j]]
  {
    var p' := [v] + path;
    forall i, j | 0 <= i < j < |p'| ensures rank[p'[i]] < rank[p'[j]] {
      assert p'[j] == path[j - 1];
      if i > 0 {
        assert p'[i] == path[i - 1];
      } else if j > 1 {
        assert rank[path[0]] < rank[path[j - 1]];
      }
    }
  }

  /** Prepending the predecessor v of the path's first vertex keeps cost(v) + cost(path) equal to the total. */
  lemma PrependCost(g: Net, c: Criterion, dist: map<Vertex, Cost>, v: Vertex, path: seq<Vertex>, total: real)
    requires path != [] && v in dist && path[0] in dist && HasEdge(g, v, path[0])
    requires dist[v].Fin? && dist[path[0]].Fin? && PathCost(g, path, c).Fin?
    requires dist[path[0]] == dist[v].Plus(MinWeight(Succ(g, v), path[0], c))
    requires dist[path[0]].value + PathCost(g, path, c).value == total
    ensures PathCost(g, [v] + path, c).Fin?
    ensures dist[v].value + PathCost(g, [v] + path, c).value == total
  {
    PathCostPrepend(g, v, path, c);
    StepWeight(g, v, path[0], c);
  }

  /** Prepending the current vertex and moving to its predecessor keeps the chain invariant. */
  lemma ChainStep(g: Net, c: Criterion, o: Vertex, d: Vertex, dist: map<Vertex, Cost>,
                  pred: map<Vertex, Option<Vertex>>, visited: set<Vertex>, rank: map<Vertex, nat>,
                  path: seq<Vertex>, cur: Option<Vertex>)
    requires ChainInv(g, c, o, d, dist, pred, visited, rank, path, cur) && cur.Some?
    ensures ChainInv(g, c, o, d, dist, pred, visited, rank, [cur.value] + path, pred[cur.value])
    ensures ChainMeasure(visited, rank, pred[cur.value]) < ChainMeasure(visited, rank, cur)
  {
    var v := cur.value;
    if pred[v].Some? {
      assert PredOk(g, c, dist, pred, visited, rank, v);
    }
    if path == [] {
      assert [v] + path == [d];
    } else {
      var w := path[0];
      assert PredOk(g, c, dist, pred, visited, rank, w);
      PrependIsWalk(g, v, path);
      if d in visited {
        PrependCost(g, c, dist, v, path, dist[d].value);
        PrependRank(rank, v, path);
      }
    }
  }

  /** When the walk back stops, a settled destination's path starts at the origin and costs exactly its cost. */
  lemma ChainDone(g: Net, c: Criterion, o: Vertex, d: Vertex, dist: map<Vertex, Cost>,
                  pred: map<Vertex, Option<Vertex>>, visited: set<Vertex>, rank: map<Vertex, nat>,
                  path: seq<Vertex>)
    requires ChainInv(g, c, o, d, dist, pred, visited, rank, path, None)
    ensures path != []
    ensures d in visited ==> IsWalkFromTo(g, path, o, d) && Distinct(path) && PathCost(g, path, c) == dist[d]
    ensures d !in visited ==> path == [d]
  {
    if d in visited {
      assert path[0] in visited;
      assert path[0] == o;
      forall i, j | 0 <= i < j < |path| ensures path[i] != path[j] {
        assert rank[path[i]] < rank[path[j]];
      }
    }
  }

  /**
   * The walk back of dijkstra: from the destination, prepend each vertex and
   * move to its predecessor until there is none; the result is kept only when
   * it starts at the origin, otherwise ([], inf).
   */
  method Reconstruct(g: Net, c: Criterion, o: Vertex, d: Vertex, dist: map<Vertex, Cost>,
                     pred: map<Vertex, Option<Vertex>>, ghost visited: set<Vertex>, ghost rank: map<Vertex, nat>)
    returns (path: seq<Vertex>, cost: Cost)
    requires Shape(g, c, o, dist, pred, visited, rank) && d in g.vertices
    requires d !in visited ==> dist[d].Inf? && d != o
    ensures d in visited ==> IsWalkFromTo(g, path, o, d) && Distinct(path) && cost == dist[d] && cost.Fin? &&
                             cost == PathCost(g, path, c)
    ensures d !in visited ==> path == [] && cost == Inf
  {
    path := [];
    var cur: Option<Vertex> := Some(d);
    while cur.Some?
      invariant ChainInv(g, c, o, d, dist, pred, visited, rank, path, cur)
      decreases ChainMeasure(visited, rank, cur)
    {
      ChainStep(g, c, o, d, dist, pred, visited, rank, path, cur);
      path := [cur.value] + path;
      cur := pred[cur.value];
    }
    ChainDone(g, c, o, d, dist, pred, visited, rank, path);
    if |path| == 0 || path[0] != o {
      return [], Inf;
    }
    cost := dist[d];
  }
}
