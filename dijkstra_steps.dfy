/**
 * The state of the cost-optimal search (tentative costs, predecessors,
 * settled set, lazy-deletion priority queue) and what stays true of it
 * from one step to the next. Graph.Dijkstra runs these steps.
 */
module DijkstraSteps {
  import opened Wrappers
  import opened Network

  /** A priority-queue entry: (accumulated cost, vertex), as pushed on the heap. */
  type Entry = (real, Vertex)

  /**
   * The recorded predecessor u of v is settled, u -> v is an edge and v's cost
   * is at least u's plus that edge; once v is settled too, it is exactly that.
   */
  ghost predicate PredOk(g: Net, c: Criterion, dist: map<Vertex, Cost>, pred: map<Vertex, Option<Vertex>>,
                         visited: set<Vertex>, rank: map<Vertex, nat>, v: Vertex)
    requires v in pred && pred[v].Some? && dist.Keys == g.vertices && rank.Keys == visited && visited <= g.vertices
  {
    var u := pred[v].value;
    u in visited && HasEdge(g, u, v) && v in g.vertices && dist[v].Fin? &&
    dist[u].Plus(MinWeight(Succ(g, u), v, c)).AtMost(dist[v]) &&
    (v in visited ==> rank[u] < rank[v] && dist[v] == dist[u].Plus(MinWeight(Succ(g, u), v, c)))
  }

  /**
   * The bookkeeping shared by every step: every vertex has a tentative cost and
   * a predecessor entry, the origin costs 0 and has no predecessor, settled
   * vertices have finite cost and a settling rank, every vertex reached other than
   * the origin has a predecessor, and each predecessor link is an edge from an
   * earlier-settled vertex.
   */
  ghost predicate Shape(g: Net, c: Criterion, o: Vertex, dist: map<Vertex, Cost>, pred: map<Vertex, Option<Vertex>>,
                        visited: set<Vertex>, rank: map<Vertex, nat>)
  {
    Closed(g) && o in g.vertices &&
    dist.Keys == g.vertices && pred.Keys == g.vertices && visited <= g.vertices && rank.Keys == visited &&
    dist[o] == Fin(0.0) && pred[o] == None &&
    (o in visited || visited == {}) &&
    (forall v :: v in visited ==> dist[v].Fin? && rank[v] < |visited|) &&
    (forall v {:trigger pred[v]} :: v in g.vertices && v != o && dist[v].Fin? ==> pred[v].Some?) &&
    (forall v {:trigger PredOk(g, c, dist, pred, visited, rank, v)} ::
       v in g.vertices && pred[v].Some? ==> PredOk(g, c, dist, pred, visited, rank, v))
  }

  /** Every queue entry names a vertex with finite cost no greater than the entry's. */
  ghost predicate QueueOk(g: Net, dist: map<Vertex, Cost>, pq: seq<Entry>)
    requires dist.Keys == g.vertices
  {
    forall k :: 0 <= k < |pq| ==> pq[k].1 in g.vertices && dist[pq[k].1].Fin? && dist[pq[k].1].value <= pq[k].0
  }

  /** Every reached but unsettled vertex has a queue entry carrying its current cost. */
  ghost predicate Frontier(g: Net, dist: map<Vertex, Cost>, visited: set<Vertex>, pq: seq<Entry>)
    requires dist.Keys == g.vertices
  {
    forall v :: v in g.vertices && v !in visited && dist[v].Fin? ==> (dist[v].value, v) in pq
  }

  /** Every out-edge of x leads to a settled vertex or to one whose cost already accounts for that edge. */
  ghost predicate Relaxed(g: Net, c: Criterion, dist: map<Vertex, Cost>, visited: set<Vertex>, x: Vertex)
    requires dist.Keys == g.vertices && x in g.vertices && dist[x].Fin? && Closed(g)
  {
    forall e :: e in Succ(g, x) ==>
      e.destino in visited || (dist[e.destino].Fin? && dist[e.destino].value <= dist[x].value + Weight(e, c))
  }

  ghost predicate AllRelaxed(g: Net, c: Criterion, dist: map<Vertex, Cost>, visited: set<Vertex>, except: set<Vertex>)
    requires dist.Keys == g.vertices && visited <= g.vertices && Closed(g)
    requires forall v :: v in visited ==> dist[v].Fin?
  {
    forall x :: x in visited && x !in except ==> Relaxed(g, c, dist, visited, x)
  }

  /** The cost of every settled vertex is no greater than the cost of any walk to it from the origin. */
  ghost predicate Settled(g: Net, c: Criterion, o: Vertex, dist: map<Vertex, Cost>, visited: set<Vertex>)
    requires dist.Keys == g.vertices && visited <= g.vertices
  {
    forall x, q :: x in visited && IsWalkFromTo(g, q, o, x) ==> dist[x].AtMost(PathCost(g, q, c))
  }

  /**
   * Where a walk from the origin first leaves the settled set, at the edge
   * q[j-1] -> q[j], the tentative cost of q[j] is no greater than the cost of
   * the walk up to q[j]: q[j-1] costs no more than the walk up to it and its
   * out-edges have been relaxed.
   */
  lemma ExitCost(g: Net, c: Criterion, o: Vertex, dist: map<Vertex, Cost>, pred: map<Vertex, Option<Vertex>>,
                 visited: set<Vertex>, rank: map<Vertex, nat>, q: seq<Vertex>, j: nat)
    requires Shape(g, c, o, dist, pred, visited, rank)
    requires AllRelaxed(g, c, dist, visited, {}) && Settled(g, c, o, dist, visited)
    requires IsWalk(g, q) && q[0] == o && 0 < j < |q| && q[j - 1] in visited && q[j] !in visited
    ensures dist[q[j]].Fin? && PathCost(g, q[..j + 1], c).Fin?
    ensures dist[q[j]].value <= PathCost(g, q[..j + 1], c).value
  {
    var x, y := q[j - 1], q[j];
    var pre := q[..j];
    PrefixIsWalk(g, q, j);
    assert IsWalkFromTo(g, pre, o, x);
    assert dist[x].AtMost(PathCost(g, pre, c));
    WalkCostFinite(g, pre, c);
    assert HasEdge(g, x, y);
    var es := Succ(g, x);
    MinWeightIsLeast(es, y, c);
    var i :| 0 <= i < |es| && es[i].destino == y && Weight(es[i], c) == MinWeight(es, y, c).value;
    assert Relaxed(g, c, dist, visited, x);
    assert es[i] in es;
    assert dist[y].Fin? && dist[y].value <= dist[x].value + Weight(es[i], c);
    PrefixStepCost(g, q, j, c);
  }

  /** The least queue entry costs no more than the current cost of any unsettled reached vertex. */
  lemma FrontBound(g: Net, dist: map<Vertex, Cost>, visited: set<Vertex>, pq: seq<Entry>, k: nat, y: Vertex)
    requires dist.Keys == g.vertices && QueueOk(g, dist, pq) && Frontier(g, dist, visited, pq)
    requires k < |pq| && forall j :: 0 <= j < |pq| ==> pq[k].0 <= pq[j].0
    requires y in g.vertices && y !in visited && dist[y].Fin?
    ensures dist[pq[k].1].Fin? && dist[pq[k].1].value <= dist[y].value
  {
    assert (dist[y].value, y) in pq;
    var j :| 0 <= j < |pq| && pq[j] == (dist[y].value, y);
    assert pq[k].0 <= pq[j].0;
  }

  /** Before anything is settled, the only reached vertex is the origin. */
  lemma OnlyOrigin(g: Net, c: Criterion, o: Vertex, dist: map<Vertex, Cost>, pred: map<Vertex, Option<Vertex>>,
                   rank: map<Vertex, nat>, u: Vertex)
    requires Shape(g, c, o, dist, pred, {}, rank) && u in g.vertices && dist[u].Fin?
    ensures u == o
  {
    assert u == o by {
      assert pred[u].None? || PredOk(g, c, dist, pred, {}, rank, u);
    }
  }

  /**
   * A walk from the origin to the unsettled vertex u, taken off the queue with
   * least cost, costs no less than u's tentative cost (with non-negative
   * weights): it leaves the settled set through an edge whose end is queued at
   * no less than u's entry.
   */
  lemma SettleWalk(g: Net, c: Criterion, o: Vertex, dist: map<Vertex, Cost>, pred: map<Vertex, Option<Vertex>>,
                   visited: set<Vertex>, rank: map<Vertex, nat>, pq: seq<Entry>, k: nat, u: Vertex, q: seq<Vertex>)
    requires Shape(g, c, o, dist, pred, visited, rank)
    requires QueueOk(g, dist, pq) && Frontier(g, dist, visited, pq)
    requires AllRelaxed(g, c, dist, visited, {})
    requires NonNegative(g, c) && Settled(g, c, o, dist, visited)
    requires k < |pq| && forall j :: 0 <= j < |pq| ==> pq[k].0 <= pq[j].0
    requires u == pq[k].1 && u !in visited
    requires IsWalkFromTo(g, q, o, u)
    ensures dist[u].AtMost(PathCost(g, q, c))
  {
    WalkCostFinite(g, q, c);
    assert u in g.vertices && dist[u].Fin?;
    if visited == {} {
      OnlyOrigin(g, c, o, dist, pred, rank, u);
    } else {
      var j := FirstExit(q, visited);
      ExitCost(g, c, o, dist, pred, visited, rank, q, j);
      PrefixCostAtMost(g, q, j + 1, c);
      FrontBound(g, dist, visited, pq, k, q[j]);
    }
  }

  /** The vertex taken off the queue with least cost, when not yet settled, costs no more than any walk to it. */
  lemma SettleStep(g: Net, c: Criterion, o: Vertex, dist: map<Vertex, Cost>, pred: map<Vertex, Option<Vertex>>,
                   visited: set<Vertex>, rank: map<Vertex, nat>, pq: seq<Entry>, k: nat, u: Vertex)
    requires Shape(g, c, o, dist, pred, visited, rank)
    requires QueueOk(g, dist, pq) && Frontier(g, dist, visited, pq)
    requires AllRelaxed(g, c, dist, visited, {})
    requires NonNegative(g, c) && Settled(g, c, o, dist, visited)
    requires k < |pq| && forall j :: 0 <= j < |pq| ==> pq[k].0 <= pq[j].0
    requires u == pq[k].1 && u !in visited
    ensures forall q :: IsWalkFromTo(g, q, o, u) ==> dist[u].AtMost(PathCost(g, q, c))
  {
    forall q | IsWalkFromTo(g, q, o, u) ensures dist[u].AtMost(PathCost(g, q, c)) {
      SettleWalk(g, c, o, dist, pred, visited, rank, pq, k, u, q);
    }
  }

  /** What holds after the first i out-edges of the settled vertex u have been relaxed. */
  ghost predicate RelaxInv(g: Net, c: Criterion, o: Vertex, u: Vertex, dist0: map<Vertex, Cost>,
                           dist: map<Vertex, Cost>, pred: map<Vertex, Option<Vertex>>,
                           visited: set<Vertex>, rank: map<Vertex, nat>, pq: seq<Entry>, i: nat)
  {
    Shape(g, c, o, dist, pred, visited, rank) && u in visited && dist0.Keys == g.vertices &&
    QueueOk(g, dist, pq) && Frontier(g, dist, visited, pq) &&
    (forall x :: x in visited ==> dist[x] == dist0[x]) &&
    AllRelaxed(g, c, dist, visited, {u}) &&
    i <= |Succ(g, u)| &&
    (forall j :: 0 <= j < i ==>
       var e := Succ(g, u)[j];
       e.destino in visited || (dist[e.destino].Fin? && dist[e.destino].value <= dist[u].value + Weight(e, c)))
  }

  /** Lowering the cost of an unsettled v through an edge from the settled u keeps every predecessor link valid. */
  lemma LinksAfterImprove(g: Net, c: Criterion, o: Vertex, u: Vertex, e: Edge, nueva: real,
                          dist: map<Vertex, Cost>, pred: map<Vertex, Option<Vertex>>,
                          visited: set<Vertex>, rank: map<Vertex, nat>,
                          dist': map<Vertex, Cost>, pred': map<Vertex, Option<Vertex>>)
    requires Shape(g, c, o, dist, pred, visited, rank) && u in visited
    requires e in Succ(g, u) && e.destino !in visited
    requires nueva == dist[u].value + Weight(e, c)
    requires dist' == dist[e.destino := Fin(nueva)] && pred' == pred[e.destino := Some(u)]
    ensures dist'.Keys == g.vertices && pred'.Keys == g.vertices
    ensures forall x {:trigger PredOk(g, c, dist', pred', visited, rank, x)} ::
              x in g.vertices && pred'[x].Some? ==> PredOk(g, c, dist', pred', visited, rank, x)
  {
    var v := e.destino;
    assert u in g.adj && e in g.adj[u];
    var k :| 0 <= k < |Succ(g, u)| && Succ(g, u)[k] == e;
    assert Dests(Succ(g, u))[k] == v;
    MinWeightIsLeast(Succ(g, u), v, c);
    assert PredOk(g, c, dist', pred', visited, rank, v);
    forall w | w in g.vertices && pred'[w].Some? ensures PredOk(g, c, dist', pred', visited, rank, w) {
      if w != v {
        assert PredOk(g, c, dist, pred, visited, rank, w);
      }
    }
  }

  /** Lowering the cost of an unsettled v through an edge from the settled u keeps the bookkeeping. */
  lemma ShapeAfterImprove(g: Net, c: Criterion, o: Vertex, u: Vertex, e: Edge, nueva: real,
                          dist: map<Vertex, Cost>, pred: map<Vertex, Option<Vertex>>,
                          visited: set<Vertex>, rank: map<Vertex, nat>,
                          dist': map<Vertex, Cost>, pred': map<Vertex, Option<Vertex>>)
    requires Shape(g, c, o, dist, pred, visited, rank) && u in visited
    requires e in Succ(g, u) && e.destino !in visited
    requires nueva == dist[u].value + Weight(e, c)
    requires dist' == dist[e.destino := Fin(nueva)] && pred' == pred[e.destino := Some(u)]
    ensures Shape(g, c, o, dist', pred', visited, rank)
  {
    LinksAfterImprove(g, c, o, u, e, nueva, dist, pred, visited, rank, dist', pred');
    assert u in g.adj && e in g.adj[u];
  }

  /** Lowering the cost of an unsettled v and pushing its new entry keeps the queue and the frontier consistent. */
  lemma QueueAfterImprove(g: Net, dist: map<Vertex, Cost>, visited: set<Vertex>, pq: seq<Entry>,
                          v: Vertex, nueva: real, dist': map<Vertex, Cost>, pq': seq<Entry>)
    requires dist.Keys == g.vertices && v in g.vertices && v !in visited
    requires QueueOk(g, dist, pq) && Frontier(g, dist, visited, pq)
    requires dist[v].Inf? || nueva < dist[v].value
    requires dist' == dist[v := Fin(nueva)] && pq' == pq + [(nueva, v)]
    ensures dist'.Keys == g.vertices
    ensures QueueOk(g, dist', pq') && Frontier(g, dist', visited, pq')
  {
    assert pq'[|pq|] == (nueva, v);
  }

  /** Lowering the cost of an unsettled vertex keeps every settled vertex other than u relaxed. */
  lemma RelaxedAfterImprove(g: Net, c: Criterion, dist: map<Vertex, Cost>, visited: set<Vertex>, u: Vertex,
                            v: Vertex, nueva: real, dist': map<Vertex, Cost>)
    requires Closed(g) && dist.Keys == g.vertices && visited <= g.vertices && v in g.vertices && v !in visited
    requires forall x :: x in visited ==> dist[x].Fin?
    requires AllRelaxed(g, c, dist, visited, {u})
    requires dist[v].Inf? || nueva < dist[v].value
    requires dist' == dist[v := Fin(nueva)]
    ensures AllRelaxed(g, c, dist', visited, {u})
  {
    forall x | x in visited && x != u ensures Relaxed(g, c, dist', visited, x) {
      assert Relaxed(g, c, dist, visited, x);
    }
  }

  /** Relaxing edge i when it improves the cost of its unsettled destination keeps the invariant. */
  lemma ImproveStep(g: Net, c: Criterion, o: Vertex, u: Vertex, dist0: map<Vertex, Cost>,
                    dist: map<Vertex, Cost>, pred: map<Vertex, Option<Vertex>>,
                    visited: set<Vertex>, rank: map<Vertex, nat>, pq: seq<Entry>, i: nat, v: Vertex, nueva: real)
    requires RelaxInv(g, c, o, u, dist0, dist, pred, visited, rank, pq, i) && i < |Succ(g, u)|
    requires v == Succ(g, u)[i].destino && v !in visited
    requires nueva == dist[u].value + Weight(Succ(g, u)[i], c)
    requires dist[v].Inf? || nueva < dist[v].value
    ensures RelaxInv(g, c, o, u, dist0, dist[v := Fin(nueva)], pred[v := Some(u)], visited, rank, pq + [(nueva, v)], i + 1)
  {
    var es := Succ(g, u);
    var e := es[i];
    var dist', pred', pq' := dist[v := Fin(nueva)], pred[v := Some(u)], pq + [(nueva, v)];
    ShapeAfterImprove(g, c, o, u, e, nueva, dist, pred, visited, rank, dist', pred');
    QueueAfterImprove(g, dist, visited, pq, v, nueva, dist', pq');
    RelaxedAfterImprove(g, c, dist, visited, u, v, nueva, dist');
  }

  /** Skipping edge i, because its destination is settled or its cost does not improve, keeps the invariant. */
  lemma SkipStep(g: Net, c: Criterion, o: Vertex, u: Vertex, dist0: map<Vertex, Cost>,
                 dist: map<Vertex, Cost>, pred: map<Vertex, Option<Vertex>>,
                 visited: set<Vertex>, rank: map<Vertex, nat>, pq: seq<Entry>, i: nat)
    requires RelaxInv(g, c, o, u, dist0, dist, pred, visited, rank, pq, i) && i < |Succ(g, u)|
    requires var e := Succ(g, u)[i];
             e.destino in visited ||
             (dist[e.destino].Fin? && dist[u].value + Weight(e, c) >= dist[e.destino].value)
    ensures RelaxInv(g, c, o, u, dist0, dist, pred, visited, rank, pq, i + 1)
  {
  }

  /** After all out-edges of u are relaxed, every settled vertex is relaxed. */
  lemma RelaxDone(g: Net, c: Criterion, o: Vertex, u: Vertex, dist0: map<Vertex, Cost>,
                  dist: map<Vertex, Cost>, pred: map<Vertex, Option<Vertex>>,
                  visited: set<Vertex>, rank: map<Vertex, nat>, pq: seq<Entry>)
    requires RelaxInv(g, c, o, u, dist0, dist, pred, visited, rank, pq, |Succ(g, u)|)
    ensures AllRelaxed(g, c, dist, visited, {})
  {
    var es := Succ(g, u);
    assert forall e :: e in es ==> exists j :: 0 <= j < |es| && es[j] == e;
    assert Relaxed(g, c, dist, visited, u);
  }

  /**
   * Relaxes every out-edge of the newly settled vertex u, in adjacency order:
   * an edge to an unsettled vertex whose cost it improves lowers that cost,
   * records u as its predecessor and pushes a queue entry.
   */
  method Relax(g: Net, c: Criterion, ghost o: Vertex, u: Vertex, dist0: map<Vertex, Cost>, pred0: map<Vertex, Option<Vertex>>,
               visited: set<Vertex>, ghost rank: map<Vertex, nat>, pq0: seq<Entry>)
    returns (dist: map<Vertex, Cost>, pred: map<Vertex, Option<Vertex>>, pq: seq<Entry>)
    requires RelaxInv(g, c, o, u, dist0, dist0, pred0, visited, rank, pq0, 0)
    ensures Shape(g, c, o, dist, pred, visited, rank)
    ensures QueueOk(g, dist, pq) && Frontier(g, dist, visited, pq)
    ensures AllRelaxed(g, c, dist, visited, {})
    ensures forall x :: x in visited ==> dist[x] == dist0[x] && pred[x] == pred0[x]
  {
    dist, pred, pq := dist0, pred0, pq0;
    var es := Succ(g, u);
    var du := dist[u].value;
    for i := 0 to |es|
      invariant RelaxInv(g, c, o, u, dist0, dist, pred, visited, rank, pq, i)
      invariant dist[u].value == du
      invariant forall x :: x in visited ==> pred[x] == pred0[x]
    {
      var e := es[i];
      var v := e.destino;
      if v in visited {
        SkipStep(g, c, o, u, dist0, dist, pred, visited, rank, pq, i);
        continue;
      }
      var peso := Weight(e, c);
      var nueva := du + peso;
      if dist[v].Inf? || nueva < dist[v].value {
        ImproveStep(g, c, o, u, dist0, dist, pred, visited, rank, pq, i, v, nueva);
        dist := dist[v := Fin(nueva)];
        pred := pred[v := Some(u)];
        pq := pq + [(nueva, v)];
      } else {
        SkipStep(g, c, o, u, dist0, dist, pred, visited, rank, pq, i);
      }
    }
    RelaxDone(g, c, o, u, dist0, dist, pred, visited, rank, pq);
  }
}
