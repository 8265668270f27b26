/**
 * Lower bounds on walk costs from a vertex potential: when no edge is
 * cheaper than the potential difference across it, every walk costs at
 * least the difference between its ends, and a walk costing exactly that
 * uses only edges whose cheapest weight equals the difference.
 */
module LowerBound {
  import opened Network

  /** No edge weight is below the potential difference across the edge. */
  ghost predicate Feasible(g: Net, c: Criterion, h: Vertex -> real) {
    forall u, e :: u in g.adj && e in g.adj[u] ==> h(e.destino) <= h(u) + Weight(e, c)
  }

  /** The cheapest edge from u to v costs exactly the potential difference. */
  ghost predicate Tight(g: Net, c: Criterion, h: Vertex -> real, u: Vertex, v: Vertex) {
    MinWeight(Succ(g, u), v, c) == Fin(h(v) - h(u))
  }

  /** The cheapest edge from u to v is one of the edges, and is no cheaper than the potential difference. */
  lemma StepBound(g: Net, c: Criterion, h: Vertex -> real, u: Vertex, v: Vertex)
    requires Feasible(g, c, h) && HasEdge(g, u, v)
    ensures MinWeight(Succ(g, u), v, c).Fin?
    ensures MinWeight(Succ(g, u), v, c).value >= h(v) - h(u)
    ensures exists e :: e in Succ(g, u) && e.destino == v && Weight(e, c) == MinWeight(Succ(g, u), v, c).value
  {
    var es := Succ(g, u);
    MinWeightIsLeast(es, v, c);
    var i :| 0 <= i < |es| && es[i].destino == v && Weight(es[i], c) == MinWeight(es, v, c).value;
    assert u in g.adj && es[i] in g.adj[u];
  }

  /**
   * A walk costs at least the potential of its last vertex minus that of its
   * first; when it costs exactly that, every step is tight.
   */
  lemma {:induction false} PotentialBound(g: Net, c: Criterion, h: Vertex -> real, p: seq<Vertex>)
    requires Feasible(g, c, h) && IsWalk(g, p)
    ensures PathCost(g, p, c).Fin?
    ensures PathCost(g, p, c).value >= h(p[|p| - 1]) - h(p[0])
    ensures PathCost(g, p, c).value == h(p[|p| - 1]) - h(p[0]) ==>
              forall i :: 0 <= i < |p| - 1 ==> Tight(g, c, h, p[i], p[i + 1])
  {
    var n := |p|;
    if n > 1 {
      var q := p[..n - 1];
      PrefixIsWalk(g, p, n - 1);
      PotentialBound(g, c, h, q);
      assert HasEdge(g, p[n - 2], p[n - 1]);
      StepBound(g, c, h, p[n - 2], p[n - 1]);
      var w := MinWeight(Succ(g, p[n - 2]), p[n - 1], c);
      assert PathCost(g, p, c) == Fin(PathCost(g, q, c).value + w.value);
      if PathCost(g, p, c).value == h(p[n - 1]) - h(p[0]) {
        assert PathCost(g, q, c).value == h(q[|q| - 1]) - h(q[0]);
        forall i | 0 <= i < n - 1 ensures Tight(g, c, h, p[i], p[i + 1]) {
          if i < n - 2 {
            assert q[i] == p[i] && q[i + 1] == p[i + 1];
          }
        }
      }
    }
  }
}
