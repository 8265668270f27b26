/**
 * The pure graph theory behind the road network: directed weighted multigraph
 * snapshots, walks, the cost of a walk under a metric, and reachability.
 * The mutable store (class Graph) and the searches are stated in these terms.
 */
module Network {

  /** A vertex is identified by its string key (an intersection id such as "V1"). */
  type Vertex = string

  /** One entry of an adjacency list: the tuple (destino, distancia, tiempo). */
  datatype Edge = Edge(destino: Vertex, distancia: real, tiempo: real)

  /** The metric a cost-optimal search minimises. */
  datatype Criterion = Distance | Time

  /** The source selects distance only for the exact string "distancia"; anything else means time. */
  function CriterionOf(s: string): Criterion {
    if s == "distancia" then Distance else Time
  }

  /** The weight of an edge under a metric. */
  function Weight(e: Edge, c: Criterion): real {
    if c == Distance then e.distancia else e.tiempo
  }

  /** A cost that may be infinite, as `float('inf')` is in the source. */
  datatype Cost = Fin(value: real) | Inf {
    function Plus(other: Cost): Cost {
      if Fin? && other.Fin? then Fin(value + other.value) else Inf
    }
    /** Non-strict order with Inf as the greatest element. */
    predicate AtMost(other: Cost) {
      other.Inf? || (Fin? && value <= other.value)
    }
  }

  /** A snapshot of the graph: its vertex set and its adjacency lists. */
  datatype Net = Net(vertices: set<Vertex>, adj: map<Vertex, seq<Edge>>)

  /** The adjacency list of a vertex; empty when the vertex has no entry. */
  function Succ(g: Net, v: Vertex): seq<Edge> {
    if v in g.adj then g.adj[v] else []
  }

  /** The destinations of a list of edges, in order. */
  function Dests(es: seq<Edge>): (r: seq<Vertex>)
    ensures |r| == |es|
    ensures forall i :: 0 <= i < |es| ==> r[i] == es[i].destino
  {
    seq(|es|, i requires 0 <= i < |es| => es[i].destino)
  }

  /** There is at least one edge from u to v. */
  predicate HasEdge(g: Net, u: Vertex, v: Vertex) {
    v in Dests(Succ(g, u))
  }

  /** Every key of the adjacency map and every edge destination is a vertex. */
  ghost predicate Closed(g: Net) {
    g.adj.Keys <= g.vertices &&
    forall u, e :: u in g.adj && e in g.adj[u] ==> e.destino in g.vertices
  }

  /** A non-empty vertex sequence whose consecutive pairs are edges. */
  ghost predicate IsWalk(g: Net, p: seq<Vertex>) {
    |p| > 0 && forall i :: 0 <= i < |p| - 1 ==> HasEdge(g, p[i], p[i + 1])
  }

  /** Appending an edge between two vertices to one adjacency list keeps the graph closed. */
  lemma AppendKeepsClosed(g: Net, o: Vertex, e: Edge)
    requires Closed(g) && o in g.vertices && e.destino in g.vertices
    ensures Closed(Net(g.vertices, g.adj[o := Succ(g, o) + [e]]))
  {
    var adj' := g.adj[o := Succ(g, o) + [e]];
    forall u: Vertex, f: Edge | u in adj' && f in adj'[u] ensures f.destino in g.vertices {
      if u == o && f != e {
        assert f in Succ(g, o);
      }
    }
  }

  ghost predicate IsWalkFromTo(g: Net, p: seq<Vertex>, o: Vertex, d: Vertex) {
    IsWalk(g, p) && p[0] == o && p[|p| - 1] == d
  }

  /** No vertex occurs twice. */
  ghost predicate Distinct(p: seq<Vertex>) {
    forall i, j :: 0 <= i < j < |p| ==> p[i] != p[j]
  }

  ghost predicate Reachable(g: Net, o: Vertex, d: Vertex) {
    exists p :: IsWalkFromTo(g, p, o, d)
  }

  /** Every edge weight under the metric is non-negative. */
  ghost predicate NonNegative(g: Net, c: Criterion) {
    forall u, e :: u in g.adj && e in g.adj[u] ==> Weight(e, c) >= 0.0
  }

  /**
   * The weight of the cheapest of the parallel edges towards v in es,
   * or Inf when there is none.
   */
  function MinWeight(es: seq<Edge>, v: Vertex, c: Criterion): Cost
  {
    if es == [] then Inf
    else
      var rest := MinWeight(es[1..], v, c);
      if es[0].destino == v && (rest.Inf? || Weight(es[0], c) <= rest.value) then Fin(Weight(es[0], c))
      else rest
  }

  /**
   * MinWeight is finite exactly when some edge goes to v; it is then the weight
   * of one of those edges and no greater than any of them.
   */
  lemma {:induction false} MinWeightIsLeast(es: seq<Edge>, v: Vertex, c: Criterion)
    ensures MinWeight(es, v, c).Fin? <==> v in Dests(es)
    ensures MinWeight(es, v, c).Fin? ==>
              exists i :: 0 <= i < |es| && es[i].destino == v && Weight(es[i], c) == MinWeight(es, v, c).value
    ensures forall i :: 0 <= i < |es| && es[i].destino == v ==> MinWeight(es, v, c).AtMost(Fin(Weight(es[i], c)))
  {
    if es != [] {
      MinWeightIsLeast(es[1..], v, c);
      assert Dests(es) == [es[0].destino] + Dests(es[1..]);
      assert forall i :: 0 < i < |es| ==> es[i] == es[1..][i - 1];
      var rest := MinWeight(es[1..], v, c);
      if rest.Fin? {
        var i :| 0 <= i < |es[1..]| && es[1..][i].destino == v && Weight(es[1..][i], c) == rest.value;
        assert es[i + 1] == es[1..][i];
      }
    }
  }

  /**
   * The cost of a walk: the sum, over its steps, of the cheapest parallel edge
   * under the metric; Inf when some step is not an edge.
   */
  function PathCost(g: Net, p: seq<Vertex>, c: Criterion): Cost
  {
    if |p| <= 1 then Fin(0.0)
    else PathCost(g, p[..|p| - 1], c).Plus(MinWeight(Succ(g, p[|p| - 2]), p[|p| - 1], c))
  }

  /** A prefix of a walk is a walk. */
  lemma PrefixIsWalk(g: Net, p: seq<Vertex>, k: nat)
    requires IsWalk(g, p) && 0 < k <= |p|
    ensures IsWalk(g, p[..k])
  {
  }

  /** A walk preceded by an edge into its first vertex is a walk. */
  lemma PrependIsWalk(g: Net, v: Vertex, p: seq<Vertex>)
    requires IsWalk(g, p) && HasEdge(g, v, p[0])
    ensures IsWalk(g, [v] + p)
  {
    var p' := [v] + p;
    forall i | 0 <= i < |p'| - 1 ensures HasEdge(g, p'[i], p'[i + 1]) {
      if i > 0 { assert p'[i] == p[i - 1] && p'[i + 1] == p[i]; }
    }
  }

  /** Extending a walk by one step adds the cheapest edge of that step. */
  lemma {:induction false} PathCostPrepend(g: Net, u: Vertex, p: seq<Vertex>, c: Criterion)
    requires |p| > 0
    ensures PathCost(g, [u] + p, c) == MinWeight(Succ(g, u), p[0], c).Plus(PathCost(g, p, c))
    decreases |p|
  {
    if |p| > 1 {
      var up := [u] + p;
      var init := p[..|p| - 1];
      assert up[..|up| - 1] == [u] + init;
      assert up[|up| - 2] == p[|p| - 2] && up[|up| - 1] == p[|p| - 1];
      PathCostPrepend(g, u, init, c);
      var a := MinWeight(Succ(g, u), p[0], c);
      var b := PathCost(g, init, c);
      var w := MinWeight(Succ(g, p[|p| - 2]), p[|p| - 1], c);
      calc {
        PathCost(g, up, c);
        PathCost(g, [u] + init, c).Plus(w);
        a.Plus(b).Plus(w);
        a.Plus(b.Plus(w));
      }
    } else {
      assert [u] + p == [u, p[0]];
      assert [u, p[0]][..1] == [u];
    }
  }

  /** The prefix of a walk up to p[j] costs the prefix up to p[j-1] plus the cheapest edge p[j-1] -> p[j]. */
  lemma PrefixStepCost(g: Net, p: seq<Vertex>, j: nat, c: Criterion)
    requires 0 < j < |p|
    ensures PathCost(g, p[..j + 1], c) == PathCost(g, p[..j], c).Plus(MinWeight(Succ(g, p[j - 1]), p[j], c))
  {
    assert p[..j + 1][..j] == p[..j];
  }

  /** The cheapest edge of a step that is an edge is finite, and non-negative when all weights are. */
  lemma StepWeight(g: Net, u: Vertex, v: Vertex, c: Criterion)
    requires HasEdge(g, u, v)
    ensures MinWeight(Succ(g, u), v, c).Fin?
    ensures NonNegative(g, c) ==> MinWeight(Succ(g, u), v, c).value >= 0.0
  {
    MinWeightIsLeast(Succ(g, u), v, c);
    var es := Succ(g, u);
    var i :| 0 <= i < |es| && es[i].destino == v && Weight(es[i], c) == MinWeight(es, v, c).value;
    assert u in g.adj && es[i] in g.adj[u];
  }

  /** A walk has finite cost, and with non-negative weights that cost is non-negative. */
  lemma {:induction false} WalkCostFinite(g: Net, p: seq<Vertex>, c: Criterion)
    requires IsWalk(g, p)
    ensures PathCost(g, p, c).Fin?
    ensures NonNegative(g, c) ==> PathCost(g, p, c).value >= 0.0
    decreases |p|
  {
    if |p| > 1 {
      PrefixIsWalk(g, p, |p| - 1);
      WalkCostFinite(g, p[..|p| - 1], c);
      StepWeight(g, p[|p| - 2], p[|p| - 1], c);
    }
  }

  /** With non-negative weights, a prefix of a walk costs no more than the walk. */
  lemma {:induction false} PrefixCostAtMost(g: Net, p: seq<Vertex>, k: nat, c: Criterion)
    requires IsWalk(g, p) && 0 < k <= |p| && NonNegative(g, c)
    ensures PathCost(g, p[..k], c).AtMost(PathCost(g, p, c))
    decreases |p| - k
  {
    if k < |p| {
      PrefixIsWalk(g, p, k + 1);
      PrefixCostAtMost(g, p, k + 1, c);
      assert p[..k + 1][..k] == p[..k];
      WalkCostFinite(g, p[..k], c);
      StepWeight(g, p[k - 1], p[k], c);
    } else {
      assert p[..k] == p;
    }
  }

  /**
   * A walk that starts inside a set and ends outside it leaves the set at some
   * step j: p[j-1] is inside and p[j] is outside.
   */
  lemma {:induction false} FirstExit(p: seq<Vertex>, s: set<Vertex>) returns (j: nat)
    requires |p| > 0 && p[0] in s && p[|p| - 1] !in s
    ensures 0 < j < |p| && p[j - 1] in s && p[j] !in s
    ensures forall i :: 0 <= i < j ==> p[i] in s
    decreases |p|
  {
    if p[1] !in s {
      j := 1;
    } else {
      var j' := FirstExit(p[1..], s);
      j := j' + 1;
    }
  }

  /** Every out-neighbour of x is in s. */
  ghost predicate Expanded(g: Net, x: Vertex, s: set<Vertex>) {
    forall v :: v in Dests(Succ(g, x)) ==> v in s
  }

  /**
   * A set that holds o and every out-neighbour of its members holds every
   * vertex reachable from o.
   */
  lemma ClosedSetHoldsReachable(g: Net, s: set<Vertex>, o: Vertex, d: Vertex)
    requires o in s
    requires forall x :: x in s ==> Expanded(g, x, s)
    requires Reachable(g, o, d)
    ensures d in s
  {
    var p :| IsWalkFromTo(g, p, o, d);
    if d !in s {
      var j := FirstExit(p, s);
    }
  }
}
