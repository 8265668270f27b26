/**
 * The road network of Grafo: a directed, weighted multigraph whose vertex
 * set, adjacency lists, display names and coordinates are updated in place,
 * with the three searches (cost-optimal, breadth-first, depth-first) and the
 * read-only queries.
 */
module RoadGraph {
  import opened Wrappers
  import opened Network
  import opened StringOrder
  import opened EdgeCounting
  import opened DijkstraSteps
  import opened ShortestPath
  import opened BfsSteps
  import opened DepthFirst

  /** The dictionary obtener_info_vertice returns. */
  datatype VertexInfo = VertexInfo(id: Vertex, name: string, coords: (real, real), outDegree: nat)

  /** The dictionary obtener_estadisticas returns. */
  datatype GraphStats = GraphStats(vertexCount: nat, edgeCount: nat, density: real)

  /** A walk that repeats no vertex and starts where it ends is a single vertex. */
  lemma DistinctSameEnds(p: seq<Vertex>)
    requires |p| > 0 && Distinct(p) && p[0] == p[|p| - 1]
    ensures p == [p[0]]
  {
  }

  class Graph {
    var vertices: set<Vertex>
    var adj: map<Vertex, seq<Edge>>
    var names: map<Vertex, string>
    var coords: map<Vertex, (real, real)>

    /** The vertex set and adjacency lists as a value. */
    function Snapshot(): Net
      reads this
    {
      Net(vertices, adj)
    }

    /** Every adjacency key, edge destination, named and placed vertex is a vertex. */
    ghost predicate Valid()
      reads this
    {
      Closed(Snapshot()) && names.Keys <= vertices && coords.Keys <= vertices
    }

    /** An empty graph. */
    constructor()
      ensures Valid()
      ensures vertices == {} && adj == map[] && names == map[] && coords == map[]
    {
      vertices := {};
      adj := map[];
      names := map[];
      coords := map[];
    }

    /**
     * agregar_vertice: the vertex always joins the set; the name is recorded
     * only when it is a non-empty string, the coordinates only when given.
     */
    method AddVertex(v: Vertex, name: Option<string>, xy: Option<(real, real)>)
      requires Valid()
      modifies this
      ensures Valid()
      ensures vertices == old(vertices) + {v} && adj == old(adj)
      ensures names == if name.Some? && name.value != "" then old(names)[v := name.value] else old(names)
      ensures coords == if xy.Some? then old(coords)[v := xy.value] else old(coords)
    {
      vertices := vertices + {v};
      if name.Some? && name.value != "" {
        names := names[v := name.value];
      }
      if xy.Some? {
        coords := coords[v := xy.value];
      }
    }

    /**
     * agregar_arista: adds missing endpoints as plain vertices, then appends
     * exactly one entry to the origin's list, even when an equal entry is
     * already there; every other list is unchanged and the edge total grows
     * by one.
     */
    method AddEdge(o: Vertex, d: Vertex, distance: real, time: real)
      requires Valid()
      modifies this
      ensures Valid()
      ensures vertices == old(vertices) + {o, d}
      ensures adj == old(adj)[o := Succ(old(Snapshot()), o) + [Edge(d, distance, time)]]
      ensures names == old(names) && coords == old(coords)
      ensures forall x :: x != o ==> Succ(Snapshot(), x) == Succ(old(Snapshot()), x)
      ensures EdgeTotal(adj) == EdgeTotal(old(adj)) + 1
    {
      if o !in vertices {
        AddVertex(o, None, None);
      }
      if d !in vertices {
        AddVertex(d, None, None);
      }
      var e := Edge(d, distance, time);
      AppendAddsOne(adj, o, e);
      AppendKeepsClosed(Snapshot(), o, e);
      adj := adj[o := Succ(Snapshot(), o) + [e]];
    }

    /** obtener_vecinos: the adjacency list of v, empty for a vertex without one or an unknown id. */
    function Neighbors(v: Vertex): (r: seq<Edge>)
      requires Valid()
      reads this
      ensures r == Succ(Snapshot(), v)
      ensures v !in vertices ==> r == []
      ensures forall i :: 0 <= i < |r| ==> r[i].destino in vertices
    {
      if v in adj then adj[v] else []
    }

    /**
     * obtener_info_vertice: the name defaults to the id and the coordinates
     * to (0, 0); the out-degree counts every entry of the adjacency list.
     */
    function Info(v: Vertex): (r: VertexInfo)
      reads this
      ensures r.id == v
      ensures r.name == if v in names then names[v] else v
      ensures r.coords == if v in coords then coords[v] else (0.0, 0.0)
      ensures r.outDegree == |Succ(Snapshot(), v)|
    {
      VertexInfo(v, if v in names then names[v] else v,
                 if v in coords then coords[v] else (0.0, 0.0),
                 if v in adj then |adj[v]| else 0)
    }

    /** An id that is not a vertex gets the defaults throughout. */
    lemma InfoOfUnknown(v: Vertex)
      requires Valid() && v !in vertices
      ensures Info(v) == VertexInfo(v, v, (0.0, 0.0), 0)
    {
    }

    /** obtener_todos_vertices: the vertices in ascending string order, each once. */
    function AllVertices(): (r: seq<Vertex>)
      reads this
      ensures StrictlySorted(r) && |r| == |vertices|
      ensures forall x :: x in r <==> x in vertices
    {
      SortedList(vertices)
    }

    /**
     * obtener_estadisticas: the vertex count, the number of adjacency entries,
     * and the density e / (n (n - 1)), which is 0 for at most one vertex.
     */
    function Stats(): (r: GraphStats)
      reads this
      ensures r.vertexCount == |vertices| && r.edgeCount == EdgeTotal(adj)
      ensures r.vertexCount <= 1 ==> r.density == 0.0
      ensures r.vertexCount > 1 ==> r.density * ((r.vertexCount * (r.vertexCount - 1)) as real) == r.edgeCount as real
      ensures r.density >= 0.0
    {
      var n := |vertices|;
      var e := EdgeTotal(adj);
      GraphStats(n, e, if n > 1 then (e as real) / ((n * (n - 1)) as real) else 0.0)
    }

    /**
     * dijkstra: ([], inf) when an endpoint is not a vertex or the destination
     * is unreachable; otherwise a repetition-free walk from the origin to the
     * destination and its cost, which with non-negative weights is no greater
     * than the cost of any walk. The metric is distance only for "distancia",
     * the default.
     */
    method Dijkstra(o: Vertex, d: Vertex, criterion: string := "distancia") returns (path: seq<Vertex>, cost: Cost)
      requires Valid()
      ensures o !in vertices || d !in vertices ==> path == [] && cost == Inf
      ensures o in vertices && d in vertices ==> (path != [] <==> Reachable(Snapshot(), o, d))
      ensures path == [] ==> cost == Inf
      ensures path != [] ==> IsWalkFromTo(Snapshot(), path, o, d) && Distinct(path) && cost.Fin? &&
                             cost == PathCost(Snapshot(), path, CriterionOf(criterion))
      ensures path != [] && NonNegative(Snapshot(), CriterionOf(criterion)) ==>
                forall q :: IsWalkFromTo(Snapshot(), q, o, d) ==> cost.AtMost(PathCost(Snapshot(), q, CriterionOf(criterion)))
      ensures o == d && o in vertices ==> path == [o] && cost == Fin(0.0)
    {
      if o !in vertices || d !in vertices {
        return [], Inf;
      }
      var g := Snapshot();
      var c := CriterionOf(criterion);
      var dist, pred, visited, rank := Search(g, c, o, d);
      path, cost := Reconstruct(g, c, o, d, dist, pred, visited, rank);
      if d in visited {
        assert Reachable(g, o, d);
        if o == d {
          DistinctSameEnds(path);
        }
      }
    }

    /**
     * bfs: (False, []) when an endpoint is not a vertex or the destination is
     * unreachable, (True, [o]) when origin and destination coincide, and
     * otherwise (True, a repetition-free walk with the fewest vertices).
     */
    method Bfs(o: Vertex, d: Vertex) returns (found: bool, path: seq<Vertex>)
      requires Valid()
      ensures o !in vertices || d !in vertices ==> !found && path == []
      ensures o in vertices && d in vertices ==> (found <==> Reachable(Snapshot(), o, d))
      ensures !found ==> path == []
      ensures found ==> IsWalkFromTo(Snapshot(), path, o, d) && Distinct(path) &&
                        forall q :: IsWalkFromTo(Snapshot(), q, o, d) ==> |path| <= |q|
      ensures o == d && o in vertices ==> found && path == [o]
    {
      if o !in vertices || d !in vertices {
        return false, [];
      }
      if o == d {
        assert IsWalkFromTo(Snapshot(), [o], o, o);
        return true, [o];
      }
      found, path := BreadthFirst(Snapshot(), o, d);
    }

    /**
     * dfs: (False, []) when an endpoint is not a vertex or the destination is
     * unreachable, otherwise (True, a repetition-free walk from the origin to
     * the destination), [o] when they coincide.
     */
    method Dfs(o: Vertex, d: Vertex) returns (found: bool, path: seq<Vertex>)
      requires Valid()
      ensures o !in vertices || d !in vertices ==> !found && path == []
      ensures o in vertices && d in vertices ==> (found <==> Reachable(Snapshot(), o, d))
      ensures !found ==> path == []
      ensures found ==> IsWalkFromTo(Snapshot(), path, o, d) && Distinct(path)
      ensures o == d && o in vertices ==> found && path == [o]
    {
      if o !in vertices || d !in vertices {
        return false, [];
      }
      var g := Snapshot();
      var visited;
      found, visited, path := DfsVisit(g, d, o, {}, []);
      if found {
        assert path[0..] == path;
        if o == d {
          DistinctSameEnds(path);
        }
      } else {
        assert visited - {} == visited;
        DfsFailed(g, o, d, visited);
        path := [];
      }
    }
  }
}
