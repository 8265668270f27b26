/**
 * The recursive visit of Grafo.dfs (its nested dfs_recursivo): the shared
 * visited set and path list are threaded through the calls as values.
 */
module DepthFirst {
  import opened Network

  /** seg is a repetition-free walk from u to d that avoids the set s. */
  ghost predicate FreshWalk(g: Net, seg: seq<Vertex>, u: Vertex, d: Vertex, s: set<Vertex>) {
    IsWalkFromTo(g, seg, u, d) && Distinct(seg) && forall k :: 0 <= k < |seg| ==> seg[k] !in s
  }

  /** Taking u, outside s, before a fresh walk from an out-neighbour of u that avoids s + {u} gives a fresh walk from u. */
  lemma FreshPrepend(g: Net, u: Vertex, seg: seq<Vertex>, v: Vertex, d: Vertex, s: set<Vertex>, s': set<Vertex>)
    requires u !in s && s + {u} <= s' && HasEdge(g, u, v)
    requires FreshWalk(g, seg, v, d, s')
    ensures FreshWalk(g, [u] + seg, u, d, s)
  {
    PrependIsWalk(g, u, seg);
    var seg' := [u] + seg;
    forall i, j | 0 <= i < j < |seg'| ensures seg'[i] != seg'[j] {
      assert seg'[j] == seg[j - 1];
      if i > 0 { assert seg'[i] == seg[i - 1]; }
    }
  }

  /** More visited vertices keep a vertex expanded. */
  lemma ExpandedGrow(g: Net, news: set<Vertex>, s: set<Vertex>, s': set<Vertex>)
    requires s <= s' && forall x :: x in news ==> Expanded(g, x, s)
    ensures forall x :: x in news ==> Expanded(g, x, s')
  {
    forall x | x in news ensures Expanded(g, x, s') {
      assert Expanded(g, x, s);
    }
  }

  /** Visiting a vertex outside a set leaves fewer unvisited vertices. */
  lemma Fewer(vs: set<Vertex>, a: set<Vertex>, b: set<Vertex>, u: Vertex)
    requires a <= b && u in vs && u in b && u !in a
    ensures |vs - b| < |vs - a|
  {
    var x, y := vs - a, vs - b;
    assert y + {u} <= x;
    assert x == (y + {u}) + (x - (y + {u}));
    assert |x| == |y + {u}| + |x - (y + {u})|;
  }

  /**
   * dfs_recursivo(u): stop with success when u is the destination, after
   * appending it to the path; otherwise mark u visited, append it, and recurse
   * into each out-neighbour not yet visited, in adjacency order; on the first
   * success return; when all fail, pop u off the path and fail.
   * On success the path is the old path followed by a repetition-free walk
   * from u to d avoiding the old visited set. On failure the path is unchanged,
   * u is visited, and every newly visited vertex has all its out-neighbours
   * visited.
   */
  method DfsVisit(g: Net, d: Vertex, u: Vertex, visited0: set<Vertex>, path0: seq<Vertex>)
    returns (found: bool, visited: set<Vertex>, path: seq<Vertex>)
    requires Closed(g) && u in g.vertices && d in g.vertices
    requires visited0 <= g.vertices && u !in visited0 && d !in visited0
    ensures visited0 <= visited <= g.vertices && d !in visited
    ensures found ==> |path| > |path0| && path[..|path0|] == path0 && FreshWalk(g, path[|path0|..], u, d, visited0)
    ensures !found ==> path == path0 && u in visited && forall x :: x in visited - visited0 ==> Expanded(g, x, visited)
    decreases |g.vertices - visited0|
  {
    if u == d {
      path := path0 + [u];
      assert path[|path0|..] == [u];
      return true, visited0, path;
    }
    visited := visited0 + {u};
    path := path0 + [u];
    var es := Succ(g, u);
    for i := 0 to |es|
      invariant visited0 + {u} <= visited <= g.vertices && d !in visited
      invariant path == path0 + [u]
      invariant forall k :: 0 <= k < i ==> es[k].destino in visited
      invariant forall x :: x in visited - visited0 - {u} ==> Expanded(g, x, visited)
    {
      var v := es[i].destino;
      assert u in g.adj && es[i] in g.adj[u];
      if v !in visited {
        Fewer(g.vertices, visited0, visited, u);
        var f, visited', path' := DfsVisit(g, d, v, visited, path);
        if f {
          assert Dests(es)[i] == v;
          var seg := path'[|path|..];
          FreshPrepend(g, u, seg, v, d, visited0, visited);
          assert path'[|path0|..] == [u] + seg;
          assert path'[..|path0|] == path0;
          return true, visited', path';
        }
        ExpandedGrow(g, visited - visited0 - {u}, visited, visited');
        visited := visited';
      }
    }
    forall v | v in Dests(es) ensures v in visited {
      var k :| 0 <= k < |es| && Dests(es)[k] == v;
    }
    path := path0;
    return false, visited, path;
  }

  /** A failed visit from o, started with nothing visited, shows that d is unreachable from o. */
  lemma DfsFailed(g: Net, o: Vertex, d: Vertex, visited: set<Vertex>)
    requires d !in visited && o in visited
    requires forall x :: x in visited ==> Expanded(g, x, visited)
    ensures !Reachable(g, o, d)
  {
    if Reachable(g, o, d) {
      ClosedSetHoldsReachable(g, visited, o, d);
    }
  }
}
