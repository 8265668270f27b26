/**
 * The state of the breadth-first search (visited set, FIFO queue of
 * (vertex, path) pairs) and what stays true of it from one step to the
 * next, and the loop that runs them.
 */
module BfsSteps {
  import opened Network

  /** A queue item: a vertex and the path by which it was reached. */
  type Item = (Vertex, seq<Vertex>)

  /** Every walk from o to x has at least n vertices. */
  ghost predicate ShortestTo(g: Net, o: Vertex, x: Vertex, n: nat) {
    forall q {:trigger IsWalkFromTo(g, q, o, x)} :: IsWalkFromTo(g, q, o, x) ==> |q| >= n
  }

  /** The recorded path of an item is a repetition-free, hop-minimal walk from o through visited vertices. */
  ghost predicate GoodItem(g: Net, o: Vertex, visited: set<Vertex>, it: Item) {
    IsWalkFromTo(g, it.1, o, it.0) && Distinct(it.1) &&
    (forall k :: 0 <= k < |it.1| ==> it.1[k] in visited) &&
    ShortestTo(g, o, it.0, |it.1|)
  }

  ghost predicate AllGood(g: Net, o: Vertex, visited: set<Vertex>, q: seq<Item>) {
    forall i :: 0 <= i < |q| ==> GoodItem(g, o, visited, q[i])
  }

  /** Path lengths along the queue never decrease and differ by at most one. */
  ghost predicate Layered(q: seq<Item>) {
    forall i, j :: 0 <= i <= j < |q| ==> |q[i].1| <= |q[j].1| <= |q[i].1| + 1
  }

  /** Path lengths along the queue never decrease and lie between l and l + 1. */
  ghost predicate LayeredFrom(q: seq<Item>, l: nat) {
    forall i, j :: 0 <= i <= j < |q| ==> l <= |q[i].1| <= |q[j].1| <= l + 1
  }

  /** The vertices waiting in the queue. */
  ghost function QVerts(q: seq<Item>): set<Vertex> {
    set i | 0 <= i < |q| :: q[i].0
  }

  /** Every walk from o that ends outside the visited set has at least l + 1 vertices. */
  ghost predicate Beyond(g: Net, o: Vertex, visited: set<Vertex>, l: nat) {
    forall q {:trigger IsWalk(g, q)} :: IsWalk(g, q) && q[0] == o && q[|q| - 1] !in visited ==> |q| >= l + 1
  }

  /**
   * What the outer loop keeps: the origin is visited and the destination is
   * not, queued items are good and layered, the visited vertices are the
   * expanded ones plus the queued ones, and expanded vertices have all their
   * out-neighbours visited.
   */
  ghost predicate BfsInv(g: Net, o: Vertex, d: Vertex, visited: set<Vertex>, done: set<Vertex>, q: seq<Item>) {
    Closed(g) && o in g.vertices && d in g.vertices && o != d &&
    o in visited && d !in visited && visited <= g.vertices &&
    AllGood(g, o, visited, q) && Layered(q) &&
    visited == done + QVerts(q) &&
    (forall x :: x in done ==> Expanded(g, x, visited))
  }

  /**
   * What the loop over the out-edges of the popped vertex u keeps, after the
   * first i of them: as BfsInv with u counted as neither expanded nor queued,
   * every vertex still unvisited lies more than |p| hops away, and the first i
   * out-neighbours of u are visited.
   */
  ghost predicate ExpandInv(g: Net, o: Vertex, d: Vertex, visited: set<Vertex>, done: set<Vertex>,
                            q: seq<Item>, u: Vertex, p: seq<Vertex>, i: nat) {
    Closed(g) && o in g.vertices && d in g.vertices && o != d &&
    o in visited && d !in visited && visited <= g.vertices &&
    AllGood(g, o, visited, q) && LayeredFrom(q, |p|) &&
    GoodItem(g, o, visited, (u, p)) &&
    visited == done + {u} + QVerts(q) &&
    (forall x :: x in done ==> Expanded(g, x, visited)) &&
    Beyond(g, o, visited, |p|) &&
    i <= |Succ(g, u)| &&
    (forall k :: 0 <= k < i ==> Succ(g, u)[k].destino in visited)
  }

  /** The start: the origin alone is visited and queued with path [o]. */
  lemma BfsInit(g: Net, o: Vertex, d: Vertex)
    requires Closed(g) && o in g.vertices && d in g.vertices && o != d
    ensures BfsInv(g, o, d, {o}, {}, [(o, [o])])
  {
    assert QVerts([(o, [o])]) == {o};
    assert GoodItem(g, o, {o}, (o, [o]));
  }

  /** A walk from o out of the visited set leaves it from a queued vertex, so it is longer than the queue front's path. */
  lemma BeyondFront(g: Net, o: Vertex, d: Vertex, visited: set<Vertex>, done: set<Vertex>, q: seq<Item>, w: seq<Vertex>)
    requires BfsInv(g, o, d, visited, done, q) && q != []
    requires IsWalk(g, w) && w[0] == o && w[|w| - 1] !in visited
    ensures |w| >= |q[0].1| + 1
  {
    var j := FirstExit(w, visited);
    var x := w[j - 1];
    assert x !in done by {
      assert HasEdge(g, x, w[j]);
    }
    var i :| 0 <= i < |q| && q[i].0 == x;
    PrefixIsWalk(g, w, j);
    assert IsWalkFromTo(g, w[..j], o, x);
    assert GoodItem(g, o, visited, q[i]);
  }

  /** Popping the front item (u, p) starts the expansion of u. */
  lemma PopStep(g: Net, o: Vertex, d: Vertex, visited: set<Vertex>, done: set<Vertex>, q: seq<Item>)
    requires BfsInv(g, o, d, visited, done, q) && q != []
    ensures ExpandInv(g, o, d, visited, done, q[1..], q[0].0, q[0].1, 0)
  {
    forall w | IsWalk(g, w) && w[0] == o && w[|w| - 1] !in visited ensures |w| >= |q[0].1| + 1 {
      BeyondFront(g, o, d, visited, done, q, w);
    }
    assert q == [q[0]] + q[1..];
    QVertsAppend([], q[0]);
    QVertsConcat([q[0]], q[1..]);
    assert GoodItem(g, o, visited, q[0]);
    forall i | 0 <= i < |q[1..]| ensures GoodItem(g, o, visited, q[1..][i]) {
      assert q[1..][i] == q[i + 1];
    }
    forall i, j | 0 <= i <= j < |q[1..]| ensures |q[0].1| <= |q[1..][i].1| <= |q[1..][j].1| <= |q[0].1| + 1 {
      assert q[1..][i] == q[i + 1] && q[1..][j] == q[j + 1];
    }
  }

  /** Out-neighbour i of u is already visited: nothing changes. */
  lemma SkipNeighbour(g: Net, o: Vertex, d: Vertex, visited: set<Vertex>, done: set<Vertex>,
                      q: seq<Item>, u: Vertex, p: seq<Vertex>, i: nat)
    requires ExpandInv(g, o, d, visited, done, q, u, p, i) && i < |Succ(g, u)|
    requires Succ(g, u)[i].destino in visited
    ensures ExpandInv(g, o, d, visited, done, q, u, p, i + 1)
  {
  }

  /** Extending p by an unvisited out-neighbour v of u gives a repetition-free, hop-minimal walk to v. */
  lemma ExtendGood(g: Net, o: Vertex, visited: set<Vertex>, u: Vertex, p: seq<Vertex>, i: nat, v: Vertex)
    requires GoodItem(g, o, visited, (u, p)) && Beyond(g, o, visited, |p|)
    requires i < |Succ(g, u)| && v == Succ(g, u)[i].destino && v !in visited
    ensures GoodItem(g, o, visited + {v}, (v, p + [v]))
  {
    var p' := p + [v];
    assert Dests(Succ(g, u))[i] == v;
    assert IsWalk(g, p') by {
      forall k | 0 <= k < |p'| - 1 ensures HasEdge(g, p'[k], p'[k + 1]) {
        if k < |p| - 1 { assert p'[k] == p[k] && p'[k + 1] == p[k + 1]; }
      }
    }
    forall k, l | 0 <= k < l < |p'| ensures p'[k] != p'[l] {
      assert p'[k] == p[k];
      if l < |p| { assert p'[l] == p[l]; }
    }
  }

  lemma QVertsConcat(a: seq<Item>, b: seq<Item>)
    ensures QVerts(a + b) == QVerts(a) + QVerts(b)
  {
    var ab := a + b;
    forall x | x in QVerts(ab) ensures x in QVerts(a) + QVerts(b) {
      var j :| 0 <= j < |ab| && ab[j].0 == x;
      if j < |a| { assert a[j].0 == x; } else { assert b[j - |a|].0 == x; }
    }
    forall x | x in QVerts(a) + QVerts(b) ensures x in QVerts(ab) {
      if x in QVerts(a) {
        var j :| 0 <= j < |a| && a[j].0 == x;
        assert ab[j].0 == x;
      } else {
        var j :| 0 <= j < |b| && b[j].0 == x;
        assert ab[|a| + j].0 == x;
      }
    }
  }

  lemma QVertsAppend(q: seq<Item>, it: Item)
    ensures QVerts(q + [it]) == QVerts(q) + {it.0}
  {
    var q' := q + [it];
    forall x | x in QVerts(q') ensures x in QVerts(q) + {it.0} {
      var j :| 0 <= j < |q'| && q'[j].0 == x;
      if j < |q| { assert q[j].0 == x; }
    }
    forall x | x in QVerts(q) ensures x in QVerts(q') {
      var j :| 0 <= j < |q| && q[j].0 == x;
      assert q'[j].0 == x;
    }
    assert q'[|q|].0 == it.0;
  }

  /** Appending a good item keeps every item good once its vertex is visited. */
  lemma AppendGood(g: Net, o: Vertex, visited: set<Vertex>, v: Vertex, q: seq<Item>, it: Item)
    requires AllGood(g, o, visited, q) && GoodItem(g, o, visited + {v}, it)
    ensures AllGood(g, o, visited + {v}, q + [it])
  {
    var q' := q + [it];
    forall j | 0 <= j < |q'| ensures GoodItem(g, o, visited + {v}, q'[j]) {
      if j < |q| { assert q'[j] == q[j] && GoodItem(g, o, visited, q[j]); }
    }
  }

  /** Appending an item one level below l keeps the queue layered from l. */
  lemma AppendLayered(q: seq<Item>, l: nat, it: Item)
    requires LayeredFrom(q, l) && |it.1| == l + 1
    ensures LayeredFrom(q + [it], l)
  {
    var q' := q + [it];
    forall j, k | 0 <= j <= k < |q'| ensures l <= |q'[j].1| <= |q'[k].1| <= l + 1 {
      if k < |q| { assert q'[j] == q[j] && q'[k] == q[k]; }
      else if j < |q| { assert q'[j] == q[j]; }
    }
  }

  /** Visiting one more vertex keeps expanded vertices expanded and unvisited vertices far away. */
  lemma GrowVisited(g: Net, o: Vertex, visited: set<Vertex>, done: set<Vertex>, v: Vertex, l: nat)
    requires forall x :: x in done ==> Expanded(g, x, visited)
    requires Beyond(g, o, visited, l)
    ensures forall x :: x in done ==> Expanded(g, x, visited + {v})
    ensures Beyond(g, o, visited + {v}, l)
  {
    forall x | x in done ensures Expanded(g, x, visited + {v}) {
      assert Expanded(g, x, visited);
    }
  }

  /** Visiting a vertex not yet visited leaves one fewer unvisited vertex. */
  lemma OneFewer(vs: set<Vertex>, visited: set<Vertex>, v: Vertex)
    requires v in vs && v !in visited
    ensures |vs - (visited + {v})| + 1 == |vs - visited|
  {
    assert vs - visited == (vs - (visited + {v})) + {v};
  }

  /** Visiting the destination of edge i extends "the first i destinations are visited" to i + 1. */
  lemma PrefixVisited(es: seq<Edge>, i: nat, visited: set<Vertex>, v: Vertex)
    requires i < |es| && es[i].destino == v
    requires forall k :: 0 <= k < i ==> es[k].destino in visited
    ensures forall k :: 0 <= k < i + 1 ==> es[k].destino in visited + {v}
  {
  }

  /** Out-neighbour i of u is unvisited and not the destination: it is visited and queued with path p + [v]. */
  lemma EnqueueNeighbour(g: Net, o: Vertex, d: Vertex, visited: set<Vertex>, done: set<Vertex>,
                         q: seq<Item>, u: Vertex, p: seq<Vertex>, i: nat, v: Vertex)
    requires ExpandInv(g, o, d, visited, done, q, u, p, i) && i < |Succ(g, u)|
    requires v == Succ(g, u)[i].destino && v !in visited && v != d
    ensures ExpandInv(g, o, d, visited + {v}, done, q + [(v, p + [v])], u, p, i + 1)
    ensures |g.vertices - (visited + {v})| + 1 == |g.vertices - visited|
  {
    var visited', q' := visited + {v}, q + [(v, p + [v])];
    assert u in g.adj && Succ(g, u)[i] in g.adj[u];
    ExtendGood(g, o, visited, u, p, i, v);
    AppendGood(g, o, visited, v, q, (v, p + [v]));
    QVertsAppend(q, (v, p + [v]));
    AppendLayered(q, |p|, (v, p + [v]));
    assert GoodItem(g, o, visited', (u, p));
    GrowVisited(g, o, visited, done, v, |p|);
    OneFewer(g.vertices, visited, v);
    assert visited' == done + {u} + QVerts(q') by {
      assert visited' == done + {u} + QVerts(q) + {v};
    }
    PrefixVisited(Succ(g, u), i, visited, v);
  }

  /** Out-neighbour i of u is the destination: p + [d] is a repetition-free, hop-minimal walk from o to d. */
  lemma FoundNeighbour(g: Net, o: Vertex, d: Vertex, visited: set<Vertex>, done: set<Vertex>,
                       q: seq<Item>, u: Vertex, p: seq<Vertex>, i: nat)
    requires ExpandInv(g, o, d, visited, done, q, u, p, i) && i < |Succ(g, u)|
    requires Succ(g, u)[i].destino == d
    ensures IsWalkFromTo(g, p + [d], o, d) && Distinct(p + [d]) && ShortestTo(g, o, d, |p + [d]|)
  {
    ExtendGood(g, o, visited, u, p, i, d);
  }

  /** All out-edges of u are done: u joins the expanded vertices. */
  lemma ExpandDone(g: Net, o: Vertex, d: Vertex, visited: set<Vertex>, done: set<Vertex>,
                   q: seq<Item>, u: Vertex, p: seq<Vertex>)
    requires ExpandInv(g, o, d, visited, done, q, u, p, |Succ(g, u)|)
    ensures BfsInv(g, o, d, visited, done + {u}, q)
  {
    forall v | v in Dests(Succ(g, u)) ensures v in visited {
      var k :| 0 <= k < |Succ(g, u)| && Dests(Succ(g, u))[k] == v;
    }
  }

  /** The queue ran empty: the visited set is closed under edges, so the destination is unreachable. */
  lemma BfsExhausted(g: Net, o: Vertex, d: Vertex, visited: set<Vertex>, done: set<Vertex>)
    requires BfsInv(g, o, d, visited, done, [])
    ensures !Reachable(g, o, d)
  {
    assert QVerts([]) == {};
    if Reachable(g, o, d) {
      ClosedSetHoldsReachable(g, visited, o, d);
    }
  }

  /**
   * The queue loop of Grafo.bfs for distinct endpoints: take the front item,
   * scan the out-neighbours in adjacency order, succeed at the first one that
   * is the destination, and otherwise enqueue each unvisited one with its
   * extended path; fail once the queue is empty.
   */
  method BreadthFirst(g: Net, o: Vertex, d: Vertex) returns (found: bool, path: seq<Vertex>)
    requires Closed(g) && o in g.vertices && d in g.vertices && o != d
    ensures found <==> Reachable(g, o, d)
    ensures !found ==> path == []
    ensures found ==> IsWalkFromTo(g, path, o, d) && Distinct(path) && ShortestTo(g, o, d, |path|)
  {
    var visited := {o};
    var queue: seq<Item> := [(o, [o])];
    ghost var done: set<Vertex> := {};
    BfsInit(g, o, d);
    while queue != []
      invariant BfsInv(g, o, d, visited, done, queue)
      decreases |g.vertices - visited| + |queue|
    {
      var u, p := queue[0].0, queue[0].1;
      PopStep(g, o, d, visited, done, queue);
      queue := queue[1..];
      ghost var measure := |g.vertices - visited| + |queue|;
      var es := Succ(g, u);
      for i := 0 to |es|
        invariant ExpandInv(g, o, d, visited, done, queue, u, p, i)
        invariant |g.vertices - visited| + |queue| == measure
      {
        var v := es[i].destino;
        if v !in visited {
          var np := p + [v];
          if v == d {
            FoundNeighbour(g, o, d, visited, done, queue, u, p, i);
            return true, np;
          }
          EnqueueNeighbour(g, o, d, visited, done, queue, u, p, i, v);
          visited := visited + {v};
          queue := queue + [(v, np)];
        } else {
          SkipNeighbour(g, o, d, visited, done, queue, u, p, i);
        }
      }
      ExpandDone(g, o, d, visited, done, queue, u, p);
      done := done + {u};
    }
    BfsExhausted(g, o, d, visited, done);
    return false, [];
  }
}
