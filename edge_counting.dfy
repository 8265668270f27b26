/** The number of adjacency entries of a graph: the sum of the lengths of all adjacency lists. */
module EdgeCounting {
  import opened Network
  import opened StringOrder

  /** Sums the list lengths, visiting the keys in ascending order (any order gives the same sum). */
  function EdgeTotal(adj: map<Vertex, seq<Edge>>): nat
    decreases |adj|
  {
    if adj == map[] then 0
    else
      var k := Least(adj.Keys);
      assert k in adj;
      assert |adj - {k}| < |adj| by { assert (adj - {k}).Keys == adj.Keys - {k}; }
      |adj[k]| + EdgeTotal(adj - {k})
  }

  /** The sum does not depend on the visiting order: any key can be taken out first. */
  lemma {:induction false} EdgeTotalRemove(adj: map<Vertex, seq<Edge>>, x: Vertex)
    requires x in adj
    ensures EdgeTotal(adj) == |adj[x]| + EdgeTotal(adj - {x})
    decreases |adj|
  {
    var m := Least(adj.Keys);
    if m != x {
      var rest := adj - {m};
      assert (adj - {m}).Keys == adj.Keys - {m};
      EdgeTotalRemove(rest, x);
      assert rest - {x} == adj - {x} - {m};
      var without := adj - {x};
      assert without.Keys == adj.Keys - {x};
      assert IsLeast(m, without.Keys);
      LeastUnique();
      assert Least(without.Keys) == m;
    }
  }

  /** Appending one entry to one adjacency list adds exactly one to the total. */
  lemma AppendAddsOne(adj: map<Vertex, seq<Edge>>, o: Vertex, e: Edge)
    ensures var old_list := if o in adj then adj[o] else [];
            EdgeTotal(adj[o := old_list + [e]]) == EdgeTotal(adj) + 1
  {
    var old_list := if o in adj then adj[o] else [];
    var adj' := adj[o := old_list + [e]];
    EdgeTotalRemove(adj', o);
    assert adj' - {o} == adj - {o};
    if o in adj {
      EdgeTotalRemove(adj, o);
    } else {
      assert adj - {o} == adj;
    }
  }
}
