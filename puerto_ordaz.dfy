/**
 * The fixed base network of central Puerto Ordaz: fifteen intersections and
 * fifty one-way streets, built by inserting the literal lists into an empty
 * Graph, and the points of interest mapped onto its intersections.
 */
module PuertoOrdaz {
  import opened Wrappers
  import opened Network
  import opened EdgeCounting
  import opened LowerBound
  import opened RoadGraph

  /** (id, name, (longitude, latitude)) */
  type VertexEntry = (Vertex, string, (real, real))

  /** (origin, destination, metres, minutes) */
  type EdgeEntry = (Vertex, Vertex, real, real)

  const VertexList: seq<VertexEntry> := [
    ("V1", "Av. Guayana con Calle Bolivia", (-62.745, 8.285)),
    ("V2", "Av. Guayana con Calle Chile", (-62.730, 8.285)),
    ("V3", "Av. Guayana con Calle Perú", (-62.715, 8.285)),
    ("V4", "Av. Guayana con Calle Venezuela", (-62.700, 8.285)),
    ("V5", "Av. Las Américas con Calle Bolivia", (-62.745, 8.270)),
    ("V6", "Av. Las Américas con Calle Chile", (-62.730, 8.270)),
    ("V7", "Av. Las Américas con Calle Perú", (-62.715, 8.270)),
    ("V8", "Av. Las Américas con Calle Venezuela", (-62.700, 8.270)),
    ("V9", "Av. Villa Asia con Calle Bolivia", (-62.745, 8.255)),
    ("V10", "Av. Villa Asia con Calle Chile", (-62.730, 8.255)),
    ("V11", "Av. Villa Asia con Calle Perú", (-62.715, 8.255)),
    ("V12", "Av. Villa Asia con Calle Venezuela", (-62.700, 8.255)),
    ("V13", "Centro Cívico", (-62.720, 8.240)),
    ("V14", "Plaza Mayor Alta Vista", (-62.720, 8.300)),
    ("V15", "Terminal de Autobuses", (-62.755, 8.265))]

  /** The ids of VertexList, in the same order. */
  const VertexIds: seq<Vertex> := ["V1", "V2", "V3", "V4", "V5", "V6", "V7", "V8", "V9", "V10", "V11", "V12", "V13", "V14", "V15"]

  /** Guayana, Las Americas and Villa Asia avenues, both directions. */
  const Avenues: seq<EdgeEntry> := [
    ("V1", "V2", 300.0, 2.5),
    ("V2", "V3", 350.0, 3.0),
    ("V3", "V4", 300.0, 2.5),
    ("V4", "V3", 320.0, 3.0),
    ("V3", "V2", 360.0, 3.2),
    ("V2", "V1", 310.0, 2.8),
    ("V5", "V6", 280.0, 2.2),
    ("V6", "V7", 320.0, 2.8),
    ("V7", "V8", 280.0, 2.3),
    ("V8", "V7", 290.0, 2.5),
    ("V7", "V6", 330.0, 2.9),
    ("V6", "V5", 290.0, 2.4),
    ("V9", "V10", 300.0, 2.6),
    ("V10", "V11", 340.0, 3.1),
    ("V11", "V12", 300.0, 2.7),
    ("V12", "V11", 310.0, 2.8),
    ("V11", "V10", 350.0, 3.2),
    ("V10", "V9", 310.0, 2.7)]

  /** Bolivia, Chile, Peru and Venezuela streets, both directions. */
  const CrossStreets: seq<EdgeEntry> := [
    ("V1", "V5", 400.0, 4.0),
    ("V5", "V9", 380.0, 3.8),
    ("V9", "V5", 390.0, 4.2),
    ("V5", "V1", 410.0, 4.3),
    ("V2", "V6", 420.0, 4.5),
    ("V6", "V10", 400.0, 4.2),
    ("V10", "V6", 410.0, 4.3),
    ("V6", "V2", 430.0, 4.6),
    ("V3", "V7", 390.0, 4.0),
    ("V7", "V11", 410.0, 4.3),
    ("V11", "V7", 400.0, 4.1),
    ("V7", "V3", 400.0, 4.2),
    ("V4", "V8", 380.0, 3.9),
    ("V8", "V12", 390.0, 4.0),
    ("V12", "V8", 390.0, 4.1),
    ("V8", "V4", 390.0, 4.0)]

  /** Links to Plaza Mayor, Centro Civico and the bus terminal, and four shortcuts. */
  const Landmarks: seq<EdgeEntry> := [
    ("V14", "V1", 450.0, 5.0),
    ("V14", "V2", 400.0, 4.5),
    ("V14", "V3", 400.0, 4.5),
    ("V2", "V14", 410.0, 4.6),
    ("V10", "V13", 600.0, 6.5),
    ("V11", "V13", 550.0, 6.0),
    ("V13", "V10", 610.0, 6.8),
    ("V13", "V11", 560.0, 6.2),
    ("V15", "V5", 250.0, 2.0),
    ("V15", "V9", 350.0, 3.0),
    ("V5", "V15", 260.0, 2.2),
    ("V9", "V15", 360.0, 3.2),
    ("V1", "V6", 500.0, 5.5),
    ("V7", "V12", 520.0, 5.8),
    ("V6", "V11", 480.0, 5.2),
    ("V3", "V6", 450.0, 5.0)]

  /** The street list, in insertion order. */
  const EdgeList: seq<EdgeEntry> := Avenues + CrossStreets + Landmarks

  /** obtener_puntos_interes: categories, each mapping place names to intersection ids, in order. */
  function PointsOfInterest(): (r: seq<(string, seq<(string, Vertex)>)>)
    ensures forall i, j :: 0 <= i < |r| && 0 <= j < |r[i].1| ==> r[i].1[j].1 in VertexIds
  {
    [
    ("Comercial", [
      ("Plaza Mayor Alta Vista", "V14"),
      ("Centro Cívico", "V13")]),
    ("Transporte", [
      ("Terminal de Autobuses", "V15")]),
    ("Intersecciones Principales", [
      ("Guayana - Bolivia", "V1"),
      ("Guayana - Chile", "V2"),
      ("Guayana - Perú", "V3"),
      ("Guayana - Venezuela", "V4"),
      ("Las Américas - Bolivia", "V5"),
      ("Las Américas - Chile", "V6"),
      ("Las Américas - Perú", "V7"),
      ("Las Américas - Venezuela", "V8"),
      ("Villa Asia - Bolivia", "V9"),
      ("Villa Asia - Chile", "V10"),
      ("Villa Asia - Perú", "V11"),
      ("Villa Asia - Venezuela", "V12")])
    ]
  }

  /**
   * A distance potential: the length in metres of the shortest route from V1
   * to each intersection. No street is shorter than the potential difference
   * across it (FeasibleFrom).
   */
  function Potential(v: Vertex): real {
    if v == "V1" then 0.0 else
    if v == "V2" then 300.0 else
    if v == "V3" then 650.0 else
    if v == "V4" then 950.0 else
    if v == "V5" then 400.0 else
    if v == "V6" then 500.0 else
    if v == "V7" then 820.0 else
    if v == "V8" then 1100.0 else
    if v == "V9" then 780.0 else
    if v == "V10" then 900.0 else
    if v == "V11" then 980.0 else
    if v == "V12" then 1280.0 else
    if v == "V13" then 1500.0 else
    if v == "V14" then 710.0 else
    if v == "V15" then 660.0 else
    0.0
  }

  /** The ids of the first i entries of a vertex list. */
  ghost function IdsUpTo(vs: seq<VertexEntry>, i: nat): set<Vertex>
    requires i <= |vs|
  {
    set j | 0 <= j < i :: vs[j].0
  }

  /** The ids a vertex list declares. */
  ghost function ListedIds(vs: seq<VertexEntry>): set<Vertex> {
    IdsUpTo(vs, |vs|)
  }

  /** The intersections of the base network. */
  ghost function BaseIds(): set<Vertex> {
    ListedIds(VertexList)
  }

  /** A street entry joins two listed intersections and has a positive length and travel time. */
  predicate WellFormed(e: EdgeEntry) {
    e.0 in VertexIds && e.1 in VertexIds && e.2 > 0.0 && e.3 > 0.0
  }

  /**
   * A street entry is no shorter than the potential difference across it; the
   * only entries exactly that short into V3 leave V2, into V2 leave V1, and
   * none enters V1.
   */
  predicate RespectsPotential(e: EdgeEntry) {
    Potential(e.1) <= Potential(e.0) + e.2 &&
    (Potential(e.1) == Potential(e.0) + e.2 ==>
       (e.1 == "V3" ==> e.0 == "V2") && (e.1 == "V2" ==> e.0 == "V1") && e.1 != "V1")
  }

  /** The intersection list: fifteen distinct ids, in the order of VertexIds, each with a non-empty name. */
  lemma VertexFacts()
    ensures |VertexList| == |VertexIds| == 15
    ensures forall i :: 0 <= i < |VertexList| ==> VertexList[i].0 == VertexIds[i] && VertexList[i].1 != ""
    ensures forall i, j :: 0 <= i < j < |VertexIds| ==> VertexIds[i] != VertexIds[j]
  {
  }

  /** A sequence without repetitions has as many distinct elements as positions. */
  lemma {:induction false} DistinctCard(s: seq<Vertex>)
    requires forall i, j :: 0 <= i < j < |s| ==> s[i] != s[j]
    ensures |set v | v in s| == |s|
  {
    if s != [] {
      var t := s[..|s| - 1];
      DistinctCard(t);
      assert (set v | v in s) == (set v | v in t) + {s[|s| - 1]};
      assert s[|s| - 1] !in (set v | v in t);
    }
  }

  /** The base network has fifteen intersections, those of VertexIds. */
  lemma BaseIdsFacts()
    ensures BaseIds() == set v | v in VertexIds
    ensures |BaseIds()| == 15
  {
    VertexFacts();
    forall v | v in VertexIds ensures v in BaseIds() {
      var i :| 0 <= i < |VertexIds| && VertexIds[i] == v;
      assert VertexList[i].0 == v;
    }
    DistinctCard(VertexIds);
  }

  lemma AvenuesWellFormed()
    ensures forall k :: 0 <= k < |Avenues| ==> WellFormed(Avenues[k])
  {
  }

  lemma CrossStreetsWellFormed()
    ensures forall k :: 0 <= k < |CrossStreets| ==> WellFormed(CrossStreets[k])
  {
  }

  lemma LandmarksWellFormed()
    ensures forall k :: 0 <= k < |Landmarks| ==> WellFormed(Landmarks[k])
  {
  }

  lemma AvenuesRespectPotential()
    ensures forall k :: 0 <= k < |Avenues| ==> RespectsPotential(Avenues[k])
  {
  }

  lemma CrossStreetsRespectPotential()
    ensures forall k :: 0 <= k < |CrossStreets| ==> RespectsPotential(CrossStreets[k])
  {
  }

  lemma LandmarksRespectPotential()
    ensures forall k :: 0 <= k < |Landmarks| ==> RespectsPotential(Landmarks[k])
  {
  }

  /** All fifty street entries are well formed and respect the potential. */
  lemma EntriesGood()
    ensures |EdgeList| == 50
    ensures forall k :: 0 <= k < |EdgeList| ==> WellFormed(EdgeList[k]) && RespectsPotential(EdgeList[k])
  {
    AvenuesWellFormed();
    CrossStreetsWellFormed();
    LandmarksWellFormed();
    AvenuesRespectPotential();
    CrossStreetsRespectPotential();
    LandmarksRespectPotential();
    forall k | 0 <= k < |EdgeList| ensures WellFormed(EdgeList[k]) && RespectsPotential(EdgeList[k]) {
      if k < |Avenues| {
        assert EdgeList[k] == Avenues[k];
      } else if k < |Avenues| + |CrossStreets| {
        assert EdgeList[k] == CrossStreets[k - |Avenues|];
      } else {
        assert EdgeList[k] == Landmarks[k - |Avenues| - |CrossStreets|];
      }
    }
  }

  /** The street list starts with V1 to V2 (300 m) and V2 to V3 (350 m). */
  lemma FirstEntries()
    ensures |EdgeList| >= 2
    ensures EdgeList[0] == ("V1", "V2", 300.0, 2.5) && EdgeList[1] == ("V2", "V3", 350.0, 3.0)
  {
  }

  /** Every adjacency entry of n comes from one of the first k entries of es. */
  ghost predicate Sound(n: Net, es: seq<EdgeEntry>, k: nat)
    requires k <= |es|
  {
    forall u, e :: u in n.adj && e in n.adj[u] ==>
      exists j :: 0 <= j < k && es[j] == (u, e.destino, e.distancia, e.tiempo)
  }

  /** Each of the first k entries of es is in its origin's adjacency list. */
  ghost predicate Complete(n: Net, es: seq<EdgeEntry>, k: nat)
    requires k <= |es|
  {
    forall j :: 0 <= j < k ==> Edge(es[j].1, es[j].2, es[j].3) in Succ(n, es[j].0)
  }

  /** The adjacency lists of n hold exactly the entries of es. */
  ghost predicate Realizes(n: Net, es: seq<EdgeEntry>) {
    Sound(n, es, |es|) && Complete(n, es, |es|)
  }

  /** Appending entry i of es to its origin's list extends Sound and Complete to i + 1 entries. */
  lemma InsertEntry(n: Net, n': Net, es: seq<EdgeEntry>, i: nat)
    requires i < |es| && Sound(n, es, i) && Complete(n, es, i)
    requires n'.adj == n.adj[es[i].0 := Succ(n, es[i].0) + [Edge(es[i].1, es[i].2, es[i].3)]]
    ensures Sound(n', es, i + 1) && Complete(n', es, i + 1)
  {
    var o := es[i].0;
    var e := Edge(es[i].1, es[i].2, es[i].3);
    forall u, f | u in n'.adj && f in n'.adj[u]
      ensures exists j :: 0 <= j < i + 1 && es[j] == (u, f.destino, f.distancia, f.tiempo)
    {
      if u == o && f == e {
        assert es[i] == (u, f.destino, f.distancia, f.tiempo);
      } else {
        assert u in n.adj && f in n.adj[u];
      }
    }
    forall j | 0 <= j < i + 1
      ensures Edge(es[j].1, es[j].2, es[j].3) in Succ(n', es[j].0)
    {
      if j < i {
        assert Edge(es[j].1, es[j].2, es[j].3) in Succ(n, es[j].0);
      }
    }
  }

  /**
   * The first loop of crear_grafo_puerto_ordaz: insert each listed vertex
   * with its name and coordinates; with distinct ids and non-empty names,
   * every listed vertex ends up named and placed as listed.
   */
  method InsertVertices(g: Graph, vs: seq<VertexEntry>)
    requires g.Valid() && g.vertices == {} && g.adj == map[] && g.names == map[] && g.coords == map[]
    requires forall i, j :: 0 <= i < j < |vs| ==> vs[i].0 != vs[j].0
    requires forall i :: 0 <= i < |vs| ==> vs[i].1 != ""
    modifies g
    ensures g.Valid() && g.adj == map[]
    ensures g.vertices == ListedIds(vs) && g.names.Keys == g.vertices && g.coords.Keys == g.vertices
    ensures forall i :: 0 <= i < |vs| ==> g.names[vs[i].0] == vs[i].1 && g.coords[vs[i].0] == vs[i].2
  {
    for i := 0 to |vs|
      invariant g.Valid()
      invariant g.vertices == IdsUpTo(vs, i) && g.adj == map[]
      invariant g.names.Keys == g.vertices && g.coords.Keys == g.vertices
      invariant forall j :: 0 <= j < i ==> g.names[vs[j].0] == vs[j].1 && g.coords[vs[j].0] == vs[j].2
    {
      var v := vs[i];
      g.AddVertex(v.0, Some(v.1), Some(v.2));
      assert IdsUpTo(vs, i + 1) == IdsUpTo(vs, i) + {v.0};
    }
  }

  /**
   * The second loop of crear_grafo_puerto_ordaz: insert each listed edge in
   * order. When every edge joins existing vertices, no vertex is added and
   * the adjacency lists, empty before, hold exactly the listed edges.
   */
  method InsertEdges(g: Graph, es: seq<EdgeEntry>)
    requires g.Valid() && g.adj == map[]
    requires forall k :: 0 <= k < |es| ==> es[k].0 in g.vertices && es[k].1 in g.vertices
    modifies g
    ensures g.Valid()
    ensures g.vertices == old(g.vertices) && g.names == old(g.names) && g.coords == old(g.coords)
    ensures EdgeTotal(g.adj) == |es|
    ensures Realizes(g.Snapshot(), es)
  {
    for i := 0 to |es|
      invariant g.Valid()
      invariant g.vertices == old(g.vertices) && g.names == old(g.names) && g.coords == old(g.coords)
      invariant EdgeTotal(g.adj) == i
      invariant Sound(g.Snapshot(), es, i) && Complete(g.Snapshot(), es, i)
    {
      var e := es[i];
      ghost var before := g.Snapshot();
      g.AddEdge(e.0, e.1, e.2, e.3);
      InsertEntry(before, g.Snapshot(), es, i);
    }
  }

  /**
   * crear_grafo_puerto_ordaz: the base network has exactly the fifteen listed
   * intersections, each with its listed name and coordinates, and exactly the
   * fifty listed streets; no street creates an intersection of its own.
   */
  method Build() returns (g: Graph)
    ensures fresh(g) && g.Valid()
    ensures g.vertices == BaseIds() && |g.vertices| == 15
    ensures g.names.Keys == g.vertices && g.coords.Keys == g.vertices
    ensures forall i :: 0 <= i < |VertexList| ==>
              g.names[VertexList[i].0] == VertexList[i].1 && g.coords[VertexList[i].0] == VertexList[i].2
    ensures EdgeTotal(g.adj) == |EdgeList| == 50
    ensures Realizes(g.Snapshot(), EdgeList)
  {
    VertexFacts();
    BaseIdsFacts();
    EntriesGood();
    g := new Graph();
    InsertVertices(g, VertexList);
    InsertEdges(g, EdgeList);
  }

  /** Every edge of a network realizing well-formed entries has a positive length and travel time. */
  lemma PositiveWeights(n: Net, es: seq<EdgeEntry>)
    requires Realizes(n, es) && forall k :: 0 <= k < |es| ==> WellFormed(es[k])
    ensures forall u, e :: u in n.adj && e in n.adj[u] ==> e.distancia > 0.0 && e.tiempo > 0.0
  {
    forall u, e | u in n.adj && e in n.adj[u] ensures e.distancia > 0.0 && e.tiempo > 0.0 {
      var j :| 0 <= j < |es| && es[j] == (u, e.destino, e.distancia, e.tiempo);
      assert WellFormed(es[j]);
    }
  }

  /** A network realizing entries that respect the potential is feasible for it. */
  lemma FeasibleFrom(n: Net, es: seq<EdgeEntry>)
    requires Realizes(n, es) && forall k :: 0 <= k < |es| ==> RespectsPotential(es[k])
    ensures Feasible(n, Distance, Potential)
  {
    forall u, e | u in n.adj && e in n.adj[u] ensures Potential(e.destino) <= Potential(u) + Weight(e, Distance) {
      var j :| 0 <= j < |es| && es[j] == (u, e.destino, e.distancia, e.tiempo);
      assert RespectsPotential(es[j]);
    }
  }

  /** A tight step into V3 comes from V2, into V2 from V1, and none enters V1. */
  lemma TightStep(n: Net, es: seq<EdgeEntry>, u: Vertex, v: Vertex)
    requires Realizes(n, es) && forall k :: 0 <= k < |es| ==> RespectsPotential(es[k])
    requires HasEdge(n, u, v) && Tight(n, Distance, Potential, u, v)
    ensures v == "V3" ==> u == "V2"
    ensures v == "V2" ==> u == "V1"
    ensures v != "V1"
  {
    FeasibleFrom(n, es);
    StepBound(n, Distance, Potential, u, v);
    var e :| e in Succ(n, u) && e.destino == v && Weight(e, Distance) == MinWeight(Succ(n, u), v, Distance).value;
    assert u in n.adj && e in n.adj[u];
    var j :| 0 <= j < |es| && es[j] == (u, e.destino, e.distancia, e.tiempo);
    assert RespectsPotential(es[j]);
  }

  /** An entry exactly as long as the potential difference is the cheapest edge between its ends. */
  lemma ListedStep(n: Net, es: seq<EdgeEntry>, j: nat)
    requires Realizes(n, es) && forall k :: 0 <= k < |es| ==> RespectsPotential(es[k])
    requires j < |es| && Potential(es[j].1) == Potential(es[j].0) + es[j].2
    ensures HasEdge(n, es[j].0, es[j].1)
    ensures MinWeight(Succ(n, es[j].0), es[j].1, Distance) == Fin(es[j].2)
  {
    var u, v := es[j].0, es[j].1;
    var ss := Succ(n, u);
    var e := Edge(v, es[j].2, es[j].3);
    assert e in ss;
    var i :| 0 <= i < |ss| && ss[i] == e;
    assert Dests(ss)[i] == v;
    FeasibleFrom(n, es);
    StepBound(n, Distance, Potential, u, v);
    MinWeightIsLeast(ss, v, Distance);
  }

  /** With the entries V1 to V2 of 300 m and V2 to V3 of 350 m, V1, V2, V3 is a route of 650 metres. */
  lemma MainRoute(n: Net, es: seq<EdgeEntry>)
    requires Realizes(n, es) && forall k :: 0 <= k < |es| ==> RespectsPotential(es[k])
    requires |es| >= 2 && es[0] == ("V1", "V2", 300.0, 2.5) && es[1] == ("V2", "V3", 350.0, 3.0)
    ensures IsWalkFromTo(n, ["V1", "V2", "V3"], "V1", "V3")
    ensures PathCost(n, ["V1", "V2", "V3"], Distance) == Fin(650.0)
  {
    ListedStep(n, es, 0);
    ListedStep(n, es, 1);
    var p1, p2, p := ["V1"], ["V1", "V2"], ["V1", "V2", "V3"];
    assert PathCost(n, p2, Distance) == Fin(300.0) by {
      assert p2[..1] == p1;
    }
    assert p[..2] == p2;
    assert IsWalk(n, p) by {
      assert forall i :: 0 <= i < 2 ==> HasEdge(n, p[i], p[i + 1]);
    }
  }

  /** No route from V1 to V3 is shorter than 650 metres. */
  lemma NoShorterRoute(n: Net, es: seq<EdgeEntry>, q: seq<Vertex>)
    requires Realizes(n, es) && forall k :: 0 <= k < |es| ==> RespectsPotential(es[k])
    requires IsWalkFromTo(n, q, "V1", "V3")
    ensures PathCost(n, q, Distance).Fin? && PathCost(n, q, Distance).value >= 650.0
  {
    FeasibleFrom(n, es);
    PotentialBound(n, Distance, Potential, q);
  }

  /** The only route from V1 to V3 of 650 metres is V1, V2, V3. */
  lemma OnlyRoute(n: Net, es: seq<EdgeEntry>, p: seq<Vertex>)
    requires Realizes(n, es) && forall k :: 0 <= k < |es| ==> RespectsPotential(es[k])
    requires IsWalkFromTo(n, p, "V1", "V3") && PathCost(n, p, Distance) == Fin(650.0)
    ensures p == ["V1", "V2", "V3"]
  {
    FeasibleFrom(n, es);
    PotentialBound(n, Distance, Potential, p);
    var m := |p|;
    assert m >= 2 by { assert p[0] != p[m - 1]; }
    TightStep(n, es, p[m - 2], p[m - 1]);
    assert m >= 3 by { assert p[0] != p[m - 2]; }
    TightStep(n, es, p[m - 3], p[m - 2]);
    assert m == 3 by {
      if m > 3 {
        TightStep(n, es, p[m - 4], p[m - 3]);
      }
    }
  }

  /**
   * In the base network, with all lengths positive, V1, V2, V3 is the only
   * shortest route from V1 to V3, at 650 metres.
   */
  lemma BaseShortestRoute(n: Net)
    requires Realizes(n, EdgeList)
    ensures NonNegative(n, Distance)
    ensures IsWalkFromTo(n, ["V1", "V2", "V3"], "V1", "V3")
    ensures PathCost(n, ["V1", "V2", "V3"], Distance) == Fin(650.0)
    ensures forall q :: IsWalkFromTo(n, q, "V1", "V3") ==>
              PathCost(n, q, Distance).Fin? && PathCost(n, q, Distance).value >= 650.0
    ensures forall q :: IsWalkFromTo(n, q, "V1", "V3") && PathCost(n, q, Distance) == Fin(650.0) ==>
              q == ["V1", "V2", "V3"]
  {
    var es := EdgeList;
    EntriesGood();
    FirstEntries();
    MainRoute(n, es);
    PositiveWeights(n, es);
    forall q | IsWalkFromTo(n, q, "V1", "V3")
      ensures PathCost(n, q, Distance).Fin? && PathCost(n, q, Distance).value >= 650.0
    {
      NoShorterRoute(n, es, q);
    }
    forall q | IsWalkFromTo(n, q, "V1", "V3") && PathCost(n, q, Distance) == Fin(650.0)
      ensures q == ["V1", "V2", "V3"]
    {
      OnlyRoute(n, es, q);
    }
  }

  /** dijkstra('V1', 'V3', 'distancia') on the base network gives (['V1', 'V2', 'V3'], 650). */
  method BaseRoute() returns (path: seq<Vertex>, cost: Cost)
    ensures path == ["V1", "V2", "V3"] && cost == Fin(650.0)
  {
    var g := Build();
    BaseIdsFacts();
    BaseShortestRoute(g.Snapshot());
    path, cost := g.Dijkstra("V1", "V3", "distancia");
  }

  /** obtener_estadisticas on the base network reports 15 intersections and 50 streets. */
  method BaseStats() returns (s: GraphStats)
    ensures s.vertexCount == 15 && s.edgeCount == 50
  {
    var g := Build();
    s := g.Stats();
  }
}
