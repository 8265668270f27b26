# CityNavigator road network, modelled in Dafny

CityNavigator plans routes through a district of Puerto Ordaz (Venezuela).
Its engine has three parts, and this project models and verifies each of them.

- **The road network** is `Grafo`, in `src/grafo.py`. It is a directed, weighted multigraph:
  - the vertices are intersections, keyed by string ids;
  - each adjacency list holds `(destination, metres, minutes)` entries, and parallel entries are allowed;
  - the graph also keeps display names and coordinates.
  
  On top of that it offers:
  - three searches: a cost-optimal search (Dijkstra, by distance or by time), a breadth-first search and a depth-first search;
  - read-only queries: neighbours, vertex info, the sorted vertex list and statistics.
- **The user's overlay** is `GestorPersistencia`, in `src/persistencia.py`. It holds two lists of records:
  - places ("nodos"), unique by id;
  - one-way roads ("conexiones"), unique by their (origin, destination) pair.
  
  These lists support upsert, cascading delete, edit, membership and clear operations. After each change the lists are saved to a JSON file.
- **The base data** is in `src/datos_puerto_ordaz.py`. It lists 15 intersections and 50 one-way streets, builds a `Grafo` from them, and adds a table of points of interest.

Module layout:

| module | file | what it holds |
|---|---|---|
| `Network` | network.dfy | Snapshots (`Net`) of the graph as a value. Walks, reachability, the cheapest parallel edge, and the cost of a walk. |
| `StringOrder` | string_order.dfy | Python's string order, and the sorted listing of a set. |
| `EdgeCounting` | edge_counting.dfy | The number of adjacency entries. |
| `DijkstraSteps`, `ShortestPath` | dijkstra_steps.dfy, shortest_path.dfy | The loops of `dijkstra` and what stays true across them. |
| `BfsSteps` | bfs_steps.dfy | The loop of `bfs`. |
| `DepthFirst` | depth_first.dfy | `dfs_recursivo`. |
| `RoadGraph` | road_graph.dfy | `class Graph`, which models `Grafo`. |
| `Records`, `Overlay` | records.dfy, overlay.dfy | Keyed-record list operations, and `class OverlayStore`, which models `GestorPersistencia`. |
| `LowerBound` | lower_bound.dfy | Potential (lower-bound) arguments on walk costs. |
| `PuertoOrdaz` | puerto_ordaz.dfy | The base network, its construction, and facts about it. |

Some terms used below:
- A *walk* is a non-empty vertex sequence whose consecutive pairs are edges.
- A walk's *cost* is the sum, over its steps, of the cheapest parallel edge under the chosen metric.
- Python's `float('inf')` is modelled by `Cost.Inf`.

## Model

| member | source | states |
|---|---|---|
| RoadGraph.Graph.constructor | src/grafo.py:24-29 | A new graph has no vertices, no adjacency lists, no names and no coordinates. |
| RoadGraph.Graph.AddVertex | src/grafo.py:31-44 | The vertex always joins the set. The name is stored only when it is a non-empty string, and the coordinates only when they are given. Adjacency is unchanged, and the graph invariant is kept. |
| RoadGraph.Graph.AddEdge | src/grafo.py:46-61 | A missing endpoint becomes a plain vertex with no name. Exactly one entry is appended to the origin's list, even when an equal entry is already there. Every other list, all names and all coordinates are unchanged, and the edge total grows by exactly one. |
| RoadGraph.Graph.Neighbors | src/grafo.py:63-73 | The vertex's adjacency list. It is `[]` for an id that is not a vertex or has no list, and every destination in it is a vertex. |
| RoadGraph.Graph.Dijkstra | src/grafo.py:75-144 | `([], inf)` when an endpoint is unknown. Otherwise the path is non-empty exactly when the destination is reachable. A non-empty path is a repetition-free walk from origin to destination, and the cost is that walk's cost, whatever the weights. Under non-negative weights no walk between the two ends costs less. `(v, v)` gives `([v], 0)`. Only `"distancia"` selects distance, and it is the default; anything else selects time. |
| RoadGraph.Graph.Bfs | src/grafo.py:146-179 | `(False, [])` for an unknown endpoint. Otherwise the result is `found` exactly when the destination is reachable, with `[]` on failure. On success the path is a repetition-free walk with no more vertices than any walk between the two ends. `(v, v)` gives `(True, [v])`. |
| RoadGraph.Graph.Dfs | src/grafo.py:181-215 | `(False, [])` for an unknown endpoint. Otherwise the result is `found` exactly when the destination is reachable, with `[]` on failure. On success the path is a repetition-free walk from origin to destination, and `(v, v)` gives `(True, [v])`. |
| RoadGraph.Graph.Info | src/grafo.py:217-232 | The id itself. The name defaults to the id and the coordinates to (0, 0). The out-degree counts every entry of the adjacency list, parallel entries included. |
| RoadGraph.Graph.InfoOfUnknown | src/grafo.py:227-232 | An id that is not a vertex gets every default: its own id as name, (0, 0), and out-degree 0. |
| RoadGraph.Graph.AllVertices | src/grafo.py:234-236 | The vertices in strictly ascending string order. The list has exactly the vertex set's elements, each once. |
| RoadGraph.Graph.Stats | src/grafo.py:238-252 | The vertex count, and an edge count equal to the total length of all adjacency lists. The density is 0 for at most one vertex, and otherwise it is the edge count divided by n(n-1). |
| RoadGraph.DistinctSameEnds | src/grafo.py:160-161 | A repetition-free walk that starts where it ends is the single vertex, which is why `(v, v)` yields `[v]`. |
| Network.MinWeightIsLeast | src/grafo.py:116-128 | Parallel edges: the cheapest weight towards v is finite exactly when some entry goes to v. It is the weight of one of those entries and no greater than any of them. |
| Network.PathCostPrepend | src/grafo.py:122 | Adding a step in front of a walk adds that step's cheapest edge to the walk's cost. |
| Network.WalkCostFinite | src/grafo.py:122 | A walk has finite cost, and that cost is non-negative when every weight is. |
| Network.PrefixCostAtMost | src/grafo.py:122-125 | Under non-negative weights no prefix of a walk costs more than the whole walk. |
| Network.AppendKeepsClosed | src/grafo.py:56-61 | Appending an entry between two vertices keeps every list key and destination inside the vertex set. |
| Network.ClosedSetHoldsReachable | src/grafo.py:166-179 | A set that holds the origin and the out-neighbours of each of its members holds every vertex reachable from the origin. This is why an exhausted search proves the destination unreachable. |
| EdgeCounting.EdgeTotalRemove | src/grafo.py:246 | The total number of entries does not depend on the order the lists are summed in. |
| EdgeCounting.AppendAddsOne | src/grafo.py:61 | Appending one entry to one adjacency list adds exactly one to the edge total. |
| StringOrder.LexLeTotal | src/grafo.py:236 | Any two strings are comparable in the order `sorted` uses. |
| StringOrder.LexLeAntisymmetric | src/grafo.py:236 | Two strings that each come no later than the other are equal. |
| StringOrder.LexLeTransitive | src/grafo.py:236 | The string order is transitive. |
| StringOrder.SortedList | src/grafo.py:236 | The elements of a set in strictly ascending order: as many as the set has, and exactly its members. |
| ShortestPath.MinIndexIsLeast | src/grafo.py:103 | The entry `heappop` returns is no greater, in Python's tuple order, than any entry left in the heap. |
| ShortestPath.Search | src/grafo.py:94-128 | The settle-and-relax loop ends with consistent predecessor links: every settled vertex other than the origin costs exactly its predecessor's cost plus the cheapest edge between them. Under non-negative weights, every settled vertex's cost is the least cost of any walk to it. An unsettled destination is unreachable, has cost `inf` and differs from the origin. |
| ShortestPath.Reconstruct | src/grafo.py:130-144 | A settled destination gives a repetition-free walk from the origin, carrying the destination's recorded cost, which is finite and equal to the walk's cost. An unsettled one gives `([], inf)`. |
| DijkstraSteps.Relax | src/grafo.py:116-128 | Relaxing the settled vertex's outgoing entries keeps the links and the queue consistent. Afterwards every out-entry of every settled vertex leads either to a settled vertex or to one whose cost is no greater than the entry offers. No settled vertex's cost or predecessor changes. |
| BfsSteps.BreadthFirst | src/grafo.py:163-179 | For distinct endpoints, `found` holds exactly when the destination is reachable. The path is `[]` on failure, and otherwise a repetition-free walk with the fewest vertices. |
| DepthFirst.DfsVisit | src/grafo.py:198-212 | On success the path is extended by a repetition-free walk to the destination, avoiding everything visited before. On failure the path is restored, and every newly visited vertex has all its out-neighbours visited. |
| DepthFirst.DfsFailed | src/grafo.py:214-215 | A failed search from the origin proves the destination unreachable. |
| Records.FirstIndex | src/persistencia.py:85-86 | None exactly when no record has the key; otherwise the position of the first record that has it. |
| Records.Upsert | src/persistencia.py:85-98 | Without a match the record is appended at the end. With a match it takes the first matching position, even when later records share its key. Every other record keeps its position. The key set gains exactly the record's key. |
| Records.UpsertKeepsUnique | src/persistencia.py:85-98 | Upserting keeps the keys of a list unique. |
| Records.UpsertReplacesMatch | src/persistencia.py:85-91 | In a list with unique keys, upserting replaces the one matching record in place and changes nothing else. |
| Records.UpsertOverrides | src/persistencia.py:85-98 | Two upserts with the same key leave the list as the second upsert alone would. |
| Records.Keep | src/persistencia.py:148-154 | The filtered list has exactly the elements that pass the test, each as often as before, in their original order. |
| Records.KeepIdempotent | src/persistencia.py:148-154 | Filtering twice by the same test gives the same list as filtering once. |
| Records.KeepKeepsUnique | src/persistencia.py:148-154 | Filtering a list whose keys are unique leaves them unique, so deletions keep ids and pairs unique. |
| Overlay.OverlayStore.constructor | src/persistencia.py:55-63 | A missing or unreadable file gives two empty lists; otherwise the store holds the lists that were read. |
| Overlay.OverlayStore.AddNode | src/persistencia.py:75-99 | The node list becomes the upsert of the new record by id, and connections are unchanged. Unique ids stay unique. |
| Overlay.OverlayStore.AddConnection | src/persistencia.py:101-127 | The connection list becomes the upsert of the new record by (origin, destination), and nodes are unchanged. Unique pairs stay unique. |
| Overlay.OverlayStore.Nodes | src/persistencia.py:129-131 | The node list. |
| Overlay.OverlayStore.Connections | src/persistencia.py:133-135 | The connection list. |
| Overlay.OverlayStore.DeleteNode | src/persistencia.py:137-156 | Removes every record with the id and every connection that starts or ends there. The rest keep their order, and the result is the save outcome. Unique ids and pairs stay unique. |
| Overlay.OverlayStore.DeleteConnection | src/persistencia.py:158-174 | Removes every record with the pair. The rest keep their order, nodes are unchanged, and the result is the save outcome. Unique ids and pairs stay unique. |
| Overlay.OverlayStore.EditNode | src/persistencia.py:176-197 | With no matching record, returns False and changes nothing. Otherwise only the first match changes: its name when a non-empty name is given, its coordinates when coordinates are given. The result is then the save outcome. |
| Overlay.OverlayStore.EditConnection | src/persistencia.py:199-221 | With no matching record, returns False and changes nothing. Otherwise only the first match changes: each of distance and time that is given, zero included. The result is then the save outcome. |
| Overlay.OverlayStore.IsCustomNode | src/persistencia.py:223-233 | True exactly when some node record has the id. |
| Overlay.OverlayStore.ClearAll | src/persistencia.py:235-238 | Both lists become empty, and the result is the save outcome. The empty store has unique keys. |
| LowerBound.StepBound | src/datos_puerto_ordaz.py:61-64 | Under a feasible potential, the cheapest edge of a step exists, is one of the entries, and is no cheaper than the potential difference across the step. |
| LowerBound.PotentialBound | src/datos_puerto_ordaz.py:61-64 | Under a feasible potential, every walk costs at least the potential difference between its ends. A walk that costs exactly that uses only tight steps. |
| PuertoOrdaz.PointsOfInterest | src/datos_puerto_ordaz.py:155-184 | Every point of interest names one of the 15 intersections. |
| PuertoOrdaz.VertexFacts | src/datos_puerto_ordaz.py:32-52 | The intersection list has 15 distinct ids, V1 to V15 in order, each with a non-empty name. |
| PuertoOrdaz.BaseIdsFacts | src/datos_puerto_ordaz.py:32-52 | The listed ids form a set of exactly 15 intersections. |
| PuertoOrdaz.EntriesGood | src/datos_puerto_ordaz.py:59-147 | There are 50 street entries. Each joins two listed intersections, has a positive length and time, and is no shorter than the distance potential across it. |
| PuertoOrdaz.InsertVertices | src/datos_puerto_ordaz.py:54-55 | Inserting distinct ids with non-empty names leaves the graph with exactly those vertices, named and placed as listed, and no edges. |
| PuertoOrdaz.InsertEdges | src/datos_puerto_ordaz.py:149-150 | Inserting entries between existing vertices adds no vertex and no name. The adjacency lists then hold exactly the listed entries, and the edge total is their number. |
| PuertoOrdaz.Build | src/datos_puerto_ordaz.py:12-152 | The base network has exactly the 15 listed intersections with their names and coordinates, and exactly the 50 listed streets. |
| PuertoOrdaz.BaseShortestRoute | src/datos_puerto_ordaz.py:61-63 | In the base network all lengths are positive. V1, V2, V3 is a route of 650 metres, no route from V1 to V3 is shorter, and it is the only route of that length. |
| PuertoOrdaz.BaseRoute | src/grafo.py:75-144 | On the base network, `dijkstra('V1', 'V3', 'distancia')` returns `(['V1', 'V2', 'V3'], 650)`. |
| PuertoOrdaz.BaseStats | src/grafo.py:238-252 | On the base network, `obtener_estadisticas` reports 15 intersections and 50 streets. |

## Left out

- RoadGraph.Graph.Dijkstra: minimality of the returned cost is stated only under non-negative weights. A settled vertex is never revisited, so with a negative edge into an already settled vertex the code can return a walk that is not the cheapest. The cost still equals the returned walk's cost for any weights.
- Numbers: distances and times are exact reals. Python's int/float mix, float rounding, and a density computed as a float are not modelled.
- Reconstruction: the source appends predecessors and then reverses the list; the model prepends instead, which gives the same list.
- The priority queue: it is a sequence whose least entry in Python's tuple order is removed. The heap's internal layout is not modelled, and equal entries are interchangeable.
- `dfs_recursivo`: its visited set and path are passed in and returned as values instead of being closure variables mutated in place. Python's recursion limit is not modelled.
- Persistence I/O: `guardar_datos` writes JSON to disk, and its outcome becomes a `saved` parameter. `agregar_nodo` and `agregar_conexion` ignore that outcome, as the source does. The error messages printed when a load or a save fails are not modelled.
- Loading: `_cargar_datos` becomes the constructor's `Option<OverlayData>`, where None means the file is missing or unreadable. JSON parsing, the file name, and files that parse but lack the "nodos" or "conexiones" key are not modelled.
- Aliasing: `obtener_vecinos`, `obtener_nodos` and `obtener_conexiones` return the live lists, which a caller could mutate; the model returns values.
- Coordinates: they are an opaque pair of reals. An empty coordinate tuple, which Python would treat as false, has no counterpart. Likewise `agregar_vertice` treats any given pair as present.
- Out of scope: the graphical interface, the map visualiser, the results dialog, the program entry point and the demonstration script.
- The `__main__` block of `src/datos_puerto_ordaz.py`: it only prints, and is not modelled.
