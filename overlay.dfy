/**
 * The user's own places and roads, kept by GestorPersistencia as two record
 * lists: node records unique by id, connection records unique by their
 * (origin, destination) pair. Writing the lists to disk is reduced to the
 * outcome of the save, which the caller supplies; every change is made in
 * memory before that save, whatever its outcome.
 */
module Overlay {
  import opened Wrappers
  import opened Records

  datatype NodeRecord = NodeRecord(id: string, name: string, coords: (real, real))

  datatype Connection = Connection(origin: string, destination: string, distance: real, time: real)

  /** What reading the data file produced: both lists. */
  datatype OverlayData = OverlayData(nodes: seq<NodeRecord>, connections: seq<Connection>)

  /** A node record is identified by its id. */
  function NodeKey(n: NodeRecord): string {
    n.id
  }

  /** A connection record is identified by its endpoints. */
  function PairKey(c: Connection): (string, string) {
    (c.origin, c.destination)
  }

  /** The test eliminar_nodo keeps a node record by. */
  function OtherNode(id: string): NodeRecord -> bool {
    (n: NodeRecord) => n.id != id
  }

  /** The test eliminar_nodo keeps a connection by: neither end is the removed node. */
  function Untouched(id: string): Connection -> bool {
    (c: Connection) => c.origin != id && c.destination != id
  }

  /** The test eliminar_conexion keeps a connection by. */
  function OtherPair(o: string, d: string): Connection -> bool {
    (c: Connection) => !(c.origin == o && c.destination == d)
  }

  class OverlayStore {
    var nodes: seq<NodeRecord>
    var connections: seq<Connection>

    /** Both lists are free of repeated keys. */
    ghost predicate Valid()
      reads this
    {
      UniqueKeys(nodes, NodeKey) && UniqueKeys(connections, PairKey)
    }

    /**
     * The store starts from what the data file held; a missing or unreadable
     * file (None) gives two empty lists.
     */
    constructor(stored: Option<OverlayData>)
      ensures stored.None? ==> nodes == [] && connections == []
      ensures stored.Some? ==> nodes == stored.value.nodes && connections == stored.value.connections
    {
      if stored.Some? {
        nodes := stored.value.nodes;
        connections := stored.value.connections;
      } else {
        nodes := [];
        connections := [];
      }
    }

    /**
     * agregar_nodo: the first record with this id gets the new name and
     * coordinates in place; without one, a record is appended. The outcome
     * of the save is not reported.
     */
    method AddNode(id: string, name: string, xy: (real, real))
      modifies this
      ensures nodes == Upsert(old(nodes), NodeRecord(id, name, xy), NodeKey)
      ensures connections == old(connections)
      ensures old(Valid()) ==> Valid()
    {
      var rec := NodeRecord(id, name, xy);
      if Valid() {
        UpsertKeepsUnique(nodes, rec, NodeKey);
      }
      var i := 0;
      while i < |nodes|
        invariant 0 <= i <= |nodes|
        invariant nodes == old(nodes) && connections == old(connections)
        invariant forall j :: 0 <= j < i ==> nodes[j].id != id
      {
        if nodes[i].id == id {
          FirstIndexAt(nodes, id, NodeKey, i);
          nodes := nodes[i := rec];
          return;
        }
        i := i + 1;
      }
      nodes := nodes + [rec];
    }

    /**
     * agregar_conexion: the first record with this (origin, destination)
     * pair gets the new distance and time in place; without one, a record is
     * appended. The outcome of the save is not reported.
     */
    method AddConnection(o: string, d: string, distance: real, time: real)
      modifies this
      ensures connections == Upsert(old(connections), Connection(o, d, distance, time), PairKey)
      ensures nodes == old(nodes)
      ensures old(Valid()) ==> Valid()
    {
      var rec := Connection(o, d, distance, time);
      if Valid() {
        UpsertKeepsUnique(connections, rec, PairKey);
      }
      var i := 0;
      while i < |connections|
        invariant 0 <= i <= |connections|
        invariant nodes == old(nodes) && connections == old(connections)
        invariant forall j :: 0 <= j < i ==> PairKey(connections[j]) != (o, d)
      {
        if connections[i].origin == o && connections[i].destination == d {
          FirstIndexAt(connections, (o, d), PairKey, i);
          connections := connections[i := rec];
          return;
        }
        i := i + 1;
      }
      connections := connections + [rec];
    }

    /** obtener_nodos: the node records, in order. */
    function Nodes(): (r: seq<NodeRecord>)
      reads this
      ensures r == nodes
    {
      nodes
    }

    /** obtener_conexiones: the connection records, in order. */
    function Connections(): (r: seq<Connection>)
      reads this
      ensures r == connections
    {
      connections
    }

    /**
     * eliminar_nodo: removes every record with this id and every connection
     * that starts or ends there, keeps the rest in order, and returns the
     * outcome of the save.
     */
    method DeleteNode(id: string, saved: bool) returns (ok: bool)
      modifies this
      ensures nodes == Keep(old(nodes), OtherNode(id))
      ensures connections == Keep(old(connections), Untouched(id))
      ensures forall n :: n in nodes ==> n.id != id
      ensures forall c :: c in connections ==> c.origin != id && c.destination != id
      ensures ok == saved
      ensures old(Valid()) ==> Valid()
    {
      if Valid() {
        KeepKeepsUnique(nodes, OtherNode(id), NodeKey);
        KeepKeepsUnique(connections, Untouched(id), PairKey);
      }
      nodes := Keep(nodes, OtherNode(id));
      connections := Keep(connections, Untouched(id));
      ok := saved;
    }

    /**
     * eliminar_conexion: removes every record with this (origin, destination)
     * pair, keeps the rest in order, and returns the outcome of the save.
     */
    method DeleteConnection(o: string, d: string, saved: bool) returns (ok: bool)
      modifies this
      ensures connections == Keep(old(connections), OtherPair(o, d))
      ensures forall c :: c in connections ==> !(c.origin == o && c.destination == d)
      ensures nodes == old(nodes)
      ensures ok == saved
      ensures old(Valid()) ==> Valid()
    {
      if Valid() {
        KeepKeepsUnique(connections, OtherPair(o, d), PairKey);
      }
      connections := Keep(connections, OtherPair(o, d));
      ok := saved;
    }

    /**
     * editar_nodo: on the first record with this id, sets the name when a
     * non-empty one is given and the coordinates when given, and returns the
     * outcome of the save; with no such record, changes nothing and returns
     * false.
     */
    method EditNode(id: string, name: Option<string>, xy: Option<(real, real)>, saved: bool) returns (ok: bool)
      modifies this
      ensures connections == old(connections)
      ensures FirstIndex(old(nodes), id, NodeKey).None? ==> !ok && nodes == old(nodes)
      ensures FirstIndex(old(nodes), id, NodeKey).Some? ==>
                var k := FirstIndex(old(nodes), id, NodeKey).value;
                ok == saved &&
                nodes == old(nodes)[k := NodeRecord(id,
                                                    if name.Some? && name.value != "" then name.value else old(nodes)[k].name,
                                                    if xy.Some? then xy.value else old(nodes)[k].coords)]
      ensures old(Valid()) ==> Valid()
    {
      var i := 0;
      while i < |nodes|
        invariant 0 <= i <= |nodes|
        invariant nodes == old(nodes) && connections == old(connections)
        invariant forall j :: 0 <= j < i ==> nodes[j].id != id
      {
        if nodes[i].id == id {
          FirstIndexAt(nodes, id, NodeKey, i);
          var n := nodes[i];
          if name.Some? && name.value != "" {
            n := n.(name := name.value);
          }
          if xy.Some? {
            n := n.(coords := xy.value);
          }
          nodes := nodes[i := n];
          return saved;
        }
        i := i + 1;
      }
      return false;
    }

    /**
     * editar_conexion: on the first record with this (origin, destination)
     * pair, sets each of distance and time that is given, zero included, and
     * returns the outcome of the save; with no such record, changes nothing
     * and returns false.
     */
    method EditConnection(o: string, d: string, distance: Option<real>, time: Option<real>, saved: bool)
      returns (ok: bool)
      modifies this
      ensures nodes == old(nodes)
      ensures FirstIndex(old(connections), (o, d), PairKey).None? ==> !ok && connections == old(connections)
      ensures FirstIndex(old(connections), (o, d), PairKey).Some? ==>
                var k := FirstIndex(old(connections), (o, d), PairKey).value;
                ok == saved &&
                connections == old(connections)[k := Connection(o, d,
                                                                if distance.Some? then distance.value else old(connections)[k].distance,
                                                                if time.Some? then time.value else old(connections)[k].time)]
      ensures old(Valid()) ==> Valid()
    {
      var i := 0;
      while i < |connections|
        invariant 0 <= i <= |connections|
        invariant nodes == old(nodes) && connections == old(connections)
        invariant forall j :: 0 <= j < i ==> PairKey(connections[j]) != (o, d)
      {
        if connections[i].origin == o && connections[i].destination == d {
          FirstIndexAt(connections, (o, d), PairKey, i);
          var c := connections[i];
          if distance.Some? {
            c := c.(distance := distance.value);
          }
          if time.Some? {
            c := c.(time := time.value);
          }
          connections := connections[i := c];
          return saved;
        }
        i := i + 1;
      }
      return false;
    }

    /** es_nodo_personalizado: some node record has this id. */
    function IsCustomNode(id: string): (r: bool)
      reads this
      ensures r <==> exists i :: 0 <= i < |nodes| && nodes[i].id == id
    {
      FirstIndex(nodes, id, NodeKey).Some?
    }

    /** limpiar_todo: both lists become empty; returns the outcome of the save. */
    method ClearAll(saved: bool) returns (ok: bool)
      modifies this
      ensures nodes == [] && connections == []
      ensures ok == saved
      ensures Valid()
    {
      nodes := [];
      connections := [];
      ok := saved;
    }
  }
}
