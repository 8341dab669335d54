/** The adjacency queries the classifier asks of the host's Neighbor helper,
    derived here from the polygon list alone: the one-ring of a point and the
    polygons that share an edge. */
module Neighbor {
  import opened PolygonMesh

  /** Some polygon of the mesh has an edge between x and y. */
  predicate Adjacent(m: Mesh, x: nat, y: nat)
  {
    exists q | 0 <= q < |m.polys| :: m.polys[q].HasEdge(x, y)
  }

  /** The neighbour of point i along edge slot s of p, if that slot is a
      proper edge at i. */
  function SlotNeighbor(p: Polygon, i: nat, s: nat): (r: seq<nat>)
    requires s < 4
    ensures forall n | n in r :: p.SlotJoins(s, i, n) && n != i
    ensures forall n | p.SlotJoins(s, i, n) && n != i :: n in r
  {
    var u, w := p.Vertex(s), p.Vertex((s + 1) % 4);
    if u == i && w != i then [w]
    else if w == i && u != i then [u]
    else []
  }

  /** The points joined to i by an edge of p. */
  function PolyOneRing(p: Polygon, i: nat): (r: seq<nat>)
    ensures forall n :: n in r <==> p.HasEdge(i, n)
  {
    SlotNeighbor(p, i, 0) + SlotNeighbor(p, i, 1) + SlotNeighbor(p, i, 2) + SlotNeighbor(p, i, 3)
  }

  /** The points joined to i by an edge of one of polys[k..]. */
  function OneRingFrom(polys: seq<Polygon>, i: nat, k: nat): (r: seq<nat>)
    requires k <= |polys|
    ensures forall n :: n in r <==> exists q | k <= q < |polys| :: polys[q].HasEdge(i, n)
    decreases |polys| - k
  {
    if k == |polys| then []
    else PolyOneRing(polys[k], i) + OneRingFrom(polys, i, k + 1)
  }

  /** Neighbor.GetPointOneRingPoints: the points that share an edge with
      point i. A point may be listed more than once. */
  function GetPointOneRingPoints(m: Mesh, i: nat): (r: seq<nat>)
    ensures forall n :: n in r <==> Adjacent(m, i, n)
  {
    OneRingFrom(m.polys, i, 0)
  }

  /** Indices q >= k, ascending, of the polygons having an edge x-y. */
  function IncidentFrom(polys: seq<Polygon>, x: nat, y: nat, k: nat): (r: seq<nat>)
    requires k <= |polys|
    ensures forall q :: q in r <==> k <= q < |polys| && polys[q].HasEdge(x, y)
    ensures forall j | 0 <= j < |r| :: k <= r[j]
    ensures forall j1, j2 | 0 <= j1 < j2 < |r| :: r[j1] < r[j2]
    decreases |polys| - k
  {
    if k == |polys| then []
    else if polys[k].HasEdge(x, y) then [k] + IncidentFrom(polys, x, y, k + 1)
    else IncidentFrom(polys, x, y, k + 1)
  }

  /** Result of Neighbor.GetEdgePolys: no polygon at all, a single polygon
      (the second one reported as NOTOK), or two polygons. */
  datatype EdgePolys = NoPolygon | Border(a: nat) | Shared(a: nat, b: nat)

  /** Neighbor.GetEdgePolys: the polygons that share the edge x-y. On a
      manifold mesh there are at most two; otherwise the two with the lowest
      indices are reported. */
  function GetEdgePolys(m: Mesh, x: nat, y: nat): (r: EdgePolys)
    ensures r.NoPolygon? <==> !Adjacent(m, x, y)
    ensures r.Border? ==> r.a < |m.polys| && m.polys[r.a].HasEdge(x, y)
    ensures r.Border? ==> forall q | 0 <= q < |m.polys| && m.polys[q].HasEdge(x, y) :: q == r.a
    ensures r.Shared? ==> r.a < r.b < |m.polys| && m.polys[r.a].HasEdge(x, y) && m.polys[r.b].HasEdge(x, y)
    ensures r.Shared? ==> forall q | 0 <= q < r.b && m.polys[q].HasEdge(x, y) :: q == r.a
  {
    var inc := IncidentFrom(m.polys, x, y, 0);
    if |inc| == 0 then NoPolygon
    else if |inc| == 1 then assert inc[0] in inc; Border(inc[0])
    else
      assert inc[0] in inc && inc[1] in inc;
      assert forall q | q in inc && q < inc[1] :: q == inc[0];
      Shared(inc[0], inc[1])
  }
}
