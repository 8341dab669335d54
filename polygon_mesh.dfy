/** The host's polygon-mesh data as the UV border classifier sees it:
    polygons as four corner vertex indices (a triangle repeats its third
    corner, d == c), one UVW record per polygon with a coordinate per corner,
    and the corner and edge lookups the host offers on a polygon. */
module PolygonMesh {

  /** A UVW vector of the tag. The classifier only ever compares two of
      them with `!=`, so a vector is represented by an injective integer
      encoding of its whole value, compared by exact equality. NaN
      components, which compare unequal even to themselves, are not
      represented. */
  datatype Uv = Uv(u: int, v: int)

  /** A polygon: corners a, b, c, d hold vertex indices; c == d marks a
      triangle. Its four edge slots are a-b (0), b-c (1), c-d (2), d-a (3). */
  datatype Polygon = Polygon(a: nat, b: nat, c: nat, d: nat) {

    predicate IsTriangle() { c == d }

    /** Vertex at corner k (0 = a, 1 = b, 2 = c, 3 = d). */
    function Vertex(k: nat): nat
      requires k < 4
    {
      if k == 0 then a else if k == 1 then b else if k == 2 then c else d
    }

    /** Edge slot s runs from corner s to corner (s + 1) mod 4. */
    predicate SlotJoins(s: nat, x: nat, y: nat)
      requires s < 4
    {
      (Vertex(s) == x && Vertex((s + 1) % 4) == y) || (Vertex(s) == y && Vertex((s + 1) % 4) == x)
    }

    /** The polygon has an edge between the two distinct vertices x and y. */
    predicate HasEdge(x: nat, y: nat)
    {
      x != y && exists s | 0 <= s < 4 :: SlotJoins(s, x, y)
    }

    /** A corner that carries a UV of its own: all four of a quad, the first
        three of a triangle (its d is a duplicate of c). */
    predicate IsLogicalCorner(k: nat)
    {
      k < 3 || (k == 3 && !IsTriangle())
    }

    /** No vertex is repeated among the logical corners. */
    predicate NonDegenerate()
    {
      a != b && a != c && b != c && d != a && d != b
    }

    /** CPolygon.Find: the first corner whose vertex is v, or NOTOK (-1). */
    function Find(v: nat): (r: int)
      ensures -1 <= r < 4
      ensures r == -1 <==> forall k | 0 <= k < 4 :: Vertex(k) != v
      ensures 0 <= r ==> Vertex(r) == v && forall k | 0 <= k < r :: Vertex(k) != v
    {
      if Vertex(0) == v then 0
      else if Vertex(1) == v then 1
      else if Vertex(2) == v then 2
      else if Vertex(3) == v then 3
      else -1
    }

    /** CPolygon.FindEdge: the first edge slot joining x and y (in either
        direction), or NOTOK (-1). */
    function FindEdge(x: nat, y: nat): (r: int)
      ensures -1 <= r < 4
      ensures r == -1 <==> forall s | 0 <= s < 4 :: !SlotJoins(s, x, y)
      ensures 0 <= r ==> SlotJoins(r, x, y) && forall s | 0 <= s < r :: !SlotJoins(s, x, y)
    {
      if SlotJoins(0, x, y) then 0
      else if SlotJoins(1, x, y) then 1
      else if SlotJoins(2, x, y) then 2
      else if SlotJoins(3, x, y) then 3
      else -1
    }
  }

  /** The corner whose UV is read: a triangle's duplicate corner d (3) is
      replaced by c (2); every other corner index, NOTOK included, is kept. */
  function TriangleCorner(p: Polygon, k: int): (r: int)
    ensures 0 <= k < 4 ==> 0 <= r < 4 && p.Vertex(r) == p.Vertex(k) && p.IsLogicalCorner(r)
    ensures 0 <= k < 4 && p.IsTriangle() ==> r < 3
    ensures k < 0 ==> r == k
  {
    if p.IsTriangle() && k == 3 then 2 else k
  }

  /** On a triangle, Find stops at corner c before reaching its duplicate d,
      so the remap of corner 3 to corner 2 never changes a Find result. */
  lemma TriangleRemapOfFind(p: Polygon, v: nat)
    requires p.IsTriangle()
    ensures p.Find(v) != 3
    ensures TriangleCorner(p, p.Find(v)) == p.Find(v)
  {
  }

  /** The class constant `_abcd`, indexed as a Python tuple of four: a
      negative index counts from the end. */
  function AbcdKey(k: int): (r: char)
    requires -4 <= k < 4
    ensures r in "abcd"
    ensures 0 <= k ==> r == "abcd"[k]
    ensures k < 0 ==> r == "abcd"[k + 4]
  {
    var j := if k < 0 then k + 4 else k;
    if j == 0 then 'a' else if j == 1 then 'b' else if j == 2 then 'c' else 'd'
  }

  /** The per-corner UVs of one polygon, as returned by the UVW tag's GetSlow. */
  datatype UvwRecord = UvwRecord(a: Uv, b: Uv, c: Uv, d: Uv) {

    /** UV at corner k, addressed by position. */
    function Corner(k: nat): Uv
      requires k < 4
    {
      if k == 0 then a else if k == 1 then b else if k == 2 then c else d
    }

    /** UV under the dictionary key 'a', 'b', 'c' or 'd'. */
    function Get(key: char): (r: Uv)
      requires key in "abcd"
      ensures forall k | 0 <= k < 4 :: key == "abcd"[k] ==> r == Corner(k)
    {
      if key == 'a' then a else if key == 'b' then b else if key == 'c' then c else d
    }
  }

  /** A polygon object together with its UVW tag. */
  datatype Mesh = Mesh(pointCount: nat, polys: seq<Polygon>, uvw: seq<UvwRecord>)

  /** What the host guarantees of a polygon object with a UVW tag: every
      corner names an existing point, and the tag has one record per polygon. */
  predicate WellFormed(m: Mesh)
  {
    && |m.uvw| == |m.polys|
    && forall p | 0 <= p < |m.polys| ::
         m.polys[p].a < m.pointCount && m.polys[p].b < m.pointCount
         && m.polys[p].c < m.pointCount && m.polys[p].d < m.pointCount
  }

  /** The UV that polygon p stores for vertex v: corner found by Find,
      triangle-remapped, turned into a key by `_abcd` and looked up in the
      polygon's UVW record. */
  function UvAtVertex(m: Mesh, p: nat, v: nat): (r: Uv)
    requires WellFormed(m) && p < |m.polys|
    ensures r in {m.uvw[p].a, m.uvw[p].b, m.uvw[p].c, m.uvw[p].d}
  {
    m.uvw[p].Get(AbcdKey(TriangleCorner(m.polys[p], m.polys[p].Find(v))))
  }

  /** Reading the UV of a vertex through Find, the remap and `_abcd` gives
      the UV stored at the (unique) logical corner holding that vertex. */
  lemma UvAtVertexIsCorner(m: Mesh, p: nat, v: nat, k: nat)
    requires WellFormed(m) && p < |m.polys|
    requires m.polys[p].NonDegenerate()
    requires k < 4 && m.polys[p].IsLogicalCorner(k) && m.polys[p].Vertex(k) == v
    ensures UvAtVertex(m, p, v) == m.uvw[p].Corner(k)
  {
    var poly := m.polys[p];
    var f := poly.Find(v);
    assert f == k || (poly.IsTriangle() && k == 2 && f == 2);
    var r := TriangleCorner(poly, f);
    assert r == k;
    assert AbcdKey(r) == "abcd"[k];
  }
}
