/** Worked meshes: a lone quad, and a strip of two quads sharing the edge
    1-2, once with matching UVs across that edge and once with a seam. */
module Scenarios {
  import opened PolygonMesh
  import opened Neighbor
  import opened UvBorders

  const Q0: Polygon := Polygon(0, 1, 2, 3)
  const Q1: Polygon := Polygon(1, 4, 5, 2)

  /** Each quad's own UVs; quad 1's corners a (point 1) and d (point 2)
      repeat quad 0's corners b and c, so the strip is one UV island. */
  const Uv0: UvwRecord := UvwRecord(Uv(0, 0), Uv(1, 0), Uv(1, 1), Uv(0, 1))
  const Uv1: UvwRecord := UvwRecord(Uv(1, 0), Uv(2, 0), Uv(2, 1), Uv(1, 1))
  /** Quad 1 moved elsewhere in UV space: a seam along 1-2. */
  const Uv1Seam: UvwRecord := UvwRecord(Uv(5, 0), Uv(6, 0), Uv(6, 1), Uv(5, 1))

  /** A border edge x-y held by polygon q alone, in slot s, is selected. */
  lemma SoleBorder(m: Mesh, x: nat, y: nat, q: nat, s: nat)
    requires WellFormed(m) && q < |m.polys| && s < 4 && x != y
    requires m.polys[q].SlotJoins(s, x, y) && m.polys[q].FindEdge(x, y) == s
    requires forall p | 0 <= p < |m.polys| && p != q :: !m.polys[p].HasEdge(x, y)
    ensures EdgeIndex(q, s) in UvBorderSelection(m)
  {
    assert m.polys[q].HasEdge(x, y);
    EdgePairsExact(m, x, y);
    assert GetEdgePolys(m, x, y) == Border(q) by {
      var r := GetEdgePolys(m, x, y);
      assert !r.NoPolygon?;
      assert !r.Shared?;
    }
    BorderEdgeSelected(m, x, y, q);
  }

  /** Each edge slot of the lone quad is a border edge and selected. */
  lemma SingleQuadBorder(m: Mesh, s: nat)
    requires m.pointCount == 4 && m.polys == [Q0] && |m.uvw| == 1 && s < 4
    ensures WellFormed(m)
    ensures s in UvBorderSelection(m)
  {
    assert WellFormed(m);
    var x, y := Q0.Vertex(s), Q0.Vertex((s + 1) % 4);
    assert Q0.SlotJoins(s, x, y) && Q0.FindEdge(x, y) == s;
    SoleBorder(m, x, y, 0, s);
  }

  /** Every index selected on a one-polygon mesh is one of its four edge
      slots. */
  lemma SinglePolygonSelectionBound(m: Mesh)
    requires WellFormed(m) && |m.polys| == 1
    ensures forall idx | idx in UvBorderSelection(m) :: 0 <= idx < 4
  {
    forall idx | idx in UvBorderSelection(m)
      ensures 0 <= idx < 4
    {
      SelectionNamesRealEdges(m, idx);
    }
  }

  /** Pins down a set of quad edge slots from its bounds. */
  lemma QuadSlots(S: set<int>)
    requires forall i | i in S :: 0 <= i < 4
    requires forall i | 0 <= i < 4 :: i in S
    ensures S == {0, 1, 2, 3}
  {
    forall i ensures i in S <==> i in {0, 1, 2, 3} {
      if i in S {
        assert 0 <= i < 4;
      }
    }
  }

  /** A single quad has four border edges, each selected. */
  lemma SingleQuadAllBorders(m: Mesh)
    requires m.pointCount == 4 && m.polys == [Q0] && |m.uvw| == 1
    ensures WellFormed(m)
    ensures UvBorderSelection(m) == {0, 1, 2, 3}
  {
    SingleQuadBorder(m, 0);
    forall s | 0 <= s < 4
      ensures s in UvBorderSelection(m)
    {
      SingleQuadBorder(m, s);
    }
    SinglePolygonSelectionBound(m);
    QuadSlots(UvBorderSelection(m));
  }

  const Tri: Polygon := Polygon(0, 1, 2, 2)
  const QuadBesideTri: Polygon := Polygon(1, 3, 4, 2)

  /** A triangle beside a quad, sharing the edge 1-2: the triangle's border
      edge c-a (2-0) is found in slot 3, as d-a with d == c, so its index is
      3 and not 2. */
  lemma TriangleClosingEdge(m: Mesh)
    requires m.pointCount == 5 && m.polys == [Tri, QuadBesideTri] && |m.uvw| == 2
    ensures WellFormed(m)
    ensures GetEdgePolys(m, 2, 0) == Border(0)
    ensures EdgeSelect(m, (2, 0)) == {3}
    ensures 3 in UvBorderSelection(m)
  {
    assert WellFormed(m);
    assert Tri.SlotJoins(3, 2, 0) && Tri.FindEdge(2, 0) == 3;
    assert !QuadBesideTri.HasEdge(2, 0);
    SoleBorder(m, 2, 0, 0, 3);
    assert GetEdgePolys(m, 2, 0) == Border(0) by {
      var r := GetEdgePolys(m, 2, 0);
      assert !r.NoPolygon? && !r.Shared?;
    }
    EdgePairsExact(m, 2, 0);
    BorderEdgeSelected(m, 2, 0, 0);
  }

  /** Edge slot s of strip quad q joins two distinct points, is the first
      slot of q joining them, and the other quad does not join them; this
      holds for the six outer edges, indices 0, 2, 3 and 4, 5, 6. */
  predicate OuterSlot(polys: seq<Polygon>, q: nat, s: nat)
    requires |polys| == 2 && q < 2 && s < 4
  {
    var x, y := polys[q].Vertex(s), polys[q].Vertex((s + 1) % 4);
    x != y && polys[q].FindEdge(x, y) == s && !polys[1 - q].HasEdge(x, y)
  }

  lemma StripOuterSlot(idx: int)
    requires idx in {0, 2, 3, 4, 5, 6}
    ensures OuterSlot([Q0, Q1], idx / 4, idx % 4)
  {
    if idx == 0 {
      assert !Q1.HasEdge(0, 1);
    } else if idx == 2 {
      assert !Q1.HasEdge(2, 3);
    } else if idx == 3 {
      assert !Q1.HasEdge(3, 0);
    } else if idx == 4 {
      assert !Q0.HasEdge(1, 4);
    } else if idx == 5 {
      assert !Q0.HasEdge(4, 5);
    } else {
      assert !Q0.HasEdge(5, 2);
    }
  }

  /** The six outer edges of the strip are selected. */
  lemma StripOuterSelected(m: Mesh)
    requires m.pointCount == 6 && m.polys == [Q0, Q1] && |m.uvw| == 2
    ensures {0, 2, 3, 4, 5, 6} <= UvBorderSelection(m)
  {
    assert WellFormed(m);
    forall idx | idx in {0, 2, 3, 4, 5, 6}
      ensures idx in UvBorderSelection(m)
    {
      var q, s := idx / 4, idx % 4;
      StripOuterSlot(idx);
      var x, y := m.polys[q].Vertex(s), m.polys[q].Vertex((s + 1) % 4);
      SoleBorder(m, x, y, q, s);
    }
  }

  /** The shared edge 1-2 is held by both quads: slot 1 of quad 0, slot 3
      of quad 1. */
  lemma StripSharedEdge(m: Mesh)
    requires m.pointCount == 6 && m.polys == [Q0, Q1] && |m.uvw| == 2
    ensures WellFormed(m)
    ensures (1, 2) in EdgePairs(m) && GetEdgePolys(m, 1, 2) == Shared(0, 1)
    ensures m.polys[0].FindEdge(1, 2) == 1 && m.polys[1].FindEdge(1, 2) == 3
  {
    assert Q0.SlotJoins(1, 1, 2) && Q1.SlotJoins(3, 1, 2);
    assert m.polys[0].HasEdge(1, 2);
    EdgePairsExact(m, 1, 2);
    var r := GetEdgePolys(m, 1, 2);
    assert m.polys[1].HasEdge(1, 2);
    assert !r.NoPolygon? && !r.Border?;
  }

  /** The UVs each quad holds for the shared points 1 and 2. */
  lemma StripSharedUvs(m: Mesh)
    requires m.pointCount == 6 && m.polys == [Q0, Q1] && |m.uvw| == 2
    ensures WellFormed(m)
    ensures UvAtVertex(m, 0, 1) == m.uvw[0].b && UvAtVertex(m, 1, 1) == m.uvw[1].a
    ensures UvAtVertex(m, 0, 2) == m.uvw[0].c && UvAtVertex(m, 1, 2) == m.uvw[1].d
  {
    assert WellFormed(m);
    UvAtVertexIsCorner(m, 0, 1, 1);
    UvAtVertexIsCorner(m, 1, 1, 0);
    UvAtVertexIsCorner(m, 0, 2, 2);
    UvAtVertexIsCorner(m, 1, 2, 3);
  }

  /** Every index selected on a two-polygon mesh is one of its eight edge
      slots. */
  lemma StripSelectionBound(m: Mesh)
    requires WellFormed(m) && |m.polys| == 2
    ensures forall idx | idx in UvBorderSelection(m) :: 0 <= idx < 8
  {
    forall idx | idx in UvBorderSelection(m)
      ensures 0 <= idx < 8
    {
      SelectionNamesRealEdges(m, idx);
    }
  }

  /** Pins down a set of strip edge slots from its bounds and the slots
      known to be in or out of it. */
  lemma StripSlots(S: set<int>, sharedSelected: bool)
    requires forall i | i in S :: 0 <= i < 8
    requires {0, 2, 3, 4, 5, 6} <= S
    requires (1 in S) == sharedSelected && (7 in S) == sharedSelected
    ensures sharedSelected ==> S == {0, 1, 2, 3, 4, 5, 6, 7}
    ensures !sharedSelected ==> S == {0, 2, 3, 4, 5, 6}
  {
    var T := if sharedSelected then {0, 1, 2, 3, 4, 5, 6, 7} else {0, 2, 3, 4, 5, 6};
    forall i ensures i in S <==> i in T {
      if i in S {
        assert 0 <= i < 8;
      }
    }
  }

  /** Same UVs across the shared edge: it is not selected, the six outer
      edges are. */
  lemma StripWithoutSeam(m: Mesh)
    requires m.pointCount == 6 && m.polys == [Q0, Q1] && m.uvw == [Uv0, Uv1]
    ensures WellFormed(m)
    ensures UvBorderSelection(m) == {0, 2, 3, 4, 5, 6}
  {
    StripSharedEdge(m);
    StripOuterSelected(m);
    StripSharedUvs(m);
    ContinuousEdgeNotSelected(m, 1, 2, 0, 1);
    StripSelectionBound(m);
    var sel := UvBorderSelection(m);
    assert EdgeIndex(0, 1) == 1 && EdgeIndex(1, 3) == 7;
    assert 1 !in sel && 7 !in sel;
    assert {0, 2, 3, 4, 5, 6} <= sel;
    StripSlots(sel, false);
  }

  /** A UV seam along the shared edge: every edge index of the strip is
      selected, the shared edge in both quads. */
  lemma StripWithSeam(m: Mesh)
    requires m.pointCount == 6 && m.polys == [Q0, Q1] && m.uvw == [Uv0, Uv1Seam]
    ensures WellFormed(m)
    ensures UvBorderSelection(m) == {0, 1, 2, 3, 4, 5, 6, 7}
  {
    StripSharedEdge(m);
    StripOuterSelected(m);
    StripSharedUvs(m);
    SeamEdgeSelected(m, 1, 2, 0, 1);
    StripSelectionBound(m);
    var sel := UvBorderSelection(m);
    assert EdgeIndex(0, 1) == 1 && EdgeIndex(1, 3) == 7;
    assert 1 in sel && 7 in sel;
    assert {0, 2, 3, 4, 5, 6} <= sel;
    StripSlots(sel, true);
  }
}
