/** What UV2PhongShading.SelectUVBorders computes, stated as functions of the
    mesh: the set of ordered vertex pairs it walks, the selection indices each
    pair contributes, and the union of those. The lemmas give the border, seam
    and continuous-edge cases, the corner-lookup bounds and the index encoding. */
module UvBorders {
  import opened PolygonMesh
  import opened Neighbor

  /** An ordered pair (v0, v1) of vertex indices: the source's `edgeVV`. */
  type VertexPair = (nat, nat)

  /** Edge selection index of edge slot s of polygon p: `p * 4 + s`. */
  function EdgeIndex(p: nat, s: int): (r: int)
    ensures 0 <= s < 4 ==> 4 * p <= r < 4 * p + 4
  {
    p * 4 + s
  }

  /** Recovers polygon and slot from an edge selection index. */
  function DecodeEdgeIndex(idx: nat): (r: (nat, nat))
    ensures r.1 < 4 && EdgeIndex(r.0, r.1) == idx
  {
    (idx / 4, idx % 4)
  }

  /** Distinct (polygon, slot) pairs with slots in 0..3 get distinct indices. */
  lemma EdgeIndexInjective(p: nat, s: int, p': nat, s': int)
    requires 0 <= s < 4 && 0 <= s' < 4
    ensures EdgeIndex(p, s) == EdgeIndex(p', s') <==> p == p' && s == s'
  {
  }

  /** Decoding an encoded index gives back its polygon and slot. */
  lemma DecodeEncode(p: nat, s: nat)
    requires s < 4
    ensures DecodeEdgeIndex(EdgeIndex(p, s)) == (p, s)
  {
  }

  /** The working edge set `allEdgesVV`: (i, ni) for every point i and every
      point ni of its one-ring. */
  function EdgePairs(m: Mesh): set<VertexPair>
  {
    set i: nat, n: nat | i < m.pointCount && n in GetPointOneRingPoints(m, i) :: (i, n)
  }

  /** The selection indices the loop body adds for one pair. */
  function EdgeSelect(m: Mesh, e: VertexPair): (r: set<int>)
    requires WellFormed(m)
    ensures |r| <= 2
  {
    match GetEdgePolys(m, e.0, e.1)
    case NoPolygon => {}
    case Border(a) => {EdgeIndex(a, m.polys[a].FindEdge(e.0, e.1))}
    case Shared(a, b) =>
      if UvAtVertex(m, a, e.0) != UvAtVertex(m, b, e.0) || UvAtVertex(m, a, e.1) != UvAtVertex(m, b, e.1)
      then {EdgeIndex(a, m.polys[a].FindEdge(e.0, e.1)), EdgeIndex(b, m.polys[b].FindEdge(e.0, e.1))}
      else {}
  }

  /** Union of the selections contributed by the pairs in S. */
  function SelectedBy(m: Mesh, S: set<VertexPair>): set<int>
    requires WellFormed(m)
  {
    set e, idx | e in S && idx in EdgeSelect(m, e) :: idx
  }

  /** The edge selection left by SelectUVBorders. */
  function UvBorderSelection(m: Mesh): set<int>
    requires WellFormed(m)
  {
    SelectedBy(m, EdgePairs(m))
  }

  /** Walking the pairs in the given order, selecting as the loop does. */
  function SelectInOrder(m: Mesh, order: seq<VertexPair>): set<int>
    requires WellFormed(m)
  {
    if order == [] then {}
    else SelectInOrder(m, order[..|order| - 1]) + EdgeSelect(m, order[|order| - 1])
  }

  /** The pairs a traversal visits. */
  function Elements(order: seq<VertexPair>): set<VertexPair>
  {
    set e | e in order
  }

  /** Processing one more pair adds exactly that pair's indices. */
  lemma SelectedByAdd(m: Mesh, S: set<VertexPair>, e: VertexPair)
    requires WellFormed(m)
    ensures SelectedBy(m, S + {e}) == SelectedBy(m, S) + EdgeSelect(m, e)
  {
    forall idx | idx in SelectedBy(m, S + {e})
      ensures idx in SelectedBy(m, S) + EdgeSelect(m, e)
    {
      var e' :| e' in S + {e} && idx in EdgeSelect(m, e');
    }
  }

  /** Order independence: any traversal of the pairs, with or without
      repetitions, selects the same indices. */
  lemma {:induction false} SelectInOrderIsSetUnion(m: Mesh, order: seq<VertexPair>)
    requires WellFormed(m)
    ensures SelectInOrder(m, order) == SelectedBy(m, Elements(order))
  {
    if order == [] {
      assert SelectedBy(m, {}) == {};
    } else {
      var prefix, last := order[..|order| - 1], order[|order| - 1];
      var before := Elements(prefix);
      SelectInOrderIsSetUnion(m, prefix);
      assert SelectInOrder(m, order) == SelectedBy(m, before) + EdgeSelect(m, last);
      ElementsOfInit(order);
      SelectedByAdd(m, before, last);
    }
  }

  lemma ElementsOfInit(order: seq<VertexPair>)
    requires order != []
    ensures Elements(order) == Elements(order[..|order| - 1]) + {order[|order| - 1]}
  {
    assert order == order[..|order| - 1] + [order[|order| - 1]];
  }

  /** Two traversals of the same pairs select the same indices. */
  lemma TraversalOrderIrrelevant(m: Mesh, order1: seq<VertexPair>, order2: seq<VertexPair>)
    requires WellFormed(m)
    requires forall e :: e in order1 <==> e in order2
    ensures SelectInOrder(m, order1) == SelectInOrder(m, order2)
  {
    SelectInOrderIsSetUnion(m, order1);
    SelectInOrderIsSetUnion(m, order2);
    assert Elements(order1) == Elements(order2);
  }

  /** The working edge set holds exactly the ordered pairs of points joined
      by an edge of some polygon; in particular both orientations of each. */
  lemma EdgePairsExact(m: Mesh, x: nat, y: nat)
    requires WellFormed(m)
    ensures (x, y) in EdgePairs(m) <==> Adjacent(m, x, y)
    ensures (x, y) in EdgePairs(m) <==> (y, x) in EdgePairs(m)
  {
    AdjacentInEdgePairs(m, x, y);
    AdjacentInEdgePairs(m, y, x);
    if Adjacent(m, x, y) {
      var q :| 0 <= q < |m.polys| && m.polys[q].HasEdge(x, y);
      HasEdgeSymmetric(m.polys[q], x, y);
    }
    if Adjacent(m, y, x) {
      var q :| 0 <= q < |m.polys| && m.polys[q].HasEdge(y, x);
      HasEdgeSymmetric(m.polys[q], x, y);
    }
  }

  lemma AdjacentInEdgePairs(m: Mesh, x: nat, y: nat)
    requires WellFormed(m)
    ensures (x, y) in EdgePairs(m) <==> Adjacent(m, x, y)
  {
    if Adjacent(m, x, y) {
      var q :| 0 <= q < |m.polys| && m.polys[q].HasEdge(x, y);
      var s :| 0 <= s < 4 && m.polys[q].SlotJoins(s, x, y);
      assert x < m.pointCount;
      assert y in GetPointOneRingPoints(m, x);
    }
  }

  /** A polygon holding the edge x-y finds it in a real slot. */
  lemma FindEdgeOfEdge(p: Polygon, x: nat, y: nat)
    requires p.HasEdge(x, y)
    ensures 0 <= p.FindEdge(x, y) < 4
  {
    var s :| 0 <= s < 4 && p.SlotJoins(s, x, y);
  }

  /** An index contributed by pair e is the FindEdge slot of e in a polygon
      holding the edge e. */
  lemma SelectedIndexSource(m: Mesh, e: VertexPair, idx: int) returns (q: nat, s: nat)
    requires WellFormed(m) && idx in EdgeSelect(m, e)
    ensures q < |m.polys| && m.polys[q].HasEdge(e.0, e.1)
    ensures s < 4 && s == m.polys[q].FindEdge(e.0, e.1) && m.polys[q].SlotJoins(s, e.0, e.1)
    ensures idx == EdgeIndex(q, s)
  {
    match GetEdgePolys(m, e.0, e.1) {
      case NoPolygon =>
        assert false;
      case Border(a) =>
        q := a;
      case Shared(a, b) =>
        q := if idx == EdgeIndex(a, m.polys[a].FindEdge(e.0, e.1)) then a else b;
    }
    FindEdgeOfEdge(m.polys[q], e.0, e.1);
    s := m.polys[q].FindEdge(e.0, e.1);
  }

  /** Every pair of the working set has at least one polygon, so the
      script's `GetPolygon(polyAIndex)` never receives NOTOK. */
  lemma CollectedPairFindsPolygon(m: Mesh, x: nat, y: nat)
    requires WellFormed(m) && (x, y) in EdgePairs(m)
    ensures !GetEdgePolys(m, x, y).NoPolygon?
  {
    EdgePairsExact(m, x, y);
  }

  /** Every polygon GetEdgePolys reports holds both endpoints at a real
      corner and the edge in a real slot: Find and FindEdge never return
      NOTOK, the remapped corner lies in 0..3 (0..2 for a triangle) and
      holds the same vertex, so `_abcd` never yields the duplicate 'd' of a
      triangle. */
  lemma CornerLookupInBounds(m: Mesh, x: nat, y: nat, q: nat)
    requires WellFormed(m)
    requires GetEdgePolys(m, x, y) == Border(q)
          || (GetEdgePolys(m, x, y).Shared? && q in {GetEdgePolys(m, x, y).a, GetEdgePolys(m, x, y).b})
    ensures q < |m.polys|
    ensures 0 <= m.polys[q].FindEdge(x, y) < 4
    ensures 0 <= TriangleCorner(m.polys[q], m.polys[q].Find(x)) < 4
    ensures 0 <= TriangleCorner(m.polys[q], m.polys[q].Find(y)) < 4
    ensures m.polys[q].IsTriangle() ==> TriangleCorner(m.polys[q], m.polys[q].Find(x)) < 3
    ensures m.polys[q].IsTriangle() ==> TriangleCorner(m.polys[q], m.polys[q].Find(y)) < 3
    ensures m.polys[q].Vertex(TriangleCorner(m.polys[q], m.polys[q].Find(x))) == x
    ensures m.polys[q].Vertex(TriangleCorner(m.polys[q], m.polys[q].Find(y))) == y
    ensures m.polys[q].IsTriangle() ==> AbcdKey(TriangleCorner(m.polys[q], m.polys[q].Find(x))) != 'd'
    ensures m.polys[q].IsTriangle() ==> AbcdKey(TriangleCorner(m.polys[q], m.polys[q].Find(y))) != 'd'
  {
    var p := m.polys[q];
    assert p.HasEdge(x, y);
    var s :| 0 <= s < 4 && p.SlotJoins(s, x, y);
    assert p.Vertex(s) == x || p.Vertex((s + 1) % 4) == x;
    assert p.Vertex(s) == y || p.Vertex((s + 1) % 4) == y;
  }

  /** A geometric border (no second polygon) selects exactly the edge's
      slot in its one polygon. */
  lemma BorderEdgeSelected(m: Mesh, x: nat, y: nat, a: nat)
    requires WellFormed(m) && (x, y) in EdgePairs(m)
    requires GetEdgePolys(m, x, y) == Border(a)
    ensures EdgeSelect(m, (x, y)) == {EdgeIndex(a, m.polys[a].FindEdge(x, y))}
    ensures EdgeIndex(a, m.polys[a].FindEdge(x, y)) in UvBorderSelection(m)
  {
    var idx := EdgeIndex(a, m.polys[a].FindEdge(x, y));
    assert idx in EdgeSelect(m, (x, y));
  }

  /** No UV is compared for a border edge: replacing the whole UVW tag
      leaves its selection unchanged. */
  lemma BorderIgnoresUvs(m: Mesh, x: nat, y: nat, a: nat, w: seq<UvwRecord>)
    requires WellFormed(m) && |w| == |m.uvw|
    requires GetEdgePolys(m, x, y) == Border(a)
    ensures EdgeSelect(m.(uvw := w), (x, y)) == EdgeSelect(m, (x, y))
  {
    assert GetEdgePolys(m.(uvw := w), x, y) == Border(a);
  }

  /** A UV seam (the two polygons disagree on the UV of either endpoint)
      selects the edge's slot in both polygons. */
  lemma SeamEdgeSelected(m: Mesh, x: nat, y: nat, a: nat, b: nat)
    requires WellFormed(m) && (x, y) in EdgePairs(m)
    requires GetEdgePolys(m, x, y) == Shared(a, b)
    requires UvAtVertex(m, a, x) != UvAtVertex(m, b, x) || UvAtVertex(m, a, y) != UvAtVertex(m, b, y)
    ensures EdgeSelect(m, (x, y)) == {EdgeIndex(a, m.polys[a].FindEdge(x, y)), EdgeIndex(b, m.polys[b].FindEdge(x, y))}
    ensures EdgeIndex(a, m.polys[a].FindEdge(x, y)) in UvBorderSelection(m)
    ensures EdgeIndex(b, m.polys[b].FindEdge(x, y)) in UvBorderSelection(m)
  {
    assert EdgeIndex(a, m.polys[a].FindEdge(x, y)) in EdgeSelect(m, (x, y));
    assert EdgeIndex(b, m.polys[b].FindEdge(x, y)) in EdgeSelect(m, (x, y));
  }

  /** The orientation of the pair does not matter: (x, y) and (y, x) find
      the same polygons and select the same indices. */
  lemma EdgeSelectSymmetric(m: Mesh, x: nat, y: nat)
    requires WellFormed(m)
    ensures GetEdgePolys(m, x, y) == GetEdgePolys(m, y, x)
    ensures EdgeSelect(m, (x, y)) == EdgeSelect(m, (y, x))
  {
    GetEdgePolysSymmetric(m, x, y);
    forall q | 0 <= q < |m.polys|
      ensures m.polys[q].FindEdge(x, y) == m.polys[q].FindEdge(y, x)
    {
      FindEdgeSymmetric(m.polys[q], x, y);
    }
  }

  lemma GetEdgePolysSymmetric(m: Mesh, x: nat, y: nat)
    ensures GetEdgePolys(m, x, y) == GetEdgePolys(m, y, x)
  {
    forall q | 0 <= q < |m.polys|
      ensures m.polys[q].HasEdge(x, y) == m.polys[q].HasEdge(y, x)
    {
      HasEdgeSymmetric(m.polys[q], x, y);
    }
    IncidentSymmetric(m.polys, x, y, 0);
  }

  lemma FindEdgeSymmetric(p: Polygon, x: nat, y: nat)
    ensures p.FindEdge(x, y) == p.FindEdge(y, x)
  {
  }

  lemma HasEdgeSymmetric(p: Polygon, x: nat, y: nat)
    ensures p.HasEdge(x, y) == p.HasEdge(y, x)
  {
    if p.HasEdge(x, y) {
      var s :| 0 <= s < 4 && p.SlotJoins(s, x, y);
      assert p.SlotJoins(s, y, x);
    }
    if p.HasEdge(y, x) {
      var s :| 0 <= s < 4 && p.SlotJoins(s, y, x);
      assert p.SlotJoins(s, x, y);
    }
  }

  lemma {:induction false} IncidentSymmetric(polys: seq<Polygon>, x: nat, y: nat, k: nat)
    requires k <= |polys|
    requires forall q | 0 <= q < |polys| :: polys[q].HasEdge(x, y) == polys[q].HasEdge(y, x)
    ensures IncidentFrom(polys, x, y, k) == IncidentFrom(polys, y, x, k)
    decreases |polys| - k
  {
    if k < |polys| {
      IncidentSymmetric(polys, x, y, k + 1);
    }
  }

  /** An interior edge whose two polygons agree on the UVs of both
      endpoints is not in the final selection, in either polygon. */
  lemma ContinuousEdgeNotSelected(m: Mesh, x: nat, y: nat, a: nat, b: nat)
    requires WellFormed(m) && (x, y) in EdgePairs(m)
    requires GetEdgePolys(m, x, y) == Shared(a, b)
    requires UvAtVertex(m, a, x) == UvAtVertex(m, b, x) && UvAtVertex(m, a, y) == UvAtVertex(m, b, y)
    ensures EdgeSelect(m, (x, y)) == {}
    ensures EdgeIndex(a, m.polys[a].FindEdge(x, y)) !in UvBorderSelection(m)
    ensures EdgeIndex(b, m.polys[b].FindEdge(x, y)) !in UvBorderSelection(m)
  {
    CornerLookupInBounds(m, x, y, a);
    CornerLookupInBounds(m, x, y, b);
    forall q | q in {a, b}
      ensures EdgeIndex(q, m.polys[q].FindEdge(x, y)) !in UvBorderSelection(m)
    {
      var idx := EdgeIndex(q, m.polys[q].FindEdge(x, y));
      if idx in UvBorderSelection(m) {
        var e' :| e' in EdgePairs(m) && idx in EdgeSelect(m, e');
        SameIndexSamePair(m, e', x, y, q);
        EdgeSelectSymmetric(m, x, y);
        assert false;
      }
    }
  }

  /** Any pair of the working set that contributes the index of slot
      FindEdge(x, y) of polygon q (q sharing the edge x-y) is x-y itself,
      in one orientation or the other. */
  lemma SameIndexSamePair(m: Mesh, e: VertexPair, x: nat, y: nat, q: nat)
    requires WellFormed(m)
    requires q < |m.polys| && m.polys[q].HasEdge(x, y)
    requires EdgeIndex(q, m.polys[q].FindEdge(x, y)) in EdgeSelect(m, e)
    ensures e == (x, y) || e == (y, x)
  {
    var s := m.polys[q].FindEdge(x, y);
    FindEdgeOfEdge(m.polys[q], x, y);
    var q', s' := SelectedIndexSource(m, e, EdgeIndex(q, s));
    EdgeIndexInjective(q, s, q', s');
    var p := m.polys[q];
    assert p.SlotJoins(s, x, y) && p.SlotJoins(s, e.0, e.1);
  }

  /** UV reference for a shared edge: polygons a and b disagree at vertex v
      when some logical corner of a and some logical corner of b both hold
      v with different UVs. */
  predicate UvSplitAt(m: Mesh, a: nat, b: nat, v: nat)
    requires WellFormed(m) && a < |m.polys| && b < |m.polys|
  {
    exists i, j | 0 <= i < 4 && 0 <= j < 4 ::
      && m.polys[a].IsLogicalCorner(i) && m.polys[b].IsLogicalCorner(j)
      && m.polys[a].Vertex(i) == v && m.polys[b].Vertex(j) == v
      && m.uvw[a].Corner(i) != m.uvw[b].Corner(j)
  }

  /** On non-degenerate polygons, a shared edge contributes to the
      selection exactly when its polygons disagree on the UV of an endpoint. */
  lemma SeamIffUvSplit(m: Mesh, x: nat, y: nat, a: nat, b: nat)
    requires WellFormed(m) && (x, y) in EdgePairs(m)
    requires GetEdgePolys(m, x, y) == Shared(a, b)
    requires m.polys[a].NonDegenerate() && m.polys[b].NonDegenerate()
    ensures EdgeSelect(m, (x, y)) != {} <==> UvSplitAt(m, a, b, x) || UvSplitAt(m, a, b, y)
  {
    CornerLookupInBounds(m, x, y, a);
    CornerLookupInBounds(m, x, y, b);
    forall v | v == x || v == y
      ensures UvSplitAt(m, a, b, v) <==> UvAtVertex(m, a, v) != UvAtVertex(m, b, v)
    {
      var i := TriangleCorner(m.polys[a], m.polys[a].Find(v));
      var j := TriangleCorner(m.polys[b], m.polys[b].Find(v));
      UvAtVertexIsCorner(m, a, v, i);
      UvAtVertexIsCorner(m, b, v, j);
      if UvSplitAt(m, a, b, v) {
        var i', j' :| 0 <= i' < 4 && 0 <= j' < 4
          && m.polys[a].IsLogicalCorner(i') && m.polys[b].IsLogicalCorner(j')
          && m.polys[a].Vertex(i') == v && m.polys[b].Vertex(j') == v
          && m.uvw[a].Corner(i') != m.uvw[b].Corner(j');
        UvAtVertexIsCorner(m, a, v, i');
        UvAtVertexIsCorner(m, b, v, j');
      }
    }
    if UvAtVertex(m, a, x) != UvAtVertex(m, b, x) || UvAtVertex(m, a, y) != UvAtVertex(m, b, y) {
      SeamEdgeSelected(m, x, y, a, b);
    }
  }

  /** An index of the final selection comes from some pair of the working
      set. */
  lemma SelectionWitness(m: Mesh, idx: int) returns (e: VertexPair)
    requires WellFormed(m) && idx in UvBorderSelection(m)
    ensures e in EdgePairs(m) && idx in EdgeSelect(m, e)
  {
    e :| e in EdgePairs(m) && idx in EdgeSelect(m, e);
  }

  /** Every index in the final selection names a real edge: a polygon of
      the mesh and a slot in 0..3 joining two distinct vertices. */
  lemma SelectionNamesRealEdges(m: Mesh, idx: int)
    requires WellFormed(m) && idx in UvBorderSelection(m)
    ensures 0 <= idx < 4 * |m.polys|
    ensures idx / 4 < |m.polys| && m.polys[idx / 4].Vertex(idx % 4) != m.polys[idx / 4].Vertex((idx % 4 + 1) % 4)
  {
    var e := SelectionWitness(m, idx);
    PairSelectsRealEdges(m, e, idx);
  }

  /** The same for the indices one pair contributes. */
  lemma PairSelectsRealEdges(m: Mesh, e: VertexPair, idx: int)
    requires WellFormed(m) && idx in EdgeSelect(m, e)
    ensures 0 <= idx < 4 * |m.polys|
    ensures idx / 4 < |m.polys| && m.polys[idx / 4].Vertex(idx % 4) != m.polys[idx / 4].Vertex((idx % 4 + 1) % 4)
  {
    var q, s := SelectedIndexSource(m, e, idx);
    DecodeEncode(q, s);
    assert idx / 4 == q && idx % 4 == s;
    assert m.polys[q].Vertex(s) != m.polys[q].Vertex((s + 1) % 4);
  }
}
