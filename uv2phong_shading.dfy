/** The script itself: the polygon object whose edge selection and Phong
    breaks it changes, UV2PhongShading.SelectUVBorders and BreakShading, and
    the per-object driver `main`. */
module UV2PhongShading {
  import opened PolygonMesh
  import opened Neighbor
  import opened UvBorders

  /** A polygon object of the scene: its mesh and UVW tag (not changed by
      the script), its edge selection and its set of Phong-broken edges,
      both as edge selection indices `poly * 4 + slot`. */
  class PolygonObject {
    const mesh: Mesh
    var edgeSelection: set<int>
    var phongBreaks: set<int>

    constructor (mesh: Mesh, edgeSelection: set<int>, phongBreaks: set<int>)
      ensures this.mesh == mesh
      ensures this.edgeSelection == edgeSelection && this.phongBreaks == phongBreaks
    {
      this.mesh := mesh;
      this.edgeSelection := edgeSelection;
      this.phongBreaks := phongBreaks;
    }

    /** GetEdgeS().DeselectAll() */
    method DeselectAll()
      modifies this`edgeSelection
      ensures edgeSelection == {}
    {
      edgeSelection := {};
    }

    /** GetEdgeS().Select(idx) */
    method Select(idx: int)
      modifies this`edgeSelection
      ensures edgeSelection == old(edgeSelection) + {idx}
    {
      edgeSelection := edgeSelection + {idx};
    }

    /** CopyTo(GetEdgeS()): replaces the edge selection by a saved one. */
    method SetEdgeSelection(saved: set<int>)
      modifies this`edgeSelection
      ensures edgeSelection == saved
    {
      edgeSelection := saved;
    }

    /** MCOMMAND_UNBREAKPHONG over all edges. */
    method UnbreakPhongAll()
      modifies this`phongBreaks
      ensures phongBreaks == {}
    {
      phongBreaks := {};
    }

    /** MCOMMAND_BREAKPHONG over the edge selection. */
    method BreakPhongSelection()
      modifies this`phongBreaks
      ensures phongBreaks == old(phongBreaks) + edgeSelection
    {
      phongBreaks := phongBreaks + edgeSelection;
    }
  }

  /** The pairs (i', n) of EdgePairs with i' < i. */
  function PairsBelow(m: Mesh, i: nat): set<VertexPair>
  {
    set i': nat, n: nat | i' < i && i' < m.pointCount && n in GetPointOneRingPoints(m, i') :: (i', n)
  }

  /** Point i paired with each of the points ns. */
  function PairsFrom(i: nat, ns: seq<nat>): set<VertexPair>
  {
    set n | n in ns :: (i, n)
  }

  lemma PairsBelowStep(m: Mesh, i: nat)
    requires i < m.pointCount
    ensures PairsBelow(m, i + 1) == PairsBelow(m, i) + PairsFrom(i, GetPointOneRingPoints(m, i))
  {
  }

  lemma PairsFromStep(i: nat, ns: seq<nat>, j: nat)
    requires j < |ns|
    ensures PairsFrom(i, ns[..j + 1]) == PairsFrom(i, ns[..j]) + {(i, ns[j])}
  {
    assert ns[..j + 1] == ns[..j] + [ns[j]];
  }

  /** The nested loops building `allEdgesVV`: every point paired with every
      point of its one-ring, duplicates collapsing in the set. */
  method CollectEdgePairs(m: Mesh) returns (allEdges: set<VertexPair>)
    ensures allEdges == EdgePairs(m)
  {
    allEdges := {};
    for i := 0 to m.pointCount
      invariant allEdges == PairsBelow(m, i)
    {
      var neighborIndexes := GetPointOneRingPoints(m, i);
      ghost var before := allEdges;
      for j := 0 to |neighborIndexes|
        invariant allEdges == before + PairsFrom(i, neighborIndexes[..j])
      {
        PairsFromStep(i, neighborIndexes, j);
        allEdges := allEdges + {(i, neighborIndexes[j])};
      }
      assert neighborIndexes[..|neighborIndexes|] == neighborIndexes;
      PairsBelowStep(m, i);
    }
    assert PairsBelow(m, m.pointCount) == EdgePairs(m);
  }

  /** UV2PhongShading.SelectUVBorders: clears the edge selection, then
      selects every geometric border edge and every UV seam edge, in both
      polygons for a seam. */
  method SelectUVBorders(obj: PolygonObject)
    requires WellFormed(obj.mesh)
    modifies obj`edgeSelection
    ensures obj.edgeSelection == UvBorderSelection(obj.mesh)
  {
    var m := obj.mesh;
    var allEdges := CollectEdgePairs(m);
    obj.DeselectAll();
    var rest := allEdges;
    ghost var done: set<VertexPair> := {};
    while rest != {}
      invariant rest !! done && rest + done == allEdges
      invariant obj.edgeSelection == SelectedBy(m, done)
      decreases rest
    {
      var edgeVV :| edgeVV in rest;
      SelectEdge(obj, edgeVV);
      SelectedByAdd(m, done, edgeVV);
      rest := rest - {edgeVV};
      done := done + {edgeVV};
    }
  }

  /** The body of the SelectUVBorders loop for one pair of the working set:
      a border edge is selected in its polygon; for a shared edge the corner
      of each endpoint is found in both polygons (a triangle's d read as c),
      and if either endpoint's UV differs the edge is selected in both. */
  method SelectEdge(obj: PolygonObject, edgeVV: VertexPair)
    requires WellFormed(obj.mesh) && edgeVV in EdgePairs(obj.mesh)
    modifies obj`edgeSelection
    ensures obj.edgeSelection == old(obj.edgeSelection) + EdgeSelect(obj.mesh, edgeVV)
  {
    var m := obj.mesh;
    var v0, v1 := edgeVV.0, edgeVV.1;
    CollectedPairFindsPolygon(m, v0, v1);
    match GetEdgePolys(m, v0, v1) {
      case NoPolygon =>
        assert false;
      case Border(polyAIndex) =>
        var polyA := m.polys[polyAIndex];
        var eiA := EdgeIndex(polyAIndex, polyA.FindEdge(v0, v1));
        obj.Select(eiA);
      case Shared(polyAIndex, polyBIndex) =>
        var polyA, polyB := m.polys[polyAIndex], m.polys[polyBIndex];
        var piA0 := TriangleCorner(polyA, polyA.Find(v0));
        var piA1 := TriangleCorner(polyA, polyA.Find(v1));
        var piB0 := TriangleCorner(polyB, polyB.Find(v0));
        var piB1 := TriangleCorner(polyB, polyB.Find(v1));
        var uvCoordA0 := m.uvw[polyAIndex].Get(AbcdKey(piA0));
        var uvCoordA1 := m.uvw[polyAIndex].Get(AbcdKey(piA1));
        var uvCoordB0 := m.uvw[polyBIndex].Get(AbcdKey(piB0));
        var uvCoordB1 := m.uvw[polyBIndex].Get(AbcdKey(piB1));
        if uvCoordA0 != uvCoordB0 || uvCoordA1 != uvCoordB1 {
          var eiA := EdgeIndex(polyAIndex, polyA.FindEdge(v0, v1));
          var eiB := EdgeIndex(polyBIndex, polyB.FindEdge(v0, v1));
          obj.Select(eiA);
          obj.Select(eiB);
        }
    }
  }

  /** UV2PhongShading.BreakShading: saves the edge selection, smooths every
      edge, selects the UV borders, breaks Phong shading along the selection
      and restores the saved selection. */
  method BreakShading(obj: PolygonObject)
    requires WellFormed(obj.mesh)
    modifies obj
    ensures obj.edgeSelection == old(obj.edgeSelection)
    ensures obj.phongBreaks == UvBorderSelection(obj.mesh)
  {
    var originalEdgeS := obj.edgeSelection;
    obj.UnbreakPhongAll();
    SelectUVBorders(obj);
    obj.BreakPhongSelection();
    obj.SetEdgeSelection(originalEdgeS);
  }

  /** One of the script's active objects: a polygon object, with or
      without a UVW tag, or an object of another kind. */
  datatype SceneItem = PolygonItem(obj: PolygonObject, hasUvwTag: bool) | OtherItem

  /** The diagnostics `main` reports, by position in the active objects. */
  datatype Notice = NothingSelected | NotPolygonObject(index: nat) | MissingUvwTag(index: nat)

  /** The notice `main` reports for the item at position index, if any. */
  function ItemNotices(item: SceneItem, index: nat): (r: seq<Notice>)
    ensures r == [NotPolygonObject(index)] <==> item.OtherItem?
    ensures r == [MissingUvwTag(index)] <==> item.PolygonItem? && !item.hasUvwTag
    ensures r == [] <==> item.PolygonItem? && item.hasUvwTag
  {
    match item
    case OtherItem => [NotPolygonObject(index)]
    case PolygonItem(_, hasUvwTag) => if hasUvwTag then [] else [MissingUvwTag(index)]
  }

  /** The skip notices for items[k..], in order. */
  function SkipNotices(items: seq<SceneItem>, k: nat): (r: seq<Notice>)
    requires k <= |items|
    ensures forall i: nat :: NotPolygonObject(i) in r <==> k <= i < |items| && items[i].OtherItem?
    ensures forall i: nat :: MissingUvwTag(i) in r <==> k <= i < |items| && items[i].PolygonItem? && !items[i].hasUvwTag
    ensures NothingSelected !in r
    decreases |items| - k
  {
    if k == |items| then []
    else ItemNotices(items[k], k) + SkipNotices(items, k + 1)
  }

  /** The object's Phong-broken edges are exactly its UV borders. */
  predicate BreaksFollowUvBorders(obj: PolygonObject)
    reads obj
  {
    WellFormed(obj.mesh) && obj.phongBreaks == UvBorderSelection(obj.mesh)
  }

  /** One iteration of `main`'s loop: a notice for an item that is skipped,
      BreakShading for a polygon object with a UVW tag. */
  method ProcessItem(item: SceneItem, index: nat) returns (notices: seq<Notice>)
    requires item.PolygonItem? && item.hasUvwTag ==> WellFormed(item.obj.mesh)
    modifies if item.PolygonItem? && item.hasUvwTag then {item.obj} else {}
    ensures notices == ItemNotices(item, index)
    ensures item.PolygonItem? ==> item.obj.edgeSelection == old(item.obj.edgeSelection)
    ensures item.PolygonItem? && item.hasUvwTag ==> BreaksFollowUvBorders(item.obj)
  {
    match item {
      case OtherItem =>
        notices := [NotPolygonObject(index)];
      case PolygonItem(obj, hasUvwTag) =>
        if !hasUvwTag {
          notices := [MissingUvwTag(index)];
        } else {
          BreakShading(obj);
          notices := [];
        }
    }
  }

  /** The notices `main` has reported after the first k items. */
  function NoticesBefore(items: seq<SceneItem>, k: nat): seq<Notice>
    requires k <= |items|
  {
    if k == 0 then [] else NoticesBefore(items, k - 1) + ItemNotices(items[k - 1], k - 1)
  }

  /** Reported notices followed by the notices still to come are all the
      skip notices. */
  lemma {:induction false} NoticesSplit(items: seq<SceneItem>, k: nat)
    requires k <= |items|
    ensures NoticesBefore(items, k) + SkipNotices(items, k) == SkipNotices(items, 0)
    decreases k
  {
    if k > 0 {
      NoticesSplit(items, k - 1);
      var done, current, later := NoticesBefore(items, k - 1), ItemNotices(items[k - 1], k - 1), SkipNotices(items, k);
      assert SkipNotices(items, k - 1) == current + later;
      assert done + (current + later) == (done + current) + later;
    }
  }

  /** `main`: reports an empty selection, skips (with a notice) objects that
      are not polygon objects or have no UVW tag, and runs BreakShading on
      every other object. Only those objects are changed. */
  method Run(items: seq<SceneItem>) returns (notices: seq<Notice>)
    requires forall i | 0 <= i < |items| && items[i].PolygonItem? && items[i].hasUvwTag :: WellFormed(items[i].obj.mesh)
    modifies set i | 0 <= i < |items| && items[i].PolygonItem? && items[i].hasUvwTag :: items[i].obj
    ensures items == [] ==> notices == [NothingSelected]
    ensures items != [] ==> notices == SkipNotices(items, 0)
    ensures forall i | 0 <= i < |items| && items[i].PolygonItem? ::
      items[i].obj.edgeSelection == old(items[i].obj.edgeSelection)
    ensures forall i | 0 <= i < |items| && items[i].PolygonItem? && items[i].hasUvwTag ::
      items[i].obj.phongBreaks == UvBorderSelection(items[i].obj.mesh)
  {
    if items == [] {
      return [NothingSelected];
    }
    var skipped: seq<Notice> := [];
    ghost var done: set<PolygonObject> := {};
    for i := 0 to |items|
      invariant forall j | 0 <= j < |items| && items[j].PolygonItem? ::
        items[j].obj.edgeSelection == old(items[j].obj.edgeSelection)
      invariant forall o | o in done :: BreaksFollowUvBorders(o)
      invariant forall j | 0 <= j < i && items[j].PolygonItem? && items[j].hasUvwTag :: items[j].obj in done
      invariant skipped == NoticesBefore(items, i)
    {
      var itemNotices := ProcessItem(items[i], i);
      if items[i].PolygonItem? && items[i].hasUvwTag {
        done := done + {items[i].obj};
      }
      skipped := skipped + itemNotices;
    }
    NoticesSplit(items, |items|);
    notices := skipped;
  }
}
