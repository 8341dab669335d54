# UV2PhongEdges in Dafny

UV2PhongEdges is a Cinema 4D script. It hardens Phong shading along UV
seams. For every polygon object it:

- finds the edges that are either geometric borders or UV seams, meaning the
  two polygons sharing the edge store different UV coordinates for one of its
  endpoints;
- selects those edges;
- breaks Phong shading along exactly that selection;
- gives the user back the edge selection they had before.

The project models that core.

- `polygon_mesh.dfy` (module `PolygonMesh`) describes the mesh as the script
  sees it:
  - polygons as four corner vertex indices, where a triangle repeats its
    third corner (`d == c`);
  - one UVW record per polygon;
  - the host's `CPolygon.Find` and `CPolygon.FindEdge`;
  - the triangle corner remap;
  - the `_abcd` key lookup.
- `neighbor.dfy` (module `Neighbor`) derives the two adjacency queries of the
  host's `Neighbor` helper from the polygon list:
  - `GetPointOneRingPoints`;
  - `GetEdgePolys`, whose missing second polygon (NOTOK) becomes the
    `Border` case of a datatype.
- `uv_borders.dfy` (module `UvBorders`) states what the classifier computes,
  as functions of the mesh. It has lemmas for:
  - the `poly * 4 + slot` edge index;
  - the exact contents of the working edge set;
  - the border case, the seam case and the continuous case;
  - independence from traversal order;
  - the corner-lookup bounds.
- `uv2phong_shading.dfy` (module `UV2PhongShading`) is the script itself, in
  imperative form:
  - a `PolygonObject` class whose fields are the edge selection and the set of
    Phong-broken edges;
  - `SelectUVBorders` and `BreakShading` as methods proved against the
    functions of `UvBorders`;
  - `main` as `Run` over the active objects.
- `scenarios.dfy` (module `Scenarios`) works the classifier on small meshes:
  - a lone quad;
  - a strip of two quads with continuous UVs;
  - the same strip with a seam along the shared edge.
  - a triangle beside a quad, for the index of the triangle's closing edge c-a.

The script compares UVW vectors only with `!=`. So the model represents each
vector by an injective integer encoding of its whole value, compared by exact
equality.

## Model

| member | source | states |
|---|---|---|
| PolygonMesh.Polygon.IsTriangle | UV2PhongEdges.py:67-73 | Defines the host's `CPolygon.IsTriangle()` as `c == d`. `TriangleCorner` and `TriangleRemapOfFind` state what it implies for corner lookup. |
| PolygonMesh.Polygon.Find | UV2PhongEdges.py:61-64 | `CPolygon.Find` returns NOTOK (-1) exactly when no corner holds the vertex. Otherwise it returns the first corner, in 0..3, that holds it. |
| PolygonMesh.Polygon.FindEdge | UV2PhongEdges.py:51 | `CPolygon.FindEdge` returns NOTOK exactly when no slot joins the two vertices in either direction. Otherwise it returns the first slot among a-b, b-c, c-d, d-a that joins them. |
| PolygonMesh.TriangleCorner | UV2PhongEdges.py:66-74 | The triangle remap keeps a real corner in 0..3 holding the same vertex, and the result is a logical corner. On a triangle the result is below 3. NOTOK passes through unchanged. |
| PolygonMesh.TriangleRemapOfFind | UV2PhongEdges.py:61-74 | On a triangle, Find never returns 3, so the remap leaves every Find result unchanged. |
| PolygonMesh.AbcdKey | UV2PhongEdges.py:10 | `_abcd[k]` is one of 'a'..'d' and follows Python tuple indexing, so a negative k counts from the end. |
| PolygonMesh.UvwRecord.Get | UV2PhongEdges.py:77-80 | `GetSlow(p)[key]` under the key `"abcd"[k]` is the UV of corner k. |
| PolygonMesh.UvAtVertex | UV2PhongEdges.py:61-80 | Defines the lookup chain for one vertex: Find, the triangle remap, `_abcd` and `GetSlow`. Its contract says the result is one of the four UVs the polygon stores. `UvAtVertexIsCorner` pins down which one. |
| PolygonMesh.UvAtVertexIsCorner | UV2PhongEdges.py:61-80 | On a non-degenerate polygon, the whole chain (Find, remap, `_abcd`, `GetSlow`) reads the UV stored at the logical corner that holds the vertex. |
| Neighbor.PolyOneRing | UV2PhongEdges.py:26 | The points that one polygon joins to i by an edge are exactly its edge neighbours of i. |
| Neighbor.GetPointOneRingPoints | UV2PhongEdges.py:26 | `GetPointOneRingPoints(i)` lists exactly the points that share an edge with i. |
| Neighbor.IncidentFrom | UV2PhongEdges.py:44 | The polygons holding edge x-y, listed in strictly ascending order, and only those. |
| Neighbor.GetEdgePolys | UV2PhongEdges.py:44-47 | `GetEdgePolys` finds no polygon exactly when no polygon has the edge. `Border(a)`: a is the only polygon with the edge. `Shared(a, b)`: a < b, both have the edge, and a is the only polygon below b with the edge, so they are the two lowest-numbered ones. |
| UvBorders.EdgeIndex | UV2PhongEdges.py:51-84 | Defines `poly * 4 + slot`. Its contract says a slot in 0..3 gives an index in `4 * poly .. 4 * poly + 3`. `DecodeEdgeIndex`, `EdgeIndexInjective` and `DecodeEncode` pin down the rest. |
| UvBorders.DecodeEdgeIndex | UV2PhongEdges.py:51 | `idx / 4` and `idx % 4` give a slot in 0..3 and re-encode to idx. |
| UvBorders.EdgeIndexInjective | UV2PhongEdges.py:51 | `poly * 4 + slot` with slots in 0..3 is injective. |
| UvBorders.DecodeEncode | UV2PhongEdges.py:83-84 | Decoding `poly * 4 + slot` gives back (poly, slot). |
| UvBorders.EdgePairs | UV2PhongEdges.py:22-30 | Defines `allEdgesVV`: every (i, ni) with i a point and ni in its one-ring. `EdgePairsExact` pins it down, and `CollectEdgePairs` builds it. |
| UvBorders.EdgeSelect | UV2PhongEdges.py:44-89 | Defines the indices one loop iteration selects for a pair. Its contract says there are at most two. `BorderEdgeSelected`, `BorderIgnoresUvs`, `SeamEdgeSelected`, `ContinuousEdgeNotSelected` and `SeamIffUvSplit` pin down each case. |
| UvBorders.UvBorderSelection | UV2PhongEdges.py:13-89 | Defines the selection the classifier leaves: the union of `EdgeSelect` over `EdgePairs`. `SelectUVBorders` reaches it. `SelectionNamesRealEdges` bounds it. `BorderEdgeSelected`, `SeamEdgeSelected` and `ContinuousEdgeNotSelected` fix membership. |
| UvBorders.SelectInOrder | UV2PhongEdges.py:41 | Defines the `for edgeVV in allEdgesVV` walk over a given order, starting from the cleared selection. `SelectInOrderIsSetUnion` and `TraversalOrderIrrelevant` show that the order does not matter. |
| UvBorders.EdgePairsExact | UV2PhongEdges.py:22-30 | `(x, y)` is in `allEdgesVV` exactly when some polygon has an edge x-y, and therefore exactly when `(y, x)` is. |
| UvBorders.SelectedByAdd | UV2PhongEdges.py:41-89 | Handling one more pair adds exactly that pair's indices to the selection. |
| UvBorders.SelectInOrderIsSetUnion | UV2PhongEdges.py:39-41 | Walking the pairs in any order, with or without repeats, from an empty selection, yields the union of the per-pair selections. |
| UvBorders.TraversalOrderIrrelevant | UV2PhongEdges.py:41 | Two traversals of the same pairs produce the same selection. |
| UvBorders.CollectedPairFindsPolygon | UV2PhongEdges.py:22-47 | Every pair collected from the one-rings has at least one polygon, so GetEdgePolys never reports none. |
| UvBorders.CornerLookupInBounds | UV2PhongEdges.py:61-80 | For a polygon GetEdgePolys reports: Find and FindEdge never return NOTOK, and the remapped corner lies in 0..3 (0..2 for a triangle) and holds the same vertex. On a triangle, `_abcd` never yields 'd'. |
| UvBorders.BorderEdgeSelected | UV2PhongEdges.py:47-55 | A border pair contributes exactly `polyA * 4 + FindEdge`, and that index is in the final selection. |
| UvBorders.BorderIgnoresUvs | UV2PhongEdges.py:47-55 | No UV is read for a border pair: replacing the whole UVW tag leaves its contribution unchanged. |
| UvBorders.SeamEdgeSelected | UV2PhongEdges.py:82-89 | If either endpoint's UV differs between the two polygons, the pair contributes the edge index of both polygons, and both indices are in the final selection. |
| UvBorders.ContinuousEdgeNotSelected | UV2PhongEdges.py:82 | If both endpoints' UVs agree exactly, the pair contributes nothing, and neither polygon's index for the edge is in the final selection. |
| UvBorders.SeamIffUvSplit | UV2PhongEdges.py:61-89 | On non-degenerate polygons, a shared edge contributes indices exactly when the polygons store different UVs at a logical corner of an endpoint. The UV reference here is independent of Find and `_abcd`. |
| UvBorders.EdgeSelectSymmetric | UV2PhongEdges.py:41-89 | Pairs (x, y) and (y, x) find the same polygons and contribute the same indices. |
| UvBorders.GetEdgePolysSymmetric | UV2PhongEdges.py:44 | `GetEdgePolys(x, y)` equals `GetEdgePolys(y, x)`. |
| UvBorders.SameIndexSamePair | UV2PhongEdges.py:51-84 | Only the pair x-y itself, in one orientation or the other, can contribute the index of edge x-y. |
| UvBorders.SelectedIndexSource | UV2PhongEdges.py:51-84 | Every contributed index is `q * 4 + FindEdge` for a polygon q holding the edge, with the slot in 0..3 joining the pair. |
| UvBorders.SelectionNamesRealEdges | UV2PhongEdges.py:51-84 | Every index of the final selection lies in 0..4*polygonCount-1, and its slot joins two distinct vertices. |
| UV2PhongShading.CollectEdgePairs | UV2PhongEdges.py:22-30 | The nested loops build exactly `EdgePairs`. |
| UV2PhongShading.SelectEdge | UV2PhongEdges.py:44-89 | One loop iteration adds exactly that pair's contribution to the edge selection. |
| UV2PhongShading.SelectUVBorders | UV2PhongEdges.py:13-89 | The edge selection afterwards is `UvBorderSelection`: cleared, then the union over all collected pairs. |
| UV2PhongShading.BreakShading | UV2PhongEdges.py:92-117 | The edge selection is restored to its old value, and the broken edges are exactly `UvBorderSelection`. |
| UV2PhongShading.PolygonObject.DeselectAll | UV2PhongEdges.py:39 | The edge selection becomes empty. |
| UV2PhongShading.PolygonObject.Select | UV2PhongEdges.py:54 | The edge selection gains exactly the index. |
| UV2PhongShading.PolygonObject.SetEdgeSelection | UV2PhongEdges.py:117 | The edge selection becomes the saved one. |
| UV2PhongShading.PolygonObject.UnbreakPhongAll | UV2PhongEdges.py:99-103 | No edge stays broken. |
| UV2PhongShading.PolygonObject.BreakPhongSelection | UV2PhongEdges.py:108-112 | The selected edges are added to the broken ones. |
| UV2PhongShading.ItemNotices | UV2PhongEdges.py:128-134 | A non-polygon item gives exactly the "not a polygon object" notice. A polygon object without a UVW tag gives exactly the "no UVW tag" notice. A processed object gives none. |
| UV2PhongShading.ProcessItem | UV2PhongEdges.py:127-136 | One loop iteration of `main` reports the item's notice. For a polygon object with a UVW tag, it runs BreakShading, so the object's broken edges are its UV borders. The edge selection is kept. |
| UV2PhongShading.NoticesSplit | UV2PhongEdges.py:127-134 | The notices reported after the first k items, followed by the skip notices still to come, are all the skip notices in order. |
| UV2PhongShading.SkipNotices | UV2PhongEdges.py:127-134 | A "not a polygon object" notice exists exactly for the non-polygon items. A "no UVW tag" notice exists exactly for the polygon objects without a tag. Neither notice is the "nothing selected" notice. |
| UV2PhongShading.Run | UV2PhongEdges.py:120-139 | On an empty selection, the only notice is "nothing selected". Otherwise it emits the skip notices in order. Every processed object ends with broken edges equal to `UvBorderSelection`. Every object keeps its edge selection. |
| Scenarios.SingleQuadAllBorders | UV2PhongEdges.py:47-55 | A lone quad selects its four edges 0, 1, 2, 3. |
| Scenarios.StripOuterSelected | UV2PhongEdges.py:47-55 | In a strip of two quads, the six outer edges 0, 2, 3, 4, 5, 6 are selected. |
| Scenarios.StripSharedEdge | UV2PhongEdges.py:44-84 | The shared edge 1-2 is found in both quads, as slot 1 of quad 0 and slot 3 of quad 1. |
| Scenarios.StripWithoutSeam | UV2PhongEdges.py:82 | With continuous UVs, the strip selects exactly {0, 2, 3, 4, 5, 6}. |
| Scenarios.TriangleClosingEdge | UV2PhongEdges.py:47-55 | A triangle (0, 1, 2, 2) beside a quad: the triangle's border edge c-a is `Border(0)` and selects index 3, the d-a slot. |
| Scenarios.StripWithSeam | UV2PhongEdges.py:82-89 | With a UV seam along the shared edge, the strip selects all eight indices. |

## Left out

- Undo bookkeeping (`doc.AddUndo`, `StartUndo`, `EndUndo`) is not modelled. Neither is the editor refresh (`c4d.EventAdd`). Neither changes the selection or the broken edges.
- `SendModelingCommand` is represented only by its effect on the broken-edge set: MCOMMAND_UNBREAKPHONG clears it, and MCOMMAND_BREAKPHONG adds the edge selection. The command's settings container and mode constants are not modelled.
- UVW vectors are three floats in the host. The model represents each by an injective integer encoding of the whole vector, because the classifier only tests them for exact equality.
- UvBorders.ContinuousEdgeNotSelected does not cover NaN coordinates: a NaN compares unequal to itself in the host, so the script would select an edge whose stored UVs are bit-for-bit the same. NaN is not represented in the model.
- The `Neighbor` helper's internals are not part of this model. Its two queries are derived from the polygon list:
  - the one-ring is the set of points that share a polygon edge;
  - `GetEdgePolys` reports the two lowest-numbered polygons holding the edge.
- Neighbor.GetEdgePolys on a non-manifold edge (more than two polygons) reports the two lowest polygons and ignores the others; no error is signalled. The script does not detect non-manifold edges: it silently keeps the first two polygons and never compares UVs against the others.
- The host's `FindEdge` is taken to scan the slots a-b, b-c, c-d, d-a in that order. So a triangle's c-a edge is slot 3 (`d-a` with `d == c`), not slot 2. The model keeps the index exactly as the script computes it, `poly * 4 + FindEdge`, and does not fold slot 3 of a triangle onto slot 2.
- `GetPointOneRingPoints` may list a point more than once. The set `allEdgesVV` collapses those repeats, so the model allows them without stating the host's exact order.
- `print` diagnostics in `main` become `Notice` values, and the object name in each message becomes the object's position.
- `Run` leaves out whether an object is a `c4d.PolygonObject`; each `SceneItem` already says so.
- `GetEdgePolys` returning no polygon at all is unreachable for collected pairs (see `UvBorders.CollectedPairFindsPolygon`). The model's NoPolygon case contributes nothing. The script would crash there, on `GetPolygon(NOTOK)`.
- The triangle remap at UV2PhongEdges.py:66-74 is modelled as written. With a first-match `Find` it never changes a result (`PolygonMesh.TriangleRemapOfFind`), so it acts as a defensive guard.
