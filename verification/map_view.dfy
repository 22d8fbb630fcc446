/**
 * The drawing-surface adapter of src/components/MapView/index.tsx: the
 * `toolMap` record and the created / edited / deleted handlers that turn
 * leaflet-draw events into workspace operations.
 */
module MapView {
  import opened Types
  import opened Geo
  import opened Workspace

  /** L.LatLngBounds */
  datatype Bounds = Bounds(north: real, south: real, east: real, west: real)

  /**
   * A Leaflet layer produced by leaflet-draw, with the `_leaflet_id` Leaflet
   * stamps on every layer. Positions are L.LatLng values as Pair(lat, lng).
   * A polygon always has its outer ring; `ring` of a rectangle is what its
   * `getLatLngs()[0]` returns. OtherLayer is any other layer type.
   */
  datatype Layer =
    | Marker(leafletId: int, latLng: Pair)
    | Polyline(leafletId: int, latLngs: seq<Pair>)
    | CircleLayer(leafletId: int, center: Pair, radius: real)
    | PolygonLayer(leafletId: int, outer: seq<Pair>, holes: seq<seq<Pair>>)
    | RectangleLayer(leafletId: int, bounds: Bounds, ring: seq<Pair>)
    | OtherLayer(leafletId: int)

  // ---------------------------------------------------------------------------
  // toolMap
  // ---------------------------------------------------------------------------

  /** `toolMap`: the leaflet-draw handler enabled for each drawing tool. */
  function ToolHandler(k: Kind): string {
    match k
    case Point => "marker"
    case Line => "polyline"
    case Polygon => "polygon"
    case Rectangle => "rectangle"
    case Circle => "circle"
  }

  /** Distinct tools enable distinct handlers. */
  lemma ToolHandlerInjective(a: Kind, b: Kind)
    ensures ToolHandler(a) == ToolHandler(b) ==> a == b
  {
    if a != b {
      assert |ToolHandler(a)| != |ToolHandler(b)| || ToolHandler(a)[0] != ToolHandler(b)[0];
    }
  }

  /** The `layerType` leaflet-draw reports with a created layer of a known type. */
  function LayerType(layer: Layer): string
    requires !layer.OtherLayer?
  {
    match layer
    case Marker(_, _) => "marker"
    case Polyline(_, _) => "polyline"
    case CircleLayer(_, _, _) => "circle"
    case PolygonLayer(_, _, _) => "polygon"
    case RectangleLayer(_, _, _) => "rectangle"
  }

  // ---------------------------------------------------------------------------
  // handleShapeCreated
  // ---------------------------------------------------------------------------

  /**
   * The ring built from a rectangle's bounds: north-west, north-east,
   * south-east, south-west and north-west again. It is closed, its edges
   * run along parallels and meridians, and every vertex is a corner.
   */
  function RectangleRing(b: Bounds): (ring: seq<Pair>)
    ensures |ring| == 5 && ring[0] == ring[4] && ring[0] == Pair(b.north, b.west)
    ensures ring[1] == Pair(b.north, b.east) && ring[2] == Pair(b.south, b.east) && ring[3] == Pair(b.south, b.west)
    ensures forall i :: 0 <= i < 4 ==> ring[i].first == ring[i + 1].first || ring[i].second == ring[i + 1].second
    ensures forall i :: 0 <= i < 5 ==>
      (ring[i].first == b.north || ring[i].first == b.south) && (ring[i].second == b.east || ring[i].second == b.west)
    ensures b.north != b.south && b.east != b.west ==>
      forall i, j :: 0 <= i < j < 4 ==> ring[i] != ring[j]
  {
    [Pair(b.north, b.west), Pair(b.north, b.east), Pair(b.south, b.east), Pair(b.south, b.west), Pair(b.north, b.west)]
  }

  /**
   * The `(kind, coordinates, radius)` handleShapeCreated derives from a
   * drawn layer; an unrecognised layer keeps the defaults (polygon, `[]`).
   */
  function ShapeOf(layer: Layer): (s: Shape)
    ensures !layer.OtherLayer? ==> ToolHandler(s.kind) == LayerType(layer)
    ensures s.radius.Some? <==> layer.CircleLayer?
    ensures layer.Marker? ==> s == Shape(Point, Flat([layer.latLng]), None)
    ensures layer.Polyline? ==> s == Shape(Line, Flat(layer.latLngs), None)
    ensures layer.CircleLayer? ==> s == Shape(Circle, Flat([layer.center]), Some(layer.radius))
    ensures layer.PolygonLayer? ==> s == Shape(Polygon, Rings([layer.outer]), None)
    ensures layer.RectangleLayer? ==> s == Shape(Rectangle, Rings([RectangleRing(layer.bounds)]), None)
    ensures layer.OtherLayer? ==> s == Shape(Polygon, Flat([]), None) && !Encodable(s.kind, s.coords, s.radius)
  {
    match layer
    case Marker(_, p) => Shape(Point, Flat([p]), None)
    case Polyline(_, ps) => Shape(Line, Flat(ps), None)
    case CircleLayer(_, c, r) => Shape(Circle, Flat([c]), Some(r))
    case PolygonLayer(_, outer, _) => Shape(Polygon, Rings([outer]), None)
    case RectangleLayer(_, b, _) => Shape(Rectangle, Rings([RectangleRing(b)]), None)
    case OtherLayer(_) => Shape(Polygon, Flat([]), None)
  }

  /**
   * Every recognised layer (a circle with a non-zero radius) yields a shape
   * the codec round-trips; a rectangle comes back as a polygon with the
   * same closed ring.
   */
  lemma CreatedShapesRoundTrip(layer: Layer)
    requires !layer.OtherLayer?
    requires layer.CircleLayer? ==> layer.radius != 0.0
    ensures Canonical(ShapeOf(layer))
    ensures var s := ShapeOf(layer);
      FromGeoJSON(ToGeoJSON(s.kind, s.coords, s.radius).value)
        == Decoded(if s.kind == Rectangle then s.(kind := Polygon) else s)
  {
    RoundTrip(ShapeOf(layer));
  }

  /**
   * handleShapeCreated: `onAddFeature(kind, coordinates, undefined, radius)`
   * then `onActivateTool(null)`. When addFeature throws (an unrecognised
   * layer, or a circle of radius 0), the tool is not reset either.
   */
  function ShapeCreated(ws: WorkspaceState, renderedCount: nat, layer: Layer,
                        id: string, roll: nat, now: string): (r: WorkspaceState)
    requires roll < |Palette|
    ensures var s := ShapeOf(layer);
      !Encodable(s.kind, s.coords, s.radius) ==> r == ws
    ensures layer.OtherLayer? ==> r == ws
    ensures var s := ShapeOf(layer); Encodable(s.kind, s.coords, s.radius) ==>
      && |r.features| == |ws.features| + 1
      && r.features[..|ws.features|] == ws.features
      && var f := r.features[|ws.features|];
      && f.id == id && f.kind == s.kind && f.coordinates == s.coords && f.radius == s.radius
      && f.name == DefaultName(s.kind, renderedCount) && f.description == ""
      && f.color in Palette && f.createdAt == now && f.updatedAt == now
      && f.geoJSON == ToGeoJSON(s.kind, s.coords, s.radius) && f.leafletId.None?
      && r.activeFeatureId == Some(id) && r.activeTool.None?
      && r.isEditMode == (ws.activeTool.None? && ws.isEditMode)
      && r.undoStack == ws.undoStack + [ws.features] && r.redoStack == []
      && r.(features := ws.features, activeFeatureId := ws.activeFeatureId, activeTool := ws.activeTool,
            isEditMode := ws.isEditMode, undoStack := ws.undoStack, redoStack := ws.redoStack) == ws
    ensures ModesExclusive(ws) ==> ModesExclusive(r)
  {
    var s := ShapeOf(layer);
    var added := AddFeature(ws, renderedCount, s.kind, s.coords, None, s.radius, id, roll, now);
    if added.None? then ws else SetTool(added.value, None)
  }

  // ---------------------------------------------------------------------------
  // handleShapeEdited
  // ---------------------------------------------------------------------------

  /** `features.find(f => f._leafletId === leafletId)` */
  function FindByLeafletId(rendered: seq<Feature>, leafletId: int): (r: Option<Feature>)
    ensures r.Some? ==> r.value in rendered && r.value.leafletId == Some(leafletId)
    ensures r.None? <==> forall f :: f in rendered ==> f.leafletId != Some(leafletId)
    ensures r.Some? ==>
      exists i :: 0 <= i < |rendered| && rendered[i] == r.value
                  && forall j :: 0 <= j < i ==> rendered[j].leafletId != Some(leafletId)
    decreases |rendered|
  {
    if rendered == [] then None
    else if rendered[0].leafletId == Some(leafletId) then Some(rendered[0])
    else FindByLeafletId(rendered[1..], leafletId)
  }

  /**
   * The update an edited layer asks for: new coordinates (and the radius
   * for a circle). A polyline without vertices and an unrecognised layer
   * ask for none.
   */
  function EditPatch(layer: Layer): (p: Option<Patch>)
    ensures p.Some? ==> p.value.coordinates.Some? && p.value == GeometryPatch(p.value.coordinates.value, p.value.radius)
    ensures p.Some? ==> (p.value.radius.Some? <==> layer.CircleLayer?)
    ensures p.None? <==> layer.OtherLayer? || (layer.Polyline? && layer.latLngs == [])
    ensures layer.Marker? ==> p == Some(GeometryPatch(Flat([layer.latLng]), None))
    ensures layer.Polyline? && layer.latLngs != [] ==> p == Some(GeometryPatch(Flat(layer.latLngs), None))
    ensures layer.CircleLayer? ==> p == Some(GeometryPatch(Flat([layer.center]), Some(layer.radius)))
    ensures layer.PolygonLayer? ==> p == Some(GeometryPatch(Rings([layer.outer]), None))
    ensures layer.RectangleLayer? ==> p == Some(GeometryPatch(Rings([layer.ring]), None))
  {
    match layer
    case Marker(_, p) => Some(GeometryPatch(Flat([p]), None))
    case Polyline(_, ps) => if |ps| > 0 then Some(GeometryPatch(Flat(ps), None)) else None
    case CircleLayer(_, c, r) => Some(GeometryPatch(Flat([c]), Some(r)))
    case PolygonLayer(_, outer, _) => Some(GeometryPatch(Rings([outer]), None))
    case RectangleLayer(_, _, ring) => Some(GeometryPatch(Rings([ring]), None))
    case OtherLayer(_) => None
  }

  /** One edited layer: look its id up among the rendered features and update the match. */
  function EditOne(ws: WorkspaceState, rendered: seq<Feature>, layer: Layer, now: string): WorkspaceState {
    var f := FindByLeafletId(rendered, layer.leafletId);
    var p := EditPatch(layer);
    if f.None? || p.None? then ws else UpdateFeature(ws, f.value.id, p.value, now)
  }

  /** The updates the loop over the edited layers issues, in order. */
  function ApplyEdits(ws: WorkspaceState, rendered: seq<Feature>, layers: seq<Layer>, now: string): WorkspaceState
    decreases |layers|
  {
    if layers == [] then ws
    else EditOne(ApplyEdits(ws, rendered, layers[..|layers| - 1], now), rendered, layers[|layers| - 1], now)
  }

  /** `g` is `f` with at most its coordinates, radius and update time changed. */
  predicate SameExceptGeometry(f: Feature, g: Feature) {
    g.(coordinates := f.coordinates, radius := f.radius, updatedAt := f.updatedAt) == f
  }

  /** An edit never adds, removes or reorders features and never changes an id, kind, name or colour. */
  lemma EditOneKeepsIdentity(ws: WorkspaceState, rendered: seq<Feature>, layer: Layer, now: string)
    ensures var r := EditOne(ws, rendered, layer, now);
      |r.features| == |ws.features|
      && forall i :: 0 <= i < |ws.features| ==> SameExceptGeometry(ws.features[i], r.features[i])
  {
  }

  /** The whole edit event keeps every feature's identity and position. */
  lemma {:induction false} EditsKeepIdentity(ws: WorkspaceState, rendered: seq<Feature>, layers: seq<Layer>, now: string)
    ensures var r := ApplyEdits(ws, rendered, layers, now);
      |r.features| == |ws.features|
      && forall i :: 0 <= i < |ws.features| ==> SameExceptGeometry(ws.features[i], r.features[i])
    decreases |layers|
  {
    if layers != [] {
      var mid := ApplyEdits(ws, rendered, layers[..|layers| - 1], now);
      EditsKeepIdentity(ws, rendered, layers[..|layers| - 1], now);
      EditOneKeepsIdentity(mid, rendered, layers[|layers| - 1], now);
    }
  }

  /** A matched circle gets its centre and its radius in the same update. */
  lemma EditedCircle(ws: WorkspaceState, rendered: seq<Feature>, layer: Layer, now: string)
    requires layer.CircleLayer?
    requires FindByLeafletId(rendered, layer.leafletId).Some?
    requires FindByLeafletId(rendered, layer.leafletId).value.id in Ids(ws.features)
    ensures var r := EditOne(ws, rendered, layer, now);
      var i := FindIndex(ws.features, FindByLeafletId(rendered, layer.leafletId).value.id);
      r.features[i].coordinates == Flat([layer.center]) && r.features[i].radius == Some(layer.radius)
      && r.undoStack == ws.undoStack + [ws.features]
  {
  }

  /** Layers whose id no rendered feature carries change nothing. */
  lemma {:induction false} UnmatchedEditsChangeNothing(ws: WorkspaceState, rendered: seq<Feature>, layers: seq<Layer>, now: string)
    requires forall l :: l in layers ==> FindByLeafletId(rendered, l.leafletId).None?
    ensures ApplyEdits(ws, rendered, layers, now) == ws
    decreases |layers|
  {
    if layers != [] {
      assert layers[|layers| - 1] in layers;
      forall l | l in layers[..|layers| - 1] ensures FindByLeafletId(rendered, l.leafletId).None? {
        assert l in layers;
      }
      UnmatchedEditsChangeNothing(ws, rendered, layers[..|layers| - 1], now);
    }
  }

  /**
   * handleShapeEdited: `layers.eachLayer(...)`, one update per matched layer,
   * each applied to the state the previous one left.
   */
  method ShapeEdited(ws: WorkspaceState, rendered: seq<Feature>, layers: seq<Layer>, now: string)
    returns (next: WorkspaceState)
    ensures next == ApplyEdits(ws, rendered, layers, now)
    ensures |next.features| == |ws.features|
    ensures forall i :: 0 <= i < |ws.features| ==> SameExceptGeometry(ws.features[i], next.features[i])
  {
    next := ws;
    var i := 0;
    while i < |layers|
      invariant 0 <= i <= |layers|
      invariant next == ApplyEdits(ws, rendered, layers[..i], now)
    {
      var layer := layers[i];
      var feature := FindByLeafletId(rendered, layer.leafletId);
      if feature.Some? {
        var patch := EditPatch(layer);
        if patch.Some? {
          next := UpdateFeature(next, feature.value.id, patch.value, now);
        }
      }
      assert layers[..i + 1][..i] == layers[..i];
      i := i + 1;
    }
    assert layers[..i] == layers;
    EditsKeepIdentity(ws, rendered, layers, now);
  }

  // ---------------------------------------------------------------------------
  // handleShapeDeleted
  // ---------------------------------------------------------------------------

  /** Some deleted layer carries the id of a rendered feature. */
  predicate AnyMatched(rendered: seq<Feature>, layers: seq<Layer>) {
    exists i :: 0 <= i < |layers| && FindByLeafletId(rendered, layers[i].leafletId).Some?
  }

  /**
   * handleShapeDeleted: a matched layer only clears the selection; no
   * feature is removed and the history is untouched.
   */
  method ShapeDeleted(ws: WorkspaceState, rendered: seq<Feature>, layers: seq<Layer>)
    returns (next: WorkspaceState)
    ensures AnyMatched(rendered, layers) ==> next == ws.(activeFeatureId := None)
    ensures !AnyMatched(rendered, layers) ==> next == ws
    ensures next.features == ws.features && next.undoStack == ws.undoStack && next.redoStack == ws.redoStack
  {
    next := ws;
    var i := 0;
    while i < |layers|
      invariant 0 <= i <= |layers|
      invariant next == if AnyMatched(rendered, layers[..i]) then ws.(activeFeatureId := None) else ws
    {
      var feature := FindByLeafletId(rendered, layers[i].leafletId);
      if feature.Some? {
        next := SelectFeature(next, None);
        assert layers[..i + 1][i] == layers[i];
      }
      assert forall j :: 0 <= j < i ==> layers[..i + 1][j] == layers[..i][j];
      i := i + 1;
    }
    assert layers[..i] == layers;
  }

  // ---------------------------------------------------------------------------
  // The back-reference is never set
  // ---------------------------------------------------------------------------

  /** No feature, live or in a snapshot, carries a drawing-surface id. */
  predicate Unlinked(ws: WorkspaceState) {
    && (forall f :: f in ws.features ==> f.leafletId.None?)
    && (forall s, f :: s in ws.undoStack && f in s ==> f.leafletId.None?)
    && (forall s, f :: s in ws.redoStack && f in s ==> f.leafletId.None?)
  }

  /** No workspace operation ever sets the back-reference. */
  lemma StepKeepsUnlinked(ws: WorkspaceState, a: Action)
    requires ValidDraw(a) && Unlinked(ws)
    ensures Unlinked(Step(ws, a))
  {
    match a
    case AddAction(c, k, xs, n, rad, id, roll, now) =>
      if Encodable(k, xs, rad) {
        AddKeepsUnlinked(ws, c, k, xs, n, rad, id, roll, now);
      }
    case UpdateAction(id, p, now) =>
      UpdateKeepsUnlinked(ws, id, p, now);
    case UndoAction =>
      UndoKeepsUnlinked(ws);
    case RedoAction =>
      RedoKeepsUnlinked(ws);
    case _ =>
  }

  /** The feature addFeature creates carries no back-reference. */
  lemma AddKeepsUnlinked(ws: WorkspaceState, renderedCount: nat, kind: Kind, coords: Coords,
                         customName: Option<string>, radius: Option<real>, id: string, roll: nat, now: string)
    requires roll < |Palette| && Unlinked(ws) && Encodable(kind, coords, radius)
    ensures Unlinked(AddFeature(ws, renderedCount, kind, coords, customName, radius, id, roll, now).value)
  {
    var r := AddFeature(ws, renderedCount, kind, coords, customName, radius, id, roll, now).value;
    forall f | f in r.features ensures f.leafletId.None? {
      var i :| 0 <= i < |r.features| && r.features[i] == f;
      if i < |ws.features| {
        assert r.features[..|ws.features|][i] == f;
      }
    }
    assert forall s :: s in r.undoStack ==> s in ws.undoStack || s == ws.features;
  }

  /** A patch has no back-reference field, so an update cannot set one. */
  lemma UpdateKeepsUnlinked(ws: WorkspaceState, id: string, p: Patch, now: string)
    requires Unlinked(ws)
    ensures Unlinked(UpdateFeature(ws, id, p, now))
  {
    var r := UpdateFeature(ws, id, p, now);
    if id in Ids(ws.features) {
      forall f | f in r.features ensures f.leafletId.None? {
        var i :| 0 <= i < |r.features| && r.features[i] == f;
        assert ws.features[i] in ws.features;
      }
      assert forall s :: s in r.undoStack ==> s in ws.undoStack || s == ws.features;
    }
  }

  /** Undo restores a snapshot, which had no back-references. */
  lemma UndoKeepsUnlinked(ws: WorkspaceState)
    requires Unlinked(ws)
    ensures Unlinked(Undo(ws))
  {
    var r := Undo(ws);
    if ws.undoStack != [] {
      assert r.features in ws.undoStack;
      assert forall s :: s in r.undoStack ==> s in ws.undoStack;
      assert forall s :: s in r.redoStack ==> s in ws.redoStack || s == ws.features;
    }
  }

  /** Redo restores a snapshot, which had no back-references. */
  lemma RedoKeepsUnlinked(ws: WorkspaceState)
    requires Unlinked(ws)
    ensures Unlinked(Redo(ws))
  {
    var r := Redo(ws);
    if ws.redoStack != [] {
      assert r.features in ws.redoStack;
      assert forall s :: s in r.redoStack ==> s in ws.redoStack;
      assert forall s :: s in r.undoStack ==> s in ws.undoStack || s == ws.features;
    }
  }

  /**
   * With the back-reference never set, edit and delete events from the
   * drawing surface match nothing: both handlers leave the state as it was.
   */
  lemma UnlinkedEventsChangeNothing(ws: WorkspaceState, rendered: seq<Feature>, layers: seq<Layer>, now: string)
    requires forall f :: f in rendered ==> f.leafletId.None?
    ensures ApplyEdits(ws, rendered, layers, now) == ws
    ensures !AnyMatched(rendered, layers)
  {
    UnmatchedEditsChangeNothing(ws, rendered, layers, now);
  }
}
