/**
 * The record types of the workspace (src/types.ts) and the GeoJSON shapes
 * the codec produces.
 */
module Types {

  datatype Option<+T> = None | Some(value: T)

  /** FeatureKind: the five shapes a user can draw. */
  datatype Kind = Point | Line | Polygon | Rectangle | Circle

  /**
   * A two-number coordinate array. The workspace stores [lat, lng];
   * GeoJSON stores [lng, lat] (RFC 7946, section 3.1.1).
   */
  datatype Pair = Pair(first: real, second: real)

  /**
   * `number[][] | number[][][]`: one list of pairs (point, line, circle)
   * or a list of rings (polygon, rectangle).
   */
  datatype Coords = Flat(points: seq<Pair>) | Rings(rings: seq<seq<Pair>>)

  /** The geometry member of a GeoJSON Feature (RFC 7946, sections 3.1.2, 3.1.4, 3.1.6). */
  datatype Geometry =
    | PointGeometry(position: Pair)
    | LineStringGeometry(positions: seq<Pair>)
    | PolygonGeometry(rings: seq<seq<Pair>>)
    | OtherGeometry

  /** A GeoJSON Feature; `radius` is `properties.radius`. */
  datatype GeoFeature = GeoFeature(geometry: Geometry, radius: Option<real>)

  /**
   * AreaOfInterest. `leafletId` is the drawing surface's `_leafletId`
   * back-reference that the edit and delete handlers look up.
   */
  datatype Feature = Feature(
    id: string,
    name: string,
    description: string,
    kind: Kind,
    coordinates: Coords,
    radius: Option<real>,
    color: string,
    createdAt: string,
    updatedAt: string,
    geoJSON: Option<GeoFeature>,
    leafletId: Option<int>)

  datatype Viewport = Viewport(center: Pair, zoom: real)

  datatype WorkspaceState = WorkspaceState(
    features: seq<Feature>,
    activeFeatureId: Option<string>,
    activeTool: Option<Kind>,
    isEditMode: bool,
    showSatellite: bool,
    showFeatures: bool,
    searchQuery: string,
    undoStack: seq<seq<Feature>>,
    redoStack: seq<seq<Feature>>,
    viewport: Viewport)

  /** JavaScript truthiness of an optional number (NaN is not modelled). */
  predicate Truthy(r: Option<real>) {
    r.Some? && r.value != 0.0
  }
}
