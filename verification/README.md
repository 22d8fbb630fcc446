# FlowBit-AI areas of interest, modelled in Dafny

FlowBit-AI is a map application. A user draws areas of interest on a map: points, lines, polygons, rectangles and circles. The user can then edit, select, delete, undo and redo them. This project models the core of that application and proves properties about it:

- **Workspace** (`workspace.dfy`, from `src/state/workspace.ts`): the state machine behind `useWorkspace`.
  - Each operation is a `prev => next` updater on one `WorkspaceState` record. Here each one is a function from the old state to the new one.
  - Covered: the initial state, the load-on-mount effect, addFeature, updateFeature, deleteFeature, selection, the tool and the edit mode, the layer toggles, the viewport, and snapshot undo/redo with canUndo/canRedo.
  - `Workspace.Step` runs any operation. The lemmas about it state what every operation preserves.
- **Geo** (`geo.ts`):
  - the GeoJSON encoder and decoder, with the `[lat, lng]` ↔ `[lng, lat]` swap and their round trips;
  - the Douglas–Peucker line simplifier, with the distance function as a parameter;
  - the area loop and its `< 3` guard;
  - the feature-count threshold.
- **MapView** (`map_view.dfy`, from `src/components/MapView/index.tsx`): the drawing-tool table (`toolMap`) and the three leaflet-draw handlers.
  - The created handler turns a drawn layer into an `addFeature` call followed by `setTool(null)`.
  - The edited and deleted handlers loop over the event's layers. They are methods with loops, proved against recursive specification functions.
- **App** (`app.dfy`, from `src/App.tsx`): the keyboard dispatch.
  - Ctrl/Cmd+Z undoes. Ctrl/Cmd+Y and Ctrl/Cmd+Shift+Z redo.
  - Escape is the composition `setTool(null); setEditMode(false); selectFeature(null)`.
- **Subsequence** (`subsequence.dfy`): order-preserving selection. It states what a delete and a simplification keep.

Numbers are Dafny `real`s. Parameters stand in for:

| parameter | stands for |
|---|---|
| `id` | `makeId` |
| `roll < 6` | the random draw of `pickColor` |
| `now` | the clock |
| `dist` | the perpendicular-distance function |
| `toRad`, `sin` | degree conversion and sine |
| `savedLayers`, `savedViewport`, `loaded` | what storage returned |

React state updaters queued by one handler are applied in call order. A handler is therefore the composition of the operations it calls.

### Behaviour of the code that the model keeps

- `updateFeature` merges the patch and refreshes `updatedAt`. It does not recompute the cached `geoJSON` when the coordinates or the radius change, and neither does `Workspace.UpdateFeature`.
- `addFeature` does not validate the geometry against the kind. It stores nothing only when `toGeoJSON` throws: a shape with no coordinates (a line excepted), or a polygon, rectangle or zero-radius circle given as a flat list of positions.
- On a delete event from the map, the handler only clears the selection (`onSelectFeature(null)`). It does not delete the feature.
- The edit and delete handlers look features up by a `_leafletId` back-reference. No code path ever sets that field. `MapView.StepKeepsUnlinked` and `MapView.UnlinkedEventsChangeNothing` prove the consequence: while no feature carries the back-reference, edit and delete events from the map change nothing.
- When `toGeoJSON` throws in `addFeature` (an unrecognised drawn layer, or a circle of radius 0), `handleShapeCreated` never reaches `onActivateTool(null)`. The drawing tool therefore stays on.

## Model

| member | source | states |
|---|---|---|
| Geo.SwapAll | src/services/geo.ts:29 | every position's two numbers are exchanged, and the length is kept |
| Geo.SwapAllTwice | src/services/geo.ts:78 | swapping back after swapping gives the original positions (lat/lng ↔ lng/lat) |
| Geo.ToGeoJSON | src/services/geo.ts:6-55 | succeeds exactly for encodable input; point and line are swapped positions; a circle with a truthy radius becomes a Point with the radius; anything else becomes a Polygon of the first ring only |
| Geo.FromGeoJSON | src/services/geo.ts:58-90 | null exactly for other geometry types; a polygon without rings is malformed; a Point gives its swapped position and its radius, a circle when the radius is truthy and a point otherwise (a radius of 0 included); a LineString gives a line of swapped positions without radius; a Polygon gives a polygon of its first ring only, swapped; never a rectangle |
| Geo.DecodeOfEncode | src/services/geo.ts:6-90 | decoding an encoded shape gives the shape that survives: only the first position of a point or circle, only the first ring of a polygon, no radius except on a circle, and a rectangle (or a ring-shaped circle without radius) comes back as a polygon |
| Geo.RoundTrip | src/services/geo.ts:6-90 | a canonical shape comes back unchanged; a rectangle comes back as a polygon |
| Geo.EncodeOfDecode | src/services/geo.ts:6-90 | a canonical GeoJSON feature decodes and re-encodes to itself |
| Geo.Farthest | src/services/geo.ts:129-140 | the distance is never negative; a non-zero index is an interior vertex whose positive distance is the one returned; index 0 comes with distance 0 |
| Geo.FarthestIsMaximal | src/services/geo.ts:129-140 | the returned distance is at least every scanned interior distance and strictly greater than every distance before the returned index, so the index is the first farthest vertex and is 0 only when no distance is positive |
| Geo.FarthestVertex | src/services/geo.ts:129-140 | the scan loop computes Farthest; every interior distance is at most maxDist; maxIndex is 0 exactly when maxDist is 0 |
| Geo.Decide | src/services/geo.ts:142-147 | for a positive tolerance: collapse exactly when every interior distance is below the tolerance, otherwise split at an interior vertex; for tolerance ≤ 0 it always splits |
| Geo.DecideSplitsAtFarthest | src/services/geo.ts:134-147 | a split is at the vertex the scan found: the first farthest interior vertex, or index 0 only when no vertex lies off the chord |
| Geo.Simplify | src/services/geo.ts:126-150 | for tolerance > 0: at most two points are returned unchanged; both endpoints are kept; the result is an order-preserving subsequence of the input and no longer than it |
| Geo.SimplifyCollapses | src/services/geo.ts:142-144 | when every interior distance is below the tolerance, only the two endpoints remain |
| Geo.NonPositiveToleranceRecursesOnInput | src/services/geo.ts:142-147 | with tolerance ≤ 0 and every interior distance ≤ 0, the right half is the whole input again |
| Geo.SimplifyGuarded | src/services/geo.ts:126-150 | terminates for every tolerance; same endpoint, length and subsequence guarantees as Simplify |
| Geo.SimplifyJoin | src/services/geo.ts:145-149 | at a split inside the line, the result is the left half's result without its last vertex, followed by the right half's result |
| Geo.GuardedJoin | src/services/geo.ts:145-149 | the same unfolding for the guarded simplifier, at any split other than index 0 |
| Geo.SimplifyGuardedAgrees | src/services/geo.ts:126-150 | for a positive tolerance the guarded simplifier equals the one as written |
| Geo.ZeroToleranceKeepsSpreadLine | src/services/geo.ts:126-150 | with tolerance 0, a line on which no vertex lies on the chord between an earlier and a later vertex keeps every vertex |
| Geo.CalcArea | src/services/geo.ts:156-176 | fewer than 3 vertices give 0; otherwise \|Σ term · R² / 2\| with R = 6371000, never negative |
| Geo.OneMeridianHasNoArea | src/services/geo.ts:162-172 | vertices all on one meridian contribute a zero sum |
| Geo.TooManyPointsThreshold | src/services/geo.ts:180-182 | 100 is not too many, 101 is, and the test is monotone |
| Workspace.PickColor | src/helpers.ts:29-39 | the colour is one of the six palette entries and never empty |
| Workspace.NatToStringRoundTrip | src/state/workspace.ts:69 | the count in the default name reads back as the number |
| Workspace.DefaultNameParts | src/state/workspace.ts:67-69 | the default name is the capitalised kind, a space and count + 1 in decimal |
| Workspace.FirstPointName | src/state/workspace.ts:67-69 | the first point in an empty workspace is named "Point 1" |
| Workspace.InitialState | src/state/workspace.ts:18-32 | empty list, history, selection and tool; layers shown unless saved as false; saved viewport or Cologne at zoom 13; the invariant holds |
| Workspace.LoadSavedFeatures | src/state/workspace.ts:35-38 | the loaded list replaces the features without touching the history or anything else |
| Workspace.AddFeature | src/state/workspace.ts:55-89 | no change exactly when the coordinates are not encodable (toGeoJSON throws; see the Workspace.AddFeature line under Left out); otherwise exactly one feature appended, with the given id, the custom or default name, a palette colour, the encoded geometry and the creation time; it is selected; the old list is pushed and redo is cleared; nothing else changes |
| Workspace.FindIndex | src/state/workspace.ts:94-95 | the first index holding the id, or -1 exactly when the id is absent |
| Workspace.UpdateFeature | src/state/workspace.ts:91-115 | a missing id changes nothing; otherwise only the first feature with the id is replaced by the merge with a fresh updatedAt, the old list is pushed and redo is cleared |
| Workspace.RemoveId | src/state/workspace.ts:120 | keeps exactly the features with a different id, in order; an absent id keeps the list |
| Workspace.RemoveIdCounts | src/state/workspace.ts:120 | every copy of a feature with a different id is kept, and no copy of one with the id |
| Workspace.RemoveIdKeepsUnique | src/state/workspace.ts:120 | filtering keeps ids unique |
| Workspace.DeleteFeature | src/state/workspace.ts:117-126 | removes exactly the features with the id, keeping the order and every copy of the others; clears the selection only if it was that id; pushes the old list and clears redo |
| Workspace.SelectFeature | src/state/workspace.ts:128-130 | only the selection changes |
| Workspace.SetTool | src/state/workspace.ts:132-141 | choosing the active tool again turns it off and keeps edit mode; another tool is set and edit mode is turned off; tool and edit mode are never both on afterwards |
| Workspace.SetEditMode | src/state/workspace.ts:143-149 | enabling edit mode clears the tool; disabling keeps it; the modes stay exclusive |
| Workspace.ToggleSatellite | src/state/workspace.ts:151-153 | only the satellite flag flips |
| Workspace.ToggleFeatures | src/state/workspace.ts:155-157 | only the features-visible flag flips |
| Workspace.SetViewport | src/state/workspace.ts:159-164 | only the viewport changes, to the given centre and zoom |
| Workspace.ToggleTwice | src/state/workspace.ts:151-157 | toggling twice is the identity |
| Workspace.Undo | src/state/workspace.ts:166-178 | an empty undo stack changes nothing; otherwise the top snapshot becomes the list and the list goes onto redo |
| Workspace.Redo | src/state/workspace.ts:180-192 | an empty redo stack changes nothing; otherwise the top redo snapshot becomes the list and the list goes onto undo |
| Workspace.CanUndoRedoExactly | src/state/workspace.ts:207-208 | canUndo/canRedo hold exactly when undo/redo would change the state |
| Workspace.RedoAfterUndo | src/state/workspace.ts:166-192 | redo right after undo restores the state exactly |
| Workspace.UndoAfterRedo | src/state/workspace.ts:166-192 | undo right after redo restores the state exactly |
| Workspace.UndoAfterCommit | src/state/workspace.ts:80-86 | undoing a recorded change restores the list and the undo stack |
| Workspace.UndoAfterAdd | src/state/workspace.ts:55-89 | undo after add restores the list and the undo stack; redo brings the same feature back |
| Workspace.UndoAfterDelete | src/state/workspace.ts:117-126 | undo after delete restores the list with the deleted features in place |
| Workspace.UndoAfterUpdate | src/state/workspace.ts:91-115 | undo after an update of a present id restores the list |
| Workspace.PointAddDeleteUndo | src/state/workspace.ts:55-178 | a point added to an empty map is "Point 1" and selected; deleting it empties the map and clears the selection; undo restores the same feature |
| Workspace.StepKeepsModesExclusive | src/state/workspace.ts:132-149 | no operation turns on a tool and edit mode together |
| Workspace.NonHistoryOperations | src/state/workspace.ts:128-149 | selection, tool and edit-mode changes leave the list and both stacks alone |
| Workspace.ListChangesClearRedo | src/state/workspace.ts:80-126 | every add, update or delete that changes the list clears redo |
| Workspace.AddKeepsInvariant | src/state/workspace.ts:55-89 | adding a feature with a fresh id keeps ids unique in the list and in every snapshot, and keeps the modes exclusive |
| Workspace.UpdateKeepsInvariant | src/state/workspace.ts:91-115 | an update whose patch does not carry an id keeps the invariant |
| Workspace.UndoKeepsInvariant | src/state/workspace.ts:166-178 | undo keeps the invariant: the restored list was a snapshot |
| Workspace.RedoKeepsInvariant | src/state/workspace.ts:180-192 | redo keeps the invariant: the restored list was a snapshot |
| Workspace.DeleteKeepsInvariant | src/state/workspace.ts:117-126 | a delete keeps ids unique in the list and in every snapshot, and keeps the modes exclusive |
| Workspace.StepPreservesInvariant | src/state/workspace.ts:55-192 | with fresh ids on add, every operation keeps ids unique in the list and in all snapshots, and keeps the modes exclusive |
| MapView.ToolHandlerInjective | src/components/MapView/index.tsx:231-237 | distinct tools enable distinct leaflet-draw handlers |
| MapView.RectangleRing | src/components/MapView/index.tsx:322-334 | NW, NE, SE, SW and NW again: closed, axis-aligned edges, corners only, four distinct corners when the bounds are not degenerate |
| MapView.ShapeOf | src/components/MapView/index.tsx:298-335 | the kind matches the layer type's handler; a marker gives its position, a polyline its vertices, a circle its centre and radius, a polygon its outer ring, a rectangle the ring of its bounds; only circles carry a radius; an unrecognised layer gives a polygon with an empty list of positions and no radius, which is not encodable |
| MapView.CreatedShapesRoundTrip | src/components/MapView/index.tsx:298-337 | every recognised drawn shape survives the GeoJSON round trip (rectangle as polygon) |
| MapView.ShapeCreated | src/components/MapView/index.tsx:298-340 | an encodable shape is appended with its default name, a palette colour, its encoded geometry and the creation time, and selected; the tool is reset (edit mode kept only if no tool was on); the old list is pushed, redo cleared, nothing else changes; otherwise nothing changes (the throw skips the tool reset) |
| MapView.FindByLeafletId | src/components/MapView/index.tsx:349-352 | the first rendered feature carrying the layer's id; none exactly when no rendered feature carries it |
| MapView.EditPatch | src/components/MapView/index.tsx:356-384 | only geometry is patched: a marker's position, a polyline's vertices, a circle's centre with its radius, a polygon's outer ring, a rectangle's ring; no update for an unrecognised layer or a polyline with no vertices |
| MapView.EditOneKeepsIdentity | src/components/MapView/index.tsx:356-384 | one edit changes at most coordinates, radius and update time, and never the list's length |
| MapView.EditsKeepIdentity | src/components/MapView/index.tsx:343-389 | a whole edit event keeps every feature's position, id, kind, name and colour |
| MapView.EditedCircle | src/components/MapView/index.tsx:367-373 | an edited circle gets its new centre and radius in one recorded update |
| MapView.UnmatchedEditsChangeNothing | src/components/MapView/index.tsx:349-356 | edits whose layer ids match no rendered feature leave the state as it was |
| MapView.ShapeEdited | src/components/MapView/index.tsx:343-389 | the loop performs the ordered updates, keeping every feature's position and identity |
| MapView.ShapeDeleted | src/components/MapView/index.tsx:391-408 | clears the selection exactly when some layer matches; features and history untouched |
| MapView.AddKeepsUnlinked | src/state/workspace.ts:55-89 | a new feature is stored without a back-reference, and the old list becomes a snapshot |
| MapView.UpdateKeepsUnlinked | src/state/workspace.ts:91-115 | a patch has no back-reference field, so the updated feature keeps the old one's (none), and the old list becomes a snapshot |
| MapView.UndoKeepsUnlinked | src/state/workspace.ts:166-178 | undo restores a snapshot, which had no back-reference |
| MapView.RedoKeepsUnlinked | src/state/workspace.ts:180-192 | redo restores a snapshot, which had no back-reference |
| MapView.StepKeepsUnlinked | src/components/MapView/index.tsx:349-352 | no workspace operation ever sets the back-reference, live or in a snapshot |
| MapView.UnlinkedEventsChangeNothing | src/components/MapView/index.tsx:343-408 | with no back-references set, edit and delete events change nothing |
| App.Classify | src/App.tsx:27-36 | undo, redo and cancel keys, each as an if-and-only-if on the modifiers and the key |
| App.CancelAll | src/App.tsx:36-41 | Escape leaves no tool, no edit mode and no selection, and changes nothing else |
| App.HandleKeyPress | src/App.tsx:27-42 | each shortcut performs undo, redo, cancel or nothing |
| App.CancelKeepsData | src/App.tsx:36-41 | Escape keeps features and history, is idempotent and leaves the modes exclusive |
| App.CancelClearsEditModeWithoutTool | src/App.tsx:36-41 | with no tool active, `setTool(null)` keeps edit mode, and Escape still clears it |
| App.UpperCaseZIsIgnored | src/App.tsx:30-33 | a key reported as "Z" triggers neither undo nor redo |
| App.KeyboardUndoRedo | src/App.tsx:27-35 | an undo key followed by a redo key restores the state |

## Left out

- Storage (`loadFeatures`, `saveFeatures`, `loadViewport`, `saveViewport`, `loadLayerPrefs`, `saveLayerPrefs`) is I/O. What it returns is a parameter, and the auto-save effects (src/state/workspace.ts:40-53) are not modelled.
- `makeId`, `Math.random` in `pickColor` and `new Date().toISOString()` become the parameters `id`, `roll` and `now`.
- Floating point is modelled with exact reals. NaN, infinities and rounding are not modelled, and a NaN radius is not treated as falsy.
- The perpendicular distance (`Math.sqrt`) stays abstract. `calcArea`'s degree-to-radian conversion and `Math.sin` are parameters.
- The effect that enables and disables leaflet-draw handlers is not modelled beyond `toolMap`. Neither are `isDrawing`, the draw start/stop listeners, rendering, the base layers, search/geocoding and the sidebar. These are UI and foreign library code.
- Registering and removing the keydown listener and calling `preventDefault` are browser I/O.
- `handleShapeCreated` checks both `layerType` and `instanceof`. The model takes leaflet-draw's `layerType` to agree with the layer's class. A mismatch is modelled as `OtherLayer`.
- `handleShapeCreated` and `addFeature` read the feature count from the render they closed over. That count is the parameter `renderedCount`. A stale count from batched updates is therefore possible but not derived.
- React batching and re-rendering are not modelled. The updaters of one handler are applied in call order to the latest state.
- Geo.ToGeoJSON: rings given for a point, a line or a circle with a radius are reported as failing. The code does not throw for them; it builds a geometry that is not valid GeoJSON. No caller passes such input.
- Workspace.AddFeature: refuses the same ring-shaped input for a point, a line or a circle with a radius that Geo.ToGeoJSON reports as failing, although the code would store it.
- Geo.Simplify: requires a positive tolerance, because for tolerance ≤ 0 the code can recurse forever (see Findings). The default tolerance is 0.0001. `simplifyCoords` is not called anywhere in the application.
- Workspace.StepPreservesInvariant: assumes a fresh id for every add and no `id` in an update patch. The code does not check either; `makeId` makes collisions unlikely but not impossible.
- App.Classify: takes `KeyboardEvent.key` as reported. Keyboard layouts and what the browser reports with Shift held are not modelled.

## Findings

| source | as written | input that shows it | evidently intended | confidence | as-written member | corrected member |
|---|---|---|---|---|---|---|
| src/services/geo.ts:142-147 | the only exit for three or more points is `maxDist < tolerance`; otherwise it recurses on `coords.slice(maxIndex)` | `simplifyCoords([[0,0],[0,1],[0,2]], 0)`: every interior distance is 0, so `maxIndex` stays 0 and the right half is the whole input again, recursing without end | as written, but also stop when no interior vertex lies off the chord (`maxIndex` stays 0) | medium, not executed | Geo.NonPositiveToleranceRecursesOnInput | Geo.SimplifyGuarded |
