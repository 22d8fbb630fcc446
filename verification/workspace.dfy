/**
 * The workspace state machine of src/state/workspace.ts. Every operation
 * there is a `prev => next` updater on one WorkspaceState record; here each
 * is a function from the old state to the new one. The clock (`now`), the
 * id generator and the colour draw are parameters.
 */
module Workspace {
  import opened Types
  import opened Geo
  import opened Subsequence

  // ---------------------------------------------------------------------------
  // Defaults, palette, names
  // ---------------------------------------------------------------------------

  /** Cologne at zoom 13, used when no viewport was saved. */
  const DefaultViewport: Viewport := Viewport(Pair(50.9375, 6.9603), 13.0)

  /** The six colours pickColor draws from. */
  const Palette: seq<string> := ["#0ea5e9", "#10b981", "#8b5cf6", "#f59e0b", "#ec4899", "#06b6d4"]

  /** pickColor, with the random draw `Math.floor(Math.random() * 6)` given as `roll`. */
  function PickColor(roll: nat): (c: string)
    requires roll < |Palette|
    ensures c in Palette && c != ""
  {
    Palette[roll]
  }

  /** The FeatureKind string literal. */
  function KindName(k: Kind): string {
    match k
    case Point => "point"
    case Line => "line"
    case Polygon => "polygon"
    case Rectangle => "rectangle"
    case Circle => "circle"
  }

  function UpperAscii(c: char): char {
    if 'a' <= c <= 'z' then (c as int - 32) as char else c
  }

  /** `s.charAt(0).toUpperCase() + s.slice(1)` for ASCII text. */
  function Capitalize(s: string): string {
    if s == [] then [] else [UpperAscii(s[0])] + s[1..]
  }

  function DigitChar(d: nat): char
    requires d < 10
  {
    "0123456789"[d]
  }

  predicate AllDigits(s: string) {
    forall i :: 0 <= i < |s| ==> '0' <= s[i] <= '9'
  }

  /** The decimal text of a number, as a template literal writes it. */
  function NatToString(n: nat): (s: string)
    ensures |s| >= 1 && AllDigits(s)
    ensures s[0] == '0' ==> n == 0
    decreases n
  {
    if n < 10 then [DigitChar(n)] else NatToString(n / 10) + [DigitChar(n % 10)]
  }

  /** The value of a string of decimal digits. */
  function DigitsValue(s: string): nat
    requires AllDigits(s)
  {
    if s == [] then 0 else DigitsValue(s[..|s| - 1]) * 10 + (s[|s| - 1] as int - '0' as int)
  }

  /** Formatting a number and reading the digits back gives the number. */
  lemma {:induction false} NatToStringRoundTrip(n: nat)
    ensures DigitsValue(NatToString(n)) == n
    decreases n
  {
    var s := NatToString(n);
    if n < 10 {
      assert s[..0] == [];
      DigitCharValue(n);
    } else {
      var q, d := n / 10, n % 10;
      NatToStringRoundTrip(q);
      assert s[..|s| - 1] == NatToString(q);
      assert s[|s| - 1] == DigitChar(d);
      DigitCharValue(d);
      assert DigitsValue(s) == q * 10 + d;
    }
  }

  /** The digit character of d reads back as d. */
  lemma DigitCharValue(d: nat)
    requires d < 10
    ensures DigitChar(d) as int - '0' as int == d
  {
  }

  /** The name addFeature gives when no custom name is passed: "<Kind> <count + 1>". */
  function DefaultName(kind: Kind, count: nat): string {
    Capitalize(KindName(kind)) + " " + NatToString(count + 1)
  }

  /** The default name is the capitalised kind, a space, and the ordinal count + 1. */
  lemma DefaultNameParts(kind: Kind, count: nat)
    ensures var n, w := DefaultName(kind, count), Capitalize(KindName(kind));
      |n| > |w| + 1 && n[..|w|] == w && n[|w|] == ' '
      && AllDigits(n[|w| + 1..]) && DigitsValue(n[|w| + 1..]) == count + 1
  {
    var n, w := DefaultName(kind, count), Capitalize(KindName(kind));
    assert n[|w| + 1..] == NatToString(count + 1);
    NatToStringRoundTrip(count + 1);
  }

  /** The first point drawn into an empty workspace is called "Point 1". */
  lemma FirstPointName()
    ensures DefaultName(Point, 0) == "Point 1"
  {
  }

  // ---------------------------------------------------------------------------
  // Invariants
  // ---------------------------------------------------------------------------

  /** A drawing tool and edit mode are never on together. */
  predicate ModesExclusive(ws: WorkspaceState) {
    !(ws.activeTool.Some? && ws.isEditMode)
  }

  function Ids(fs: seq<Feature>): set<string> {
    set f | f in fs :: f.id
  }

  predicate UniqueIds(fs: seq<Feature>) {
    forall i, j :: 0 <= i < j < |fs| ==> fs[i].id != fs[j].id
  }

  /** Mode exclusion, and unique ids in the live list and in every snapshot. */
  predicate Invariant(ws: WorkspaceState) {
    && ModesExclusive(ws)
    && UniqueIds(ws.features)
    && (forall s :: s in ws.undoStack ==> UniqueIds(s))
    && (forall s :: s in ws.redoStack ==> UniqueIds(s))
  }

  // ---------------------------------------------------------------------------
  // Startup
  // ---------------------------------------------------------------------------

  /** The stored layer preferences; either field may be missing from the saved record. */
  datatype LayerPrefs = LayerPrefs(satellite: Option<bool>, features: Option<bool>)

  /** `saved?.field ?? true` */
  function OrTrue(b: Option<bool>): bool {
    if b.Some? then b.value else true
  }

  /** The state useWorkspace starts from, given what was read from storage. */
  function InitialState(savedLayers: Option<LayerPrefs>, savedViewport: Option<Viewport>): (ws: WorkspaceState)
    ensures ws.features == [] && ws.undoStack == [] && ws.redoStack == []
    ensures ws.activeFeatureId.None? && ws.activeTool.None? && !ws.isEditMode && ws.searchQuery == ""
    ensures !ws.showSatellite <==> savedLayers.Some? && savedLayers.value.satellite == Some(false)
    ensures !ws.showFeatures <==> savedLayers.Some? && savedLayers.value.features == Some(false)
    ensures savedViewport.Some? ==> ws.viewport == savedViewport.value
    ensures savedViewport.None? ==> ws.viewport.center == Pair(50.9375, 6.9603) && ws.viewport.zoom == 13.0
    ensures Invariant(ws)
  {
    WorkspaceState(
      features := [],
      activeFeatureId := None,
      activeTool := None,
      isEditMode := false,
      showSatellite := if savedLayers.Some? then OrTrue(savedLayers.value.satellite) else true,
      showFeatures := if savedLayers.Some? then OrTrue(savedLayers.value.features) else true,
      searchQuery := "",
      undoStack := [],
      redoStack := [],
      viewport := if savedViewport.Some? then savedViewport.value else DefaultViewport)
  }

  /** The mount effect: the saved features replace the list, outside the history. */
  function LoadSavedFeatures(prev: WorkspaceState, loaded: seq<Feature>): (r: WorkspaceState)
    ensures r.features == loaded
    ensures r.undoStack == prev.undoStack && r.redoStack == prev.redoStack
    ensures r.(features := prev.features) == prev
  {
    prev.(features := loaded)
  }

  // ---------------------------------------------------------------------------
  // Feature store
  // ---------------------------------------------------------------------------

  /** A new list of features, recorded in the history: the old list is pushed, redo is cleared. */
  function Commit(prev: WorkspaceState, features: seq<Feature>): WorkspaceState {
    prev.(features := features, undoStack := prev.undoStack + [prev.features], redoStack := [])
  }

  /**
   * addFeature. `renderedCount` is the feature count the callback closed
   * over (`workspace.features.length`), which names the feature; `id`,
   * `roll` and `now` stand for makeId, pickColor's draw and the clock.
   * None: toGeoJSON threw, so the state is not updated at all.
   */
  function AddFeature(prev: WorkspaceState, renderedCount: nat, kind: Kind, coords: Coords,
                      customName: Option<string>, radius: Option<real>,
                      id: string, roll: nat, now: string): (r: Option<WorkspaceState>)
    requires roll < |Palette|
    ensures r.None? <==> !Encodable(kind, coords, radius)
    ensures r.Some? ==>
      var n := |prev.features|;
      var ws := r.value;
      && |ws.features| == n + 1
      && ws.features[..n] == prev.features
      && var f := ws.features[n];
      && f.id == id && f.kind == kind && f.coordinates == coords && f.radius == radius
      && f.name == (if customName.Some? && customName.value != "" then customName.value
                    else DefaultName(kind, renderedCount))
      && f.description == "" && f.color in Palette
      && f.createdAt == now && f.updatedAt == now
      && f.geoJSON == ToGeoJSON(kind, coords, radius) && f.leafletId.None?
      && ws.activeFeatureId == Some(id)
      && ws.undoStack == prev.undoStack + [prev.features] && ws.redoStack == []
      && ws.(features := prev.features, activeFeatureId := prev.activeFeatureId,
             undoStack := prev.undoStack, redoStack := prev.redoStack) == prev
  {
    var geoData := ToGeoJSON(kind, coords, radius);
    if geoData.None? then None
    else
      var name := if customName.Some? && customName.value != "" then customName.value
                  else DefaultName(kind, renderedCount);
      var feature := Feature(id, name, "", kind, coords, radius, PickColor(roll), now, now, geoData, None);
      var next := Commit(prev, prev.features + [feature]).(activeFeatureId := Some(id));
      assert next.features[..|prev.features|] == prev.features;
      Some(next)
  }

  /** `findIndex(f => f.id === id)`: the first position holding `id`, or -1. */
  function FindIndex(fs: seq<Feature>, id: string): (i: int)
    ensures -1 <= i < |fs|
    ensures i == -1 <==> id !in Ids(fs)
    ensures i >= 0 ==> fs[i].id == id && forall j :: 0 <= j < i ==> fs[j].id != id
    decreases |fs|
  {
    if fs == [] then -1
    else if fs[0].id == id then 0
    else
      var k := FindIndex(fs[1..], id);
      assert Ids(fs) == {fs[0].id} + Ids(fs[1..]);
      if k == -1 then -1 else k + 1
  }

  /** `Partial<AreaOfInterest>`: the fields present in an update. */
  datatype Patch = Patch(
    id: Option<string>,
    name: Option<string>,
    description: Option<string>,
    kind: Option<Kind>,
    coordinates: Option<Coords>,
    radius: Option<real>,
    color: Option<string>,
    createdAt: Option<string>,
    geoJSON: Option<GeoFeature>)

  /** An update carrying only new coordinates (and a radius, for a circle). */
  function GeometryPatch(coords: Coords, radius: Option<real>): Patch {
    Patch(None, None, None, None, Some(coords), radius, None, None, None)
  }

  function Pick<T>(o: Option<T>, d: T): T {
    if o.Some? then o.value else d
  }

  /** `{ ...f, ...updates, updatedAt: now }` */
  function Merge(f: Feature, p: Patch, now: string): Feature {
    Feature(
      id := Pick(p.id, f.id),
      name := Pick(p.name, f.name),
      description := Pick(p.description, f.description),
      kind := Pick(p.kind, f.kind),
      coordinates := Pick(p.coordinates, f.coordinates),
      radius := if p.radius.Some? then p.radius else f.radius,
      color := Pick(p.color, f.color),
      createdAt := Pick(p.createdAt, f.createdAt),
      updatedAt := now,
      geoJSON := if p.geoJSON.Some? then p.geoJSON else f.geoJSON,
      leafletId := f.leafletId)
  }

  /**
   * updateFeature: a miss returns the state unchanged; a hit replaces the
   * first feature with that id by the merged record and records the old
   * list in the history.
   */
  function UpdateFeature(prev: WorkspaceState, id: string, patch: Patch, now: string): (r: WorkspaceState)
    ensures id !in Ids(prev.features) ==> r == prev
    ensures id in Ids(prev.features) ==>
      var i := FindIndex(prev.features, id);
      && |r.features| == |prev.features|
      && r.features[i] == Merge(prev.features[i], patch, now)
      && (forall j :: 0 <= j < |prev.features| && j != i ==> r.features[j] == prev.features[j])
      && r.undoStack == prev.undoStack + [prev.features] && r.redoStack == []
      && r.(features := prev.features, undoStack := prev.undoStack, redoStack := prev.redoStack) == prev
  {
    var idx := FindIndex(prev.features, id);
    if idx == -1 then prev
    else
      var updated := Merge(prev.features[idx], patch, now);
      Commit(prev, prev.features[idx := updated])
  }

  /** `filter(f => f.id !== id)` */
  function RemoveId(fs: seq<Feature>, id: string): (r: seq<Feature>)
    ensures forall f :: f in r <==> f in fs && f.id != id
    ensures IsSubsequence(r, fs)
    ensures id !in Ids(fs) ==> r == fs
    decreases |fs|
  {
    if fs == [] then []
    else
      var rest := RemoveId(fs[1..], id);
      assert Ids(fs) == {fs[0].id} + Ids(fs[1..]);
      if fs[0].id == id then rest
      else
        var r := [fs[0]] + rest;
        assert r[1..] == rest;
        r
  }

  /** The filter keeps every copy of every feature without `id`, and no copy of one with it. */
  lemma {:induction false} RemoveIdCounts(fs: seq<Feature>, id: string)
    ensures forall g :: multiset(RemoveId(fs, id))[g] == if g.id != id then multiset(fs)[g] else 0
    decreases |fs|
  {
    if fs != [] {
      RemoveIdCounts(fs[1..], id);
      assert fs == [fs[0]] + fs[1..];
      if fs[0].id != id {
        assert RemoveId(fs, id) == [fs[0]] + RemoveId(fs[1..], id);
      }
    }
  }

  /** Removing features keeps the remaining ids unique. */
  lemma {:induction false} RemoveIdKeepsUnique(fs: seq<Feature>, id: string)
    requires UniqueIds(fs)
    ensures UniqueIds(RemoveId(fs, id))
    decreases |fs|
  {
    if fs != [] {
      RemoveIdKeepsUnique(fs[1..], id);
      var rest := RemoveId(fs[1..], id);
      if fs[0].id != id {
        forall g | g in rest ensures g.id != fs[0].id {
          var k :| 0 <= k < |fs[1..]| && fs[1..][k] == g;
          assert fs[k + 1] == g;
        }
        var r := RemoveId(fs, id);
        assert r == [fs[0]] + rest;
        forall i, j | 0 <= i < j < |r| ensures r[i].id != r[j].id {
          if i == 0 {
            assert r[j] == rest[j - 1];
            assert rest[j - 1] in rest;
          } else {
            assert r[i] == rest[i - 1] && r[j] == rest[j - 1];
          }
        }
      }
    }
  }

  /**
   * deleteFeature: removes every feature with `id`, clears the selection
   * only if it was `id`, and records the old list even when nothing was
   * removed.
   */
  function DeleteFeature(prev: WorkspaceState, id: string): (r: WorkspaceState)
    ensures forall f :: f in r.features <==> f in prev.features && f.id != id
    ensures IsSubsequence(r.features, prev.features)
    ensures id !in Ids(prev.features) ==> r.features == prev.features
    ensures forall g :: multiset(r.features)[g] == if g.id != id then multiset(prev.features)[g] else 0
    ensures r.activeFeatureId == if prev.activeFeatureId == Some(id) then None else prev.activeFeatureId
    ensures r.undoStack == prev.undoStack + [prev.features] && r.redoStack == []
    ensures r.(features := prev.features, activeFeatureId := prev.activeFeatureId,
               undoStack := prev.undoStack, redoStack := prev.redoStack) == prev
  {
    RemoveIdCounts(prev.features, id);
    Commit(prev, RemoveId(prev.features, id))
      .(activeFeatureId := if prev.activeFeatureId == Some(id) then None else prev.activeFeatureId)
  }

  // ---------------------------------------------------------------------------
  // Selection, tool and edit mode, layers, viewport
  // ---------------------------------------------------------------------------

  /** selectFeature: only the selection changes. */
  function SelectFeature(prev: WorkspaceState, id: Option<string>): (r: WorkspaceState)
    ensures r.activeFeatureId == id
    ensures r.(activeFeatureId := prev.activeFeatureId) == prev
  {
    prev.(activeFeatureId := id)
  }

  /**
   * setTool: choosing the active tool again switches it off and leaves edit
   * mode alone; any other choice becomes the tool and switches edit mode
   * off. Either way a tool and edit mode are never on together.
   */
  function SetTool(prev: WorkspaceState, tool: Option<Kind>): (r: WorkspaceState)
    ensures prev.activeTool == tool ==> r.activeTool.None? && r.isEditMode == prev.isEditMode
    ensures prev.activeTool != tool ==> r.activeTool == tool && !r.isEditMode
    ensures r.(activeTool := prev.activeTool, isEditMode := prev.isEditMode) == prev
    ensures ModesExclusive(r)
  {
    if prev.activeTool == tool then prev.(activeTool := None)
    else prev.(activeTool := tool, isEditMode := false)
  }

  /** setEditMode: switching edit mode on clears the tool; switching it off keeps it. */
  function SetEditMode(prev: WorkspaceState, enabled: bool): (r: WorkspaceState)
    ensures r.isEditMode == enabled
    ensures r.activeTool == if enabled then None else prev.activeTool
    ensures r.(activeTool := prev.activeTool, isEditMode := prev.isEditMode) == prev
    ensures ModesExclusive(r)
  {
    prev.(isEditMode := enabled, activeTool := if enabled then None else prev.activeTool)
  }

  function ToggleSatellite(prev: WorkspaceState): (r: WorkspaceState)
    ensures r.showSatellite == !prev.showSatellite
    ensures r.(showSatellite := prev.showSatellite) == prev
  {
    prev.(showSatellite := !prev.showSatellite)
  }

  function ToggleFeatures(prev: WorkspaceState): (r: WorkspaceState)
    ensures r.showFeatures == !prev.showFeatures
    ensures r.(showFeatures := prev.showFeatures) == prev
  {
    prev.(showFeatures := !prev.showFeatures)
  }

  function SetViewport(prev: WorkspaceState, center: Pair, zoom: real): (r: WorkspaceState)
    ensures r.viewport == Viewport(center, zoom)
    ensures r.(viewport := prev.viewport) == prev
  {
    prev.(viewport := Viewport(center, zoom))
  }

  /** Toggling a layer twice restores the state. */
  lemma ToggleTwice(ws: WorkspaceState)
    ensures ToggleSatellite(ToggleSatellite(ws)) == ws
    ensures ToggleFeatures(ToggleFeatures(ws)) == ws
  {
  }

  // ---------------------------------------------------------------------------
  // History
  // ---------------------------------------------------------------------------

  /** undo: the last snapshot becomes the list and the current list goes onto the redo stack. */
  function Undo(prev: WorkspaceState): (r: WorkspaceState)
    ensures prev.undoStack == [] ==> r == prev
    ensures prev.undoStack != [] ==>
      && r.features == prev.undoStack[|prev.undoStack| - 1]
      && r.undoStack + [r.features] == prev.undoStack
      && r.redoStack == prev.redoStack + [prev.features]
    ensures r.(features := prev.features, undoStack := prev.undoStack, redoStack := prev.redoStack) == prev
  {
    if |prev.undoStack| == 0 then prev
    else
      var n := |prev.undoStack|;
      assert prev.undoStack[..n - 1] + [prev.undoStack[n - 1]] == prev.undoStack;
      prev.(features := prev.undoStack[n - 1],
            undoStack := prev.undoStack[..n - 1],
            redoStack := prev.redoStack + [prev.features])
  }

  /** redo: the mirror image of undo. */
  function Redo(prev: WorkspaceState): (r: WorkspaceState)
    ensures prev.redoStack == [] ==> r == prev
    ensures prev.redoStack != [] ==>
      && r.features == prev.redoStack[|prev.redoStack| - 1]
      && r.redoStack + [r.features] == prev.redoStack
      && r.undoStack == prev.undoStack + [prev.features]
    ensures r.(features := prev.features, undoStack := prev.undoStack, redoStack := prev.redoStack) == prev
  {
    if |prev.redoStack| == 0 then prev
    else
      var n := |prev.redoStack|;
      assert prev.redoStack[..n - 1] + [prev.redoStack[n - 1]] == prev.redoStack;
      prev.(features := prev.redoStack[n - 1],
            redoStack := prev.redoStack[..n - 1],
            undoStack := prev.undoStack + [prev.features])
  }

  function CanUndo(ws: WorkspaceState): bool {
    |ws.undoStack| > 0
  }

  function CanRedo(ws: WorkspaceState): bool {
    |ws.redoStack| > 0
  }

  /** The Undo and Redo buttons are enabled exactly when pressing them would change the state. */
  lemma CanUndoRedoExactly(ws: WorkspaceState)
    ensures CanUndo(ws) <==> Undo(ws) != ws
    ensures CanRedo(ws) <==> Redo(ws) != ws
  {
    if CanUndo(ws) {
      assert |Undo(ws).undoStack| < |ws.undoStack|;
    }
    if CanRedo(ws) {
      assert |Redo(ws).redoStack| < |ws.redoStack|;
    }
  }

  /** Undo followed by redo gives back exactly the state before the undo. */
  lemma RedoAfterUndo(ws: WorkspaceState)
    requires ws.undoStack != []
    ensures Redo(Undo(ws)) == ws
  {
    var u := Undo(ws);
    assert u.redoStack[..|u.redoStack| - 1] == ws.redoStack;
  }

  /** Redo followed by undo gives back exactly the state before the redo. */
  lemma UndoAfterRedo(ws: WorkspaceState)
    requires ws.redoStack != []
    ensures Undo(Redo(ws)) == ws
  {
    var r := Redo(ws);
    assert r.undoStack[..|r.undoStack| - 1] == ws.undoStack;
  }

  /**
   * Undoing a recorded change restores the list and the undo stack from
   * before it; the changed list becomes the only redo entry.
   */
  lemma UndoAfterCommit(prev: WorkspaceState, features: seq<Feature>)
    ensures var u := Undo(Commit(prev, features));
      u.features == prev.features && u.undoStack == prev.undoStack && u.redoStack == [features]
  {
    var c := Commit(prev, features);
    assert c.undoStack[..|c.undoStack| - 1] == prev.undoStack;
  }

  /**
   * Add, then undo: the list and the undo stack are back, the new feature is
   * on the redo stack, and a redo brings it back with the same id, name and
   * creation time.
   */
  lemma UndoAfterAdd(prev: WorkspaceState, renderedCount: nat, kind: Kind, coords: Coords,
                     customName: Option<string>, radius: Option<real>, id: string, roll: nat, now: string)
    requires roll < |Palette|
    requires Encodable(kind, coords, radius)
    ensures var added := AddFeature(prev, renderedCount, kind, coords, customName, radius, id, roll, now).value;
      && Undo(added).features == prev.features
      && Undo(added).undoStack == prev.undoStack
      && Redo(Undo(added)) == added
  {
    var added := AddFeature(prev, renderedCount, kind, coords, customName, radius, id, roll, now).value;
    assert added.undoStack == prev.undoStack + [prev.features];
    var u := Undo(added);
    assert u.undoStack + [u.features] == prev.undoStack + [prev.features];
    assert u.undoStack == (prev.undoStack + [prev.features])[..|prev.undoStack|];
    RedoAfterUndo(added);
  }

  /** Delete, then undo: the deleted features are back in their places. */
  lemma UndoAfterDelete(prev: WorkspaceState, id: string)
    ensures Undo(DeleteFeature(prev, id)).features == prev.features
    ensures Undo(DeleteFeature(prev, id)).undoStack == prev.undoStack
  {
    var d := DeleteFeature(prev, id);
    UndoAfterCommit(prev.(activeFeatureId := d.activeFeatureId), d.features);
    assert Commit(prev.(activeFeatureId := d.activeFeatureId), d.features) == d;
  }

  /** Update of a present id, then undo: the list and the undo stack are back. */
  lemma UndoAfterUpdate(prev: WorkspaceState, id: string, patch: Patch, now: string)
    requires id in Ids(prev.features)
    ensures Undo(UpdateFeature(prev, id, patch, now)).features == prev.features
    ensures Undo(UpdateFeature(prev, id, patch, now)).undoStack == prev.undoStack
  {
    var u := UpdateFeature(prev, id, patch, now);
    UndoAfterCommit(prev, u.features);
  }

  /**
   * Placing a point on an empty map names it "Point 1" and selects it;
   * deleting it empties the map and clears the selection; undo brings the
   * same feature (id, name, creation time) back.
   */
  lemma PointAddDeleteUndo(ws: WorkspaceState, id: string, roll: nat, now: string)
    requires ws.features == [] && roll < |Palette|
    ensures var added := AddFeature(ws, 0, Point, Flat([Pair(50.0, 6.0)]), None, None, id, roll, now);
      && added.Some?
      && |added.value.features| == 1 && added.value.activeFeatureId == Some(id)
      && added.value.features[0].name == "Point 1"
      && var deleted := DeleteFeature(added.value, id);
      && deleted.features == [] && deleted.activeFeatureId.None?
      && Undo(deleted).features == added.value.features
  {
    var added := AddFeature(ws, 0, Point, Flat([Pair(50.0, 6.0)]), None, None, id, roll, now).value;
    FirstPointName();
    assert added.features[0].id == id;
    var deleted := DeleteFeature(added, id);
    assert id in Ids(added.features);
    UndoAfterDelete(added, id);
  }

  // ---------------------------------------------------------------------------
  // Every operation, and what it preserves
  // ---------------------------------------------------------------------------

  /** The operations useWorkspace returns, with their arguments. */
  datatype Action =
    | AddAction(renderedCount: nat, kind: Kind, coords: Coords, customName: Option<string>,
                radius: Option<real>, id: string, roll: nat, now: string)
    | UpdateAction(id: string, patch: Patch, now: string)
    | DeleteAction(id: string)
    | SelectAction(selected: Option<string>)
    | SetToolAction(tool: Option<Kind>)
    | SetEditModeAction(enabled: bool)
    | ToggleSatelliteAction
    | ToggleFeaturesAction
    | SetViewportAction(center: Pair, zoom: real)
    | UndoAction
    | RedoAction

  /** pickColor draws one of the six palette entries. */
  predicate ValidDraw(a: Action) {
    a.AddAction? ==> a.roll < |Palette|
  }

  /** One operation applied to the state (an addFeature that throws changes nothing). */
  function Step(ws: WorkspaceState, a: Action): WorkspaceState
    requires ValidDraw(a)
  {
    match a
    case AddAction(c, k, xs, n, rad, id, roll, now) =>
      var r := AddFeature(ws, c, k, xs, n, rad, id, roll, now);
      if r.Some? then r.value else ws
    case UpdateAction(id, p, now) => UpdateFeature(ws, id, p, now)
    case DeleteAction(id) => DeleteFeature(ws, id)
    case SelectAction(s) => SelectFeature(ws, s)
    case SetToolAction(t) => SetTool(ws, t)
    case SetEditModeAction(e) => SetEditMode(ws, e)
    case ToggleSatelliteAction => ToggleSatellite(ws)
    case ToggleFeaturesAction => ToggleFeatures(ws)
    case SetViewportAction(c, z) => SetViewport(ws, c, z)
    case UndoAction => Undo(ws)
    case RedoAction => Redo(ws)
  }

  /** Every operation keeps the tool and edit mode mutually exclusive. */
  lemma StepKeepsModesExclusive(ws: WorkspaceState, a: Action)
    requires ValidDraw(a) && ModesExclusive(ws)
    ensures ModesExclusive(Step(ws, a))
  {
  }

  /** Selection, tool, edit mode, layers and viewport never touch the list or the history. */
  lemma NonHistoryOperations(ws: WorkspaceState, a: Action)
    requires a.SelectAction? || a.SetToolAction? || a.SetEditModeAction?
          || a.ToggleSatelliteAction? || a.ToggleFeaturesAction? || a.SetViewportAction?
    ensures Step(ws, a).features == ws.features
    ensures Step(ws, a).undoStack == ws.undoStack && Step(ws, a).redoStack == ws.redoStack
  {
  }

  /** Every operation that changes the list clears the redo stack. */
  lemma ListChangesClearRedo(ws: WorkspaceState, a: Action)
    requires ValidDraw(a) && (a.AddAction? || a.UpdateAction? || a.DeleteAction?)
    requires Step(ws, a).features != ws.features
    ensures Step(ws, a).redoStack == []
  {
  }

  /** A delete keeps ids unique in the list and in every snapshot. */
  lemma DeleteKeepsInvariant(ws: WorkspaceState, id: string)
    requires Invariant(ws)
    ensures Invariant(DeleteFeature(ws, id))
  {
    var r := DeleteFeature(ws, id);
    RemoveIdKeepsUnique(ws.features, id);
    assert r.features == RemoveId(ws.features, id);
    assert forall s :: s in r.undoStack ==> s in ws.undoStack || s == ws.features;
  }

  /**
   * Ids stay unique in the list and in every snapshot, provided a new id is
   * fresh and no update rewrites an id (no caller of updateFeature does).
   */
  lemma StepPreservesInvariant(ws: WorkspaceState, a: Action)
    requires ValidDraw(a) && Invariant(ws)
    requires a.AddAction? ==> a.id !in Ids(ws.features)
    requires a.UpdateAction? ==> a.patch.id.None?
    ensures Invariant(Step(ws, a))
  {
    match a
    case AddAction(c, k, xs, n, rad, id, roll, now) =>
      if Encodable(k, xs, rad) {
        AddKeepsInvariant(ws, c, k, xs, n, rad, id, roll, now);
      }
    case UpdateAction(id, p, now) =>
      UpdateKeepsInvariant(ws, id, p, now);
    case DeleteAction(id) =>
      DeleteKeepsInvariant(ws, id);
    case UndoAction =>
      UndoKeepsInvariant(ws);
    case RedoAction =>
      RedoKeepsInvariant(ws);
    case _ =>
  }

  /** An add with a fresh id keeps ids unique in the list and in every snapshot. */
  lemma AddKeepsInvariant(ws: WorkspaceState, renderedCount: nat, kind: Kind, coords: Coords,
                          customName: Option<string>, radius: Option<real>, id: string, roll: nat, now: string)
    requires roll < |Palette| && Invariant(ws) && id !in Ids(ws.features) && Encodable(kind, coords, radius)
    ensures Invariant(AddFeature(ws, renderedCount, kind, coords, customName, radius, id, roll, now).value)
  {
    var r := AddFeature(ws, renderedCount, kind, coords, customName, radius, id, roll, now).value;
    forall i, j | 0 <= i < j < |r.features| ensures r.features[i].id != r.features[j].id {
      assert r.features[i] == ws.features[i];
      if j == |ws.features| {
        assert ws.features[i] in ws.features;
      } else {
        assert r.features[j] == ws.features[j];
      }
    }
    assert forall s :: s in r.undoStack ==> s in ws.undoStack || s == ws.features;
  }

  /** An update that does not rewrite the id keeps every id where it was. */
  lemma UpdateKeepsInvariant(ws: WorkspaceState, id: string, p: Patch, now: string)
    requires Invariant(ws) && p.id.None?
    ensures Invariant(UpdateFeature(ws, id, p, now))
  {
    var r := UpdateFeature(ws, id, p, now);
    if id in Ids(ws.features) {
      assert forall j :: 0 <= j < |r.features| ==> r.features[j].id == ws.features[j].id;
      assert forall s :: s in r.undoStack ==> s in ws.undoStack || s == ws.features;
    }
  }

  /** Undo restores a snapshot, which already had unique ids. */
  lemma UndoKeepsInvariant(ws: WorkspaceState)
    requires Invariant(ws)
    ensures Invariant(Undo(ws))
  {
    var r := Undo(ws);
    if ws.undoStack != [] {
      assert r.features in ws.undoStack;
      assert forall s :: s in r.undoStack ==> s in ws.undoStack;
      assert forall s :: s in r.redoStack ==> s in ws.redoStack || s == ws.features;
    }
  }

  /** Redo restores a snapshot, which already had unique ids. */
  lemma RedoKeepsInvariant(ws: WorkspaceState)
    requires Invariant(ws)
    ensures Invariant(Redo(ws))
  {
    var r := Redo(ws);
    if ws.redoStack != [] {
      assert r.features in ws.redoStack;
      assert forall s :: s in r.redoStack ==> s in ws.redoStack;
      assert forall s :: s in r.undoStack ==> s in ws.undoStack || s == ws.features;
    }
  }
}
