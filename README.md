# Turn-restriction editor registry, primitive-id transfer, undelete reconstruction

This project models three pieces of sequential logic from two plugins of the JOSM map
editor, with the host's objects reduced to plain values, and proves properties of them.

- **TurnRestrictionEditorManager** (module `EditorManager`). This is the registry of open
  turn restriction editors. It is a class whose `openDialogs` map goes from a
  `DialogContext` (data layer, relation's primitive id) to an editor. A second map,
  `location`, holds each editor window's upper left corner. The registry methods are
  `Register`, `UpdateContext`, `WindowClosed` and `LayerRemoving`, and the lookups are
  `IsOpenInEditor` and `EditorForRelation`. A HashMap visits its entries in an unspecified
  order, so the loops pick the next entry with `:|`. The placement rule is also modelled:
  centre the window, clamp to 0, then step 20 pixels right and down while an open editor's
  corner is within 5 pixels on both axes. Its termination is proved: the 5-pixel window is
  narrower than the 20-pixel step, so each open editor blocks at most one step. Screen and
  editor sizes are parameters.
- **PrimitiveIdTransferable** (module `Transfer`). This is the drag-and-drop payload. It is
  a class holding the copied id list. It replies the list (the id-list flavour), the text
  `type/id,type/id,...` (the string flavour), or an unsupported-flavour error. The text is
  specified by `AsString` (built from `Join`, `Segment` and `Decimal`). `Parse` is its
  inverse, and `AsStringRoundTrip` proves that reading the text back gives the ids.
- **UndeleteAction.Worker.run** (module `Undelete`). This is the decision procedure that
  rebuilds deleted primitives from their version history:
  - which ids are skipped;
  - the downward search for the latest visible version;
  - which fields come from the latest version and which from the version found;
  - what is added to the layer and to the restored set;
  - how relation members are rebuilt;
  - which nodes the parent way receives.

  `Step` (one id) and `Process` (the id list) define it as functions. Class `Worker`
  performs it in place, and `Worker.Run` and `Worker.Visit` are proved to agree with them.
  The search loop, the member loop and the way-node loop are methods proved against
  functions (`SearchVisibleVersion`, `CollectMembers`, `NodeIdsOf`).

One behaviour of the search is stated as found in the code (`LatestVisibleBelowResult`).
When no version below the latest is visible, the loop leaves `hPrimitive2` at the lookup of
version 1. That lookup may give a version that is present but invisible. Such a version
passes the non-null check, so the primitive is rebuilt and restored from it.

Further consequences stated by the lemmas:
- A primitive rebuilt in the deleted branch takes its visibility from the latest version.
  So it is invisible (`DeletedPrimitiveRebuilt`).
- The parent's node list holds exactly the ids of the run that are Nodes and not skipped,
  in order (`ProcessNodes`). This includes a deleted node whose search found nothing, which
  is not added to the layer.

## Model

| member | source | states |
|---|---|---|
| `Osm.ApiName` | turnrestrictions/src/org/openstreetmap/josm/plugins/turnrestrictions/dnd/PrimitiveIdTransferable.java:86 | the API name of a type is non-empty and contains neither ',' nor '/' |
| `EditorManager.ContextEqualsIsEquality` | turnrestrictions/src/org/openstreetmap/josm/plugins/turnrestrictions/editor/TurnRestrictionEditorManager.java:70-87 | DialogContext.equals, with its null handling of the layer, holds exactly when layer and primitive id are equal component-wise |
| `EditorManager.MatchesLayer` | turnrestrictions/src/org/openstreetmap/josm/plugins/turnrestrictions/editor/TurnRestrictionEditorManager.java:89-92 | false for a null layer; true exactly when the context's layer is the given one; throws exactly when the context's own layer is null and the argument is not |
| `EditorManager.JavaDiv` | turnrestrictions/src/org/openstreetmap/josm/plugins/turnrestrictions/editor/TurnRestrictionEditorManager.java:211-212 | Java integer division truncates toward zero: the remainder a - q*b is smaller than b in magnitude and has the sign of the dividend, also for a negative dividend |
| `EditorManager.CenteredCorner` | turnrestrictions/src/org/openstreetmap/josm/plugins/turnrestrictions/editor/TurnRestrictionEditorManager.java:208-216 | both coordinates are >= 0; a window that fits has left and right margins that differ by at most one pixel; with less than two pixels to spare the coordinate is 0 |
| `EditorManager.TurnRestrictionEditorManager.constructor` | turnrestrictions/src/org/openstreetmap/josm/plugins/turnrestrictions/editor/TurnRestrictionEditorManager.java:100-106 | the registry starts empty |
| `EditorManager.TurnRestrictionEditorManager.Register` | turnrestrictions/src/org/openstreetmap/josm/plugins/turnrestrictions/editor/TurnRestrictionEditorManager.java:116-123 | the key (layer, relation's id) maps to the editor, replacing an earlier entry; a null relation is replaced by a new relation, whose generated id is negative and unused, so its entry is a new key and the registry grows by one; every other key is unchanged; the lookup then replies the editor |
| `EditorManager.TurnRestrictionEditorManager.FindContextOf` | turnrestrictions/src/org/openstreetmap/josm/plugins/turnrestrictions/editor/TurnRestrictionEditorManager.java:191-197 | the search over the entries finds a context whose editor is the given one exactly when the editor is registered |
| `EditorManager.TurnRestrictionEditorManager.UpdateContext` | turnrestrictions/src/org/openstreetmap/josm/plugins/turnrestrictions/editor/TurnRestrictionEditorManager.java:125-138 | at most one entry of the editor is removed, then the new key maps to the editor and the other entries are unchanged; a null relation throws after the removal and adds nothing |
| `EditorManager.TurnRestrictionEditorManager.IsOpenInEditor` | turnrestrictions/src/org/openstreetmap/josm/plugins/turnrestrictions/editor/TurnRestrictionEditorManager.java:164-168 | false for a null relation; otherwise true exactly when (layer, relation's id) is registered; agrees with getEditorForRelation |
| `EditorManager.TurnRestrictionEditorManager.EditorForRelation` | turnrestrictions/src/org/openstreetmap/josm/plugins/turnrestrictions/editor/TurnRestrictionEditorManager.java:182-185 | null for a null relation; otherwise the registered editor of the key, or null when the key is absent |
| `EditorManager.TurnRestrictionEditorManager.WindowClosed` | turnrestrictions/src/org/openstreetmap/josm/plugins/turnrestrictions/editor/TurnRestrictionEditorManager.java:189-201 | removes exactly one entry of the closed editor when it is registered, and nothing else |
| `EditorManager.TurnRestrictionEditorManager.LayerRemoving` | turnrestrictions/src/org/openstreetmap/josm/plugins/turnrestrictions/editor/TurnRestrictionEditorManager.java:276-292 | no change for a null or non-data layer; otherwise exactly the entries of that layer are removed and the others kept; when a context has a null layer, matchesLayer throws, and any entries removed by then belong to the layer |
| `EditorManager.TurnRestrictionEditorManager.HasEditorWithCloseUpperLeftCorner` | turnrestrictions/src/org/openstreetmap/josm/plugins/turnrestrictions/editor/TurnRestrictionEditorManager.java:226-234 | no editor blocks when none is open; a blocking editor is one whose corner is not yet passed on the x axis |
| `EditorManager.TurnRestrictionEditorManager.FreeCornerNear` | turnrestrictions/src/org/openstreetmap/josm/plugins/turnrestrictions/editor/TurnRestrictionEditorManager.java:247-250 | the result is the start shifted by (20k, 20k) for the least k after which no open editor's corner is within 5 pixels on both axes, and k is at most the number of open editors |
| `EditorManager.TurnRestrictionEditorManager.StepLeavesBlocker` | turnrestrictions/src/org/openstreetmap/josm/plugins/turnrestrictions/editor/TurnRestrictionEditorManager.java:229-230 | one 20-pixel step past a close corner strictly shrinks the set of editors that can still block, so the loop terminates |
| `EditorManager.TurnRestrictionEditorManager.CenterOnScreen` | turnrestrictions/src/org/openstreetmap/josm/plugins/turnrestrictions/editor/TurnRestrictionEditorManager.java:208-216 | only the editor's location changes, to the centred clamped corner |
| `EditorManager.TurnRestrictionEditorManager.PositionCloseToScreenCenter` | turnrestrictions/src/org/openstreetmap/josm/plugins/turnrestrictions/editor/TurnRestrictionEditorManager.java:240-252 | the editor is placed at the centred corner shifted by the least k for which no open editor's corner is close, where every earlier shift was blocked, and k is at most the number of open editors |
| `EditorManager.TurnRestrictionEditorManager.PositionOnScreen` | turnrestrictions/src/org/openstreetmap/josm/plugins/turnrestrictions/editor/TurnRestrictionEditorManager.java:262-269 | nothing for a null editor; centred when no editor is open; otherwise placed at the centred corner shifted by the least k that does not cover an open editor's corner |
| `Transfer.Decimal` | turnrestrictions/src/org/openstreetmap/josm/plugins/turnrestrictions/dnd/PrimitiveIdTransferable.java:86 | the numeral of an id is non-empty, has no ',' or '/', starts with '-' exactly for negative ids, and ends with a digit |
| `Transfer.ParseDecimalRoundTrip` | turnrestrictions/src/org/openstreetmap/josm/plugins/turnrestrictions/dnd/PrimitiveIdTransferable.java:86 | every id's numeral reads back as that id |
| `Transfer.Segment` | turnrestrictions/src/org/openstreetmap/josm/plugins/turnrestrictions/dnd/PrimitiveIdTransferable.java:86 | a segment "apiName/id" is non-empty and contains no ',' |
| `Transfer.AsStringShape` | turnrestrictions/src/org/openstreetmap/josm/plugins/turnrestrictions/dnd/PrimitiveIdTransferable.java:82-89 | empty text for no ids; otherwise the i-th comma-separated piece is the i-th id's segment, there are n - 1 commas, and the text starts with an API name and ends with a digit |
| `Transfer.AsStringRoundTrip` | turnrestrictions/src/org/openstreetmap/josm/plugins/turnrestrictions/dnd/PrimitiveIdTransferable.java:82-89 | parsing the text gives back the ids, in order |
| `Transfer.IsDataFlavorSupported` | turnrestrictions/src/org/openstreetmap/josm/plugins/turnrestrictions/dnd/PrimitiveIdTransferable.java:96-102 | true exactly for the id-list and the string flavour |
| `Transfer.PrimitiveIdTransferable.constructor` | turnrestrictions/src/org/openstreetmap/josm/plugins/turnrestrictions/dnd/PrimitiveIdTransferable.java:43-48 | a null list gives no ids; otherwise the same length and order, each with the same unique id and type |
| `Transfer.PrimitiveIdTransferable.GetAsString` | turnrestrictions/src/org/openstreetmap/josm/plugins/turnrestrictions/dnd/PrimitiveIdTransferable.java:82-89 | the buffer loop, with its "append a comma when the buffer is non-empty" test, builds exactly the comma-joined segments |
| `Transfer.PrimitiveIdTransferable.GetTransferData` | turnrestrictions/src/org/openstreetmap/josm/plugins/turnrestrictions/dnd/PrimitiveIdTransferable.java:58-75 | data exactly for a supported flavour; the id list (getPrimitiveIds) for the list flavour; for the string flavour the text AsString(ids) that getAsString builds, which parses back to the ids; an unsupported-flavour error naming any other flavour |
| `Transfer.PrimitiveIdTransferable.GetTransferDataFlavors` | turnrestrictions/src/org/openstreetmap/josm/plugins/turnrestrictions/dnd/PrimitiveIdTransferable.java:32-35 | lists exactly the flavours isDataFlavorSupported accepts |
| `Undelete.ToInt32` | undelete/src/org/openstreetmap/josm/plugins/undelete/UndeleteAction.java:127 | the (int) cast of a long is in the 32-bit range, congruent to it modulo 2^32, and the identity on values that fit |
| `Undelete.SearchVisibleVersion` | undelete/src/org/openstreetmap/josm/plugins/undelete/UndeleteAction.java:113-123 | versions n-1, n-2, ... are looked up in that order, at most n-1 of them; the loop goes on until it has looked up version 1 or the last lookup is present and visible, and no earlier lookup is; the result is the last lookup, and null when n <= 1 |
| `Undelete.SearchFromResult` | undelete/src/org/openstreetmap/josm/plugins/undelete/UndeleteAction.java:117-123 | searching down from v finds the greatest visible version <= v, or else leaves the lookup of version 1 |
| `Undelete.LatestVisibleBelowResult` | undelete/src/org/openstreetmap/josm/plugins/undelete/UndeleteAction.java:114-123 | null for n <= 1; the greatest visible version below n when one exists; otherwise the lookup of version 1, possibly present and invisible, which is the only way to get an invisible result |
| `Undelete.MembersKeepOrderAndRoles` | undelete/src/org/openstreetmap/josm/plugins/undelete/UndeleteAction.java:160-182 | the rebuilt members have the historic order, roles and member ids |
| `Undelete.MembersAddPlaceholders` | undelete/src/org/openstreetmap/josm/plugins/undelete/UndeleteAction.java:162-179 | afterwards the layer holds exactly its old primitives, unchanged, plus one placeholder for each member id that was absent |
| `Undelete.MembersRestoreAbsent` | undelete/src/org/openstreetmap/josm/plugins/undelete/UndeleteAction.java:162-179 | the restored set grows by exactly the member ids that were absent from the layer |
| `Undelete.CollectMembers` | undelete/src/org/openstreetmap/josm/plugins/undelete/UndeleteAction.java:159-183 | the member loop computes the members, layer and restored set of the specification |
| `Undelete.NodeIdsOf` | undelete/src/org/openstreetmap/josm/plugins/undelete/UndeleteAction.java:143-148 | the historic way's node ids become node primitive ids, in order |
| `Undelete.ProcessAppend` | undelete/src/org/openstreetmap/josm/plugins/undelete/UndeleteAction.java:75-91 | running over xs + ys is running over xs and then, unless it returned early, over ys |
| `Undelete.SkippedIdsChangeNothing` | undelete/src/org/openstreetmap/josm/plugins/undelete/UndeleteAction.java:76-78 | skipped ids change nothing |
| `Undelete.NullMissingSetProcessesNothing` | undelete/src/org/openstreetmap/josm/plugins/undelete/UndeleteAction.java:76-78 | with a null missing set no id is processed and nothing changes |
| `Undelete.StopsAtIdWithoutHistory` | undelete/src/org/openstreetmap/josm/plugins/undelete/UndeleteAction.java:86-91 | an id that is processed, not in the layer, and has no history ends the run: the later ids are not visited |
| `Undelete.DeletedPrimitiveRebuilt` | undelete/src/org/openstreetmap/josm/plugins/undelete/UndeleteAction.java:124-197 | with a version found, the rebuilt primitive has the latest version's version, changeset, timestamp, user and (false) visibility and the found version's tags; it is modified, added to the layer and restored; with none found, the layer and restored set do not change |
| `Undelete.DeletedNodeAndWayParts` | undelete/src/org/openstreetmap/josm/plugins/undelete/UndeleteAction.java:124-151 | a rebuilt node has the found version's coordinates; a rebuilt way submits the undelete of the found version's nodes (none when nothing was found) with the way as parent |
| `Undelete.DeletedRelationMembers` | undelete/src/org/openstreetmap/josm/plugins/undelete/UndeleteAction.java:152-185 | a rebuilt relation has the found version's members in order with their roles; every member absent from the layer is added to the layer and the restored set |
| `Undelete.VisiblePrimitiveRestored` | undelete/src/org/openstreetmap/josm/plugins/undelete/UndeleteAction.java:97-111 | a visible node is loaded from its latest version, added and restored; a visible way or relation is downloaded and restored exactly when the download delivered it |
| `Undelete.StepPreserves` | undelete/src/org/openstreetmap/josm/plugins/undelete/UndeleteAction.java:80-197 | one id keeps every primitive stored under its own id, only adds to the restored set, and, in the model where a download adds just the requested primitive, never changes a primitive already in the layer |
| `Undelete.ReconstructPreserves` | undelete/src/org/openstreetmap/josm/plugins/undelete/UndeleteAction.java:124-197 | rebuilding a deleted primitive gives it the requested id, stores every new primitive under its own id, leaves the existing primitives alone and only adds to the restored set |
| `Undelete.ProcessPreserves` | undelete/src/org/openstreetmap/josm/plugins/undelete/UndeleteAction.java:75-206 | the same for the whole run, under the same one-primitive download |
| `Undelete.StepNodes` | undelete/src/org/openstreetmap/josm/plugins/undelete/UndeleteAction.java:203-205 | one id adds itself to the parent's node list exactly when there is a parent, it is not skipped, and it is a Node |
| `Undelete.ProcessNodes` | undelete/src/org/openstreetmap/josm/plugins/undelete/UndeleteAction.java:203-209 | a run that visits every id collects exactly the ids that are Nodes and not skipped, in request order |
| `Undelete.Worker.constructor` | undelete/src/org/openstreetmap/josm/plugins/undelete/UndeleteAction.java:63-70 | the worker holds its parent, layer, ids, restored set and missing set |
| `Undelete.Worker.Visit` | undelete/src/org/openstreetmap/josm/plugins/undelete/UndeleteAction.java:76-205 | one iteration changes the layer, restored set and requests as Step says, or returns at once where Step stops |
| `Undelete.Worker.Run` | undelete/src/org/openstreetmap/josm/plugins/undelete/UndeleteAction.java:73-209 | the loop's effect is Process over the ids; the parent way gets the collected node list only when every id was visited, the parent is a way, and the list is non-empty |

`GetPrimitiveIds` (PrimitiveIdTransferable.java:73-75) is the accessor that
`GetTransferData` replies for the list flavour. `Step` and `Process` are the specification
of `Worker.Visit` and `Worker.Run`, so the lemmas above are about them.

## Left out

- Swing and AWT: window listeners, `setVisible`, `dispose`, the screen size from `Toolkit` (a parameter), the `getInstance` singleton and its registration as a layer listener.
- `close` builds its key from the `Relation` object rather than from its primitive id. Whether that key matches depends on host `equals` behaviour that is not part of this model.
- `hashCode` and `toString` of `DialogContext`: the registry is a map with structural key equality, proved equal to `equals`.
- A null editor passed to `register`, `updateContext` or `windowClosed`, and the cast of the closed window to an editor: editors are non-null identities here.
- TurnRestrictionEditorManager.Register: the id of `new Relation()` is a parameter. The host's id generator makes it negative and unused; the model requires this of the caller and does not model the generator.
- TurnRestrictionEditorManager.PositionCloseToScreenCenter: the 32-bit overflow of `p.x += 20` is not modelled; it would need tens of millions of open editors.
- Transfer.PrimitiveIdTransferable.GetTransferData: returns the id list by value; Java returns the transferable's own list, so a caller can alias and change it.
- `DataFlavor` construction and the `Transferable` interface: flavours are an enum with an `Other` case. A null `flavor` behaves like `Other`.
- Null elements in the list given to the PrimitiveIdTransferable constructor (Java throws on them).
- `OsmPrimitiveType` also has CLOSEDWAY and MULTIPOLYGON. History members are only of the three server types, so the model has those three; the member switch maps CLOSEDWAY to a way and MULTIPOLYGON to a relation.
- Everything asynchronous or I/O in UndeleteAction: `HistoryLoadTask` and `DownloadPrimitivesTask` (their results are parameters: the history map and the `server` map), the worker queue, layer creation in `undelete`, `actionPerformed`, the dialog, preferences, EDT calls, auto-scale, the dialog listing missing objects, and logging.
- The nested `undelete` of a rebuilt way's nodes runs as a later task. The model records it as a `Request` and does not run it.
- Undelete.Worker.Run: the catch-all handler is not modelled. The host code can throw inside the `try`, for instance when `addPrimitive` meets an id already in the data set, as for a relation that is its own member. The model then overwrites the map entry instead.
- Undelete.VisiblePrimitiveRestored: when the download of a visible way or relation delivers nothing, Java adds null to `restored`; the model adds nothing.
- The download of a visible way or relation adds only that primitive to the layer here. The real download also merges the objects that primitive refers to.
- Undelete.StepPreserves: "a primitive already in the layer is never changed" rests on the one-primitive download. The real download can complete or update primitives already in the layer, such as a placeholder member node that the downloaded way refers to.
- Undelete.ProcessPreserves: the same limitation as StepPreserves, for the whole run.
- `restored` is a set of primitive ids. Java's `LinkedHashSet` of objects also keeps insertion order and compares objects by identity.
- Undelete.Worker.Run: the parent way is a shared object. The model reports the node list passed to `setNodes` in `parentNodes` instead of changing that object.
- Host defaults of a new primitive (changeset, user, timestamp, visibility) and what `fillPrimitiveData` copies are assumptions of `NewPrimitive` and `Loaded`. The host code for them is not part of this model.
- Node coordinates are an opaque value; floating point is not modelled.
