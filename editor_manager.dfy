/** TurnRestrictionEditorManager: the registry of open turn restriction editors, keyed by
    the data layer and the turn restriction they edit, and the rule that places a new
    editor window near the centre of the screen without hiding another editor. */
module EditorManager {
  import opened Osm

  /** Identity of an OsmDataLayer object (layers are compared by identity). */
  type LayerRef = nat

  /** Identity of a TurnRestrictionEditor window (editors are compared by identity). */
  type EditorId = nat

  /** A layer as the layer manager reports it when it is removed: its identity and
      whether it is an OsmDataLayer. */
  datatype Layer = Layer(ref: LayerRef, isDataLayer: bool)

  /** java.awt.Point and java.awt.Dimension as pairs of integers. */
  datatype Point = Point(x: int, y: int)
  datatype Dimension = Dimension(width: int, height: int)

  /** DialogContext: the layer (which may be null) and the primitive id of the turn
      restriction an editor is open for. */
  datatype DialogContext = DialogContext(layer: Option<LayerRef>, primitiveId: PrimId)

  /** DialogContext.equals: null-aware comparison of the layer, then of the primitive id. */
  function ContextEquals(a: DialogContext, b: DialogContext): bool
  {
    && (if a.layer.None? then b.layer.None? else b.layer.Some? && a.layer.value == b.layer.value)
    && a.primitiveId == b.primitiveId
  }

  /** The registry's map keys use Dafny's structural equality; this is the same relation
      as DialogContext.equals, so the map behaves like the Java HashMap. */
  lemma ContextEqualsIsEquality(a: DialogContext, b: DialogContext)
    ensures ContextEquals(a, b) <==> a == b
  {
  }

  /** DialogContext.matchesLayer: false for a null layer; otherwise the context's own layer
      is dereferenced, which throws when that layer is null. */
  function MatchesLayer(c: DialogContext, layer: Option<LayerRef>): (r: Result<bool>)
    ensures layer.None? ==> r == Ok(false)
    ensures r == Ok(true) <==> layer.Some? && c.layer == layer
    ensures r.NullPointerError? <==> layer.Some? && c.layer.None?
  {
    if layer.None? then Ok(false)
    else if c.layer.None? then NullPointerError
    else Ok(c.layer.value == layer.value)
  }

  /** Integer division as Java's `/` computes it: truncation toward zero. */
  function JavaDiv(a: int, b: int): (q: int)
    requires b > 0
    ensures var r := a - q * b; -b < r < b && (a >= 0 ==> r >= 0) && (a < 0 ==> r <= 0)
  {
    if a >= 0 then a / b else -((-a) / b)
  }

  function Max(a: int, b: int): int { if a >= b then a else b }

  /** The corner that centres a window of the given size on the screen, clamped to 0
      (the arithmetic of centerOnScreen and the start of positionCloseToScreenCenter).
      A window that fits gets a margin on its left that equals the one on its right, or
      is one pixel smaller; a window that does not fit, or fits with less than two pixels
      to spare, is put at 0. */
  function CenteredCorner(screen: Dimension, size: Dimension): (p: Point)
    ensures p.x >= 0 && p.y >= 0
    ensures size.width <= screen.width ==> 0 <= (screen.width - size.width - p.x) - p.x <= 1
    ensures size.height <= screen.height ==> 0 <= (screen.height - size.height - p.y) - p.y <= 1
    ensures screen.width - size.width <= 1 ==> p.x == 0
    ensures screen.height - size.height <= 1 ==> p.y == 0
  {
    Point(Max(JavaDiv(screen.width - size.width, 2), 0), Max(JavaDiv(screen.height - size.height, 2), 0))
  }

  /** The point moved k steps of 20 pixels right and 20 pixels down. */
  function Shifted(p: Point, k: nat): Point
  {
    Point(p.x + 20 * k, p.y + 20 * k)
  }

  /** An editor's upper left corner lies within 5 pixels of p on both axes. */
  predicate IsClose(corner: Point, p: Point)
  {
    p.x >= corner.x - 5 && corner.x + 5 >= p.x && p.y >= corner.y - 5 && corner.y + 5 >= p.y
  }

  /** What windowClosed and updateContext may do to the registry: remove one entry whose
      editor is e, when there is one, and nothing else. */
  ghost predicate RemovedOneEntryOf(before: map<DialogContext, EditorId>, after: map<DialogContext, EditorId>, e: EditorId)
  {
    || (e !in before.Values && after == before)
    || (exists c :: c in before && before[c] == e && after == before - {c})
  }

  /** The registry without the entries whose context belongs to layer l. */
  function WithoutLayer(m: map<DialogContext, EditorId>, l: LayerRef): (r: map<DialogContext, EditorId>)
    ensures forall c :: c in r <==> c in m && c.layer != Some(l)
    ensures forall c :: c in r ==> r[c] == m[c]
  {
    map c | c in m && c.layer != Some(l) :: m[c]
  }

  class TurnRestrictionEditorManager {
    /** openDialogs: the open editor of each (layer, turn restriction). */
    var openDialogs: map<DialogContext, EditorId>
    /** The upper left corner of each editor window whose location has been set. */
    var location: map<EditorId, Point>

    constructor ()
      ensures openDialogs == map[] && location == map[]
    {
      openDialogs := map[];
      location := map[];
    }

    /** Window.getLocation(): a window whose location was never set is at (0, 0). */
    function Location(e: EditorId): Point
      reads this
    {
      if e in location then location[e] else Point(0, 0)
    }

    /** register: maps (layer, the relation's id) to the editor, replacing an earlier entry
        for that key. A null relation is replaced by a new Relation, whose id newRelationId
        the host generates: negative, and not the id of any relation already registered. */
    method Register(layer: Option<LayerRef>, relation: Option<PrimId>, newRelationId: int, editor: EditorId)
      requires relation.None? ==> newRelationId < 0 && forall c :: c in openDialogs ==> c.primitiveId != PrimId(Relation, newRelationId)
      modifies this
      ensures relation.None? ==> |openDialogs| == |old(openDialogs)| + 1
      ensures var key := DialogContext(layer, if relation.Some? then relation.value else PrimId(Relation, newRelationId));
              openDialogs == old(openDialogs)[key := editor]
      ensures relation.Some? ==> EditorForRelation(layer, relation) == Some(editor)
      ensures forall c :: c != DialogContext(layer, if relation.Some? then relation.value else PrimId(Relation, newRelationId)) ==>
                (c in openDialogs <==> c in old(openDialogs)) && (c in openDialogs ==> openDialogs[c] == old(openDialogs)[c])
      ensures location == old(location)
    {
      var id := if relation.Some? then relation.value else PrimId(Relation, newRelationId);
      var context := DialogContext(layer, id);
      openDialogs := openDialogs[context := editor];
    }

    /** Finds a context whose editor is e, searching the entries in an unspecified order
        (the HashMap's), or replies None when e is not registered. */
    method FindContextOf(e: EditorId) returns (c: Option<DialogContext>)
      ensures c.Some? ==> c.value in openDialogs && openDialogs[c.value] == e
      ensures c.None? <==> e !in openDialogs.Values
    {
      var pending := openDialogs.Keys;
      c := None;
      while pending != {}
        invariant pending <= openDialogs.Keys
        invariant forall k :: k in openDialogs && k !in pending ==> openDialogs[k] != e
        decreases pending
      {
        var k :| k in pending;
        if openDialogs[k] == e {
          c := Some(k);
          return;
        }
        pending := pending - {k};
      }
      assert forall k :: k in openDialogs ==> openDialogs[k] != e;
    }

    /** updateContext: removes the first entry found for the editor, then maps
        (layer, relation's id) to the editor. With a null relation the Java code throws
        after the removal; ok is then false and nothing is added. */
    method UpdateContext(layer: Option<LayerRef>, relation: Option<PrimId>, editor: EditorId) returns (ok: bool)
      modifies this
      ensures ok <==> relation.Some?
      ensures !ok ==> RemovedOneEntryOf(old(openDialogs), openDialogs, editor)
      ensures ok ==> exists m :: RemovedOneEntryOf(old(openDialogs), m, editor) &&
                                  openDialogs == m[DialogContext(layer, relation.value) := editor]
      ensures ok ==> EditorForRelation(layer, relation) == Some(editor)
      ensures location == old(location)
    {
      var found := FindContextOf(editor);
      if found.Some? {
        openDialogs := openDialogs - {found.value};
      }
      ghost var removed := openDialogs;
      assert RemovedOneEntryOf(old(openDialogs), removed, editor);
      if relation.None? {
        return false;
      }
      openDialogs := openDialogs[DialogContext(layer, relation.value) := editor];
      ok := true;
    }

    /** isOpenInEditor: false for a null relation; otherwise whether an editor is registered
        for (layer, relation's id). It agrees with getEditorForRelation. */
    function IsOpenInEditor(layer: Option<LayerRef>, relation: Option<PrimId>): (r: bool)
      reads this
      ensures relation.None? ==> !r
      ensures relation.Some? ==> (r <==> DialogContext(layer, relation.value) in openDialogs)
      ensures r <==> EditorForRelation(layer, relation).Some?
    {
      if relation.None? then false
      else DialogContext(layer, relation.value) in openDialogs.Keys
    }

    /** getEditorForRelation: null for a null relation; otherwise the editor registered for
        (layer, relation's id), or null. */
    function EditorForRelation(layer: Option<LayerRef>, relation: Option<PrimId>): (r: Option<EditorId>)
      reads this
      ensures relation.None? ==> r.None?
      ensures r.Some? ==> r.value in openDialogs.Values
      ensures relation.Some? && DialogContext(layer, relation.value) in openDialogs ==>
                r == Some(openDialogs[DialogContext(layer, relation.value)])
      ensures relation.Some? && DialogContext(layer, relation.value) !in openDialogs ==> r.None?
    {
      if relation.None? then None
      else
        var c := DialogContext(layer, relation.value);
        if c in openDialogs then Some(openDialogs[c]) else None
    }

    /** windowClosed: removes one entry whose editor is the closed window, if any. */
    method WindowClosed(editor: EditorId)
      modifies this
      ensures RemovedOneEntryOf(old(openDialogs), openDialogs, editor)
      ensures editor in old(openDialogs.Values) ==> |openDialogs| == |old(openDialogs)| - 1
      ensures location == old(location)
    {
      var context := FindContextOf(editor);
      if context.Some? {
        openDialogs := openDialogs - {context.value};
      }
    }

    /** layerRemoving: when a data layer is removed, removes every entry of that layer,
        visiting the entries in an unspecified order. Nothing happens for a null layer or
        one that is not a data layer. matchesLayer throws on a context whose own layer is
        null; ok is then false, and the entries of the layer visited before remain removed. */
    method LayerRemoving(removed: Option<Layer>) returns (ok: bool)
      modifies this
      ensures removed.None? || !removed.value.isDataLayer ==> ok && openDialogs == old(openDialogs)
      ensures removed.Some? && removed.value.isDataLayer ==>
                (ok <==> forall c :: c in old(openDialogs) ==> c.layer.Some?)
      ensures ok && removed.Some? && removed.value.isDataLayer ==>
                openDialogs == WithoutLayer(old(openDialogs), removed.value.ref)
      ensures !ok ==> openDialogs.Keys <= old(openDialogs).Keys &&
                      (forall c :: c in openDialogs ==> openDialogs[c] == old(openDialogs)[c]) &&
                      (forall c :: c in old(openDialogs) && c !in openDialogs ==> c.layer == Some(removed.value.ref))
      ensures location == old(location)
    {
      if removed.None? || !removed.value.isDataLayer {
        return true;
      }
      var l := removed.value.ref;
      var pending := openDialogs.Keys;
      while pending != {}
        invariant pending <= old(openDialogs).Keys
        invariant openDialogs.Keys <= old(openDialogs).Keys
        invariant forall c :: c in pending ==> c in openDialogs
        invariant forall c :: c in openDialogs ==> openDialogs[c] == old(openDialogs)[c]
        invariant forall c :: c in old(openDialogs) && c !in pending ==> c.layer.Some?
        invariant forall c :: c in old(openDialogs) && c !in pending ==> (c in openDialogs <==> c.layer != Some(l))
        invariant location == old(location)
        decreases pending
      {
        var c :| c in pending;
        var m := MatchesLayer(c, Some(l));
        if m.NullPointerError? {
          return false;
        }
        if m.value {
          openDialogs := openDialogs - {c};
        }
        pending := pending - {c};
      }
      ok := true;
    }

    /** hasEditorWithCloseUpperLeftCorner: some open editor's corner is within 5 pixels of p. */
    function HasEditorWithCloseUpperLeftCorner(p: Point): (r: bool)
      reads this
      ensures openDialogs == map[] ==> !r
      ensures r ==> exists e :: e in Ahead(p) && IsClose(Location(e), p)
    {
      exists e :: e in openDialogs.Values && IsClose(Location(e), p)
    }

    /** The open editors that can still block a candidate at p or further down right:
        those whose corner is not more than 5 pixels to the left of p. */
    function Ahead(p: Point): set<EditorId>
      reads this
    {
      set e | e in openDialogs.Values && p.x <= Location(e).x + 5
    }

    /** The search loop of positionCloseToScreenCenter: moves the candidate from start
        20 pixels right and down until no open editor's corner is close to it. The result
        is start shifted by the least number of steps that frees it, and each open editor
        blocks at most one step, so there are at most as many steps as open editors. */
    method FreeCornerNear(start: Point) returns (p: Point, steps: nat)
      ensures p == Shifted(start, steps)
      ensures !HasEditorWithCloseUpperLeftCorner(p)
      ensures forall j :: 0 <= j < steps ==> HasEditorWithCloseUpperLeftCorner(Shifted(start, j))
      ensures steps <= |openDialogs.Values|
    {
      p, steps := start, 0;
      AheadBounded(start);
      while HasEditorWithCloseUpperLeftCorner(p)
        invariant p == Shifted(start, steps)
        invariant forall j :: 0 <= j < steps ==> HasEditorWithCloseUpperLeftCorner(Shifted(start, j))
        invariant steps + |Ahead(p)| <= |openDialogs.Values|
        decreases Ahead(p)
      {
        ghost var e :| e in openDialogs.Values && IsClose(Location(e), p);
        var next := Point(p.x + 20, p.y + 20);
        StepLeavesBlocker(p, next, e);
        p, steps := next, steps + 1;
      }
    }

    lemma AheadBounded(p: Point)
      ensures |Ahead(p)| <= |openDialogs.Values|
    {
      SubsetCardinality(Ahead(p), openDialogs.Values);
    }

    /** One step past a blocking editor removes it from the editors ahead, and adds none. */
    lemma StepLeavesBlocker(p: Point, next: Point, e: EditorId)
      requires e in openDialogs.Values && IsClose(Location(e), p)
      requires next == Point(p.x + 20, p.y + 20)
      ensures Ahead(next) < Ahead(p)
      ensures |Ahead(next)| < |Ahead(p)|
    {
      assert e in Ahead(p) && e !in Ahead(next);
      assert Ahead(next) <= Ahead(p) - {e};
      SubsetCardinality(Ahead(next), Ahead(p) - {e});
    }

    /** centerOnScreen: puts the editor's corner at the centred, clamped position. */
    method CenterOnScreen(editor: EditorId, screen: Dimension, size: Dimension)
      modifies this
      ensures location == old(location)[editor := CenteredCorner(screen, size)]
      ensures openDialogs == old(openDialogs)
    {
      location := location[editor := CenteredCorner(screen, size)];
    }

    /** positionCloseToScreenCenter: puts the editor at the first free corner found from the
        centred position; p is where it was put. */
    method PositionCloseToScreenCenter(editor: EditorId, screen: Dimension, size: Dimension) returns (p: Point, k: nat)
      modifies this
      ensures k <= |old(openDialogs).Values| && p == Shifted(CenteredCorner(screen, size), k)
      ensures !old(HasEditorWithCloseUpperLeftCorner(p))
      ensures forall j :: 0 <= j < k ==> old(HasEditorWithCloseUpperLeftCorner(Shifted(CenteredCorner(screen, size), j)))
      ensures location == old(location)[editor := p]
      ensures openDialogs == old(openDialogs)
    {
      p, k := FreeCornerNear(CenteredCorner(screen, size));
      location := location[editor := p];
    }

    /** positionOnScreen: nothing for a null editor; centred when no editor is open;
        otherwise close to the centre without hiding an open editor. */
    method PositionOnScreen(editor: Option<EditorId>, screen: Dimension, size: Dimension)
      modifies this
      ensures editor.None? ==> location == old(location)
      ensures editor.Some? && old(openDialogs) == map[] ==>
                location == old(location)[editor.value := CenteredCorner(screen, size)]
      ensures editor.Some? && old(openDialogs) != map[] ==>
                exists k: nat :: k <= |old(openDialogs).Values| &&
                  location == old(location)[editor.value := Shifted(CenteredCorner(screen, size), k)] &&
                  !old(HasEditorWithCloseUpperLeftCorner(Shifted(CenteredCorner(screen, size), k))) &&
                  forall j :: 0 <= j < k ==> old(HasEditorWithCloseUpperLeftCorner(Shifted(CenteredCorner(screen, size), j)))
      ensures openDialogs == old(openDialogs)
    {
      if editor.None? {
        return;
      }
      if openDialogs == map[] {
        CenterOnScreen(editor.value, screen, size);
      } else {
        var p, k := PositionCloseToScreenCenter(editor.value, screen, size);
      }
    }
  }

  lemma SubsetCardinality<T>(a: set<T>, b: set<T>)
    requires a <= b
    ensures |a| <= |b|
  {
    assert b == a + (b - a);
  }
}
