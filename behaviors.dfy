/**
 * The mouse behaviours (src/fullscreen/behaviors.ts): the selection tool
 * (click to select, shift-click to toggle, hover tracking) and the frame
 * tool (press to create a frame, drag or release to size it). Hit testing
 * is not part of this model: the behaviours receive it as a function.
 */
module Behaviors {
  import opened Wrappers
  import opened Affine
  import opened ObserveHelpers
  import opened SceneTree
  import opened Scene
  import opened App
  import opened PrimitiveHelpers
  import Enforcer

  datatype HitResult =
    | NONE | INSIDE
    | LEFT | RIGHT | TOP | BOTTOM
    | TOP_LEFT | TOP_RIGHT | BOTTOM_LEFT | BOTTOM_RIGHT

  datatype MouseBehaviorEvent = MouseBehaviorEvent(
    viewportXY: Vec2, absoluteXY: Vec2, cameraMatrix: Mat2d, cameraScale: real, shift: bool)

  /**
   * scene.hits(page, point, 4.0 / cameraScale): given the page, the absolute
   * point and the camera scale, what was hit and which node.
   */
  type HitTest = (Guid, Vec2, real) -> (HitResult, Option<Guid>)

  /** The node a hit lands inside, if any. */
  function InsideHit(hit: (HitResult, Option<Guid>)): (r: Option<Guid>)
    ensures r.Some? <==> hit.0 == INSIDE && hit.1.Some?
    ensures r.Some? ==> r == hit.1
  {
    if hit.0 == INSIDE && hit.1.Some? then hit.1 else None
  }

  /** The selection after a click inside `hit`: shift toggles it, a plain click selects it alone. */
  function ClickedSelection(sel: set<Guid>, hit: Guid, shift: bool): (r: set<Guid>)
    ensures shift ==> (hit in r <==> hit !in sel)
    ensures shift ==> forall g :: g != hit ==> (g in r <==> g in sel)
    ensures !shift ==> forall g :: g in r <==> g == hit
  {
    if !shift then {hit}
    else if hit in sel then sel - {hit}
    else sel + {hit}
  }

  /** Two shift-clicks on the same node leave the selection as it was. */
  lemma ShiftClickTwiceRestores(sel: set<Guid>, hit: Guid)
    ensures ClickedSelection(ClickedSelection(sel, hit, true), hit, true) == sel
  {
  }

  /**
   * A shift-click adds the node without evicting its relatives; when it lies
   * below a selected node, the enforcer's pass removes it again and restores
   * the selection it started from.
   */
  lemma ShiftClickBelowSelectedIsUndone(pm: ParentMap, sel: set<Guid>, hit: Guid, s: Guid)
    requires Acyclic(pm)
    requires forall g :: g in sel ==> g in pm
    requires Antichain(pm, sel)
    requires s in sel && HasDescendant(pm, s, hit) && hit !in sel
    ensures Enforcer.Enforced(pm, ClickedSelection(sel, hit, true)) == sel
  {
    var clicked := ClickedSelection(sel, hit, true);
    assert hit in Enforcer.InvalidSelections(pm, clicked);
    forall x | x in sel
      ensures x !in Enforcer.InvalidSelections(pm, clicked)
    {
      if x in Enforcer.InvalidSelections(pm, clicked) {
        var y :| y in clicked && HasDescendant(pm, y, x);
        if y == hit {
          AncestorTransitive(pm, s, hit, x);
        }
      }
    }
  }

  class SelectionMouseBehavior {
    const scene: SceneGraph
    const appModel: AppModel
    var hoveringGUID: Option<Guid>

    constructor(scene: SceneGraph, appModel: AppModel)
      ensures this.scene == scene && this.appModel == appModel && hoveringGUID == None
    {
      this.scene := scene;
      this.appModel := appModel;
      hoveringGUID := None;
    }

    /**
     * handleMouseDown: clears the hover; a press inside a node selects it
     * (shift toggles it) in one write and captures the mouse.
     */
    method HandleMouseDown(event: MouseBehaviorEvent, hits: HitTest) returns (captured: bool)
      modifies this, appModel
      ensures hoveringGUID == None
      ensures var hit := InsideHit(hits(old(appModel.page), event.absoluteXY, event.cameraScale));
        captured <==> hit.Some?
      ensures var hit := InsideHit(hits(old(appModel.page), event.absoluteXY, event.cameraScale));
        hit.Some? ==> appModel.selection == ClickedSelection(old(appModel.selection), hit.value, event.shift)
      ensures captured ==> (appModel.forwarded == old(appModel.forwarded) +
        [Change(SelectionKey, Some(SelectionValue(old(appModel.selection))), Some(SelectionValue(appModel.selection)), SET)])
      ensures !captured ==> appModel.selection == old(appModel.selection) && appModel.forwarded == old(appModel.forwarded)
      ensures appModel.page == old(appModel.page) && appModel.currentTool == old(appModel.currentTool)
    {
      hoveringGUID := None;
      var (hitResult, hitGUID) := hits(appModel.page, event.absoluteXY, event.cameraScale);
      if hitResult == INSIDE && hitGUID.Some? {
        var g := hitGUID.value;
        if event.shift {
          if g in appModel.selection {
            appModel.Write(SelectionKey, SelectionValue(appModel.selection - {g}));
          } else {
            appModel.Write(SelectionKey, SelectionValue(appModel.selection + {g}));
          }
        } else {
          appModel.Write(SelectionKey, SelectionValue({g}));
        }
        return true;
      }
      return false;
    }

    /** handleMouseMove: hovers the node the pointer is inside, or nothing. */
    method HandleMouseMove(event: MouseBehaviorEvent, hits: HitTest)
      modifies this
      ensures hoveringGUID == InsideHit(hits(appModel.page, event.absoluteXY, event.cameraScale))
    {
      var (hitResult, hitGUID) := hits(appModel.page, event.absoluteXY, event.cameraScale);
      if hitResult == INSIDE && hitGUID.Some? {
        hoveringGUID := hitGUID;
      } else {
        hoveringGUID := None;
      }
    }
  }

  /** topLeftXY(): the corner with the smaller coordinates of the dragged rectangle. */
  function TopLeft(start: Vec2, end: Vec2): (r: Vec2)
    ensures r.x <= start.x && r.x <= end.x && (r.x == start.x || r.x == end.x)
    ensures r.y <= start.y && r.y <= end.y && (r.y == start.y || r.y == end.y)
  {
    Vec2(if start.x <= end.x then start.x else end.x, if start.y <= end.y then start.y else end.y)
  }

  /** bottomRightXY(): the corner with the larger coordinates. */
  function BottomRight(start: Vec2, end: Vec2): (r: Vec2)
    ensures r.x >= start.x && r.x >= end.x && (r.x == start.x || r.x == end.x)
    ensures r.y >= start.y && r.y >= end.y && (r.y == start.y || r.y == end.y)
  {
    Vec2(if start.x >= end.x then start.x else end.x, if start.y >= end.y then start.y else end.y)
  }

  /** width(): never negative, the horizontal distance between the two points. */
  function Width(start: Vec2, end: Vec2): (r: real)
    ensures r >= 0.0
    ensures r == start.x - end.x || r == end.x - start.x
  {
    BottomRight(start, end).x - TopLeft(start, end).x
  }

  /** height(): never negative, the vertical distance between the two points. */
  function Height(start: Vec2, end: Vec2): (r: real)
    ensures r >= 0.0
    ensures r == start.y - end.y || r == end.y - start.y
  {
    BottomRight(start, end).y - TopLeft(start, end).y
  }

  /** relativeTransform(): the translation to the top-left corner. */
  function FrameTransform(start: Vec2, end: Vec2): Mat2d {
    Translation(TopLeft(start, end))
  }

  /**
   * The frame placed by the transform and sized by width and height covers
   * exactly the rectangle between the two points, whichever way it was dragged.
   */
  lemma FrameCoversDraggedRectangle(start: Vec2, end: Vec2)
    ensures Apply(FrameTransform(start, end), Vec2(0.0, 0.0)) == TopLeft(start, end)
    ensures Apply(FrameTransform(start, end), Vec2(Width(start, end), Height(start, end))) == BottomRight(start, end)
    ensures TopLeft(end, start) == TopLeft(start, end) && BottomRight(end, start) == BottomRight(start, end)
  {
    ApplyTranslation(TopLeft(start, end), Vec2(0.0, 0.0));
    ApplyTranslation(TopLeft(start, end), Vec2(Width(start, end), Height(start, end)));
  }

  /** The frame addFrame receives on mouse down: a child of the page, sized by the two points. */
  function NewFrame(guid: Guid, page: Guid, start: Vec2, end: Vec2, color: string): (n: Node)
    ensures n.guid == guid && n.parent == Some(page) && n.IsFrame()
    ensures n.relativeTransform == FrameTransform(start, end)
    ensures n.kind.width == Width(start, end) && n.kind.height == Height(start, end)
  {
    Node(guid, Some(page), FrameTransform(start, end), Frame(Width(start, end), Height(start, end), color, false))
  }

  /** `!this.newGUID` is false: a guid is set and is not the empty string. */
  predicate Truthy(g: Option<Guid>) {
    g.Some? && g.value != ""
  }

  /** The node the frame tool is sizing, when it is set and still in the scene. */
  predicate Tracks(nodes: map<Guid, Node>, target: Option<Guid>) {
    Truthy(target) && target.value in nodes
  }

  /** A frame after its width, height and transform are written, in that order. */
  function Reshaped(n: Node, w: real, h: real, t: Mat2d): (r: Node)
    requires n.IsFrame()
    ensures r.guid == n.guid && r.parent == n.parent && r.IsFrame()
    ensures r.kind.color == n.kind.color && r.kind.resizeToFit == n.kind.resizeToFit
    ensures r.kind.width == w && r.kind.height == h && r.relativeTransform == t
  {
    WithField(WithField(WithField(n, WidthKey, Number(w)), HeightKey, Number(h)), RelativeTransformKey, Matrix(t))
  }

  /** A frame resized to the rectangle between the two points. */
  function Resized(n: Node, start: Vec2, end: Vec2): Node
    requires n.IsFrame()
  {
    Reshaped(n, Width(start, end), Height(start, end), FrameTransform(start, end))
  }

  /** The scene after a drag or release: the tracked frame resized, every other node kept. */
  function AfterResize(nodes: map<Guid, Node>, target: Option<Guid>, start: Vec2, end: Vec2): map<Guid, Node> {
    if Tracks(nodes, target) && nodes[target.value].IsFrame() then
      nodes[target.value := Resized(nodes[target.value], start, end)]
    else nodes
  }

  /** The three field changes the writes of width, height and transform report, in that order. */
  function ReshapeEvents(g: Guid, n: Node, w: real, h: real, t: Mat2d): seq<SceneEvent>
    requires n.IsFrame()
  {
    [NodeChanged(g, Change(WidthKey, Some(Number(n.kind.width)), Some(Number(w)), SET)),
     NodeChanged(g, Change(HeightKey, Some(Number(n.kind.height)), Some(Number(h)), SET)),
     NodeChanged(g, Change(RelativeTransformKey, Some(Matrix(n.relativeTransform)), Some(Matrix(t)), SET))]
  }

  /** The changes a resize to the rectangle between the two points reports. */
  function ResizeEvents(g: Guid, n: Node, start: Vec2, end: Vec2): seq<SceneEvent>
    requires n.IsFrame()
  {
    ReshapeEvents(g, n, Width(start, end), Height(start, end), FrameTransform(start, end))
  }

  /** The tracked frame ends up exactly covering the rectangle; nothing else in the scene changes. */
  lemma ResizeCoversRectangle(nodes: map<Guid, Node>, target: Option<Guid>, start: Vec2, end: Vec2)
    requires Tracks(nodes, target) && nodes[target.value].IsFrame()
    ensures var r := AfterResize(nodes, target, start, end)[target.value];
      r.IsFrame() &&
      Apply(r.relativeTransform, Vec2(0.0, 0.0)) == TopLeft(start, end) &&
      Apply(r.relativeTransform, Vec2(r.kind.width, r.kind.height)) == BottomRight(start, end)
    ensures AfterResize(nodes, target, start, end).Keys == nodes.Keys
    ensures forall g :: g in nodes && g != target.value ==> AfterResize(nodes, target, start, end)[g] == nodes[g]
  {
    FrameCoversDraggedRectangle(start, end);
  }

  /** Only the last pointer position of a drag matters: resizing again overrides the earlier resize. */
  lemma ResizeLastWins(nodes: map<Guid, Node>, target: Option<Guid>, start: Vec2, end1: Vec2, end2: Vec2)
    ensures AfterResize(AfterResize(nodes, target, start, end1), target, start, end2) == AfterResize(nodes, target, start, end2)
  {
    if Tracks(nodes, target) && nodes[target.value].IsFrame() {
      var n := nodes[target.value];
      assert Resized(Resized(n, start, end1), start, end2) == Resized(n, start, end2);
    }
  }

  /** The three writes of a resize each report one change, together the resize's events. */
  lemma ReshapeAnnouncement(ls: seq<ListenerId>, d: seq<SceneDelivery>, g: Guid, n: Node, w: real, h: real, t: Mat2d)
    requires n.IsFrame()
    ensures var es := ReshapeEvents(g, n, w, h, t);
      d + Announce(ls, [es[0]]) + Announce(ls, [es[1]]) + Announce(ls, [es[2]]) == d + Announce(ls, es)
  {
    var es := ReshapeEvents(g, n, w, h, t);
    var a0, a1, a2 := Announce(ls, [es[0]]), Announce(ls, [es[1]]), Announce(ls, [es[2]]);
    assert d + a0 + a1 + a2 == d + (a0 + a1 + a2);
    assert es == [es[0]] + [es[1]] + [es[2]];
    AnnounceAppend(ls, [es[0]] + [es[1]], [es[2]]);
    AnnounceAppend(ls, [es[0]], [es[1]]);
  }

  /** A field write over an existing value reports exactly that change. */
  lemma SingleFieldEvent(g: Guid, e: SceneEvent)
    requires e.NodeChanged? && e.guid == g && e.change.oldValue.Some? && e.change.kind == SET
    ensures NodeFieldEvents(g, e.change) == [e]
  {
  }

  class FrameMouseBehavior {
    const scene: SceneGraph
    const appModel: AppModel
    /** randomColorPicker, which gives each new frame its colour. */
    const colors: Picker<string>
    var startAbsoluteXY: Vec2
    var endAbsoluteXY: Vec2
    var newGUID: Option<Guid>

    constructor(scene: SceneGraph, appModel: AppModel, colors: Picker<string>)
      ensures this.scene == scene && this.appModel == appModel && this.colors == colors
      ensures newGUID == None
    {
      this.scene := scene;
      this.appModel := appModel;
      this.colors := colors;
      startAbsoluteXY := Vec2(0.0, 0.0);
      endAbsoluteXY := Vec2(0.0, 0.0);
      newGUID := None;
    }

    /**
     * handleMouseDown: anchors both corners at the pointer, adds a zero-sized
     * frame under the page with the next colour, tracks its guid and captures
     * the mouse. `guid` is what generateGUID returns for the new frame.
     */
    method HandleMouseDown(event: MouseBehaviorEvent, guid: Guid) returns (captured: bool)
      requires scene.Valid() && colors.ts == RandomColors
      modifies this, scene, colors
      ensures captured
      ensures startAbsoluteXY == event.absoluteXY && endAbsoluteXY == event.absoluteXY
      ensures newGUID == Some(guid)
      ensures colors.i == old(colors.i) + 1
      ensures var node := NewFrame(guid, appModel.page, event.absoluteXY, event.absoluteXY, RandomColors[old(colors.i) % 6]);
        scene.nodes == old(scene.nodes)[guid := node] &&
        scene.deliveries == old(scene.deliveries) + Announce(scene.listeners, SceneMapEvents(SetChange(old(scene.nodes), guid, node)))
      ensures scene.Valid() && scene.listeners == old(scene.listeners)
    {
      startAbsoluteXY := event.absoluteXY;
      endAbsoluteXY := event.absoluteXY;
      var color := colors.Pick();
      RandomColorOrder(old(colors.i));
      var node := NewFrame(guid, appModel.page, startAbsoluteXY, endAbsoluteXY, color.value);
      scene.AddNode(node);
      newGUID := Some(guid);
      return true;
    }

    /** Writes width, height and transform of frame `g`, each through node.set. */
    method WriteGeometry(g: Guid, w: real, h: real, t: Mat2d)
      requires scene.Valid() && g in scene.nodes && scene.nodes[g].IsFrame()
      modifies scene
      ensures scene.nodes == old(scene.nodes)[g := Reshaped(old(scene.nodes)[g], w, h, t)]
      ensures scene.deliveries == old(scene.deliveries) + Announce(scene.listeners, ReshapeEvents(g, old(scene.nodes)[g], w, h, t))
      ensures scene.Valid() && scene.listeners == old(scene.listeners)
    {
      var n := scene.nodes[g];
      var ls := scene.listeners;
      var es := ReshapeEvents(g, n, w, h, t);
      ghost var d0 := scene.deliveries;
      ghost var a0, a1, a2 := Announce(ls, [es[0]]), Announce(ls, [es[1]]), Announce(ls, [es[2]]);
      ghost var m0 := scene.nodes;
      ghost var n1 := WithField(n, WidthKey, Number(w));
      ghost var n2 := WithField(n1, HeightKey, Number(h));
      scene.SetNodeField(g, WidthKey, Number(w));
      assert scene.deliveries == d0 + a0 && scene.nodes == m0[g := n1] by {
        SingleFieldEvent(g, es[0]);
      }
      scene.SetNodeField(g, HeightKey, Number(h));
      assert scene.deliveries == d0 + a0 + a1 && scene.nodes == m0[g := n2] by {
        SingleFieldEvent(g, es[1]);
      }
      scene.SetNodeField(g, RelativeTransformKey, Matrix(t));
      assert scene.deliveries == d0 + a0 + a1 + a2 by {
        SingleFieldEvent(g, es[2]);
      }
      ReshapeAnnouncement(ls, d0, g, n, w, h, t);
    }

    /** Writes width, height and transform of the tracked frame; reports whether the tracked node was found. */
    method ResizeNewNode() returns (found: bool)
      requires scene.Valid()
      modifies scene
      ensures found <==> Tracks(old(scene.nodes), newGUID)
      ensures scene.nodes == AfterResize(old(scene.nodes), newGUID, startAbsoluteXY, endAbsoluteXY)
      ensures scene.deliveries == old(scene.deliveries) + (
        if Tracks(old(scene.nodes), newGUID) && old(scene.nodes)[newGUID.value].IsFrame()
        then Announce(scene.listeners, ResizeEvents(newGUID.value, old(scene.nodes)[newGUID.value], startAbsoluteXY, endAbsoluteXY))
        else [])
      ensures scene.Valid() && scene.listeners == old(scene.listeners)
    {
      if newGUID.None? || newGUID.value == "" {
        return false;
      }
      var g := newGUID.value;
      var node := scene.GetNode(g);
      if node.None? {
        return false;
      }
      if node.value.IsFrame() {
        WriteGeometry(g, Width(startAbsoluteXY, endAbsoluteXY), Height(startAbsoluteXY, endAbsoluteXY), FrameTransform(startAbsoluteXY, endAbsoluteXY));
      }
      return true;
    }

    /** handleMouseDrag: moves the free corner and resizes the tracked frame to match. */
    method HandleMouseDrag(event: MouseBehaviorEvent)
      requires scene.Valid()
      modifies this, scene
      ensures endAbsoluteXY == event.absoluteXY
      ensures startAbsoluteXY == old(startAbsoluteXY) && newGUID == old(newGUID)
      ensures scene.nodes == AfterResize(old(scene.nodes), newGUID, startAbsoluteXY, event.absoluteXY)
      ensures scene.deliveries == old(scene.deliveries) + (
        if Tracks(old(scene.nodes), newGUID) && old(scene.nodes)[newGUID.value].IsFrame()
        then Announce(scene.listeners, ResizeEvents(newGUID.value, old(scene.nodes)[newGUID.value], startAbsoluteXY, event.absoluteXY))
        else [])
      ensures scene.Valid() && scene.listeners == old(scene.listeners)
    {
      endAbsoluteXY := event.absoluteXY;
      var _ := ResizeNewNode();
    }

    /**
     * handleMouseUp: like a drag, then stops tracking the frame; when the
     * tracked node is gone it returns early and keeps tracking it.
     */
    method HandleMouseUp(event: MouseBehaviorEvent)
      requires scene.Valid()
      modifies this, scene
      ensures endAbsoluteXY == event.absoluteXY && startAbsoluteXY == old(startAbsoluteXY)
      ensures newGUID == if Tracks(old(scene.nodes), old(newGUID)) then None else old(newGUID)
      ensures scene.nodes == AfterResize(old(scene.nodes), old(newGUID), startAbsoluteXY, event.absoluteXY)
      ensures scene.deliveries == old(scene.deliveries) + (
        if Tracks(old(scene.nodes), old(newGUID)) && old(scene.nodes)[old(newGUID).value].IsFrame()
        then Announce(scene.listeners, ResizeEvents(old(newGUID).value, old(scene.nodes)[old(newGUID).value], startAbsoluteXY, event.absoluteXY))
        else [])
      ensures scene.Valid() && scene.listeners == old(scene.listeners)
    {
      endAbsoluteXY := event.absoluteXY;
      var found := ResizeNewNode();
      if found {
        newGUID := None;
      }
    }
  }

  /** After the release clears the tracked guid, further drags change nothing in the scene. */
  lemma UntrackedDragChangesNothing(nodes: map<Guid, Node>, start: Vec2, end: Vec2)
    ensures AfterResize(nodes, None, start, end) == nodes
  {
  }
}
