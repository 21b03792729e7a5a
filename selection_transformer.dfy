/**
 * The selection transformer (src/fullscreen/selection_transformer.ts): on
 * creation it records the starting transform of every selected node it can
 * find; each update moves those nodes by the pointer's displacement from the
 * start, always from the recorded transforms.
 */
module Transformer {
  import opened Wrappers
  import opened Affine
  import opened ObserveHelpers
  import opened SceneTree
  import opened Scene

  /** The starting transforms recorded for the selected guids that resolve. */
  function Captured(sel: set<Guid>, nodes: map<Guid, Node>): (r: map<Guid, Mat2d>)
    ensures r.Keys == sel * nodes.Keys
    ensures forall g :: g in r ==> r[g] == nodes[g].relativeTransform
  {
    map g | g in sel && g in nodes :: nodes[g].relativeTransform
  }

  /** The scene after update: each recorded node still present is translated by `delta` from its starting transform. */
  function Moved(nodes: map<Guid, Node>, captured: map<Guid, Mat2d>, delta: Vec2): map<Guid, Node> {
    map g | g in nodes ::
      if g in captured then nodes[g].(relativeTransform := Multiply(Translation(delta), captured[g])) else nodes[g]
  }

  /**
   * A move changes only the transforms of the recorded nodes: their linear
   * part stays the starting one and their offset is the starting offset plus
   * `delta`, so every point of such a node is displaced by exactly `delta`.
   */
  lemma MovedTranslatesRecorded(nodes: map<Guid, Node>, captured: map<Guid, Mat2d>, delta: Vec2, g: Guid, p: Vec2)
    requires g in nodes && g in captured
    ensures var m, s := Moved(nodes, captured, delta)[g].relativeTransform, captured[g];
      m == Mat2d(s.a, s.b, s.c, s.d, s.tx + delta.x, s.ty + delta.y) &&
      Apply(m, p) == Add(Apply(s, p), delta)
  {
    var s := captured[g];
    TranslateAfter(delta, s);
    ApplyMultiply(Translation(delta), s, p);
    ApplyTranslation(delta, Apply(s, p));
  }

  /** Nodes that were not recorded, and every node's other fields, are left as they are. */
  lemma MovedKeepsTheRest(nodes: map<Guid, Node>, captured: map<Guid, Mat2d>, delta: Vec2)
    ensures Moved(nodes, captured, delta).Keys == nodes.Keys
    ensures forall g :: g in nodes && g !in captured ==> Moved(nodes, captured, delta)[g] == nodes[g]
    ensures forall g :: g in nodes ==>
      var r := Moved(nodes, captured, delta)[g];
      r.guid == nodes[g].guid && r.parent == nodes[g].parent && r.kind == nodes[g].kind
  {
  }

  /** Updates do not accumulate: a later update overrides an earlier one. */
  lemma MovedLastWins(nodes: map<Guid, Node>, captured: map<Guid, Mat2d>, d1: Vec2, d2: Vec2)
    ensures Moved(Moved(nodes, captured, d1), captured, d2) == Moved(nodes, captured, d2)
  {
  }

  /** An update back at the starting point, right after creation, changes nothing. */
  lemma UpdateAtStartRestores(sel: set<Guid>, nodes: map<Guid, Node>)
    ensures Moved(nodes, Captured(sel, nodes), Vec2(0.0, 0.0)) == nodes
  {
    var c := Captured(sel, nodes);
    forall g | g in nodes && g in c
      ensures Multiply(Translation(Vec2(0.0, 0.0)), c[g]) == nodes[g].relativeTransform
    {
      TranslateAfter(Vec2(0.0, 0.0), c[g]);
    }
  }

  /** A delivery an update can make: a transform change of a recorded node. */
  predicate IsMoveDelivery(d: SceneDelivery, captured: map<Guid, Mat2d>) {
    d.event.NodeChanged? && d.event.guid in captured && d.event.change.key == RelativeTransformKey
  }

  class SelectionTransformer {
    /** The recorded starting transform of each selected node found at creation. */
    var selection: map<Guid, Mat2d>
    var startXY: Vec2

    constructor(sel: set<Guid>, startXY: Vec2, scene: SceneGraph)
      ensures selection == Captured(sel, scene.nodes) && this.startXY == startXY
    {
      var recorded: map<Guid, Mat2d> := map[];
      var todo := sel;
      while todo != {}
        invariant todo <= sel
        invariant recorded == Captured(sel - todo, scene.nodes)
        decreases todo
      {
        var g :| g in todo;
        var node := scene.GetNode(g);
        if node.Some? {
          recorded := recorded[g := node.value.relativeTransform];
        }
        todo := todo - {g};
      }
      selection := recorded;
      this.startXY := startXY;
    }

    /**
     * update(endXY): every recorded node still in the scene gets its starting
     * transform translated by endXY - startXY, each write reported as a
     * transform change of that node.
     */
    method Update(endXY: Vec2, scene: SceneGraph)
      requires scene.Valid()
      modifies scene
      ensures scene.nodes == Moved(old(scene.nodes), selection, Sub(endXY, startXY))
      ensures scene.Valid() && scene.listeners == old(scene.listeners)
      ensures |scene.deliveries| >= |old(scene.deliveries)|
      ensures scene.deliveries[..|old(scene.deliveries)|] == old(scene.deliveries)
      ensures forall k :: |old(scene.deliveries)| <= k < |scene.deliveries| ==> IsMoveDelivery(scene.deliveries[k], selection)
    {
      var delta := Sub(endXY, startXY);
      var todo := selection.Keys;
      ghost var d0 := scene.deliveries;
      ghost var m0 := scene.nodes;
      while todo != {}
        invariant todo <= selection.Keys
        invariant scene.Valid() && scene.listeners == old(scene.listeners)
        invariant scene.nodes == Moved(m0, map g | g in selection && g !in todo :: selection[g], delta)
        invariant |scene.deliveries| >= |d0| && scene.deliveries[..|d0|] == d0
        invariant forall k :: |d0| <= k < |scene.deliveries| ==> IsMoveDelivery(scene.deliveries[k], selection)
        decreases todo
      {
        var g :| g in todo;
        var node := scene.GetNode(g);
        if node.Some? {
          var endingTransform := Multiply(Translation(delta), selection[g]);
          ghost var before := scene.deliveries;
          var c := Change(RelativeTransformKey, FieldOf(node.value, RelativeTransformKey), Some(Matrix(endingTransform)), SET);
          scene.SetNodeField(g, RelativeTransformKey, Matrix(endingTransform));
          assert NodeFieldEvents(g, c) == [NodeChanged(g, c)];
          assert Announce(scene.listeners, [NodeChanged(g, c)]) == BroadcastEvent(scene.listeners, NodeChanged(g, c)) + [];
          assert scene.deliveries == before + BroadcastEvent(scene.listeners, NodeChanged(g, c));
        }
        todo := todo - {g};
      }
      assert (map g | g in selection && g !in todo :: selection[g]) == selection;
    }
  }
}
