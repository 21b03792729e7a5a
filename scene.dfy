/**
 * The scene graph store (src/fullscreen/scene.ts): nodes keyed by guid, the
 * set of scene-graph listeners, and the translation of low-level changes
 * (to the scene map, or to a node's fields) into node added / removed /
 * changed notifications. The two observers of the source and their internal
 * listeners are folded into the methods that write; `deliveries` logs every
 * listener call in order.
 */
module Scene {
  import opened Wrappers
  import opened Affine
  import opened ObserveHelpers
  import opened SceneTree

  datatype NodeKind =
    | Canvas
    | Frame(width: real, height: real, color: string, resizeToFit: bool)

  datatype Node = Node(guid: Guid, parent: Option<Guid>, relativeTransform: Mat2d, kind: NodeKind) {
    predicate IsFrame() { kind.Frame? }
  }

  /** The node fields the editing code writes through `node.set`. */
  datatype NodeKey = WidthKey | HeightKey | RelativeTransformKey

  datatype FieldValue = Number(n: real) | Matrix(m: Mat2d)

  /** `node.set(key, value)` is well-typed: width and height are numbers on frames, the transform a matrix. */
  predicate Fits(n: Node, key: NodeKey, value: FieldValue) {
    match key
    case WidthKey => n.IsFrame() && value.Number?
    case HeightKey => n.IsFrame() && value.Number?
    case RelativeTransformKey => value.Matrix?
  }

  /** `node.get(key)` for the writable fields. */
  function FieldOf(n: Node, key: NodeKey): Option<FieldValue> {
    match key
    case WidthKey => if n.IsFrame() then Some(Number(n.kind.width)) else None
    case HeightKey => if n.IsFrame() then Some(Number(n.kind.height)) else None
    case RelativeTransformKey => Some(Matrix(n.relativeTransform))
  }

  /** The node after `key` is written with `value`. */
  function WithField(n: Node, key: NodeKey, value: FieldValue): (r: Node)
    requires Fits(n, key, value)
    ensures FieldOf(r, key) == Some(value)
    ensures forall k :: k != key ==> FieldOf(r, k) == FieldOf(n, k)
    ensures r.guid == n.guid && r.parent == n.parent && r.IsFrame() == n.IsFrame()
  {
    match key
    case WidthKey => n.(kind := n.kind.(width := value.n))
    case HeightKey => n.(kind := n.kind.(height := value.n))
    case RelativeTransformKey => n.(relativeTransform := value.m)
  }

  datatype SceneEvent =
    | NodeAdded(guid: Guid)
    | NodeRemoved(guid: Guid)
    | NodeChanged(guid: Guid, change: Change<NodeKey, FieldValue>)

  /** One call of a scene-graph listener. */
  datatype SceneDelivery = SceneDelivery(listener: ListenerId, event: SceneEvent)

  /**
   * The scene-map listener: a DELETE becomes onNodeRemoved; a SET becomes
   * onNodeAdded only when the key already held a node, so a first insert
   * notifies nobody.
   */
  function SceneMapEvents(c: Change<Guid, Node>): (r: seq<SceneEvent>)
    ensures |r| <= 1
    ensures NodeRemoved(c.key) in r <==> c.kind == DELETE
    ensures NodeAdded(c.key) in r <==> c.kind == SET && c.oldValue.Some?
    ensures forall e :: e in r ==> e.guid == c.key && !e.NodeChanged?
  {
    (if c.kind == DELETE then [NodeRemoved(c.key)] else [])
    + (if c.kind == SET && c.oldValue.Some? then [NodeAdded(c.key)] else [])
  }

  /**
   * The node-field listener: a DELETE, or a SET over a present value, becomes
   * onNodeChanged(guid, change); a SET of a field that had no value is silent.
   */
  function NodeFieldEvents(guid: Guid, c: Change<NodeKey, FieldValue>): (r: seq<SceneEvent>)
    ensures |r| <= 1
    ensures r != [] <==> c.kind == DELETE || c.oldValue.Some?
    ensures forall e :: e in r ==> e == NodeChanged(guid, c)
  {
    (if c.kind == DELETE then [NodeChanged(guid, c)] else [])
    + (if c.kind == SET && c.oldValue.Some? then [NodeChanged(guid, c)] else [])
  }

  /** notifyNodeAdded / notifyNodeRemoved / notifyNodeChanged: one call per listener, in registration order. */
  function BroadcastEvent(ls: seq<ListenerId>, e: SceneEvent): (r: seq<SceneDelivery>)
    ensures |r| == |ls|
    ensures forall j :: 0 <= j < |ls| ==> r[j] == SceneDelivery(ls[j], e)
  {
    if ls == [] then [] else [SceneDelivery(ls[0], e)] + BroadcastEvent(ls[1..], e)
  }

  /** The deliveries for a list of events, each broadcast in turn. */
  function Announce(ls: seq<ListenerId>, es: seq<SceneEvent>): seq<SceneDelivery> {
    if es == [] then [] else BroadcastEvent(ls, es[0]) + Announce(ls, es[1..])
  }

  /** Announcing two runs of events one after the other is announcing them together. */
  lemma {:induction false} AnnounceAppend(ls: seq<ListenerId>, xs: seq<SceneEvent>, ys: seq<SceneEvent>)
    ensures Announce(ls, xs + ys) == Announce(ls, xs) + Announce(ls, ys)
    decreases |xs|
  {
    if xs == [] {
      assert xs + ys == ys;
    } else {
      assert (xs + ys)[1..] == xs[1..] + ys;
      AnnounceAppend(ls, xs[1..], ys);
    }
  }

  /** A scene event reaches listener `l` exactly when `l` is registered. */
  lemma AnnouncedIffRegistered(ls: seq<ListenerId>, e: SceneEvent, l: ListenerId)
    ensures SceneDelivery(l, e) in Announce(ls, [e]) <==> l in ls
  {
    var r := BroadcastEvent(ls, e);
    assert Announce(ls, [e]) == r + [];
    if l in ls {
      var j :| 0 <= j < |ls| && ls[j] == l;
      assert r[j] == SceneDelivery(l, e);
    }
  }

  /** Every node is stored under its own guid. */
  ghost predicate WellKeyed(m: map<Guid, Node>) {
    forall g :: g in m ==> m[g].guid == g
  }

  class SceneGraph {
    var nodes: map<Guid, Node>
    /** The scene-graph listeners, a Set iterated in insertion order. */
    var listeners: seq<ListenerId>
    var deliveries: seq<SceneDelivery>

    ghost predicate Valid()
      reads this
    {
      NoDuplicates(listeners) && WellKeyed(nodes)
    }

    /** getNode(g) */
    function GetNode(g: Guid): Option<Node>
      reads this
    {
      if g in nodes then Some(nodes[g]) else None
    }

    /** The parent structure the selection code consults. */
    function Parents(): ParentMap
      reads this
    {
      map g | g in nodes :: nodes[g].parent
    }

    /**
     * Inserts every node of `initial`, each under its own guid, before the
     * scene-map listener is attached: the initial nodes notify nobody.
     */
    constructor(initial: map<Guid, Node>)
      ensures Valid() && listeners == [] && deliveries == []
      ensures forall g :: g in nodes ==> nodes[g] in initial.Values
      ensures forall k :: k in initial ==> initial[k].guid in nodes
      ensures WellKeyed(initial) ==> nodes == initial
    {
      nodes := map[];
      listeners := [];
      deliveries := [];
      new;
      var todo := initial.Keys;
      while todo != {}
        invariant todo <= initial.Keys
        invariant WellKeyed(nodes)
        invariant forall g :: g in nodes ==> nodes[g] in initial.Values
        invariant forall k :: k in initial.Keys - todo ==> initial[k].guid in nodes
        invariant WellKeyed(initial) ==> nodes == map k | k in initial.Keys - todo :: initial[k]
        invariant listeners == [] && deliveries == []
        decreases todo
      {
        var k :| k in todo;
        var n := initial[k];
        nodes := nodes[n.guid := n];
        todo := todo - {k};
      }
    }

    /** addSceneGraphListener: adding a listener twice registers it once. */
    method AddSceneGraphListener(l: ListenerId)
      requires Valid()
      modifies this
      ensures Valid()
      ensures listeners == if l in old(listeners) then old(listeners) else old(listeners) + [l]
      ensures nodes == old(nodes) && deliveries == old(deliveries)
    {
      if l !in listeners {
        listeners := listeners + [l];
      }
    }

    /** Calls every listener with `e`, in registration order. */
    method NotifyListeners(e: SceneEvent)
      modifies this
      ensures nodes == old(nodes) && listeners == old(listeners)
      ensures deliveries == old(deliveries) + BroadcastEvent(listeners, e)
    {
      var i := 0;
      while i < |listeners|
        invariant 0 <= i <= |listeners|
        invariant nodes == old(nodes) && listeners == old(listeners)
        invariant deliveries == old(deliveries) + BroadcastEvent(listeners[..i], e)
      {
        assert BroadcastEvent(listeners[..i + 1], e) == BroadcastEvent(listeners[..i], e) + [SceneDelivery(listeners[i], e)];
        deliveries := deliveries + [SceneDelivery(listeners[i], e)];
        i := i + 1;
      }
      assert listeners[..i] == listeners;
    }

    /** Passes on the (at most one) event an observed change turned into. */
    method Notify(es: seq<SceneEvent>)
      requires |es| <= 1
      modifies this
      ensures nodes == old(nodes) && listeners == old(listeners)
      ensures deliveries == old(deliveries) + Announce(listeners, es)
    {
      if es != [] {
        NotifyListeners(es[0]);
        assert Announce(listeners, es) == BroadcastEvent(listeners, es[0]) + [];
      }
    }

    /** addNode: stores the node under its own guid, replacing any node there, and reports the write. */
    method AddNode(node: Node)
      requires Valid()
      modifies this
      ensures Valid()
      ensures nodes == old(nodes)[node.guid := node] && listeners == old(listeners)
      ensures deliveries == old(deliveries) + Announce(listeners, SceneMapEvents(SetChange(old(nodes), node.guid, node)))
    {
      var c := SetChange(nodes, node.guid, node);
      nodes := nodes[node.guid := node];
      Notify(SceneMapEvents(c));
    }

    /** `delete scene[g]`: removes the entry and reports onNodeRemoved(g), present or not. */
    method DeleteEntry(g: Guid)
      requires Valid()
      modifies this
      ensures Valid()
      ensures nodes == old(nodes) - {g} && listeners == old(listeners)
      ensures deliveries == old(deliveries) + Announce(listeners, [NodeRemoved(g)])
    {
      var c := DeleteChange(nodes, g);
      nodes := nodes - {g};
      Notify(SceneMapEvents(c));
    }

    /** node.set(key, value) on node `g`: writes the field and reports onNodeChanged when it had a value. */
    method SetNodeField(g: Guid, key: NodeKey, value: FieldValue)
      requires Valid() && g in nodes && Fits(nodes[g], key, value)
      modifies this
      ensures Valid()
      ensures nodes == old(nodes)[g := WithField(old(nodes)[g], key, value)] && listeners == old(listeners)
      ensures deliveries == old(deliveries) + Announce(listeners, NodeFieldEvents(g, Change(key, FieldOf(old(nodes)[g], key), Some(value), SET)))
    {
      var c := Change(key, FieldOf(nodes[g], key), Some(value), SET);
      nodes := nodes[g := WithField(nodes[g], key, value)];
      Notify(NodeFieldEvents(g, c));
    }
  }

  /** Writing a node that was not there yet notifies nobody; overwriting one announces it as added. */
  lemma AddNodeAnnouncement(m: map<Guid, Node>, node: Node)
    ensures node.guid !in m ==> SceneMapEvents(SetChange(m, node.guid, node)) == []
    ensures node.guid in m ==> SceneMapEvents(SetChange(m, node.guid, node)) == [NodeAdded(node.guid)]
  {
  }
}
