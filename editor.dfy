/**
 * The camera and drawing arithmetic of the editor (src/fullscreen/editor.tsx):
 * zooming the camera around a viewport point, and the depth-first walk that
 * accumulates transforms from the page root down and draws one rectangle per
 * frame. Canvas output, mouse and wheel handlers are not part of this model.
 */
module Editor {
  import opened Affine

  type Guid = string

  /** Reads a gl-matrix mat2d out of its six-entry array. */
  function MatOf(s: seq<real>): Mat2d
    requires |s| == 6
  {
    Mat2d(s[0], s[1], s[2], s[3], s[4], s[5])
  }

  /** mat2d.multiply(A, L, A): replaces A by L · A, in place. */
  method PreMultiply(A: array<real>, L: Mat2d)
    requires A.Length == 6
    modifies A
    ensures MatOf(A[..]) == Multiply(L, MatOf(old(A[..])))
  {
    var r := Multiply(L, MatOf(A[..]));
    A[0], A[1], A[2], A[3], A[4], A[5] := r.a, r.b, r.c, r.d, r.tx, r.ty;
  }

  /** The camera after zooming by `scale` about viewport point `x`: T(x) · S(scale) · T(-x) · A. */
  function Zoomed(A: Mat2d, scale: real, x: Vec2): Mat2d {
    Multiply(Translation(x), Multiply(Scaling(Vec2(scale, scale)), Multiply(Translation(Negate(x)), A)))
  }

  /**
   * zoomCameraRetainingOrigin: three in-place multiplications of the camera
   * array `A`, which is also what it returns.
   */
  method ZoomCameraRetainingOrigin(A: array<real>, scale: real, x: Vec2) returns (r: array<real>)
    requires A.Length == 6
    modifies A
    ensures r == A
    ensures MatOf(A[..]) == Zoomed(MatOf(old(A[..])), scale, x)
  {
    var nx := Negate(x);
    PreMultiply(A, Translation(nx));
    PreMultiply(A, Scaling(Vec2(scale, scale)));
    PreMultiply(A, Translation(x));
    return A;
  }

  /** Zooming scales every viewport position away from `x` by `scale`. */
  lemma ZoomScalesAboutOrigin(A: Mat2d, scale: real, x: Vec2, p: Vec2)
    ensures var v := Apply(A, p);
            Apply(Zoomed(A, scale, x), p) == Vec2(x.x + scale * (v.x - x.x), x.y + scale * (v.y - x.y))
  {
    var S := Scaling(Vec2(scale, scale));
    ApplyMultiply(Translation(x), Multiply(S, Multiply(Translation(Negate(x)), A)), p);
    ApplyMultiply(S, Multiply(Translation(Negate(x)), A), p);
    ApplyMultiply(Translation(Negate(x)), A, p);
  }

  /** The point under the mouse stays under the mouse: an absolute point that A sent to x is still sent to x. */
  lemma ZoomRetainsOrigin(A: Mat2d, scale: real, x: Vec2, p: Vec2)
    requires Apply(A, p) == x
    ensures Apply(Zoomed(A, scale, x), p) == x
  {
    ZoomScalesAboutOrigin(A, scale, x, p);
  }

  // ---------------------------------------------------------------------------
  // recursivelyRender

  datatype NodeType = CanvasType | FrameType(width: real, height: real)

  /** A node of the editor's scene graph: its placement in its parent, its children, its type. */
  datatype RenderNode = RenderNode(relativeTransform: Mat2d, children: seq<Guid>, nodeType: NodeType)

  type RenderGraph = map<Guid, RenderNode>

  /** A call to drawRect(color, topLeft, bottomRight). */
  datatype Rect = Rect(color: string, topLeft: Vec2, bottomRight: Vec2)

  /** A downward path: each entry is a child of the one before. */
  ghost predicate DownPath(graph: RenderGraph, path: seq<Guid>) {
    && |path| >= 1
    && (forall i :: 0 <= i < |path| ==> path[i] in graph)
    && (forall i :: 0 <= i < |path| - 1 ==> path[i + 1] in graph[path[i]].children)
  }

  /** `to` is reached from `from` by following child references. */
  ghost predicate Reaches(graph: RenderGraph, from: Guid, to: Guid) {
    exists path :: DownPath(graph, path) && path[0] == from && path[|path| - 1] == to
  }

  /**
   * The subtree the walk visits from `root` is a finite forest: every node
   * reachable from `root` resolves, and each of its children resolves and
   * sits strictly lower in `rank`, so the walk ends. Nodes the walk never
   * reaches are unconstrained.
   */
  ghost predicate Layered(graph: RenderGraph, rank: map<Guid, nat>, root: Guid) {
    && root in graph && root in rank
    && (forall g :: Reaches(graph, root, g) ==>
          g in graph && g in rank &&
          forall c :: c in graph[g].children ==> c in graph && c in rank && rank[c] < rank[g])
  }

  /** A child of a node whose subtree is layered has a layered subtree of its own, lower in rank. */
  lemma LayeredChild(graph: RenderGraph, rank: map<Guid, nat>, g: Guid, c: Guid)
    requires Layered(graph, rank, g) && c in graph[g].children
    ensures Layered(graph, rank, c) && rank[c] < rank[g]
  {
    assert DownPath(graph, [g]);
    assert Reaches(graph, g, g);
    forall x | Reaches(graph, c, x)
      ensures Reaches(graph, g, x)
    {
      var p :| DownPath(graph, p) && p[0] == c && p[|p| - 1] == x;
      var q := [g] + p;
      forall i | 0 <= i < |q| - 1
        ensures q[i + 1] in graph[q[i]].children
      {
        if i > 0 {
          assert q[i + 1] == p[i] && q[i] == p[i - 1];
        }
      }
      assert DownPath(graph, q) && q[0] == g && q[|q| - 1] == x;
    }
  }

  /** What one node draws under matrix mm: a frame its box from (0,0) to (width,height), a canvas nothing. */
  function OwnRects(n: RenderNode, mm: Mat2d): seq<Rect> {
    match n.nodeType
    case FrameType(w, h) => [Rect("#cfc", Apply(mm, Vec2(0.0, 0.0)), Apply(mm, Vec2(w, h)))]
    case CanvasType => []
  }

  /**
   * The rectangles drawn, in order, by recursivelyRender(graph[g], m): a
   * frame first draws its own box under m · relativeTransform; a canvas draws
   * nothing itself; both then draw their children under that matrix.
   */
  function RecursivelyRender(graph: RenderGraph, rank: map<Guid, nat>, g: Guid, m: Mat2d): (r: seq<Rect>)
    requires Layered(graph, rank, g)
    ensures var mm := Multiply(m, graph[g].relativeTransform);
      graph[g].nodeType.FrameType? ==>
        |r| >= 1 &&
        r[0] == Rect("#cfc", Apply(mm, Vec2(0.0, 0.0)), Apply(mm, Vec2(graph[g].nodeType.width, graph[g].nodeType.height)))
    ensures graph[g].nodeType.CanvasType? ==> r == RenderChildren(graph, rank, g, graph[g].children, Multiply(m, graph[g].relativeTransform))
    decreases rank[g], 1
  {
    var mm := Multiply(m, graph[g].relativeTransform);
    OwnRects(graph[g], mm) + RenderChildren(graph, rank, g, graph[g].children, mm)
  }

  /** Renders the children `cs` of `g` in order, each under the parent's accumulated matrix `mm`. */
  function RenderChildren(graph: RenderGraph, rank: map<Guid, nat>, g: Guid, cs: seq<Guid>, mm: Mat2d): seq<Rect>
    requires Layered(graph, rank, g)
    requires forall c :: c in cs ==> c in graph[g].children
    decreases rank[g], 0, |cs|
  {
    if cs == [] then []
    else
      LayeredChild(graph, rank, g, cs[0]);
      RecursivelyRender(graph, rank, cs[0], mm) + RenderChildren(graph, rank, g, cs[1..], mm)
  }

  /** m · relativeTransform(path[0]) · relativeTransform(path[1]) · ..., accumulated as the walk does. */
  function Accumulate(graph: RenderGraph, m: Mat2d, path: seq<Guid>): Mat2d
    requires forall i :: 0 <= i < |path| ==> path[i] in graph
    decreases |path|
  {
    if path == [] then m else Accumulate(graph, Multiply(m, graph[path[0]].relativeTransform), path[1..])
  }

  /** The accumulated matrix of a node is the camera times the chain of relative transforms leading to it. */
  lemma {:induction false} AccumulateIsCameraTimesChain(graph: RenderGraph, m: Mat2d, path: seq<Guid>)
    requires forall i :: 0 <= i < |path| ==> path[i] in graph
    ensures Accumulate(graph, m, path) == Multiply(m, Accumulate(graph, Identity(), path))
    decreases |path|
  {
    if path == [] {
      IdentityNeutral(m, Vec2(0.0, 0.0));
    } else {
      var t := graph[path[0]].relativeTransform;
      var rest := path[1..];
      var chain := Accumulate(graph, Identity(), rest);
      assert Accumulate(graph, Identity(), path) == Accumulate(graph, t, rest) by {
        IdentityNeutral(t, Vec2(0.0, 0.0));
      }
      AccumulateIsCameraTimesChain(graph, Multiply(m, t), rest);
      AccumulateIsCameraTimesChain(graph, t, rest);
      MultiplyAssociative(m, t, chain);
    }
  }

  lemma {:induction false} RenderChildrenContains(graph: RenderGraph, rank: map<Guid, nat>, g: Guid, cs: seq<Guid>, mm: Mat2d, k: nat)
    requires Layered(graph, rank, g)
    requires forall c :: c in cs ==> c in graph[g].children
    requires k < |cs|
    ensures (LayeredChild(graph, rank, g, cs[k]);
      forall r :: r in RecursivelyRender(graph, rank, cs[k], mm) ==> r in RenderChildren(graph, rank, g, cs, mm))
  {
    if k > 0 {
      RenderChildrenContains(graph, rank, g, cs[1..], mm, k - 1);
    }
  }

  /**
   * Every frame reachable from the root along a path of children is drawn,
   * with its corners mapped by the camera times its chain of relative transforms.
   */
  lemma {:induction false} RenderDrawsReachableFrame(graph: RenderGraph, rank: map<Guid, nat>, path: seq<Guid>, m: Mat2d)
    requires DownPath(graph, path) && Layered(graph, rank, path[0])
    requires graph[path[|path| - 1]].nodeType.FrameType?
    ensures OwnRects(graph[path[|path| - 1]], Accumulate(graph, m, path))[0] in RecursivelyRender(graph, rank, path[0], m)
    decreases |path|
  {
    var g := path[0];
    var mm := Multiply(m, graph[g].relativeTransform);
    if |path| > 1 {
      var tail := path[1..];
      assert DownPath(graph, tail);
      LayeredChild(graph, rank, g, path[1]);
      RenderDrawsReachableFrame(graph, rank, tail, mm);
      var cs := graph[g].children;
      var k :| 0 <= k < |cs| && cs[k] == path[1];
      RenderChildrenContains(graph, rank, g, cs, mm, k);
    }
  }

  /** `x` is the box of the frame at the end of the downward path `p`, under the matrix accumulated along `p`. */
  ghost predicate DrawnAtEndOf(graph: RenderGraph, m: Mat2d, p: seq<Guid>, x: Rect) {
    && DownPath(graph, p)
    && graph[p[|p| - 1]].nodeType.FrameType?
    && x == OwnRects(graph[p[|p| - 1]], Accumulate(graph, m, p))[0]
  }

  /**
   * Nothing else is drawn: every rectangle the walk from `g` draws is the box
   * of a frame reachable from `g`, under the camera times its chain of
   * relative transforms.
   */
  lemma {:induction false} RenderedComesFromFrame(graph: RenderGraph, rank: map<Guid, nat>, g: Guid, m: Mat2d, x: Rect)
    requires Layered(graph, rank, g) && x in RecursivelyRender(graph, rank, g, m)
    ensures exists p :: DrawnAtEndOf(graph, m, p, x) && p[0] == g
    decreases rank[g], 1
  {
    var n := graph[g];
    var mm := Multiply(m, n.relativeTransform);
    if x in OwnRects(n, mm) {
      assert [g][1..] == [];
      assert Accumulate(graph, m, [g]) == mm;
      assert DownPath(graph, [g]);
      assert DrawnAtEndOf(graph, m, [g], x);
    } else {
      RenderChildrenComesFromFrame(graph, rank, g, n.children, mm, x);
      var q :| DrawnAtEndOf(graph, mm, q, x) && q[0] in n.children;
      DrawnThroughParent(graph, g, m, q, x);
    }
  }

  /** A frame drawn below a child of g, under g's matrix, is drawn along the path through g. */
  lemma DrawnThroughParent(graph: RenderGraph, g: Guid, m: Mat2d, q: seq<Guid>, x: Rect)
    requires g in graph
    requires DrawnAtEndOf(graph, Multiply(m, graph[g].relativeTransform), q, x) && q[0] in graph[g].children
    ensures DrawnAtEndOf(graph, m, [g] + q, x)
  {
    var p := [g] + q;
    assert p[1..] == q;
    forall i | 0 <= i < |p| - 1
      ensures p[i + 1] in graph[p[i]].children
    {
      if i > 0 {
        assert p[i + 1] == q[i] && p[i] == q[i - 1];
      }
    }
    assert DownPath(graph, p);
    assert Accumulate(graph, m, p) == Accumulate(graph, Multiply(m, graph[g].relativeTransform), q);
  }

  lemma {:induction false} RenderChildrenComesFromFrame(graph: RenderGraph, rank: map<Guid, nat>, g: Guid, cs: seq<Guid>, mm: Mat2d, x: Rect)
    requires Layered(graph, rank, g)
    requires forall c :: c in cs ==> c in graph[g].children
    requires x in RenderChildren(graph, rank, g, cs, mm)
    ensures exists q :: DrawnAtEndOf(graph, mm, q, x) && q[0] in graph[g].children
    decreases rank[g], 0, |cs|
  {
    LayeredChild(graph, rank, g, cs[0]);
    if x in RecursivelyRender(graph, rank, cs[0], mm) {
      RenderedComesFromFrame(graph, rank, cs[0], mm, x);
    } else {
      RenderChildrenComesFromFrame(graph, rank, g, cs[1..], mm, x);
    }
  }
}
