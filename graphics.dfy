/**
 * The drawable primitives handed to the renderer and the pure helpers that
 * move them into device space (src/fullscreen/graphics.ts). The Canvas
 * rasteriser is not part of this model.
 */
module Graphics {
  import opened Wrappers
  import opened Affine

  datatype Fill = Fill(color: string)
  datatype Stroke = Stroke(color: string, weight: real)

  /** The three drawable variants, tagged POLYGON, LINE and BACKGROUND in the source. */
  datatype Drawable =
    | Polygon(points: seq<Vec2>, fill: Option<Fill>, stroke: Option<Stroke>)
    | Line(color: string, weight: real, points: seq<Vec2>)
    | Background(color: string)

  /** Maps every point through `m`, keeping length and order. */
  function TransformArray(points: seq<Vec2>, m: Mat2d): (r: seq<Vec2>)
    ensures |r| == |points|
    ensures forall i :: 0 <= i < |r| ==> r[i] == Apply(m, points[i])
  {
    if points == [] then [] else [Apply(m, points[0])] + TransformArray(points[1..], m)
  }

  /** Transforming by `q` and then by `p` is transforming once by `p · q`. */
  lemma TransformArrayCompose(points: seq<Vec2>, p: Mat2d, q: Mat2d)
    ensures TransformArray(TransformArray(points, q), p) == TransformArray(points, Multiply(p, q))
  {
    var lhs, rhs := TransformArray(TransformArray(points, q), p), TransformArray(points, Multiply(p, q));
    forall i | 0 <= i < |points| ensures lhs[i] == rhs[i] {
      ApplyMultiply(p, q, points[i]);
    }
  }

  lemma TransformArrayIdentity(points: seq<Vec2>)
    ensures TransformArray(points, Identity()) == points
  {
    forall i | 0 <= i < |points| ensures TransformArray(points, Identity())[i] == points[i] {
      IdentityNeutral(Identity(), points[i]);
    }
  }

  /**
   * Moves a drawable into the space of `m`: the variant is kept; a polygon or
   * a line gets its points transformed and keeps every other field; a
   * background is returned as it is.
   */
  function TransformDrawable(d: Drawable, m: Mat2d): (r: Drawable)
    ensures r.Polygon? == d.Polygon? && r.Line? == d.Line? && r.Background? == d.Background?
    ensures d.Polygon? ==> r.fill == d.fill && r.stroke == d.stroke
    ensures d.Line? ==> r.color == d.color && r.weight == d.weight
    ensures !d.Background? ==> |r.points| == |d.points|
    ensures !d.Background? ==> forall i :: 0 <= i < |r.points| ==> r.points[i] == Apply(m, d.points[i])
    ensures d.Background? ==> r == d
  {
    match d
    case Polygon(points, fill, stroke) => Polygon(TransformArray(points, m), fill, stroke)
    case Line(color, weight, points) => Line(color, weight, TransformArray(points, m))
    case Background(_) => d
  }

  lemma TransformDrawableCompose(d: Drawable, p: Mat2d, q: Mat2d)
    ensures TransformDrawable(TransformDrawable(d, q), p) == TransformDrawable(d, Multiply(p, q))
  {
    if !d.Background? {
      TransformArrayCompose(d.points, p, q);
    }
  }

  lemma TransformDrawableIdentity(d: Drawable)
    ensures TransformDrawable(d, Identity()) == d
  {
    if !d.Background? {
      TransformArrayIdentity(d.points);
    }
  }

  /** Maps TransformDrawable over a list, keeping length and order. */
  function TransformDrawables(ds: seq<Drawable>, m: Mat2d): (r: seq<Drawable>)
    ensures |r| == |ds|
    ensures forall i :: 0 <= i < |r| ==> r[i] == TransformDrawable(ds[i], m)
  {
    if ds == [] then [] else [TransformDrawable(ds[0], m)] + TransformDrawables(ds[1..], m)
  }

  /** Transforming lists distributes over concatenation, so drawables can be batched freely. */
  lemma TransformDrawablesAppend(xs: seq<Drawable>, ys: seq<Drawable>, m: Mat2d)
    ensures TransformDrawables(xs + ys, m) == TransformDrawables(xs, m) + TransformDrawables(ys, m)
  {
    var lhs, rhs := TransformDrawables(xs + ys, m), TransformDrawables(xs, m) + TransformDrawables(ys, m);
    forall i | 0 <= i < |xs + ys| ensures lhs[i] == rhs[i] {
    }
  }
}
