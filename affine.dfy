/**
 * The 2-D affine algebra the editor borrows from gl-matrix: points (`vec2`) and
 * 2x3 matrices (`mat2d`) over the reals. Floating-point rounding is not modelled.
 */
module Affine {

  datatype Vec2 = Vec2(x: real, y: real)

  function Add(u: Vec2, v: Vec2): Vec2 { Vec2(u.x + v.x, u.y + v.y) }
  function Sub(u: Vec2, v: Vec2): Vec2 { Vec2(u.x - v.x, u.y - v.y) }
  function Negate(v: Vec2): Vec2 { Vec2(-v.x, -v.y) }

  /**
   * A mat2d, with its six entries in gl-matrix order [a, b, c, d, tx, ty]:
   * the point (x, y) is sent to (a*x + c*y + tx, b*x + d*y + ty).
   */
  datatype Mat2d = Mat2d(a: real, b: real, c: real, d: real, tx: real, ty: real) {
    /** Entry `i` of the underlying six-element array. */
    function At(i: nat): real
      requires i < 6
    {
      match i
      case 0 => a
      case 1 => b
      case 2 => c
      case 3 => d
      case 4 => tx
      case 5 => ty
    }

    /** The linear (2x2) part, which translations leave alone. */
    function Linear(): (real, real, real, real) { (a, b, c, d) }
  }

  /** mat2d.create() */
  function Identity(): Mat2d { Mat2d(1.0, 0.0, 0.0, 1.0, 0.0, 0.0) }

  /** mat2d.fromTranslation */
  function Translation(v: Vec2): Mat2d { Mat2d(1.0, 0.0, 0.0, 1.0, v.x, v.y) }

  /** mat2d.fromScaling */
  function Scaling(v: Vec2): Mat2d { Mat2d(v.x, 0.0, 0.0, v.y, 0.0, 0.0) }

  /** mat2d.multiply(out, p, q): the matrix that applies `q` first, then `p`. */
  function Multiply(p: Mat2d, q: Mat2d): Mat2d {
    Mat2d(p.a * q.a + p.c * q.b,
          p.b * q.a + p.d * q.b,
          p.a * q.c + p.c * q.d,
          p.b * q.c + p.d * q.d,
          p.a * q.tx + p.c * q.ty + p.tx,
          p.b * q.tx + p.d * q.ty + p.ty)
  }

  /** vec2.transformMat2d(out, v, m) */
  function Apply(m: Mat2d, v: Vec2): Vec2 {
    Vec2(m.a * v.x + m.c * v.y + m.tx, m.b * v.x + m.d * v.y + m.ty)
  }

  /** Layout of entries: the identity is [1,0,0,1,0,0] and a translation by (2,3) keeps 2 and 3 in entries 4 and 5. */
  lemma EntryLayout()
    ensures Identity().At(0) == 1.0 && Identity().At(1) == 0.0 && Identity().At(2) == 0.0
    ensures Identity().At(3) == 1.0 && Identity().At(4) == 0.0 && Identity().At(5) == 0.0
    ensures var t := Translation(Vec2(2.0, 3.0));
            t.At(0) == 1.0 && t.At(1) == 0.0 && t.At(2) == 0.0 && t.At(3) == 1.0 &&
            t.At(4) == 2.0 && t.At(5) == 3.0
  {
  }

  /** Multiplying matrices composes the maps they stand for. */
  lemma ApplyMultiply(p: Mat2d, q: Mat2d, v: Vec2)
    ensures Apply(Multiply(p, q), v) == Apply(p, Apply(q, v))
  {
    var w := Apply(q, v);
    calc {
      p.a * w.x + p.c * w.y + p.tx;
      { Distribute(p.a, q.a * v.x, q.c * v.y, q.tx); Distribute(p.c, q.b * v.x, q.d * v.y, q.ty); }
      p.a * (q.a * v.x) + p.a * (q.c * v.y) + p.a * q.tx + p.c * (q.b * v.x) + p.c * (q.d * v.y) + p.c * q.ty + p.tx;
      { Regroup(p.a, q.a, v.x); Regroup(p.c, q.b, v.x); Regroup(p.a, q.c, v.y); Regroup(p.c, q.d, v.y); }
      (p.a * q.a + p.c * q.b) * v.x + (p.a * q.c + p.c * q.d) * v.y + (p.a * q.tx + p.c * q.ty + p.tx);
    }
    calc {
      p.b * w.x + p.d * w.y + p.ty;
      { Distribute(p.b, q.a * v.x, q.c * v.y, q.tx); Distribute(p.d, q.b * v.x, q.d * v.y, q.ty); }
      p.b * (q.a * v.x) + p.b * (q.c * v.y) + p.b * q.tx + p.d * (q.b * v.x) + p.d * (q.d * v.y) + p.d * q.ty + p.ty;
      { Regroup(p.b, q.a, v.x); Regroup(p.d, q.b, v.x); Regroup(p.b, q.c, v.y); Regroup(p.d, q.d, v.y); }
      (p.b * q.a + p.d * q.b) * v.x + (p.b * q.c + p.d * q.d) * v.y + (p.b * q.tx + p.d * q.ty + p.ty);
    }
  }

  lemma Distribute(k: real, x: real, y: real, z: real)
    ensures k * (x + y + z) == k * x + k * y + k * z
  {
  }

  lemma Regroup(k: real, m: real, x: real)
    ensures k * (m * x) == (k * m) * x
  {
  }

  lemma MultiplyAssociative(p: Mat2d, q: Mat2d, r: Mat2d)
    ensures Multiply(Multiply(p, q), r) == Multiply(p, Multiply(q, r))
  {
    forall v: Vec2 ensures Apply(Multiply(Multiply(p, q), r), v) == Apply(Multiply(p, Multiply(q, r)), v) {
      ApplyMultiply(Multiply(p, q), r, v);
      ApplyMultiply(p, q, Apply(r, v));
      ApplyMultiply(p, Multiply(q, r), v);
      ApplyMultiply(q, r, v);
    }
    SameMapSameMatrix(Multiply(Multiply(p, q), r), Multiply(p, Multiply(q, r)));
  }

  /** Two matrices that move the points (0,0), (1,0) and (0,1) alike are equal. */
  lemma SameMapSameMatrix(m: Mat2d, n: Mat2d)
    requires forall v: Vec2 :: Apply(m, v) == Apply(n, v)
    ensures m == n
  {
    assert Apply(m, Vec2(0.0, 0.0)) == Apply(n, Vec2(0.0, 0.0));
    assert Apply(m, Vec2(1.0, 0.0)) == Apply(n, Vec2(1.0, 0.0));
    assert Apply(m, Vec2(0.0, 1.0)) == Apply(n, Vec2(0.0, 1.0));
  }

  lemma IdentityNeutral(m: Mat2d, v: Vec2)
    ensures Multiply(Identity(), m) == m && Multiply(m, Identity()) == m
    ensures Apply(Identity(), v) == v
  {
  }

  /** A translation moves every point by its vector. */
  lemma ApplyTranslation(t: Vec2, v: Vec2)
    ensures Apply(Translation(t), v) == Add(v, t)
  {
  }

  /** Pre-multiplying by a translation shifts the translation entries and keeps the linear part. */
  lemma TranslateAfter(t: Vec2, m: Mat2d)
    ensures Multiply(Translation(t), m) == Mat2d(m.a, m.b, m.c, m.d, m.tx + t.x, m.ty + t.y)
  {
  }

  lemma TranslationCompose(u: Vec2, v: Vec2)
    ensures Multiply(Translation(u), Translation(v)) == Translation(Add(u, v))
  {
  }
}
