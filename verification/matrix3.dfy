/** Exact linear algebra on the 3x3 matrices of homogeneous 2-D coordinates
    `(x, y, 1)` that the affine builder works with. Every such matrix has
    bottom row `(0, 0, 1)`, so a matrix is stored as its top two rows and the
    bottom row is implicit. Reals stand in for numpy's float64 arrays. */
module Matrix3 {
  import opened Wrappers

  /** A point of the plane; its homogeneous form is `(x, y, 1)`. */
  datatype Point = Point(x: real, y: real)

  /** The matrix `[[m00, m01, m02], [m10, m11, m12], [0, 0, 1]]`. */
  datatype Mat3 = Mat3(m00: real, m01: real, m02: real,
                       m10: real, m11: real, m12: real)

  const Identity: Mat3 := Mat3(1.0, 0.0, 0.0, 0.0, 1.0, 0.0)

  /** The first two rows of `m @ (x, y, 1)`: the image of `p` under `m`. */
  function Apply(m: Mat3, p: Point): Point {
    Point(m.m00 * p.x + m.m01 * p.y + m.m02, m.m10 * p.x + m.m11 * p.y + m.m12)
  }

  /** Matrix product `a @ b`; the bottom row of the product is again
      `(0, 0, 1)`, so the product is stored the same way. */
  function Mul(a: Mat3, b: Mat3): Mat3 {
    Mat3(a.m00 * b.m00 + a.m01 * b.m10, a.m00 * b.m01 + a.m01 * b.m11, a.m00 * b.m02 + a.m01 * b.m12 + a.m02,
         a.m10 * b.m00 + a.m11 * b.m10, a.m10 * b.m01 + a.m11 * b.m11, a.m10 * b.m02 + a.m11 * b.m12 + a.m12)
  }

  /** Pure translation by `(tx, ty)`. */
  function Translation(tx: real, ty: real): Mat3 {
    Mat3(1.0, 0.0, tx, 0.0, 1.0, ty)
  }

  /** A translation moves every point by the same offset. */
  lemma TranslationApply(tx: real, ty: real, p: Point)
    ensures Apply(Translation(tx, ty), p) == Point(p.x + tx, p.y + ty)
  {
  }

  /** A matrix is determined by what it does to points: two matrices that
      agree on `(0, 0)`, `(1, 0)` and `(0, 1)` are equal. */
  lemma ApplyDetermines(a: Mat3, b: Mat3)
    requires Apply(a, Point(0.0, 0.0)) == Apply(b, Point(0.0, 0.0))
    requires Apply(a, Point(1.0, 0.0)) == Apply(b, Point(1.0, 0.0))
    requires Apply(a, Point(0.0, 1.0)) == Apply(b, Point(0.0, 1.0))
    ensures a == b
  {
  }

  /** The matrix product is associative, so a chain of `@` may be regrouped. */
  lemma MulAssoc(a: Mat3, b: Mat3, c: Mat3)
    ensures Mul(Mul(a, b), c) == Mul(a, Mul(b, c))
  {
    forall q | q in [Point(0.0, 0.0), Point(1.0, 0.0), Point(0.0, 1.0)]
      ensures Apply(Mul(Mul(a, b), c), q) == Apply(Mul(a, Mul(b, c)), q)
    {
      MulApply(Mul(a, b), c, q);
      MulApply(a, b, Apply(c, q));
      MulApply(a, Mul(b, c), q);
      MulApply(b, c, q);
    }
    ApplyDetermines(Mul(Mul(a, b), c), Mul(a, Mul(b, c)));
  }

  /** Applying a product is applying its factors right to left: this is
      what makes `T @ Mir @ R @ ShY @ ShX @ Sc` mean "scale first". */
  lemma MulApply(a: Mat3, b: Mat3, p: Point)
    ensures Apply(Mul(a, b), p) == Apply(a, Apply(b, p))
  {
    MulApplyX(a, b, p);
    MulApplyY(a, b, p);
  }

  lemma MulApplyX(a: Mat3, b: Mat3, p: Point)
    ensures Apply(Mul(a, b), p).x == Apply(a, Apply(b, p)).x
  {
    MulEntries(a, b);
    ApplyRows(Mul(a, b), p);
    ApplyRows(a, Apply(b, p));
    ApplyRows(b, p);
    RowThroughProduct(a.m00, a.m01, a.m02, b.m00, b.m01, b.m02, b.m10, b.m11, b.m12,
                      Mul(a, b).m00, Mul(a, b).m01, Mul(a, b).m02, p.x, p.y, Apply(b, p).x, Apply(b, p).y);
  }

  lemma MulApplyY(a: Mat3, b: Mat3, p: Point)
    ensures Apply(Mul(a, b), p).y == Apply(a, Apply(b, p)).y
  {
    MulEntries(a, b);
    ApplyRows(Mul(a, b), p);
    ApplyRows(a, Apply(b, p));
    ApplyRows(b, p);
    RowThroughProduct(a.m10, a.m11, a.m12, b.m00, b.m01, b.m02, b.m10, b.m11, b.m12,
                      Mul(a, b).m10, Mul(a, b).m11, Mul(a, b).m12, p.x, p.y, Apply(b, p).x, Apply(b, p).y);
  }

  /** The two coordinates of `Apply`, as separate facts. */
  lemma ApplyRows(m: Mat3, p: Point)
    ensures Apply(m, p).x == m.m00 * p.x + m.m01 * p.y + m.m02
    ensures Apply(m, p).y == m.m10 * p.x + m.m11 * p.y + m.m12
  {
  }

  /** The six entries of a product, as separate facts. */
  lemma MulEntries(a: Mat3, b: Mat3)
    ensures Mul(a, b).m00 == a.m00 * b.m00 + a.m01 * b.m10
    ensures Mul(a, b).m01 == a.m00 * b.m01 + a.m01 * b.m11
    ensures Mul(a, b).m02 == a.m00 * b.m02 + a.m01 * b.m12 + a.m02
    ensures Mul(a, b).m10 == a.m10 * b.m00 + a.m11 * b.m10
    ensures Mul(a, b).m11 == a.m10 * b.m01 + a.m11 * b.m11
    ensures Mul(a, b).m12 == a.m10 * b.m02 + a.m11 * b.m12 + a.m12
  {
  }

  /** One row of `MulApply` over plain reals: the row `(c0, c1, c2)` that
      the row `(r0, r1, r2)` of `a` gives in `a @ b`, applied to `(x, y)`,
      equals the row of `a` applied to `(qx, qy) = b (x, y)`. The entries are
      passed as separate real atoms so that the nonlinear arithmetic stays
      cheap. */
  lemma RowThroughProduct(r0: real, r1: real, r2: real,
                          b00: real, b01: real, b02: real, b10: real, b11: real, b12: real,
                          c0: real, c1: real, c2: real, x: real, y: real, qx: real, qy: real)
    requires c0 == r0 * b00 + r1 * b10 && c1 == r0 * b01 + r1 * b11 && c2 == r0 * b02 + r1 * b12 + r2
    requires qx == b00 * x + b01 * y + b02 && qy == b10 * x + b11 * y + b12
    ensures c0 * x + c1 * y + c2 == r0 * qx + r1 * qy + r2
  {
  }

  /** The determinant; with bottom row `(0, 0, 1)` the cofactor expansion
      along that row leaves the 2x2 determinant of the linear part. */
  function Det(m: Mat3): real {
    m.m00 * m.m11 - m.m01 * m.m10
  }

  /** The determinant is multiplicative. */
  lemma DetMul(a: Mat3, b: Mat3)
    ensures Det(Mul(a, b)) == Det(a) * Det(b)
  {
    var c := Mul(a, b);
    calc {
      c.m00 * c.m11 - c.m01 * c.m10;
      (a.m00 * b.m00 + a.m01 * b.m10) * (a.m10 * b.m01 + a.m11 * b.m11)
      - (a.m00 * b.m01 + a.m01 * b.m11) * (a.m10 * b.m00 + a.m11 * b.m10);
      (a.m00 * a.m11 - a.m01 * a.m10) * (b.m00 * b.m11 - b.m01 * b.m10);
    }
  }

  /** The matrix `Invert` builds from `m` and the reciprocal `k` of its
      determinant. */
  function InverseWith(m: Mat3, k: real): Mat3 {
    Mat3(k * m.m11, k * -m.m01, k * (m.m01 * m.m12 - m.m02 * m.m11),
         k * -m.m10, k * m.m00, k * (m.m02 * m.m10 - m.m00 * m.m12))
  }

  /** `np.linalg.inv`: the adjugate times the reciprocal of the
      determinant, or `None` where `np.linalg.inv` raises `LinAlgError`
      (an exactly singular matrix). The inverse of a matrix with bottom row
      `(0, 0, 1)` has that bottom row again. */
  function Invert(m: Mat3): (r: Option<Mat3>)
    ensures r.Some? <==> Det(m) != 0.0
  {
    if Det(m) == 0.0 then None else Some(InverseWith(m, 1.0 / Det(m)))
  }

  /** First row of the inverse over plain reals: with `k = 1/det` and
      `(qx, qy) = (a x + b y + c, d x + e y + f)`, the row recovers `x`. */
  lemma UndoX(a: real, b: real, c: real, d: real, e: real, f: real, k: real,
              i0: real, i1: real, i2: real, x: real, y: real, qx: real, qy: real)
    requires k * (a * e - b * d) == 1.0
    requires i0 == k * e && i1 == k * -b && i2 == k * (b * f - c * e)
    requires qx == a * x + b * y + c && qy == d * x + e * y + f
    ensures i0 * qx + i1 * qy + i2 == x
  {
    calc {
      i0 * qx + i1 * qy + i2;
      k * (e * qx - b * qy + (b * f - c * e));
      k * ((a * e - b * d) * x);
      (k * (a * e - b * d)) * x;
      x;
    }
  }

  /** Second row of the inverse over plain reals: it recovers `y`. */
  lemma UndoY(a: real, b: real, c: real, d: real, e: real, f: real, k: real,
              i3: real, i4: real, i5: real, x: real, y: real, qx: real, qy: real)
    requires k * (a * e - b * d) == 1.0
    requires i3 == k * -d && i4 == k * a && i5 == k * (c * d - a * f)
    requires qx == a * x + b * y + c && qy == d * x + e * y + f
    ensures i3 * qx + i4 * qy + i5 == y
  {
    calc {
      i3 * qx + i4 * qy + i5;
      k * (-d * qx + a * qy + (c * d - a * f));
      k * ((a * e - b * d) * y);
      (k * (a * e - b * d)) * y;
      y;
    }
  }

  /** First row of the matrix undoes the inverse over plain reals: with
      `(x, y)` the inverse's image of `(qx, qy)`, the row gives back `qx`. */
  lemma RedoX(a: real, b: real, c: real, d: real, e: real, f: real, k: real,
              i0: real, i1: real, i2: real, i3: real, i4: real, i5: real,
              x: real, y: real, qx: real, qy: real)
    requires k * (a * e - b * d) == 1.0
    requires i0 == k * e && i1 == k * -b && i2 == k * (b * f - c * e)
    requires i3 == k * -d && i4 == k * a && i5 == k * (c * d - a * f)
    requires x == i0 * qx + i1 * qy + i2 && y == i3 * qx + i4 * qy + i5
    ensures a * x + b * y + c == qx
  {
    calc {
      a * x + b * y + c;
      k * (a * (e * qx - b * qy + (b * f - c * e)) + b * (-d * qx + a * qy + (c * d - a * f))) + c;
      k * ((a * e - b * d) * qx - (a * e - b * d) * c) + c;
      (k * (a * e - b * d)) * qx - (k * (a * e - b * d)) * c + c;
      qx;
    }
  }

  /** Second row of the matrix undoes the inverse over plain reals. */
  lemma RedoY(a: real, b: real, c: real, d: real, e: real, f: real, k: real,
              i0: real, i1: real, i2: real, i3: real, i4: real, i5: real,
              x: real, y: real, qx: real, qy: real)
    requires k * (a * e - b * d) == 1.0
    requires i0 == k * e && i1 == k * -b && i2 == k * (b * f - c * e)
    requires i3 == k * -d && i4 == k * a && i5 == k * (c * d - a * f)
    requires x == i0 * qx + i1 * qy + i2 && y == i3 * qx + i4 * qy + i5
    ensures d * x + e * y + f == qy
  {
    calc {
      d * x + e * y + f;
      k * (d * (e * qx - b * qy + (b * f - c * e)) + e * (-d * qx + a * qy + (c * d - a * f))) + f;
      k * ((a * e - b * d) * qy - (a * e - b * d) * f) + f;
      (k * (a * e - b * d)) * qy - (k * (a * e - b * d)) * f + f;
      qy;
    }
  }

  /** The six entries of `InverseWith`, as separate facts. */
  lemma InverseWithEntries(m: Mat3, k: real)
    ensures InverseWith(m, k).m00 == k * m.m11 && InverseWith(m, k).m01 == k * -m.m01
    ensures InverseWith(m, k).m02 == k * (m.m01 * m.m12 - m.m02 * m.m11)
    ensures InverseWith(m, k).m10 == k * -m.m10 && InverseWith(m, k).m11 == k * m.m00
    ensures InverseWith(m, k).m12 == k * (m.m02 * m.m10 - m.m00 * m.m12)
  {
  }

  /** `Invert` is `InverseWith` at the reciprocal of the determinant. */
  lemma InvertIsInverseWith(m: Mat3)
    requires Det(m) != 0.0
    ensures Invert(m) == Some(InverseWith(m, 1.0 / Det(m)))
    ensures (1.0 / Det(m)) * (m.m00 * m.m11 - m.m01 * m.m10) == 1.0
  {
  }

  /** The inverse of an invertible matrix maps `q` to `p` exactly when the
      matrix maps `p` to `q`: it undoes the matrix and the matrix undoes
      it. */
  lemma InvertInverts(m: Mat3, p: Point, q: Point)
    requires Det(m) != 0.0
    ensures Invert(m).Some?
    ensures Apply(m, p) == q <==> Apply(Invert(m).value, q) == p
  {
    InvertIsInverseWith(m);
    var k := 1.0 / Det(m);
    if Apply(m, p) == q {
      UndoesX(m, k, p);
      UndoesY(m, k, p);
    }
    if Apply(InverseWith(m, k), q) == p {
      RedoesX(m, k, q);
      RedoesY(m, k, q);
    }
  }

  lemma UndoesX(m: Mat3, k: real, p: Point)
    requires k * (m.m00 * m.m11 - m.m01 * m.m10) == 1.0
    ensures Apply(InverseWith(m, k), Apply(m, p)).x == p.x
  {
    var i, q := InverseWith(m, k), Apply(m, p);
    InverseWithEntries(m, k);
    ApplyRows(m, p);
    ApplyRows(i, q);
    UndoX(m.m00, m.m01, m.m02, m.m10, m.m11, m.m12, k, i.m00, i.m01, i.m02, p.x, p.y, q.x, q.y);
  }

  lemma UndoesY(m: Mat3, k: real, p: Point)
    requires k * (m.m00 * m.m11 - m.m01 * m.m10) == 1.0
    ensures Apply(InverseWith(m, k), Apply(m, p)).y == p.y
  {
    var i, q := InverseWith(m, k), Apply(m, p);
    InverseWithEntries(m, k);
    ApplyRows(m, p);
    ApplyRows(i, q);
    UndoY(m.m00, m.m01, m.m02, m.m10, m.m11, m.m12, k, i.m10, i.m11, i.m12, p.x, p.y, q.x, q.y);
  }

  lemma RedoesX(m: Mat3, k: real, q: Point)
    requires k * (m.m00 * m.m11 - m.m01 * m.m10) == 1.0
    ensures Apply(m, Apply(InverseWith(m, k), q)).x == q.x
  {
    var i := InverseWith(m, k);
    var p := Apply(i, q);
    InverseWithEntries(m, k);
    ApplyRows(m, p);
    ApplyRows(i, q);
    RedoX(m.m00, m.m01, m.m02, m.m10, m.m11, m.m12, k,
          i.m00, i.m01, i.m02, i.m10, i.m11, i.m12, p.x, p.y, q.x, q.y);
  }

  lemma RedoesY(m: Mat3, k: real, q: Point)
    requires k * (m.m00 * m.m11 - m.m01 * m.m10) == 1.0
    ensures Apply(m, Apply(InverseWith(m, k), q)).y == q.y
  {
    var i := InverseWith(m, k);
    var p := Apply(i, q);
    InverseWithEntries(m, k);
    ApplyRows(m, p);
    ApplyRows(i, q);
    RedoY(m.m00, m.m01, m.m02, m.m10, m.m11, m.m12, k,
          i.m00, i.m01, i.m02, i.m10, i.m11, i.m12, p.x, p.y, q.x, q.y);
  }

  /** An inverse undoes its matrix on every point. */
  lemma InvertUndoesApply(m: Mat3, p: Point)
    requires Det(m) != 0.0
    ensures Invert(m).Some?
    ensures Apply(Invert(m).value, Apply(m, p)) == p
  {
    InvertInverts(m, p, Apply(m, p));
  }
}
