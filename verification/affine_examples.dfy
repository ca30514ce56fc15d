/** `affine_transform_image` with scaling alone: the canvas is the scaled
    extent of the inclusive corner indices, and the coefficients are the
    reciprocal scale factors. */
module AffineExamples {
  import opened Wrappers
  import opened Matrix3
  import opened Rounding
  import opened Affine
  import opened AffineProperties

  /** The default parameters with the scale factors `(sx, sy)`. */
  function ScaleParams(sx: real, sy: real): Params {
    Params(sx, sy, 0.0, 0.0, 1.0, 0.0, 0.0, 0.0, 1.0, 1.0)
  }

  lemma MulIdentityLeft(m: Mat3)
    ensures Mul(Identity, m) == m
  {
  }

  /** Every factor before the scaling is the identity. */
  lemma {:induction false} ScaleChainPrefix(sx: real, sy: real, n: nat)
    requires 1 <= n <= 5
    ensures ChainTo(ScaleParams(sx, sy), n) == Identity
  {
    assert Primitive(ScaleParams(sx, sy), n - 1) == Identity;
    if n > 1 {
      ScaleChainPrefix(sx, sy, n - 1);
    }
  }

  /** `M_forward` is the first five factors times the scaling. */
  lemma ForwardLastFactor(p: Params)
    ensures Forward(p) == Mul(ChainTo(p, 5), ScaleMat(p.sx, p.sy))
  {
  }

  /** With scaling alone, `M_forward` is the scaling matrix. */
  lemma ScaleForward(sx: real, sy: real)
    ensures Forward(ScaleParams(sx, sy)) == ScaleMat(sx, sy)
  {
    ForwardLastFactor(ScaleParams(sx, sy));
    ScaleChainPrefix(sx, sy, 5);
    MulIdentityLeft(ScaleMat(sx, sy));
  }

  /** Non-negative scale factors send the corners to the box from the
      origin to the scaled extents. */
  lemma ScaleCornerBox(sx: real, sy: real, w: nat, h: nat)
    requires sx >= 0.0 && sy >= 0.0 && w >= 1 && h >= 1
    ensures CornerBox(ScaleMat(sx, sy), w, h)
         == Box(0.0, sx * (w - 1) as real, 0.0, sy * (h - 1) as real)
  {
  }

  /** With `k (a b) = 1`, `k b` and `k a` are the reciprocals of `a` and
      `b`. */
  lemma ReciprocalFactors(k: real, d: real, a: real, b: real)
    requires k * d == 1.0 && d == a * b
    ensures a != 0.0 && b != 0.0
    ensures k * b == 1.0 / a && k * a == 1.0 / b
  {
    assert a * (k * b) == 1.0;
    assert b * (k * a) == 1.0;
  }

  /** The inverse of a non-singular scaling scales by the reciprocals. */
  lemma InvertScale(sx: real, sy: real)
    requires sx != 0.0 && sy != 0.0
    ensures Invert(ScaleMat(sx, sy)) == Some(ScaleMat(1.0 / sx, 1.0 / sy))
  {
    var m := ScaleMat(sx, sy);
    var d := m.m00 * m.m11 - m.m01 * m.m10;
    assert d == sx * sy;
    InvertIsInverseWith(m);
    var k := 1.0 / Det(m);
    ReciprocalFactors(k, d, sx, sy);
    InverseWithEntries(m, k);
    var inv := InverseWith(m, k);
    assert inv.m00 == 1.0 / sx;
    assert inv.m01 == 0.0;
    assert inv.m02 == 0.0;
    assert inv.m10 == 0.0;
    assert inv.m11 == 1.0 / sy;
    assert inv.m12 == 0.0;
    assert inv == ScaleMat(1.0 / sx, 1.0 / sy);
  }

  /** Scaling a `w` by `h` image by positive factors: the canvas is
      `round(sx (w-1)) x round(sy (h-1))`, and the coefficients divide by the
      factors. When a rounded extent is 0 the input comes back. */
  lemma ScaleTransform(sx: real, sy: real, w: nat, h: nat)
    requires sx > 0.0 && sy > 0.0 && w >= 1 && h >= 1
    ensures var cw, ch := RoundHalfEven(sx * (w - 1) as real), RoundHalfEven(sy * (h - 1) as real);
            (AffineTransform(ScaleParams(sx, sy), w, h)
             == if cw >= 1 && ch >= 1 then Transformed(cw, ch, Coeffs(1.0 / sx, 0.0, 0.0, 0.0, 1.0 / sy, 0.0))
                else ReturnedInput(NonPositiveSize))
  {
    var m := ScaleMat(sx, sy);
    ScaleForward(sx, sy);
    ScaleCornerBox(sx, sy, w, h);
    AlignAtOrigin(m, CornerBox(m, w, h));
    InvertScale(sx, sy);
    var b := CornerBox(m, w, h);
    assert b.maxX - b.minX == sx * (w - 1) as real;
    assert b.maxY - b.minY == sy * (h - 1) as real;
    DecideWithInverse(CanvasOf(b).width, CanvasOf(b).height, FinalMatrix(m, w, h),
                      ScaleMat(1.0 / sx, 1.0 / sy));
  }

  /** `ScaleTransform` once the rounded extents are known and positive. */
  lemma ScaleTransformTo(sx: real, sy: real, w: nat, h: nat, cw: int, ch: int)
    requires sx > 0.0 && sy > 0.0 && w >= 1 && h >= 1
    requires cw == RoundHalfEven(sx * (w - 1) as real) && cw >= 1
    requires ch == RoundHalfEven(sy * (h - 1) as real) && ch >= 1
    ensures AffineTransform(ScaleParams(sx, sy), w, h)
         == Transformed(cw, ch, Coeffs(1.0 / sx, 0.0, 0.0, 0.0, 1.0 / sy, 0.0))
  {
    ScaleTransform(sx, sy, w, h);
  }

  /** Scaling by a whole factor `k` multiplies the extents `w-1` and `h-1`
      exactly: a 4 x 4 image scaled by 2 gets a 6 x 6 canvas, read back
      with coefficients of one half. */
  lemma IntegerScale(k: nat, w: nat, h: nat)
    requires k >= 1 && w >= 2 && h >= 2
    ensures AffineTransform(ScaleParams(k as real, k as real), w, h)
         == Transformed(k * (w - 1), k * (h - 1),
                        Coeffs(1.0 / k as real, 0.0, 0.0, 0.0, 1.0 / k as real, 0.0))
  {
    ProductAtLeastOne(k, w - 1);
    ProductAtLeastOne(k, h - 1);
    RoundIntegral(k * (w - 1));
    RoundIntegral(k * (h - 1));
    ScaleTransformTo(k as real, k as real, w, h, k * (w - 1), k * (h - 1));
  }

  /** A product of positive integers is at least 1, and its real value is
      the product of the real values. */
  lemma ProductAtLeastOne(a: nat, b: nat)
    requires a >= 1 && b >= 1
    ensures a * b >= 1
    ensures (a * b) as real == a as real * b as real
  {
  }
}
