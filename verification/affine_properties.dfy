/** Properties of the canvas builder that relate several of its steps:
    where the corners land on the canvas, what the translation parameters
    change, what the defaults produce, and when each outcome happens. The
    steps after `M_forward` are stated for an arbitrary forward matrix `f`
    and then instantiated with `Forward(p)`. */
module AffineProperties {
  import opened Wrappers
  import opened Matrix3
  import opened Rounding
  import opened Affine

  /** Moving every point by `(dx, dy)` after `f`: `g` does what `f` does and
      then translates. */
  ghost predicate MovesBy(f: Mat3, g: Mat3, dx: real, dy: real) {
    forall q :: Apply(g, q) == Point(Apply(f, q).x + dx, Apply(f, q).y + dy)
  }

  /** A translation applied after `f` moves every point. */
  lemma TranslateMoves(f: Mat3, dx: real, dy: real)
    ensures MovesBy(f, Mul(Translation(dx, dy), f), dx, dy)
  {
    forall q
      ensures Apply(Mul(Translation(dx, dy), f), q) == Point(Apply(f, q).x + dx, Apply(f, q).y + dy)
    {
      MulApply(Translation(dx, dy), f, q);
      TranslationApply(dx, dy, Apply(f, q));
    }
  }

  /** The origin shift moves every point by minus the box's top-left
      corner. */
  lemma AlignMoves(f: Mat3, b: Box)
    ensures MovesBy(f, AlignToOrigin(f, b), -b.minX, -b.minY)
  {
    TranslateMoves(f, -b.minX, -b.minY);
  }

  /** Moving every point moves the corner box. */
  lemma CornerBoxMoves(f: Mat3, g: Mat3, dx: real, dy: real, w: nat, h: nat)
    requires MovesBy(f, g, dx, dy)
    ensures CornerBox(g, w, h)
         == Box(CornerBox(f, w, h).minX + dx, CornerBox(f, w, h).maxX + dx,
                CornerBox(f, w, h).minY + dy, CornerBox(f, w, h).maxY + dy)
  {
    var src := SourceCorners(w, h);
    forall i | 0 <= i < 4
      ensures MapCorners(g, w, h)[i] == Point(MapCorners(f, w, h)[i].x + dx, MapCorners(f, w, h)[i].y + dy)
    {
      MapCornersAt(f, w, h, i);
      MapCornersAt(g, w, h, i);
      assert Apply(g, src[i]) == Point(Apply(f, src[i]).x + dx, Apply(f, src[i]).y + dy);
    }
    BoundingBoxShift(MapCorners(f, w, h), MapCorners(g, w, h), dx, dy);
  }

  /** A box moved by minus its own top-left corner starts at the origin. */
  lemma MovedToOrigin(b: Box)
    ensures Box(b.minX + -b.minX, b.maxX + -b.minX, b.minY + -b.minY, b.maxY + -b.minY)
         == Box(0.0, b.maxX - b.minX, 0.0, b.maxY - b.minY)
  {
  }

  /** The final matrix maps a point through `f` and then subtracts the
      bounding box's top-left corner. */
  lemma FinalMatrixApply(f: Mat3, w: nat, h: nat, q: Point)
    ensures Apply(FinalMatrix(f, w, h), q)
         == Point(Apply(f, q).x + -CornerBox(f, w, h).minX, Apply(f, q).y + -CornerBox(f, w, h).minY)
  {
    AlignMoves(f, CornerBox(f, w, h));
  }

  /** After the origin shift the corners span exactly `[0, extent]` on each
      axis: every corner lies on the canvas, and the least x and the least y
      are 0. */
  lemma FinalCornersSpanCanvas(f: Mat3, w: nat, h: nat)
    ensures CornerBox(FinalMatrix(f, w, h), w, h)
         == Box(0.0, CornerBox(f, w, h).maxX - CornerBox(f, w, h).minX,
                0.0, CornerBox(f, w, h).maxY - CornerBox(f, w, h).minY)
  {
    AlignMoves(f, CornerBox(f, w, h));
    CornerBoxMoves(f, FinalMatrix(f, w, h), -CornerBox(f, w, h).minX, -CornerBox(f, w, h).minY, w, h);
    MovedToOrigin(CornerBox(f, w, h));
  }

  /** Aligning a translated matrix with the translated box is aligning the
      original one with the original box. */
  lemma AlignAfterTranslation(f: Mat3, dx: real, dy: real, b: Box)
    ensures AlignToOrigin(Mul(Translation(dx, dy), f), Box(b.minX + dx, b.maxX + dx, b.minY + dy, b.maxY + dy))
         == AlignToOrigin(f, b)
  {
    MulAssoc(Translation(-(b.minX + dx), -(b.minY + dy)), Translation(dx, dy), f);
    assert Mul(Translation(-(b.minX + dx), -(b.minY + dy)), Translation(dx, dy)) == Translation(-b.minX, -b.minY);
  }

  /** A moved box has the same canvas. */
  lemma CanvasOfMoved(b: Box, dx: real, dy: real)
    ensures CanvasOf(Box(b.minX + dx, b.maxX + dx, b.minY + dy, b.maxY + dy)) == CanvasOf(b)
  {
    assert (b.maxX + dx) - (b.minX + dx) == b.maxX - b.minX;
    assert (b.maxY + dy) - (b.minY + dy) == b.maxY - b.minY;
  }

  /** The origin shift cancels any translation applied after `f`: the final
      matrix is unchanged by it. */
  lemma FinalShiftInvariant(f: Mat3, dx: real, dy: real, w: nat, h: nat)
    ensures FinalMatrix(Mul(Translation(dx, dy), f), w, h) == FinalMatrix(f, w, h)
  {
    TranslateMoves(f, dx, dy);
    CornerBoxMoves(f, Mul(Translation(dx, dy), f), dx, dy, w, h);
    AlignAfterTranslation(f, dx, dy, CornerBox(f, w, h));
  }

  /** A translation applied after `f` does not change the plan. */
  lemma PlanShiftInvariant(f: Mat3, dx: real, dy: real, w: nat, h: nat)
    ensures Plan(Mul(Translation(dx, dy), f), w, h) == Plan(f, w, h)
  {
    TranslateMoves(f, dx, dy);
    CornerBoxMoves(f, Mul(Translation(dx, dy), f), dx, dy, w, h);
    CanvasOfMoved(CornerBox(f, w, h), dx, dy);
    FinalShiftInvariant(f, dx, dy, w, h);
  }

  /** The origin shift has determinant 1. */
  lemma AlignDeterminant(f: Mat3, b: Box)
    ensures Det(AlignToOrigin(f, b)) == Det(f)
  {
    DetMul(Translation(-b.minX, -b.minY), f);
  }

  /** The determinant of the final matrix is that of `f`. */
  lemma FinalDeterminant(f: Mat3, w: nat, h: nat)
    ensures Det(FinalMatrix(f, w, h)) == Det(f)
  {
    AlignDeterminant(f, CornerBox(f, w, h));
  }

  /** The decision in terms of the box it was sized from. */
  lemma DecideByBox(b: Box, m: Mat3)
    ensures && (Decide(CanvasOf(b), m) == ReturnedInput(NonPositiveSize) <==>
                  b.maxX - b.minX <= 0.5 || b.maxY - b.minY <= 0.5)
            && (Decide(CanvasOf(b), m) == ReturnedInput(SingularMatrix) <==>
                  b.maxX - b.minX > 0.5 && b.maxY - b.minY > 0.5 && Det(m) == 0.0)
            && (Decide(CanvasOf(b), m).Transformed? <==>
                  b.maxX - b.minX > 0.5 && b.maxY - b.minY > 0.5 && Det(m) != 0.0)
            && (Decide(CanvasOf(b), m).Transformed? ==>
                  Decide(CanvasOf(b), m).width == RoundHalfEven(b.maxX - b.minX) &&
                  Decide(CanvasOf(b), m).height == RoundHalfEven(b.maxY - b.minY))
  {
    DecideCases(CanvasOf(b), m);
  }

  /** When the input comes back and why, and the canvas planned otherwise:
      sizes are the extents of the corner box rounded half to even; the input
      comes back when an extent is at most one half, and otherwise when `f`
      is singular. */
  lemma PlanCases(f: Mat3, w: nat, h: nat)
    ensures && (Plan(f, w, h) == ReturnedInput(NonPositiveSize) <==>
                  CornerBox(f, w, h).maxX - CornerBox(f, w, h).minX <= 0.5 ||
                  CornerBox(f, w, h).maxY - CornerBox(f, w, h).minY <= 0.5)
            && (Plan(f, w, h) == ReturnedInput(SingularMatrix) <==>
                  CornerBox(f, w, h).maxX - CornerBox(f, w, h).minX > 0.5 &&
                  CornerBox(f, w, h).maxY - CornerBox(f, w, h).minY > 0.5 && Det(f) == 0.0)
            && (Plan(f, w, h).Transformed? <==>
                  CornerBox(f, w, h).maxX - CornerBox(f, w, h).minX > 0.5 &&
                  CornerBox(f, w, h).maxY - CornerBox(f, w, h).minY > 0.5 && Det(f) != 0.0)
            && (Plan(f, w, h).Transformed? ==>
                  Plan(f, w, h).width == RoundHalfEven(CornerBox(f, w, h).maxX - CornerBox(f, w, h).minX) &&
                  Plan(f, w, h).height == RoundHalfEven(CornerBox(f, w, h).maxY - CornerBox(f, w, h).minY))
  {
    DecideByBox(CornerBox(f, w, h), FinalMatrix(f, w, h));
    FinalDeterminant(f, w, h);
  }

  /** The planned coefficients read each canvas point back from the source
      point the final matrix sends there, and from no other point. */
  lemma PlanInverts(f: Mat3, w: nat, h: nat, src: Point, dst: Point)
    requires Plan(f, w, h).Transformed?
    ensures ApplyCoeffs(Plan(f, w, h).coeffs, dst) == src <==> Apply(FinalMatrix(f, w, h), src) == dst
  {
    DecideInverts(CanvasOf(CornerBox(f, w, h)), FinalMatrix(f, w, h), src, dst);
  }

  /** The same parameters with another translation. */
  function WithTranslation(p: Params, tx: real, ty: real): Params {
    p.(tx := tx, ty := ty)
  }

  /** Changing the translation multiplies every partial product on the left
      by the translation by the change. */
  lemma {:induction false} ChainShift(p: Params, tx: real, ty: real, n: nat)
    requires 1 <= n <= 6
    ensures ChainTo(WithTranslation(p, tx, ty), n) == Mul(Translation(tx - p.tx, ty - p.ty), ChainTo(p, n))
  {
    var d := Translation(tx - p.tx, ty - p.ty);
    if n > 1 {
      ChainShift(p, tx, ty, n - 1);
      MulAssoc(d, ChainTo(p, n - 1), Primitive(p, n - 1));
    }
  }

  /** With another translation the forward matrix is followed by the
      translation by the change. */
  lemma ForwardShift(p: Params, tx: real, ty: real)
    ensures Forward(WithTranslation(p, tx, ty)) == Mul(Translation(tx - p.tx, ty - p.ty), Forward(p))
  {
    ChainShift(p, tx, ty, 6);
  }

  /** The translation parameters have no effect on the result: the origin
      shift undoes them. */
  lemma TranslationIndependent(p: Params, tx: real, ty: real, w: nat, h: nat)
    ensures AffineTransform(WithTranslation(p, tx, ty), w, h) == AffineTransform(p, w, h)
  {
    ForwardShift(p, tx, ty);
    PlanShiftInvariant(Forward(p), tx - p.tx, ty - p.ty, w, h);
  }

  /** `PlanCases` for the parameters: the matrix is singular exactly when
      `sx sy ax ay (cos^2 + sin^2)` is 0. */
  lemma AffineTransformCases(p: Params, w: nat, h: nat)
    ensures && (AffineTransform(p, w, h) == ReturnedInput(NonPositiveSize) <==>
                  CornerBox(Forward(p), w, h).maxX - CornerBox(Forward(p), w, h).minX <= 0.5 ||
                  CornerBox(Forward(p), w, h).maxY - CornerBox(Forward(p), w, h).minY <= 0.5)
            && (AffineTransform(p, w, h) == ReturnedInput(SingularMatrix) <==>
                  CornerBox(Forward(p), w, h).maxX - CornerBox(Forward(p), w, h).minX > 0.5 &&
                  CornerBox(Forward(p), w, h).maxY - CornerBox(Forward(p), w, h).minY > 0.5 &&
                  ScaleProduct(p) == 0.0)
            && (AffineTransform(p, w, h).Transformed? <==>
                  CornerBox(Forward(p), w, h).maxX - CornerBox(Forward(p), w, h).minX > 0.5 &&
                  CornerBox(Forward(p), w, h).maxY - CornerBox(Forward(p), w, h).minY > 0.5 &&
                  ScaleProduct(p) != 0.0)
  {
    PlanCases(Forward(p), w, h);
    ForwardDeterminant(p);
  }

  /** With the default parameters every primitive is the identity. */
  lemma IdentityPrimitives(k: nat)
    requires k < 6
    ensures Primitive(IdentityParams, k) == Identity
  {
  }

  /** With the default parameters every partial product is the identity. */
  lemma {:induction false} IdentityChain(n: nat)
    requires 1 <= n <= 6
    ensures ChainTo(IdentityParams, n) == Identity
  {
    IdentityPrimitives(n - 1);
    if n > 1 {
      IdentityChain(n - 1);
    }
  }

  /** With the default parameters the forward matrix is the identity. */
  lemma IdentityForward()
    ensures Forward(IdentityParams) == Identity
  {
    IdentityChain(6);
  }

  /** The identity is its own inverse. */
  lemma InvertIdentity()
    ensures Invert(Identity) == Some(Identity)
  {
    InvertIsInverseWith(Identity);
  }

  /** Under the identity the corners' box is `[0, w-1] x [0, h-1]`. */
  lemma IdentityCornerBox(w: nat, h: nat)
    requires w >= 1 && h >= 1
    ensures CornerBox(Identity, w, h) == Box(0.0, (w - 1) as real, 0.0, (h - 1) as real)
  {
  }

  /** A box from the origin to integer extents gives a canvas of exactly
      those extents. */
  lemma CanvasOfOriginBox(a: nat, b: nat)
    ensures CanvasOf(Box(0.0, a as real, 0.0, b as real)) == Canvas(a, b)
  {
    assert a as real - 0.0 == a as real;
    assert b as real - 0.0 == b as real;
    RoundIntegral(a);
    RoundIntegral(b);
  }

  /** Aligning with a box already at the origin changes nothing. */
  lemma AlignAtOrigin(f: Mat3, b: Box)
    requires b.minX == 0.0 && b.minY == 0.0
    ensures AlignToOrigin(f, b) == f
  {
  }

  /** The decision for a matrix with a known inverse. */
  lemma DecideWithInverse(a: int, b: int, m: Mat3, inv: Mat3)
    requires Invert(m) == Some(inv)
    ensures Decide(Canvas(a, b), m)
         == if a >= 1 && b >= 1 then Transformed(a, b, CoeffsOf(inv)) else ReturnedInput(NonPositiveSize)
  {
  }

  /** The coefficients of the identity. */
  lemma CoeffsOfIdentity()
    ensures CoeffsOf(Identity) == Coeffs(1.0, 0.0, 0.0, 0.0, 1.0, 0.0)
  {
  }

  /** The plan for the identity forward matrix. */
  lemma IdentityPlan(w: nat, h: nat)
    requires w >= 1 && h >= 1
    ensures Plan(Identity, w, h)
         == if w >= 2 && h >= 2 then Transformed(w - 1, h - 1, Coeffs(1.0, 0.0, 0.0, 0.0, 1.0, 0.0))
            else ReturnedInput(NonPositiveSize)
  {
    IdentityCornerBox(w, h);
    CanvasOfOriginBox(w - 1, h - 1);
    AlignAtOrigin(Identity, CornerBox(Identity, w, h));
    InvertIdentity();
    DecideWithInverse(w - 1, h - 1, FinalMatrix(Identity, w, h), Identity);
    CoeffsOfIdentity();
  }

  /** With the default parameters a `w` by `h` image gets a `w-1` by `h-1`
      canvas (the corners are inclusive pixel indices), so a single row or
      column comes back unchanged, and otherwise the coefficients are the
      identity. */
  lemma IdentityTransform(w: nat, h: nat)
    requires w >= 1 && h >= 1
    ensures AffineTransform(IdentityParams, w, h)
         == if w >= 2 && h >= 2 then Transformed(w - 1, h - 1, Coeffs(1.0, 0.0, 0.0, 0.0, 1.0, 0.0))
            else ReturnedInput(NonPositiveSize)
  {
    IdentityForward();
    IdentityPlan(w, h);
  }
}
