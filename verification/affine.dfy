/** The canvas builder of `affine_transform_image`: compose the forward
    matrix `T @ Mir @ R @ ShY @ ShX @ Sc`, bound the four transformed corner
    points, round the extent to a canvas size, shift the bounding box to the
    origin and invert, yielding the six coefficients handed to the imaging
    library. The resampling call itself is not modelled: an `Outcome` is the
    plan that call would be given, or the reason the input image comes back
    unchanged. */
module Affine {
  import opened Wrappers
  import opened Matrix3
  import opened Rounding

  /** The arguments of `affine_transform_image`. The angle enters only as
      its cosine and sine, which are taken as given reals. */
  datatype Params = Params(sx: real, sy: real,    // scale
                           kx: real, ky: real,    // shear
                           cos: real, sin: real,  // rotation
                           tx: real, ty: real,    // translation
                           ax: real, ay: real)    // mirror factors

  /** The defaults: scale 1, no shear, angle 0, no translation, no mirror. */
  const IdentityParams: Params := Params(1.0, 1.0, 0.0, 0.0, 1.0, 0.0, 0.0, 0.0, 1.0, 1.0)

  function ScaleMat(sx: real, sy: real): Mat3 {
    Mat3(sx, 0.0, 0.0, 0.0, sy, 0.0)
  }

  /** Shear of x by y. */
  function ShearXMat(kx: real): Mat3 {
    Mat3(1.0, kx, 0.0, 0.0, 1.0, 0.0)
  }

  /** Shear of y by x. */
  function ShearYMat(ky: real): Mat3 {
    Mat3(1.0, 0.0, 0.0, ky, 1.0, 0.0)
  }

  /** Counter-clockwise rotation given its cosine and sine. */
  function RotationMat(cos: real, sin: real): Mat3 {
    Mat3(cos, -sin, 0.0, sin, cos, 0.0)
  }

  function MirrorMat(ax: real, ay: real): Mat3 {
    Mat3(ax, 0.0, 0.0, 0.0, ay, 0.0)
  }

  /** Scaling multiplies each coordinate by its factor. */
  lemma ScaleApply(sx: real, sy: real, q: Point)
    ensures Apply(ScaleMat(sx, sy), q) == Point(sx * q.x, sy * q.y)
  {
  }

  /** Shear of x adds `kx` times y to x. */
  lemma ShearXApply(kx: real, q: Point)
    ensures Apply(ShearXMat(kx), q) == Point(q.x + kx * q.y, q.y)
  {
  }

  /** Shear of y adds `ky` times x to y. */
  lemma ShearYApply(ky: real, q: Point)
    ensures Apply(ShearYMat(ky), q) == Point(q.x, ky * q.x + q.y)
  {
  }

  /** Rotation by the angle whose cosine and sine are given. */
  lemma RotationApply(cos: real, sin: real, q: Point)
    ensures Apply(RotationMat(cos, sin), q) == Point(cos * q.x - sin * q.y, sin * q.x + cos * q.y)
  {
    assert (-sin) * q.y == -(sin * q.y);
  }

  /** Mirroring multiplies each coordinate by its factor. */
  lemma MirrorApply(ax: real, ay: real, q: Point)
    ensures Apply(MirrorMat(ax, ay), q) == Point(ax * q.x, ay * q.y)
  {
  }

  /** The factors of `M_forward` in the order they are written:
      translation first, scaling last (scaling acts on a point first). */
  function Primitive(p: Params, k: nat): Mat3
    requires k < 6
  {
    if k == 0 then Translation(p.tx, p.ty)
    else if k == 1 then MirrorMat(p.ax, p.ay)
    else if k == 2 then RotationMat(p.cos, p.sin)
    else if k == 3 then ShearYMat(p.ky)
    else if k == 4 then ShearXMat(p.kx)
    else ScaleMat(p.sx, p.sy)
  }

  /** The product of the first `n` factors, grouped from the left as numpy
      evaluates a chain of `@`. */
  function ChainTo(p: Params, n: nat): Mat3
    requires 1 <= n <= 6
  {
    if n == 1 then Primitive(p, 0) else Mul(ChainTo(p, n - 1), Primitive(p, n - 1))
  }

  /** Applies factor `n-1` first and factor 0 last. */
  function ApplyFirst(p: Params, n: nat, q: Point): Point
    requires n <= 6
  {
    if n == 0 then q else ApplyFirst(p, n - 1, Apply(Primitive(p, n - 1), q))
  }

  /** Applying a partial product is applying its factors one at a time,
      rightmost first. */
  lemma {:induction false} ChainApplies(p: Params, n: nat, q: Point)
    requires 1 <= n <= 6
    ensures Apply(ChainTo(p, n), q) == ApplyFirst(p, n, q)
  {
    if n > 1 {
      MulApply(ChainTo(p, n - 1), Primitive(p, n - 1), q);
      ChainApplies(p, n - 1, Apply(Primitive(p, n - 1), q));
    }
  }

  /** `M_forward = T @ Mir @ R @ ShY @ ShX @ Sc`. */
  function Forward(p: Params): Mat3 {
    ChainTo(p, 6)
  }

  /** The composed matrix acts on a point as the six primitives applied one
      after another: scale, shear x, shear y, rotate, mirror, translate. */
  lemma ForwardAppliesInOrder(p: Params, q: Point)
    ensures Apply(Forward(p), q)
         == Apply(Translation(p.tx, p.ty),
              Apply(MirrorMat(p.ax, p.ay),
                Apply(RotationMat(p.cos, p.sin),
                  Apply(ShearYMat(p.ky),
                    Apply(ShearXMat(p.kx),
                      Apply(ScaleMat(p.sx, p.sy), q))))))
  {
    ChainApplies(p, 6, q);
    var q1 := Apply(Primitive(p, 5), q);
    var q2 := Apply(Primitive(p, 4), q1);
    var q3 := Apply(Primitive(p, 3), q2);
    var q4 := Apply(Primitive(p, 2), q3);
    var q5 := Apply(Primitive(p, 1), q4);
    assert ApplyFirst(p, 6, q) == ApplyFirst(p, 5, q1);
    assert ApplyFirst(p, 5, q1) == ApplyFirst(p, 4, q2);
    assert ApplyFirst(p, 4, q2) == ApplyFirst(p, 3, q3);
    assert ApplyFirst(p, 3, q3) == ApplyFirst(p, 2, q4);
    assert ApplyFirst(p, 2, q4) == ApplyFirst(p, 1, q5);
    assert ApplyFirst(p, 1, q5) == ApplyFirst(p, 0, Apply(Primitive(p, 0), q5));
  }

  /** The product `sx sy ax ay (cos^2 + sin^2)` of the primitives'
      determinants; with a genuine angle `cos^2 + sin^2` is 1. */
  function ScaleProduct(p: Params): real {
    p.sx * p.sy * p.ax * p.ay * (p.cos * p.cos + p.sin * p.sin)
  }

  /** The product of the six determinants over plain reals: `e1 .. e6` are
      the determinants of the partial products. The entries are passed as
      separate real atoms so that the nonlinear arithmetic stays cheap. */
  lemma ScaleProductScalar(p: Params, d0: real, d1: real, d2: real, d3: real, d4: real, d5: real,
                           e1: real, e2: real, e3: real, e4: real, e5: real, e6: real)
    requires d0 == 1.0 && d1 == p.ax * p.ay && d2 == p.cos * p.cos + p.sin * p.sin
    requires d3 == 1.0 && d4 == 1.0 && d5 == p.sx * p.sy
    requires e1 == d0 && e2 == e1 * d1 && e3 == e2 * d2 && e4 == e3 * d3
    requires e5 == e4 * d4 && e6 == e5 * d5
    ensures e6 == ScaleProduct(p)
  {
  }

  /** The determinant of each primitive: translation 1, mirror `ax ay`,
      rotation `cos^2 + sin^2`, shears 1, scale `sx sy`. */
  lemma PrimitiveDeterminants(p: Params)
    ensures Det(Primitive(p, 0)) == 1.0
    ensures Det(Primitive(p, 1)) == p.ax * p.ay
    ensures Det(Primitive(p, 2)) == p.cos * p.cos + p.sin * p.sin
    ensures Det(Primitive(p, 3)) == 1.0 && Det(Primitive(p, 4)) == 1.0
    ensures Det(Primitive(p, 5)) == p.sx * p.sy
  {
  }

  /** Each further factor multiplies the determinant of the partial product
      by its own determinant. */
  lemma PartialDeterminants(p: Params)
    ensures Det(ChainTo(p, 2)) == Det(ChainTo(p, 1)) * Det(Primitive(p, 1))
    ensures Det(ChainTo(p, 3)) == Det(ChainTo(p, 2)) * Det(Primitive(p, 2))
    ensures Det(ChainTo(p, 4)) == Det(ChainTo(p, 3)) * Det(Primitive(p, 3))
    ensures Det(ChainTo(p, 5)) == Det(ChainTo(p, 4)) * Det(Primitive(p, 4))
    ensures Det(ChainTo(p, 6)) == Det(ChainTo(p, 5)) * Det(Primitive(p, 5))
  {
    DetMul(ChainTo(p, 1), Primitive(p, 1));
    DetMul(ChainTo(p, 2), Primitive(p, 2));
    DetMul(ChainTo(p, 3), Primitive(p, 3));
    DetMul(ChainTo(p, 4), Primitive(p, 4));
    DetMul(ChainTo(p, 5), Primitive(p, 5));
  }

  /** The determinant of the forward matrix is the product of the
      primitives' determinants. */
  lemma ForwardDeterminant(p: Params)
    ensures Det(Forward(p)) == ScaleProduct(p)
  {
    PrimitiveDeterminants(p);
    PartialDeterminants(p);
    ScaleProductScalar(p, Det(Primitive(p, 0)), Det(Primitive(p, 1)), Det(Primitive(p, 2)),
                       Det(Primitive(p, 3)), Det(Primitive(p, 4)), Det(Primitive(p, 5)),
                       Det(ChainTo(p, 1)), Det(ChainTo(p, 2)), Det(ChainTo(p, 3)),
                       Det(ChainTo(p, 4)), Det(ChainTo(p, 5)), Det(ChainTo(p, 6)));
  }

  /** The corner points `(0,0)`, `(w-1,0)`, `(0,h-1)`, `(w-1,h-1)` of a
      `w` by `h` image: inclusive pixel indices, not the image's outline. */
  function SourceCorners(w: nat, h: nat): (c: seq<Point>)
    ensures |c| == 4
  {
    var right := (w - 1) as real;
    var bottom := (h - 1) as real;
    [Point(0.0, 0.0), Point(right, 0.0), Point(0.0, bottom), Point(right, bottom)]
  }

  /** `np.min` of four values. */
  function Min4(a: real, b: real, c: real, d: real): (r: real)
    ensures r <= a && r <= b && r <= c && r <= d
    ensures r == a || r == b || r == c || r == d
  {
    var ab := if a <= b then a else b;
    var abc := if ab <= c then ab else c;
    if abc <= d then abc else d
  }

  /** `np.max` of four values. */
  function Max4(a: real, b: real, c: real, d: real): (r: real)
    ensures r >= a && r >= b && r >= c && r >= d
    ensures r == a || r == b || r == c || r == d
  {
    var ab := if a >= b then a else b;
    var abc := if ab >= c then ab else c;
    if abc >= d then abc else d
  }

  /** Axis-aligned bounding box. */
  datatype Box = Box(minX: real, maxX: real, minY: real, maxY: real)

  /** Bounding box of four points: `np.min` and `np.max` of each
      coordinate. */
  function BoundingBox(pts: seq<Point>): Box
    requires |pts| == 4
  {
    Box(Min4(pts[0].x, pts[1].x, pts[2].x, pts[3].x),
        Max4(pts[0].x, pts[1].x, pts[2].x, pts[3].x),
        Min4(pts[0].y, pts[1].y, pts[2].y, pts[3].y),
        Max4(pts[0].y, pts[1].y, pts[2].y, pts[3].y))
  }

  /** The bounding box contains each point and each of its sides passes
      through one of them. */
  lemma BoundingBoxTight(pts: seq<Point>)
    requires |pts| == 4
    ensures forall i :: 0 <= i < 4 ==>
              BoundingBox(pts).minX <= pts[i].x <= BoundingBox(pts).maxX &&
              BoundingBox(pts).minY <= pts[i].y <= BoundingBox(pts).maxY
    ensures exists i :: 0 <= i < 4 && pts[i].x == BoundingBox(pts).minX
    ensures exists i :: 0 <= i < 4 && pts[i].x == BoundingBox(pts).maxX
    ensures exists i :: 0 <= i < 4 && pts[i].y == BoundingBox(pts).minY
    ensures exists i :: 0 <= i < 4 && pts[i].y == BoundingBox(pts).maxY
  {
    var b := BoundingBox(pts);
    XAttained(pts, b.minX);
    XAttained(pts, b.maxX);
    YAttained(pts, b.minY);
    YAttained(pts, b.maxY);
  }

  lemma XAttained(pts: seq<Point>, v: real)
    requires |pts| == 4
    requires v == pts[0].x || v == pts[1].x || v == pts[2].x || v == pts[3].x
    ensures exists i :: 0 <= i < 4 && pts[i].x == v
  {
    if v == pts[0].x { assert pts[0].x == v; }
    else if v == pts[1].x { assert pts[1].x == v; }
    else if v == pts[2].x { assert pts[2].x == v; }
    else { assert pts[3].x == v; }
  }

  lemma YAttained(pts: seq<Point>, v: real)
    requires |pts| == 4
    requires v == pts[0].y || v == pts[1].y || v == pts[2].y || v == pts[3].y
    ensures exists i :: 0 <= i < 4 && pts[i].y == v
  {
    if v == pts[0].y { assert pts[0].y == v; }
    else if v == pts[1].y { assert pts[1].y == v; }
    else if v == pts[2].y { assert pts[2].y == v; }
    else { assert pts[3].y == v; }
  }

  /** Moving every point by `(dx, dy)` moves the bounding box by the same
      amount. */
  lemma BoundingBoxShift(pts: seq<Point>, moved: seq<Point>, dx: real, dy: real)
    requires |pts| == 4 && |moved| == 4
    requires forall i :: 0 <= i < 4 ==> moved[i] == Point(pts[i].x + dx, pts[i].y + dy)
    ensures BoundingBox(moved) == Box(BoundingBox(pts).minX + dx, BoundingBox(pts).maxX + dx,
                                      BoundingBox(pts).minY + dy, BoundingBox(pts).maxY + dy)
  {
  }

  /** `transformed_corners`: the corners mapped through a matrix. */
  function MapCorners(m: Mat3, w: nat, h: nat): (c: seq<Point>)
    ensures |c| == 4
  {
    var src := SourceCorners(w, h);
    [Apply(m, src[0]), Apply(m, src[1]), Apply(m, src[2]), Apply(m, src[3])]
  }

  /** Each mapped corner is the matching source corner mapped. */
  lemma MapCornersAt(m: Mat3, w: nat, h: nat, i: nat)
    requires i < 4
    ensures MapCorners(m, w, h)[i] == Apply(m, SourceCorners(w, h)[i])
  {
  }

  /** Bounding box of the corners mapped through a forward matrix. */
  function CornerBox(f: Mat3, w: nat, h: nat): Box {
    BoundingBox(MapCorners(f, w, h))
  }

  /** `(new_width, new_height)`. */
  datatype Canvas = Canvas(width: int, height: int)

  /** The extents of a box rounded half to even: `new_width` and
      `new_height`. A size is at least 1 exactly when its extent exceeds
      one half, and a box's sizes are never negative. */
  function CanvasOf(b: Box): (c: Canvas)
    ensures c.width >= 1 <==> b.maxX - b.minX > 0.5
    ensures c.height >= 1 <==> b.maxY - b.minY > 0.5
    ensures b.minX <= b.maxX && b.minY <= b.maxY ==> c.width >= 0 && c.height >= 0
  {
    RoundAtLeastOne(b.maxX - b.minX);
    RoundAtLeastOne(b.maxY - b.minY);
    RoundMonotoneAtZero(b.maxX - b.minX);
    RoundMonotoneAtZero(b.maxY - b.minY);
    Canvas(RoundHalfEven(b.maxX - b.minX), RoundHalfEven(b.maxY - b.minY))
  }

  /** `T_adjust_origin @ f`: `f` followed by the translation taking the
      box's top-left corner to the origin. */
  function AlignToOrigin(f: Mat3, b: Box): Mat3 {
    Mul(Translation(-b.minX, -b.minY), f)
  }

  /** `M_final_forward_to_canvas` for the forward matrix `f`. */
  function FinalMatrix(f: Mat3, w: nat, h: nat): Mat3 {
    AlignToOrigin(f, CornerBox(f, w, h))
  }

  /** The six numbers `(a, b, c, d, e, f)` of an affine resampling: the
      destination pixel `(x, y)` reads the source at
      `(a x + b y + c, d x + e y + f)`. */
  datatype Coeffs = Coeffs(a: real, b: real, c: real, d: real, e: real, f: real)

  function ApplyCoeffs(k: Coeffs, q: Point): Point {
    Point(k.a * q.x + k.b * q.y + k.c, k.d * q.x + k.e * q.y + k.f)
  }

  /** Why the input image is handed back unchanged. */
  datatype Fallback =
    | NonPositiveSize   // a computed canvas dimension is <= 0
    | SingularMatrix    // the final matrix cannot be inverted

  /** What `affine_transform_image` does: resample onto a canvas of the
      given size with the given coefficients, or return its input. */
  datatype Outcome =
    | Transformed(width: int, height: int, coeffs: Coeffs)
    | ReturnedInput(reason: Fallback)

  /** The resampling coefficients of a matrix: rows 0 and 1 of its inverse. */
  function CoeffsOf(inv: Mat3): Coeffs {
    Coeffs(inv.m00, inv.m01, inv.m02, inv.m10, inv.m11, inv.m12)
  }

  /** Read as a resampling, the coefficients act as the matrix does. */
  lemma CoeffsApply(inv: Mat3, q: Point)
    ensures ApplyCoeffs(CoeffsOf(inv), q) == Apply(inv, q)
  {
  }

  /** The decision made once the canvas size and the final matrix are
      known: the size is checked before any inversion is attempted. A planned
      resampling keeps the canvas size, which is then at least 1 by 1. */
  function Decide(size: Canvas, m: Mat3): (r: Outcome)
    ensures r.Transformed? ==> r.width == size.width >= 1 && r.height == size.height >= 1
  {
    if size.width <= 0 || size.height <= 0 then
      ReturnedInput(NonPositiveSize)
    else
      match Invert(m)
      case None => ReturnedInput(SingularMatrix)
      case Some(inv) => Transformed(size.width, size.height, CoeffsOf(inv))
  }

  /** The three outcomes of `Decide`: a non-positive size wins over a
      singular matrix, and a resampling is planned only when both checks
      pass. */
  lemma DecideCases(size: Canvas, m: Mat3)
    ensures Decide(size, m) == ReturnedInput(NonPositiveSize) <==> size.width <= 0 || size.height <= 0
    ensures Decide(size, m) == ReturnedInput(SingularMatrix) <==>
              size.width >= 1 && size.height >= 1 && Det(m) == 0.0
    ensures Decide(size, m).Transformed? <==> size.width >= 1 && size.height >= 1 && Det(m) != 0.0
  {
  }

  /** The planned coefficients send `q` to `p` exactly when `m` sends `p`
      to `q`: they read every canvas point back from its source point. */
  lemma DecideInverts(size: Canvas, m: Mat3, p: Point, q: Point)
    requires Decide(size, m).Transformed?
    ensures ApplyCoeffs(Decide(size, m).coeffs, q) == p <==> Apply(m, p) == q
  {
    InvertInverts(m, p, q);
    CoeffsApply(Invert(m).value, q);
  }

  /** Everything `affine_transform_image` does once `M_forward` is known. */
  function Plan(f: Mat3, w: nat, h: nat): Outcome {
    Decide(CanvasOf(CornerBox(f, w, h)), FinalMatrix(f, w, h))
  }

  /** `affine_transform_image` up to the resampling call. */
  function AffineTransform(p: Params, w: nat, h: nat): Outcome {
    Plan(Forward(p), w, h)
  }
}
