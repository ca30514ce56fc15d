/** The bilinear sampler `bilinear_interpolate`: floor the coordinate, clip
    the four neighbour indices into the image independently, and blend the
    four neighbours with product weights. */
module Bilinear {
  import opened Wrappers
  import opened Grids

  /** In `bilinear_interpolate`, indexing a zero-sized image raises `IndexError`. */
  datatype SampleError = EmptyImage

  /** The clipped neighbour indices: columns `x0`, `x1` and rows `y0`, `y1`. */
  datatype Cell = Cell(x0: int, x1: int, y0: int, y1: int)

  /** Floors of the coordinates and their successors, each clipped into
      `[0, width - 1]` or `[0, height - 1]` on its own. */
  function CellAt(height: int, width: int, y: real, x: real): (c: Cell)
    ensures height >= 1 ==> 0 <= c.y0 < height && 0 <= c.y1 < height
    ensures width >= 1 ==> 0 <= c.x0 < width && 0 <= c.x1 < width
  {
    Cell(Clip(x.Floor, 0, width - 1), Clip(x.Floor + 1, 0, width - 1),
         Clip(y.Floor, 0, height - 1), Clip(y.Floor + 1, 0, height - 1))
  }

  /** The weights of the neighbours at `(y0, x0)`, `(y1, x0)`, `(y0, x1)`
      and `(y1, x1)`, in that order. */
  datatype Weights = Weights(a: real, b: real, c: real, d: real)

  /** The weights `bilinear_interpolate` forms from the clipped indices. */
  function WeightsAt(cell: Cell, y: real, x: real): Weights {
    var x0 := cell.x0 as real;
    var x1 := cell.x1 as real;
    var y0 := cell.y0 as real;
    var y1 := cell.y1 as real;
    Weights((x1 - x) * (y1 - y), (x1 - x) * (y - y0),
            (x - x0) * (y1 - y), (x - x0) * (y - y0))
  }

  function Total(w: Weights): real {
    w.a + w.b + w.c + w.d
  }

  /** `wa * Ia + wb * Ib + wc * Ic + wd * Id`. */
  function Blend(w: Weights, ia: real, ib: real, ic: real, id: real): real {
    w.a * ia + w.b * ib + w.c * ic + w.d * id
  }

  /** The region where both neighbour pairs are distinct pixels. */
  predicate Inside(height: int, width: int, y: real, x: real) {
    0.0 <= x < (width - 1) as real && 0.0 <= y < (height - 1) as real
  }

  /** `bilinear_interpolate` on a single-channel image at scalar
      coordinates. */
  function Interpolate(img: seq<seq<real>>, y: real, x: real): (r: Result<real, SampleError>)
    requires IsGrid(img)
    ensures r.Failure? <==> |img| == 0 || Width(img) == 0
  {
    if |img| == 0 || Width(img) == 0 then Failure(EmptyImage)
    else
      var cell := CellAt(|img|, Width(img), y, x);
      Success(Blend(WeightsAt(cell, y, x),
                    img[cell.y0][cell.x0], img[cell.y1][cell.x0],
                    img[cell.y0][cell.x1], img[cell.y1][cell.x1]))
  }

  /** Number of channels of a colour image. */
  function Channels(img: seq<seq<seq<real>>>): nat {
    if |img| == 0 || |img[0]| == 0 then 0 else |img[0][0]|
  }

  /** A height x width x channels array. */
  predicate IsColourImage(img: seq<seq<seq<real>>>) {
    && IsGrid(img)
    && forall i, j :: 0 <= i < |img| && 0 <= j < |img[i]| ==> |img[i][j]| == Channels(img)
  }

  /** One channel of a colour image, as a single-channel image. */
  function Channel(img: seq<seq<seq<real>>>, ch: nat): (g: seq<seq<real>>)
    requires IsColourImage(img) && ch < Channels(img)
    ensures IsGrid(g) && |g| == |img| && Width(g) == Width(img)
  {
    seq(|img|, i requires 0 <= i < |img| =>
      seq(|img[i]|, j requires 0 <= j < |img[i]| => img[i][j][ch]))
  }

  /** `bilinear_interpolate` on a colour image: one set of weights,
      broadcast over the channel axis. */
  function InterpolateColour(img: seq<seq<seq<real>>>, y: real, x: real): (r: Result<seq<real>, SampleError>)
    requires IsColourImage(img)
    ensures r.Failure? <==> |img| == 0 || Width(img) == 0
    ensures r.Success? ==> |r.value| == Channels(img)
  {
    if |img| == 0 || Width(img) == 0 then Failure(EmptyImage)
    else
      var cell := CellAt(|img|, Width(img), y, x);
      var w := WeightsAt(cell, y, x);
      Success(seq(Channels(img), ch requires 0 <= ch < Channels(img) =>
        Blend(w, img[cell.y0][cell.x0][ch], img[cell.y1][cell.x0][ch],
                 img[cell.y0][cell.x1][ch], img[cell.y1][cell.x1][ch])))
  }

  // ---------------------------------------------------------------------
  // Properties of the sampler as written

  /** The weights always add up to the product of the two index spans. */
  lemma WeightsTotal(cell: Cell, y: real, x: real)
    ensures Total(WeightsAt(cell, y, x))
            == (cell.x1 - cell.x0) as real * (cell.y1 - cell.y0) as real
  {
    var x0 := cell.x0 as real;
    var x1 := cell.x1 as real;
    var y0 := cell.y0 as real;
    var y1 := cell.y1 as real;
    assert (x1 - x) * (y1 - y) + (x1 - x) * (y - y0) == (x1 - x) * (y1 - y0);
    assert (x - x0) * (y1 - y) + (x - x0) * (y - y0) == (x - x0) * (y1 - y0);
  }

  /** Along one axis the clipped pair is one pixel apart strictly inside
      `[0, n - 1)` and collapses onto one pixel everywhere else. */
  lemma AxisSpan(v: real, n: int)
    requires n >= 1
    ensures Clip(v.Floor + 1, 0, n - 1) - Clip(v.Floor, 0, n - 1)
            == if 0.0 <= v < (n - 1) as real then 1 else 0
  {
  }

  /** The weights sum to one inside and to zero outside. */
  lemma WeightsSumToOne(height: int, width: int, y: real, x: real)
    requires height >= 1 && width >= 1
    ensures Total(WeightsAt(CellAt(height, width, y, x), y, x))
            == if Inside(height, width, y, x) then 1.0 else 0.0
  {
    var cell := CellAt(height, width, y, x);
    WeightsTotal(cell, y, x);
    AxisSpan(x, width);
    AxisSpan(y, height);
  }

  /** Inside, no index is clipped. */
  lemma InsideCell(height: int, width: int, y: real, x: real)
    requires Inside(height, width, y, x)
    ensures CellAt(height, width, y, x) == Cell(x.Floor, x.Floor + 1, y.Floor, y.Floor + 1)
  {
  }

  /** On a cell whose columns coincide, the two weights of each row cancel. */
  lemma ColumnsCollapse(cell: Cell, y: real, x: real)
    requires cell.x0 == cell.x1
    ensures WeightsAt(cell, y, x).a + WeightsAt(cell, y, x).c == 0.0
    ensures WeightsAt(cell, y, x).b + WeightsAt(cell, y, x).d == 0.0
  {
    var x0 := cell.x0 as real;
    var y0 := cell.y0 as real;
    var y1 := cell.y1 as real;
    assert (x0 - x) * (y1 - y) + (x - x0) * (y1 - y) == (x0 - x + (x - x0)) * (y1 - y);
    assert (x0 - x) * (y - y0) + (x - x0) * (y - y0) == (x0 - x + (x - x0)) * (y - y0);
  }

  /** On a cell whose rows coincide, the two weights of each column cancel. */
  lemma RowsCollapse(cell: Cell, y: real, x: real)
    requires cell.y0 == cell.y1
    ensures WeightsAt(cell, y, x).a + WeightsAt(cell, y, x).b == 0.0
    ensures WeightsAt(cell, y, x).c + WeightsAt(cell, y, x).d == 0.0
  {
    var x0 := cell.x0 as real;
    var x1 := cell.x1 as real;
    var y0 := cell.y0 as real;
    assert (x1 - x) * (y0 - y) + (x1 - x) * (y - y0) == (x1 - x) * (y0 - y + (y - y0));
    assert (x - x0) * (y0 - y) + (x - x0) * (y - y0) == (x - x0) * (y0 - y + (y - y0));
  }

  /** Two weights that cancel, applied to one pixel, contribute nothing. */
  lemma CollapsedPair(u: real, v: real, p: real)
    requires u + v == 0.0
    ensures u * p + v * p == 0.0
  {
    assert u * p + v * p == (u + v) * p;
  }

  /** A blend whose two columns hold the same samples, with weights that
      cancel across the columns, is zero. */
  lemma BlendColumnsCancel(w: Weights, ia: real, ib: real)
    requires w.a + w.c == 0.0 && w.b + w.d == 0.0
    ensures Blend(w, ia, ib, ia, ib) == 0.0
  {
    CollapsedPair(w.a, w.c, ia);
    CollapsedPair(w.b, w.d, ib);
    assert Blend(w, ia, ib, ia, ib) == (w.a * ia + w.c * ia) + (w.b * ib + w.d * ib);
  }

  /** A blend whose two rows hold the same samples, with weights that
      cancel across the rows, is zero. */
  lemma BlendRowsCancel(w: Weights, ia: real, ic: real)
    requires w.a + w.b == 0.0 && w.c + w.d == 0.0
    ensures Blend(w, ia, ia, ic, ic) == 0.0
  {
    CollapsedPair(w.a, w.b, ia);
    CollapsedPair(w.c, w.d, ic);
    assert Blend(w, ia, ia, ic, ic) == (w.a * ia + w.b * ia) + (w.c * ic + w.d * ic);
  }

  /** Outside `[0, width - 1) x [0, height - 1)` the sampler returns exactly
      zero, whatever the pixels are: the edge pixel is not reproduced. */
  lemma OutsideIsZero(img: seq<seq<real>>, y: real, x: real)
    requires IsGrid(img) && |img| >= 1 && Width(img) >= 1
    requires !Inside(|img|, Width(img), y, x)
    ensures Interpolate(img, y, x) == Success(0.0)
  {
    var cell := CellAt(|img|, Width(img), y, x);
    AxisSpan(x, Width(img));
    AxisSpan(y, |img|);
    if cell.x0 == cell.x1 {
      ColumnsCollapse(cell, y, x);
      BlendColumnsCancel(WeightsAt(cell, y, x), img[cell.y0][cell.x0], img[cell.y1][cell.x0]);
    } else {
      RowsCollapse(cell, y, x);
      BlendRowsCancel(WeightsAt(cell, y, x), img[cell.y0][cell.x0], img[cell.y0][cell.x1]);
    }
  }

  /** `u * a` is monotone in `a` for a non-negative weight `u`. */
  lemma ScaleMonotone(u: real, a: real, b: real)
    requires u >= 0.0 && a <= b
    ensures u * a <= u * b
  {
    assert u * b - u * a == u * (b - a);
  }

  lemma ProductNonNegative(u: real, v: real)
    requires u >= 0.0 && v >= 0.0
    ensures u * v >= 0.0
  {
    ScaleMonotone(u, 0.0, v);
  }

  /** Non-negative weights on samples bounded below by `lo` give at least
      `lo` times the weights' total. */
  lemma LowerScalar(a: real, b: real, c: real, d: real,
                    ia: real, ib: real, ic: real, id: real, lo: real)
    requires a >= 0.0 && b >= 0.0 && c >= 0.0 && d >= 0.0
    requires lo <= ia && lo <= ib && lo <= ic && lo <= id
    ensures (a + b + c + d) * lo <= a * ia + b * ib + c * ic + d * id
  {
    ScaleMonotone(a, lo, ia);
    ScaleMonotone(b, lo, ib);
    ScaleMonotone(c, lo, ic);
    ScaleMonotone(d, lo, id);
    assert (a + b + c + d) * lo == a * lo + b * lo + c * lo + d * lo;
  }

  /** The same weights on samples bounded above by `hi` give at most `hi`
      times the weights' total. */
  lemma UpperScalar(a: real, b: real, c: real, d: real,
                    ia: real, ib: real, ic: real, id: real, hi: real)
    requires a >= 0.0 && b >= 0.0 && c >= 0.0 && d >= 0.0
    requires ia <= hi && ib <= hi && ic <= hi && id <= hi
    ensures a * ia + b * ib + c * ic + d * id <= (a + b + c + d) * hi
  {
    ScaleMonotone(a, ia, hi);
    ScaleMonotone(b, ib, hi);
    ScaleMonotone(c, ic, hi);
    ScaleMonotone(d, id, hi);
    assert (a + b + c + d) * hi == a * hi + b * hi + c * hi + d * hi;
  }

  /** A blend with non-negative weights summing to one lies between bounds
      on its four samples. */
  lemma BlendBounds(w: Weights, ia: real, ib: real, ic: real, id: real, lo: real, hi: real)
    requires w.a >= 0.0 && w.b >= 0.0 && w.c >= 0.0 && w.d >= 0.0 && Total(w) == 1.0
    requires lo <= ia <= hi && lo <= ib <= hi && lo <= ic <= hi && lo <= id <= hi
    ensures lo <= Blend(w, ia, ib, ic, id) <= hi
  {
    LowerScalar(w.a, w.b, w.c, w.d, ia, ib, ic, id, lo);
    UpperScalar(w.a, w.b, w.c, w.d, ia, ib, ic, id, hi);
  }

  /** Weights from the fractional offsets within a cell. */
  function FractionWeights(fy: real, fx: real): Weights {
    Weights((1.0 - fx) * (1.0 - fy), (1.0 - fx) * fy, fx * (1.0 - fy), fx * fy)
  }

  /** On a cell one pixel wide and high, the weights of `bilinear_interpolate` are the
      fraction weights of the offset to the lower neighbour. */
  lemma UnitCellWeights(cell: Cell, y: real, x: real)
    requires cell.x1 == cell.x0 + 1 && cell.y1 == cell.y0 + 1
    ensures WeightsAt(cell, y, x) == FractionWeights(y - cell.y0 as real, x - cell.x0 as real)
  {
    var x0 := cell.x0 as real;
    var y0 := cell.y0 as real;
    assert cell.x1 as real - x == 1.0 - (x - x0);
    assert cell.y1 as real - y == 1.0 - (y - y0);
  }

  /** Offsets in the unit square give non-negative fraction weights. */
  lemma FractionWeightsNonNegative(fy: real, fx: real)
    requires 0.0 <= fx <= 1.0 && 0.0 <= fy <= 1.0
    ensures var w := FractionWeights(fy, fx);
            w.a >= 0.0 && w.b >= 0.0 && w.c >= 0.0 && w.d >= 0.0
  {
    ProductNonNegative(1.0 - fx, 1.0 - fy);
    ProductNonNegative(1.0 - fx, fy);
    ProductNonNegative(fx, 1.0 - fy);
    ProductNonNegative(fx, fy);
  }

  /** The fraction weights always sum to one. */
  lemma FractionWeightsTotal(fy: real, fx: real)
    ensures Total(FractionWeights(fy, fx)) == 1.0
  {
    assert (1.0 - fx) * (1.0 - fy) + (1.0 - fx) * fy == (1.0 - fx) * (1.0 - fy + fy);
    assert fx * (1.0 - fy) + fx * fy == fx * (1.0 - fy + fy);
  }

  /** Inside, the result lies between any lower and any upper bound of the
      four neighbours: a convex combination. */
  lemma InsideConvex(img: seq<seq<real>>, y: real, x: real, lo: real, hi: real)
    requires IsGrid(img) && Inside(|img|, Width(img), y, x)
    requires var fx := x.Floor; var fy := y.Floor;
             && lo <= img[fy][fx] <= hi && lo <= img[fy + 1][fx] <= hi
             && lo <= img[fy][fx + 1] <= hi && lo <= img[fy + 1][fx + 1] <= hi
    ensures lo <= Interpolate(img, y, x).value <= hi
  {
    var h, w := |img|, Width(img);
    InsideCell(h, w, y, x);
    var cell := CellAt(h, w, y, x);
    var fy, fx := y - cell.y0 as real, x - cell.x0 as real;
    UnitCellWeights(cell, y, x);
    FractionWeightsNonNegative(fy, fx);
    FractionWeightsTotal(fy, fx);
    BlendBounds(FractionWeights(fy, fx),
                img[cell.y0][cell.x0], img[cell.y1][cell.x0],
                img[cell.y0][cell.x1], img[cell.y1][cell.x1], lo, hi);
  }

  /** At an integer coordinate inside, the sampler returns that pixel. */
  lemma IntegerExact(img: seq<seq<real>>, j: int, k: int)
    requires IsGrid(img) && 0 <= j < |img| - 1 && 0 <= k < Width(img) - 1
    ensures Interpolate(img, j as real, k as real) == Success(img[j][k])
  {
    var y, x := j as real, k as real;
    InsideCell(|img|, Width(img), y, x);
    var cell := CellAt(|img|, Width(img), y, x);
    UnitCellWeights(cell, y, x);
    assert FractionWeights(0.0, 0.0) == Weights(1.0, 0.0, 0.0, 0.0);
  }

  lemma FloorOfHalf(j: int)
    ensures (j as real + 0.5).Floor == j
  {
  }

  /** At the centre of an inside cell, the sampler returns the mean of the
      four pixels of that cell. */
  lemma CellCentre(img: seq<seq<real>>, j: int, k: int)
    requires IsGrid(img) && 0 <= j < |img| - 1 && 0 <= k < Width(img) - 1
    ensures Interpolate(img, j as real + 0.5, k as real + 0.5)
            == Success((img[j][k] + img[j + 1][k] + img[j][k + 1] + img[j + 1][k + 1]) / 4.0)
  {
    var y, x := j as real + 0.5, k as real + 0.5;
    FloorOfHalf(j);
    FloorOfHalf(k);
    InsideCell(|img|, Width(img), y, x);
    var cell := CellAt(|img|, Width(img), y, x);
    UnitCellWeights(cell, y, x);
    assert FractionWeights(0.5, 0.5) == Weights(0.25, 0.25, 0.25, 0.25);
  }

  /** A colour image is sampled channel by channel with shared weights. */
  lemma ColourByChannel(img: seq<seq<seq<real>>>, y: real, x: real, ch: nat)
    requires IsColourImage(img) && ch < Channels(img)
    ensures InterpolateColour(img, y, x).Success?
    ensures Interpolate(Channel(img, ch), y, x).Success?
    ensures InterpolateColour(img, y, x).value[ch] == Interpolate(Channel(img, ch), y, x).value
  {
  }

  /** A 2 x 2 image of ones sampled at its own pixel `(0, 1)` gives 0. */
  lemma EdgePixelLost()
    ensures Interpolate([[1.0, 1.0], [1.0, 1.0]], 0.0, 1.0) == Success(0.0)
  {
    OutsideIsZero([[1.0, 1.0], [1.0, 1.0]], 0.0, 1.0);
  }

  // ---------------------------------------------------------------------
  // The sampler with the coordinate clamped into the image first

  function ClampReal(v: real, lo: real, hi: real): (r: real)
    requires lo <= hi
    ensures lo <= r <= hi
    ensures lo <= v <= hi ==> r == v
  {
    if v < lo then lo else if v > hi then hi else v
  }

  /** Bilinear sampling with clamp-to-edge: the coordinate is first clamped
      into `[0, width - 1] x [0, height - 1]`, and the weights come from its
      offset to the clipped lower neighbour. */
  function InterpolateClamped(img: seq<seq<real>>, y: real, x: real): (r: Result<real, SampleError>)
    requires IsGrid(img)
    ensures r.Failure? <==> |img| == 0 || Width(img) == 0
  {
    if |img| == 0 || Width(img) == 0 then Failure(EmptyImage)
    else
      var xc := ClampReal(x, 0.0, (Width(img) - 1) as real);
      var yc := ClampReal(y, 0.0, (|img| - 1) as real);
      var cell := CellAt(|img|, Width(img), yc, xc);
      Success(Blend(FractionWeights(yc - cell.y0 as real, xc - cell.x0 as real),
                    img[cell.y0][cell.x0], img[cell.y1][cell.x0],
                    img[cell.y0][cell.x1], img[cell.y1][cell.x1]))
  }

  /** The clamped sampler reproduces every pixel, border pixels included. */
  lemma ClampedExactAtPixels(img: seq<seq<real>>, j: int, k: int)
    requires IsGrid(img) && 0 <= j < |img| && 0 <= k < Width(img)
    ensures InterpolateClamped(img, j as real, k as real) == Success(img[j][k])
  {
  }

  /** Inside, the clamped sampler agrees with the sampler as written. */
  lemma ClampedAgreesInside(img: seq<seq<real>>, y: real, x: real)
    requires IsGrid(img) && Inside(|img|, Width(img), y, x)
    ensures InterpolateClamped(img, y, x) == Interpolate(img, y, x)
  {
    var h, w := |img|, Width(img);
    InsideCell(h, w, y, x);
    var cell := CellAt(h, w, y, x);
    UnitCellWeights(cell, y, x);
  }
}
