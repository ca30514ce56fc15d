# Image-processing core: affine canvas builder, bilinear sampler, conservative smoother

A Dafny model of the three routines of this image-processing course
repository that contain hand-written logic. The rest of the repository
calls OpenCV or PIL directly.

- **`affine_transform_image`** (week 1) composes a forward 3 × 3
  homogeneous matrix `T @ Mir @ R @ ShY @ ShX @ Sc` from scale, shear,
  rotation, mirror and translation parameters. It maps the four corner
  pixels `(0,0)`, `(w-1,0)`, `(0,h-1)` and `(w-1,h-1)` through that matrix
  and takes their bounding box. It rounds the box's extents half to even
  to get the canvas size. It then shifts the box's top-left corner to the
  origin, inverts the result, and hands the first two rows of the inverse
  to PIL as six resampling coefficients. The input image comes back
  unchanged in two cases: a canvas dimension is at most 0, or the final
  matrix is singular. The model stops at the decision PIL would be given,
  an `Outcome`: either `Transformed(width, height, coeffs)` or
  `ReturnedInput(reason)`.
- **`bilinear_interpolate`** (week 1) floors a coordinate and clips each
  of the four neighbour indices into the image on its own. It fetches the
  four neighbours and blends them with weights formed from the *clipped*
  indices. This sampler is not used by the affine warp, which resamples
  with PIL's bicubic filter.
- **`conservative_smoother`** (week 3) rejects even kernel sizes and
  edge-pads the image. It clamps every pixel into the minimum and maximum
  of the `k × k` window around it. That window always contains the pixel
  itself, so the clamp never fires and the routine returns its input.

Modules:

- `Wrappers`: `Option` and `Result`.
- `Matrix3`: affine 3 × 3 matrices stored as their top two rows, because
  the bottom row of every matrix the routine builds is `0 0 1`. Covers
  product, determinant and inverse.
- `Rounding`: `np.round`, round half to even on reals.
- `Affine`: the canvas builder.
- `AffineProperties`: its origin-shift, translation-independence,
  determinant and identity-parameter properties.
- `AffineExamples`: the canvas and coefficients for scaling alone.
- `Grids`: rectangular images and `np.clip`.
- `Bilinear`: the sampler.
- `Conservative`: the smoother.

Two consequences of the code are worth stating up front.

- A 4 × 4 image scaled by 2 gets a 6 × 6 canvas. The corners are the
  inclusive pixel indices `0` and `w-1`, so the extent is `(4-1)·2 = 6`
  (see `AffineExamples.IntegerScale`). Likewise, identity parameters give
  a `(W-1) × (H-1)` canvas (see `AffineProperties.IdentityTransform`).
- The bilinear sampler returns exactly 0 at every coordinate outside
  `[0, W-1) × [0, H-1)`: on and beyond the last row or column, and at any
  negative coordinate (see `Bilinear.OutsideIsZero` and Findings).

## Model

| member | source | states |
|---|---|---|
| Matrix3.TranslationApply | week1_basics_and_geometric_transformations/affine_transformations.py:51 | the translation matrix moves every point by `(tx, ty)` |
| Matrix3.MulApply | week1_basics_and_geometric_transformations/affine_transformations.py:54 | a product of matrices acts on a point as its right factor followed by its left factor |
| Matrix3.MulAssoc | week1_basics_and_geometric_transformations/affine_transformations.py:54 | matrix product is associative, so how the `@` chain is grouped does not matter |
| Matrix3.DetMul | week1_basics_and_geometric_transformations/affine_transformations.py:54 | the determinant of a product is the product of the determinants |
| Matrix3.Invert | week1_basics_and_geometric_transformations/affine_transformations.py:99-103 | `np.linalg.inv` succeeds exactly when the determinant is non-zero |
| Matrix3.InvertInverts | week1_basics_and_geometric_transformations/affine_transformations.py:99-100 | for a non-singular matrix, the inverse sends `q` to `p` exactly when the matrix sends `p` to `q` |
| Matrix3.InvertUndoesApply | week1_basics_and_geometric_transformations/affine_transformations.py:99-100 | the inverse undoes the matrix on every point |
| Rounding.RoundHalfEven | week1_basics_and_geometric_transformations/affine_transformations.py:73-74 | the result is a nearest integer, and the even one on a tie |
| Rounding.NearestTiesEvenExistsUnique | week1_basics_and_geometric_transformations/affine_transformations.py:73-74 | every real has exactly one nearest-ties-to-even integer |
| Rounding.RoundHalfEvenByFloor | week1_basics_and_geometric_transformations/affine_transformations.py:73-74 | rounding agrees with the floor-and-fraction computation for every real |
| Rounding.RoundIntegral | week1_basics_and_geometric_transformations/affine_transformations.py:73-74 | an integral extent rounds to itself |
| Affine.ScaleApply | week1_basics_and_geometric_transformations/affine_transformations.py:40 | `Sc` multiplies x by `sx` and y by `sy` |
| Affine.ShearXApply | week1_basics_and_geometric_transformations/affine_transformations.py:42 | `Sh_x` adds `kx·y` to x and keeps y |
| Affine.ShearYApply | week1_basics_and_geometric_transformations/affine_transformations.py:44 | `Sh_y` adds `ky·x` to y and keeps x |
| Affine.RotationApply | week1_basics_and_geometric_transformations/affine_transformations.py:46-47 | `R` rotates counter-clockwise by the angle with the given cosine and sine |
| Affine.MirrorApply | week1_basics_and_geometric_transformations/affine_transformations.py:49 | `Mir` multiplies x by `ax` and y by `ay` |
| Affine.ChainApplies | week1_basics_and_geometric_transformations/affine_transformations.py:54 | each partial product of the chain acts as its factors applied right to left |
| Affine.ForwardAppliesInOrder | week1_basics_and_geometric_transformations/affine_transformations.py:37-54 | `M_forward` applies scale, shear x, shear y, rotation, mirror, translation, in that order |
| Affine.PrimitiveDeterminants | week1_basics_and_geometric_transformations/affine_transformations.py:40-51 | the six primitive matrices have determinants 1, `ax·ay`, `cos²+sin²`, 1, 1 and `sx·sy` |
| Affine.PartialDeterminants | week1_basics_and_geometric_transformations/affine_transformations.py:54 | each step of the chain multiplies the determinant by the new factor's |
| Affine.ForwardDeterminant | week1_basics_and_geometric_transformations/affine_transformations.py:40-54 | `det M_forward = sx·sy·ax·ay·(cos²+sin²)` |
| Affine.Min4 | week1_basics_and_geometric_transformations/affine_transformations.py:68-71 | the minimum of four values is below each of them and equal to one |
| Affine.Max4 | week1_basics_and_geometric_transformations/affine_transformations.py:68-71 | the maximum of four values is above each of them and equal to one |
| Affine.BoundingBoxTight | week1_basics_and_geometric_transformations/affine_transformations.py:68-71 | every corner lies in the box, and each of its four sides is attained by a corner |
| Affine.BoundingBoxShift | week1_basics_and_geometric_transformations/affine_transformations.py:68-71 | moving all corners by `(dx, dy)` moves the box by `(dx, dy)` |
| Affine.MapCornersAt | week1_basics_and_geometric_transformations/affine_transformations.py:60-66 | the i-th transformed corner is the matrix applied to the i-th source corner |
| Affine.CanvasOf | week1_basics_and_geometric_transformations/affine_transformations.py:73-74 | a canvas dimension is at least 1 exactly when its extent exceeds one half, and never negative |
| Affine.CoeffsApply | week1_basics_and_geometric_transformations/affine_transformations.py:105-113 | the six coefficients act on a point as the inverse matrix does |
| Affine.Decide | week1_basics_and_geometric_transformations/affine_transformations.py:76-103 | a planned resampling keeps the computed size, which is then at least 1 × 1 |
| Affine.DecideCases | week1_basics_and_geometric_transformations/affine_transformations.py:76-103 | a non-positive size returns the input before any inversion, otherwise a singular matrix does, otherwise a resampling is planned |
| Affine.DecideInverts | week1_basics_and_geometric_transformations/affine_transformations.py:99-113 | the planned coefficients send `q` to `p` exactly when the final matrix sends `p` to `q` |
| AffineProperties.TranslateMoves | week1_basics_and_geometric_transformations/affine_transformations.py:90-97 | left-multiplying by a translation moves every image point by the translation |
| AffineProperties.AlignMoves | week1_basics_and_geometric_transformations/affine_transformations.py:90-97 | `T_adjust_origin @ f` moves every image point by `(-min_x, -min_y)` |
| AffineProperties.CornerBoxMoves | week1_basics_and_geometric_transformations/affine_transformations.py:60-71 | a matrix that moves every point by `(dx, dy)` moves the corner box by `(dx, dy)` |
| AffineProperties.FinalMatrixApply | week1_basics_and_geometric_transformations/affine_transformations.py:90-97 | the final matrix is `M_forward` followed by subtracting the box's top-left corner |
| AffineProperties.FinalCornersSpanCanvas | week1_basics_and_geometric_transformations/affine_transformations.py:66-97 | after the origin shift the corners span exactly `[0, max_x-min_x] × [0, max_y-min_y]`, with least x and least y equal to 0 |
| AffineProperties.AlignAfterTranslation | week1_basics_and_geometric_transformations/affine_transformations.py:90-97 | aligning a translated matrix with its translated box undoes the translation |
| AffineProperties.CanvasOfMoved | week1_basics_and_geometric_transformations/affine_transformations.py:73-74 | the canvas size does not change when the box moves |
| AffineProperties.FinalShiftInvariant | week1_basics_and_geometric_transformations/affine_transformations.py:51-97 | a translation applied before the origin shift leaves `M_final_forward_to_canvas` unchanged |
| AffineProperties.PlanShiftInvariant | week1_basics_and_geometric_transformations/affine_transformations.py:66-103 | a translation applied before the origin shift leaves the whole outcome unchanged |
| AffineProperties.AlignDeterminant | week1_basics_and_geometric_transformations/affine_transformations.py:90-97 | the origin shift does not change the determinant |
| AffineProperties.FinalDeterminant | week1_basics_and_geometric_transformations/affine_transformations.py:97 | the final matrix has the determinant of `M_forward` |
| AffineProperties.DecideByBox | week1_basics_and_geometric_transformations/affine_transformations.py:73-103 | the outcome in terms of the box: sizes are the extents rounded half to even, and the input comes back for extents of at most one half or a singular matrix |
| AffineProperties.PlanCases | week1_basics_and_geometric_transformations/affine_transformations.py:57-103 | the same three-way outcome for any forward matrix, with singularity of `M_forward` deciding the second case |
| AffineProperties.PlanInverts | week1_basics_and_geometric_transformations/affine_transformations.py:97-113 | the coefficients read each canvas point back from the one source point the final matrix sends there |
| AffineProperties.ChainShift | week1_basics_and_geometric_transformations/affine_transformations.py:51-54 | changing the translation parameters left-multiplies every partial chain by a translation |
| AffineProperties.ForwardShift | week1_basics_and_geometric_transformations/affine_transformations.py:51-54 | changing `(tx, ty)` left-multiplies `M_forward` by the difference translation |
| AffineProperties.TranslationIndependent | week1_basics_and_geometric_transformations/affine_transformations.py:27-113 | the outcome (canvas size and coefficients) does not depend on `(tx, ty)` |
| AffineProperties.AffineTransformCases | week1_basics_and_geometric_transformations/affine_transformations.py:40-103 | the input comes back for a singular matrix exactly when `sx·sy·ax·ay·(cos²+sin²) = 0` and the extents exceed one half |
| AffineProperties.IdentityChain | week1_basics_and_geometric_transformations/affine_transformations.py:40-54 | with the default parameters every partial chain is the identity matrix |
| AffineProperties.IdentityForward | week1_basics_and_geometric_transformations/affine_transformations.py:40-54 | with the default parameters `M_forward` is the identity |
| AffineProperties.IdentityCornerBox | week1_basics_and_geometric_transformations/affine_transformations.py:57-71 | with the identity matrix the box is `[0, w-1] × [0, h-1]` |
| AffineProperties.IdentityPlan | week1_basics_and_geometric_transformations/affine_transformations.py:57-113 | the identity matrix gives a `(w-1) × (h-1)` canvas with identity coefficients, or returns the input when that is empty |
| AffineProperties.IdentityTransform | week1_basics_and_geometric_transformations/affine_transformations.py:27-113 | default parameters give a `(W-1) × (H-1)` canvas, and an image one pixel wide or high comes back unchanged |
| AffineProperties.AlignAtOrigin | week1_basics_and_geometric_transformations/affine_transformations.py:88-97 | when the box already starts at the origin, the origin shift leaves the matrix unchanged |
| AffineProperties.DecideWithInverse | week1_basics_and_geometric_transformations/affine_transformations.py:73-113 | given the inverse of the final matrix, the outcome is that inverse's top two rows on a positive canvas and the returned input otherwise |
| AffineExamples.ScaleForward | week1_basics_and_geometric_transformations/affine_transformations.py:40-54 | with only scale factors set, `M_forward` is the scaling matrix |
| AffineExamples.ScaleCornerBox | week1_basics_and_geometric_transformations/affine_transformations.py:57-71 | non-negative scale factors send the corners to `[0, sx·(w-1)] × [0, sy·(h-1)]` |
| AffineExamples.InvertScale | week1_basics_and_geometric_transformations/affine_transformations.py:99-103 | the inverse of a non-singular scaling scales by the reciprocal factors |
| AffineExamples.ScaleTransform | week1_basics_and_geometric_transformations/affine_transformations.py:27-113 | positive scale factors give a `round(sx·(w-1)) × round(sy·(h-1))` canvas with coefficients `(1/sx, 0, 0, 0, 1/sy, 0)`, or return the input when a rounded extent is 0 |
| AffineExamples.IntegerScale | week1_basics_and_geometric_transformations/affine_transformations.py:27-113 | a whole scale factor `k` gives exactly a `k·(w-1) × k·(h-1)` canvas read back with coefficient `1/k` |
| Grids.Clip | week1_basics_and_geometric_transformations/bilinear_interpolation.py:32-35 | `np.clip` lands in `[lo, hi]`, keeps values already there, yields `lo` below and `hi` above the range, and yields `hi` when the bounds cross |
| Bilinear.CellAt | week1_basics_and_geometric_transformations/bilinear_interpolation.py:25-35 | for a non-empty image all four clipped indices are in range |
| Bilinear.Interpolate | week1_basics_and_geometric_transformations/bilinear_interpolation.py:32-41 | the sampler fails exactly on an image with no rows or no columns |
| Bilinear.InterpolateColour | week1_basics_and_geometric_transformations/bilinear_interpolation.py:49-56 | a colour sample has one value per channel, and fails exactly on an empty image |
| Bilinear.WeightsTotal | week1_basics_and_geometric_transformations/bilinear_interpolation.py:44-47 | the four weights sum to `(x1-x0)·(y1-y0)` of the clipped indices |
| Bilinear.AxisSpan | week1_basics_and_geometric_transformations/bilinear_interpolation.py:25-35 | along one axis the clipped pair is one apart for `0 <= v < n-1` and equal elsewhere |
| Bilinear.WeightsSumToOne | week1_basics_and_geometric_transformations/bilinear_interpolation.py:25-47 | the weights sum to 1 inside `[0, W-1) × [0, H-1)` and to 0 outside |
| Bilinear.InsideCell | week1_basics_and_geometric_transformations/bilinear_interpolation.py:25-35 | inside, no index is clipped |
| Bilinear.OutsideIsZero | week1_basics_and_geometric_transformations/bilinear_interpolation.py:32-56 | outside `[0, W-1) × [0, H-1)` the result is exactly 0 for every image |
| Bilinear.InsideConvex | week1_basics_and_geometric_transformations/bilinear_interpolation.py:44-56 | inside, the result lies between any bounds of its four neighbours |
| Bilinear.IntegerExact | week1_basics_and_geometric_transformations/bilinear_interpolation.py:25-56 | at an integer coordinate inside, the result is that pixel |
| Bilinear.CellCentre | week1_basics_and_geometric_transformations/bilinear_interpolation.py:44-56 | at a cell centre inside, the result is the mean of the cell's four pixels |
| Bilinear.ColourByChannel | week1_basics_and_geometric_transformations/bilinear_interpolation.py:49-56 | each channel of a colour sample is the single-channel sample of that channel |
| Bilinear.EdgePixelLost | week1_basics_and_geometric_transformations/bilinear_interpolation.py:32-56 | a 2 × 2 image of ones sampled at its pixel `(y, x) = (0, 1)` gives 0 |
| Bilinear.InterpolateClamped | week1_basics_and_geometric_transformations/bilinear_interpolation.py:25-56 | the clamp-to-edge sampler fails exactly on an empty image |
| Bilinear.ClampedExactAtPixels | week1_basics_and_geometric_transformations/bilinear_interpolation.py:25-56 | the clamp-to-edge sampler returns every pixel at its own coordinate, border pixels included |
| Bilinear.ClampedAgreesInside | week1_basics_and_geometric_transformations/bilinear_interpolation.py:25-56 | inside, the clamp-to-edge sampler and the sampler as written agree |
| Conservative.Pad | week3_image_filtering/conservative_smoothing_example.py:48 | edge padding by `k` adds `2k` rows and `2k` columns and keeps the image rectangular |
| Conservative.EdgeExtendAt | week3_image_filtering/conservative_smoothing_example.py:48 | repeating the end elements `k` times puts the element nearest to `i-k` at position `i` |
| Conservative.PadIsEdgeReplication | week3_image_filtering/conservative_smoothing_example.py:48 | padding by the clamped-index formula equals replicating the border rows and columns axis by axis |
| Conservative.WindowContains | week3_image_filtering/conservative_smoothing_example.py:57 | every pixel of `padded[r:r+k, c:c+k]` is an element of the window |
| Conservative.SeqMinIsLeast | week3_image_filtering/conservative_smoothing_example.py:59 | `np.min` is at most every element and is one of them |
| Conservative.SeqMaxIsGreatest | week3_image_filtering/conservative_smoothing_example.py:60 | `np.max` is at least every element and is one of them |
| Conservative.ClampPixel | week3_image_filtering/conservative_smoothing_example.py:62-66 | a pixel below the window minimum becomes the minimum, one above the maximum becomes the maximum, and the pixel is unchanged exactly when it is already in range |
| Conservative.CentreInWindow | week3_image_filtering/conservative_smoothing_example.py:53-57 | the window of pixel `(r, c)` contains `image[r][c]` |
| Conservative.CentreWithinWindow | week3_image_filtering/conservative_smoothing_example.py:53-60 | every pixel lies between its window's minimum and maximum |
| Conservative.SmoothIsIdentity | week3_image_filtering/conservative_smoothing_example.py:44-66 | whenever the smoother succeeds, its output equals its input |
| Conservative.SmoothIdempotent | week3_image_filtering/conservative_smoothing_example.py:30-68 | smoothing twice gives the same result as smoothing once |
| Conservative.WindowExtremes | week3_image_filtering/conservative_smoothing_example.py:59-60 | one pass over the window yields its minimum and maximum |
| Conservative.ConservativeSmoother | week3_image_filtering/conservative_smoothing_example.py:30-68 | even kernels, negative pads and empty axes to be padded fail with their own error, otherwise the loops return the input unchanged |

## Left out

- The PIL `image.transform(..., BICUBIC)` resampling call: it is a
  foreign library. The model ends at the size and coefficients that call
  would receive.
- `np.deg2rad`, `np.cos` and `np.sin`: the rotation enters as a given
  cosine and sine. `cos² + sin² = 1` is not assumed, so it stays visible
  in `Affine.ForwardDeterminant`.
- Floating point: all arithmetic is over exact reals. This includes the
  test `np.linalg.inv` makes for singularity and the rounding of
  `np.round`. Pixel values are reals in the sampler and integers in the
  smoother.
- The bottom row `0 0 1` of each matrix is implied by the representation.
  It is never stored, which is why it needs no property of its own.
- Image loading, `print` warnings, plotting and the `__main__` demo
  scripts (I/O). The affine routine is modelled on the image size
  `(w, h)` alone, since it reads nothing else from the image before
  resampling.
- `Affine.AffineTransform` and `Affine.Plan` carry no contract of their
  own. Their behaviour is stated by the `AffineProperties` lemmas listed
  above.
- Bilinear.Interpolate: array-valued coordinates are not modelled. That
  includes the branch that adds an axis to two-dimensional weight
  arrays. Coordinates are scalars; the array call applies the scalar
  computation element by element.
- Bilinear.InterpolateColour: images with more than three axes are not
  modelled.
- Conservative.ConservativeSmoother: the in-place update
  `output_image[r, c] = ...` is modelled as replacing row `r` of an
  immutable copy. Images that are not two-dimensional fail the shape
  unpacking and are excluded by the rectangular-grid precondition.
  Non-integer kernel sizes are not modelled.
- `add_salt_and_pepper_noise` (randomness) and the other scripts of the
  repository, which are single library calls with no local logic.

## Findings

| source | as written | input that shows it | evidently intended | confidence | as-written member | corrected member |
|---|---|---|---|---|---|---|
| week1_basics_and_geometric_transformations/bilinear_interpolation.py:32-47 | the weights are formed from the clipped indices, so on and beyond the last row or column both neighbours of an axis coincide and every weight pair cancels: the result is 0 | a 2 × 2 image of ones sampled at `(y, x) = (0, 1)`, which is its own pixel, gives 0 instead of 1 | the comment at bilinear_interpolation.py:30 says the clip is meant to keep the coordinates within the image, and the demo at bilinear_interpolation.py:88-96 pulls its test point inside `[0, W-1.001]` to stay off the edge; so clamp the coordinate to the image first, so border pixels are reproduced and the weights always sum to 1 | medium, not executed | Bilinear.EdgePixelLost | Bilinear.InterpolateClamped |
