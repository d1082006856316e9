# Canny edge detection of edgeefy, in Dafny

This project models the Canny edge detector in `canny.go` of edgeefy. It works on a
grey-scale image held as rows of `GrayPixel{y, a}` (intensity and opacity, both bytes).
The pipeline has these stages:

- an optional Gaussian blur with a Pascal-triangle kernel of size 5;
- the Sobel filter, which gives a gradient magnitude and a gradient direction per pixel;
- non-maximum suppression along the gradient direction;
- a double threshold that scales the high and low thresholds from the brightest pixel;
- edge tracking, which promotes weak pixels next to strong ones and blackens all weak pixels.

The helpers are modelled too: the mirror-border samplers `getPixelVector` and
`getSorroundingPixelMatrix`, `innerProduct`, `convolve`, `getPascalTriangleRow`,
`maxPixelValue`, `getAdjacentPixels` and `abs`.

Modules, one per file:

- `Pixels` (`pixels.dfy`): the pixel record, coordinates, rectangular grids, `abs`, and the
  `Result` type. Every panic the code raises itself, and every sampler read outside the
  image, becomes an `Err` with its reason: an even length, mismatched dimensions, a
  direction outside [-90, 90], or an index out of range. Other index panics are
  preconditions (see "## Left out").
- `Sampler` (`sampler.dfy`): the two samplers, with the exact index each request reads.
- `LinearAlgebra` (`linalg.dfy`): `innerProduct` and `convolve` over exact integers. gonum
  vectors become `seq<int>` and dense matrices become rows of `seq<int>`.
- `Pascal` (`pascal.dfy`): binomial rows and the blur kernel's size check.
- `Gradient` (`gradient.dfy`): the Sobel kernels and the Sobel stage, the five direction
  bins of `getPixelInGradientDirection`, and non-maximum suppression.
- `Blur` (`blur.dfy`): `gaussianBlur`.
- `Threshold` (`threshold.dfy`): `maxPixelValue`, `doublethreshold`, `getAdjacentPixels`,
  `edgeTracking` and the end of the pipeline. The last two stages change the grid in place,
  so there the grid is an `array2<GrayPixel>` and the mapset sets are `set<Point>`.
- `Canny` (`canny.dfy`): `CannyEdgeDetect`.

Stages that build a new grid are specified by a function on `seq<seq<GrayPixel>>`
(`SobelStage`, `BlurStage`, `NonMaxSuppressed`), and the method that builds the grid row by
row is proved equal to it. The floating-point steps are parameters of the methods:

- `magnitude` is `uint8(sqrt(Gx^2 + Gy^2))` in sobel;
- `combine` is `uint8(sqrt(v*v + h*h))` in gaussianBlur;
- `arctanDegrees` is `math.Atan` converted to degrees.

Everything else is exact integer or real arithmetic.

Where the code differs from its comments or from the usual intent, the model follows the
code and states the difference as a lemma:

- The samplers reflect about the centre, not about the edge (`MirrorIndexVersusEdgeMirror`).
- `getAdjacentPixels` returns at most the upper-left diagonal neighbour, although its comment
  promises all eight neighbours (`AdjacentIsUpperLeftOnly`, `CornerHasNoAdjacentPixels`).
- `doublethreshold` blackens a pixel whose intensity equals `high`, because both of its
  comparisons are strict (`ThresholdClassification`).
- `edgeTracking` adds to `strong` while it iterates, so a weak pixel promoted early can
  promote a later one, and the final strong set depends on the set's iteration order
  (`TrackDependsOnOrder`). The returned image does not: every weak pixel is blackened
  whether or not it is promoted, so the output grid is fixed by the suppressed grid and the
  high threshold alone (`EdgeMap`, `WeakPixelsEndBlack`). Neither `low` nor the order shows in
  the result of `CannyEdgeDetect`.
- Suppressed pixels become `GrayPixel(0, 255)`, and blur and Sobel write opacity 255 to every
  pixel, so the input opacity is lost (`SuppressionOutcome`, `BlurStage`, `SobelStage`).
- The kernel is normalised so that blurring does not change the brightness of the pixels
  (canny.go:193). But the blur combines its two smoothed sums with a square root, so an
  image of one intensity c is turned into `uint8(sqrt(2) * c)`, not left at c
  (`BlurOfUniformImage`).
- In textbook Canny hysteresis a pixel equal to the high threshold counts as strong or weak,
  and weak pixels joined to strong edges survive in the output. Here it is blackened, and so
  is every weak pixel, promoted or not.

## Model

| member | source | states |
|---|---|---|
| Pixels.Abs | canny.go:431-437 | the result is x or -x and is never negative |
| Sampler.GetPixelVector | canny.go:306-350 | an even length is `EvenLength`; for an odd length it succeeds exactly when every read is inside the image, otherwise `IndexOutOfRange`; the result has `length` entries, entry k is the intensity at the mirrored row/column of request k, and it equals `Vector` |
| Sampler.GetSurroundingPixelMatrix | canny.go:257-299 | an even length is `EvenLength`; for an odd length it succeeds exactly when every read is inside the image (an empty image fails); the result is `length` rows of `length` entries, cell (a, b) is the intensity at the mirrored row and column, and it equals `Window` |
| Sampler.ReadMatrixRow | canny.go:283-295 | one row of the window: `length` intensities read at the mirrored columns, or the position of the first read that leaves the image: every earlier read is inside |
| Sampler.MirrorIndexInside | canny.go:280-281 | a requested index inside the axis is read unchanged |
| Sampler.MirrorIndexVersusEdgeMirror | canny.go:275-279 | a request before the start reads pos + abs(i), which is the edge mirror shifted by the centre position; a request past the end reads pos - overlap; each equals the true edge mirror exactly when the centre is on that edge |
| Sampler.MirrorIndexInBounds | canny.go:274-291 | with the centre inside and the padding smaller than the axis, every mirrored index of the window is inside the axis |
| Sampler.VectorReadableIff | canny.go:313-347 | for an odd length and a centre inside the image, getPixelVector reads only inside the image exactly when length/2 is less than the size of its axis |
| Sampler.MatrixReadableIff | canny.go:264-296 | for an odd length and a centre inside the image, getSorroundingPixelMatrix reads only inside exactly when length/2 is less than both the height and the width |
| Sampler.SobelWindowOnSingleColumn | canny.go:162 | on an image one pixel wide the 3 x 3 Sobel window leaves the image |
| LinearAlgebra.InnerProduct | canny.go:355-366 | vectors of different lengths are `DimensionMismatch`; otherwise the sum of products `Dot` |
| LinearAlgebra.Convolve | canny.go:370-387 | matrices of different dimensions are `DimensionMismatch`; otherwise the sum over all cells of the products `Frobenius` |
| LinearAlgebra.DotAppend | canny.go:361-363 | the sum of products splits over concatenated vectors |
| LinearAlgebra.DotSymmetric | canny.go:355-366 | innerProduct does not depend on the order of its arguments |
| LinearAlgebra.DotConstant | canny.go:355-366 | against a constant vector c, innerProduct is c times the sum of the kernel |
| LinearAlgebra.FrobeniusIsFlatDot | canny.go:370-387 | convolve equals innerProduct of the row-major flattenings of both matrices |
| LinearAlgebra.FrobeniusConstant | canny.go:370-387 | against a constant matrix c, convolve is c times the sum of the kernel |
| Pascal.PascalTriangleRow | canny.go:390-400 | the array filled by the loop is `PascalRow(index)`: index + 1 entries, entry i being C(index, i) |
| Pascal.BlurKernel | canny.go:188-192 | an even kernel size is `EvenLength`; an odd size gives `PascalRow(size - 1)`, which has exactly `size` entries, is symmetric and sums to 2^(size-1) > 0 |
| Pascal.BinomialAbove | canny.go:395 | C(n, k) is 0 for k > n |
| Pascal.BinomialDiagonal | canny.go:395 | C(n, n) is 1 |
| Pascal.BinomialFactorial | canny.go:395 | Pascal's rule agrees with the factorial formula C(n, k) k! (n-k)! = n! that combin.Binomial computes |
| Pascal.PascalSymmetric | canny.go:390-400 | C(n, k) = C(n, n - k): every row reads the same in both directions |
| Pascal.RowPrefixSumStep | canny.go:390-400 | a prefix of row n + 1 sums to the matching prefixes of row n summed twice, shifted by one |
| Pascal.RowSumIsPow2 | canny.go:390-400 | row n sums to 2^n |
| Pascal.SumOfRowPrefix | canny.go:390-400 | a prefix of the returned row, summed as a sequence, is the prefix sum of binomials |
| Pascal.PascalRowSum | canny.go:390-400 | the returned row sums to 2^index, which is positive |
| Pascal.Pow2Positive | canny.go:403-413 | the kernel sum 2^n that normalizeVec divides by is positive |
| Gradient.DirectionBin | canny.go:220-242 | it succeeds exactly for directions in [-90, 90], otherwise `DirectionOutOfRange`; a direction lies in a bin of the reference table exactly when this is that bin, so exactly one branch fires |
| Gradient.Offsets | canny.go:220-239 | the two offsets of every bin are opposite, nonzero 8-neighbour steps; vertical for the ±90 bins and horizontal for the 0 bin |
| Gradient.Neighbour | canny.go:244-247 | each coordinate that leaves the grid falls back to the centre's on its own, so the result is inside the grid |
| Gradient.GradientPositions | canny.go:213-247 | it succeeds exactly for directions in [-90, 90]; both positions are inside the grid when the centre is |
| Gradient.PixelsInGradientDirection | canny.go:213-252 | it succeeds exactly for directions in [-90, 90]; the two pixels returned are those at the in-grid positions `GradientPositions` gives |
| Gradient.DiagonalFallback | canny.go:224-247 | a diagonal neighbour becomes the centre exactly when both its coordinates leave the image, and an axis neighbour of the centre when exactly one of them does |
| Gradient.NonMaxSuppressed | canny.go:123-145 | different row counts are `DimensionMismatch`; an empty grid fails on its first row; a first-row length mismatch is `DimensionMismatch`; a direction outside [-90, 90] is refused; otherwise the result has the input's shape |
| Gradient.NonMaximumSuppression | canny.go:123-145 | the row-by-row construction equals `NonMaxSuppressed` |
| Gradient.SuppressRow | canny.go:130-140 | a row is built when every direction in it is in range, and each entry is the suppressed pixel |
| Gradient.SuppressionOutcome | canny.go:133-139 | a pixel becomes GrayPixel(0, 255) exactly when a gradient-direction pixel is strictly brighter, otherwise it is unchanged; intensity never grows; a pixel left nonzero is at least as bright as both neighbours |
| Gradient.SobelGradient | canny.go:162-165 | it succeeds exactly when the 3 x 3 window is readable, and then returns the two Sobel responses of the window |
| Gradient.SobelStage | canny.go:149-183 | it succeeds exactly when every window is readable, otherwise `IndexOutOfRange`; both grids have the input's shape and every magnitude pixel has opacity 255 |
| Gradient.Sobel | canny.go:149-183 | the row-by-row construction of magnitudes and directions equals `SobelStage` |
| Gradient.SobelStageDefinedIff | canny.go:156-165 | sobel on a non-empty image succeeds exactly when it has at least two rows and two columns |
| Gradient.BorderDirectionIsZero | canny.go:170-175 | pixels in the first or last row or column get direction 0, which falls in the horizontal bin of suppression |
| Gradient.SobelXExpanded | canny.go:36 | convolving with SOBEL_X is (m00 - m02) + 2(m10 - m12) + (m20 - m22) |
| Gradient.SobelYExpanded | canny.go:37 | convolving with SOBEL_Y is (m00 - m20) + 2(m01 - m21) + (m02 - m22) |
| Gradient.SobelOfUniformImage | canny.go:36-37 | on an image of one intensity both Sobel responses are zero |
| Gradient.SobelZeroOnBorders | canny.go:162-165 | in the first and last column the horizontal response is zero, and in the first and last row the vertical response is zero |
| Blur.BlurStage | canny.go:187-209 | an even kernel size is `EvenLength`; an odd one succeeds exactly when every vector is readable, otherwise `IndexOutOfRange`; the result has the input's shape and opacity 255 everywhere |
| Blur.GaussianBlur | canny.go:187-209 | the row-by-row construction equals `BlurStage` |
| Blur.BlurRow | canny.go:196-204 | a row is built when both vectors of each of its pixels are readable, and each entry is the blurred pixel |
| Blur.BlurPixel | canny.go:198-203 | the pixel is built when both vectors are readable; it is the combination of the two kernel sums, each divided by the kernel sum |
| Blur.BlurStageDefinedIff | canny.go:195-199 | for an odd kernel size and a non-empty image, the blur succeeds exactly when half the size is less than the height and the width |
| Blur.SmoothedConstant | canny.go:193-201 | the normalised kernel maps a constant vector c to c |
| Blur.BlurOfUniformImage | canny.go:193-202 | on an image of one intensity c both smoothed sums are c, so the square root receives 2c^2 rather than c^2 |
| Threshold.MaxPixelValue | canny.go:416-428 | the result is at least every intensity, and it is 0 or the intensity of some pixel |
| Threshold.MaxIntensityUnique | canny.go:416-428 | two values that both meet maxPixelValue's contract are equal, so the contract fixes the result |
| Threshold.DoubleThreshold | canny.go:101-119 | `strong` and `weak` are the strong and weak coordinates of the original grid; the new grid is `Thresholded` of the original |
| Threshold.ThresholdClassification | canny.go:105-115 | a coordinate is strong exactly when its intensity is above high and weak exactly when it is strictly between low and high; never both; one equal to high is neither; classified pixels are unchanged, all others get intensity 0; opacity is kept |
| Threshold.ThresholdSetsInGrid | canny.go:105-111 | strong and weak coordinates are inside the grid |
| Threshold.AdjacentPixels | canny.go:78-96 | the set built by the loops equals `Adjacent`, the coordinates the loop bounds and the filter admit |
| Threshold.AdjacentIsUpperLeftOnly | canny.go:82-93 | the result is {(x-1, y-1)} when x >= 1 and y >= 1, and empty otherwise; it is among the eight neighbours |
| Threshold.CornerHasNoAdjacentPixels | canny.go:75-96 | the corner (0, 0) of a grid of at least 2 x 2 has three neighbours, but getAdjacentPixels returns none |
| Threshold.EdgeTracking | canny.go:57-73 | the weak coordinates are visited once each in some order; the final strong set is `Track` of that order; weak pixels get intensity 0 and nothing else changes |
| Threshold.TrackBounds | canny.go:59-67 | tracking keeps every strong coordinate and adds only visited ones |
| Threshold.TrackPromotion | canny.go:63-67 | a visited coordinate not strong before ends strong exactly when one of its adjacent pixels is strong at the moment of the visit |
| Threshold.TrackDependsOnOrder | canny.go:59-67 | with (0,0) strong and (1,1), (2,2) weak, (2,2) is promoted in one visiting order and not in the other |
| Threshold.WeakPixelsEndBlack | canny.go:68-71 | after the double threshold and the blackening of weak pixels, a pixel keeps its intensity exactly when it was above high |
| Threshold.ToArray | canny.go:39-48 | the new array holds the grid |
| Threshold.ThresholdAndTrack | canny.go:45-49 | with high and low scaled from the maximum intensity, the final grid keeps exactly the pixels above high and blackens the rest; the strong set lies between the strong coordinates and the strong and weak ones |
| Threshold.EdgeDetectAfterGradient | canny.go:44-51 | a suppression failure is passed on; otherwise the result is the edge map of the suppressed grid |
| Canny.Prepared | canny.go:40-42 | the image sobel receives keeps the input's shape |
| Canny.CannyEdgeDetect | canny.go:39-52 | it fails exactly when blur, sobel or suppression fails, with that error; otherwise the result is the edge map of the suppressed grid |
| Canny.CannyDefinedIff | canny.go:39-52 | with directions in [-90, 90], an empty image always fails; an image with at least one pixel succeeds exactly when it is at least 3 x 3 with blurring and 2 x 2 without |

## Left out

- All of `main.go` (file decoding and encoding, flags, grey conversion, the ratio check) is I/O
  around the detector. Only the `GrayPixel` record shape is used.
- Floating point: the square roots with their `uint8` conversions and `math.Atan` with the
  degree conversion are parameters of `GaussianBlur`, `Sobel` and `CannyEdgeDetect`. NaN
  directions are not modelled; Go panics on them as it does for any direction outside [-90, 90].
- `normalizeVec` and the `float64` sums of `innerProduct` and `convolve` are computed exactly.
  Integers and reals stand in for rounded `float64` values, and the blur kernel is divided by
  its sum 2^(size-1) over the reals.
- Threshold.ThresholdAndTrack: `high` and `low` are `maxRatio * max` and `minRatio * max`
  as exact reals, not rounded `float64` products.
- Sampler.GetPixelVector: `length` is a natural number. A negative length would depend on
  gonum's constructors, which are not part of this model.
- Sampler.GetSurroundingPixelMatrix: `length` is a natural number, for the same reason.
- Pascal.PascalTriangleRow: `combin.Binomial` returns a Go `int`, so from row 67 on some
  coefficients do not fit in 64 bits and the Go row is not C(index, i). `Binomial` here is
  unbounded. gaussianBlur only asks for row kernelSize - 1 = 4.
- Pascal.BlurKernel: accepts every odd size over unbounded integers, for the same reason.
- Pixels.Abs: does not model Go's overflow of `abs` at the smallest `int`, because the
  samplers only pass indices near the image.
- Threshold.EdgeTracking: the mapset iterator runs over a channel fed by a goroutine. Here it
  is a nondeterministic choice of the next unvisited weak coordinate, and the order is
  returned as a ghost result.
- Threshold.EdgeTracking: the strong set is returned rather than updated in place. No caller
  reads it afterwards.
- Grids are required to be rectangular wherever the code reads the first row's length for
  every row. Ragged grids are not modelled.
- Index errors on coordinates that callers always pass in range (the centre pixel of
  suppression and thresholding) are preconditions, not error results.
- Canny.CannyEdgeDetect returns the final grid as a new array, where the Go code reuses the
  slices of the suppressed grid.
