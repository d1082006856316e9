/**
 * Gradient stage and non-maximum suppression of canny.go: the integer part of sobel
 * (the two 3 x 3 convolutions), getPixelInGradientDirection and nonMaximumSuppression.
 */
module Gradient {
  import opened Pixels
  import Sampler
  import LinearAlgebra

  /** SOBEL_X and SOBEL_Y of canny.go as 3 x 3 matrices, row by row. */
  const SobelX: seq<seq<int>> := [[1, 0, -1], [2, 0, -2], [1, 0, -1]]
  const SobelY: seq<seq<int>> := [[1, 2, 1], [0, 0, 0], [-1, -2, -1]]

  /** The five direction bins of getPixelInGradientDirection, in the order it tests them. */
  datatype Bin = NearMinus90 | NearMinus45 | Near0 | Near45 | Near90

  function Lower(b: Bin): real
  {
    match b
    case NearMinus90 => -90.0
    case NearMinus45 => -67.5
    case Near0 => -22.5
    case Near45 => 22.5
    case Near90 => 67.5
  }

  function Upper(b: Bin): real
  {
    match b
    case NearMinus90 => -67.5
    case NearMinus45 => -22.5
    case Near0 => 22.5
    case Near45 => 67.5
    case Near90 => 90.0
  }

  /** The angle range of a bin: [Lower, Upper), except that the last one also holds 90. */
  predicate InBin(b: Bin, d: real)
  {
    Lower(b) <= d && (d < Upper(b) || (b == Near90 && d == Upper(b)))
  }

  /**
   * The branch of getPixelInGradientDirection that a direction selects: every direction
   * in [-90, 90] lies in exactly one bin, every other direction is refused.
   */
  function DirectionBin(d: real): (r: Result<Bin>)
    ensures r.Ok? <==> -90.0 <= d <= 90.0
    ensures r.Err? ==> r.error == DirectionOutOfRange
    ensures forall b :: InBin(b, d) <==> r == Ok(b)
  {
    if -90.0 <= d < -67.5 then Ok(NearMinus90)
    else if -67.5 <= d < -22.5 then Ok(NearMinus45)
    else if -22.5 <= d < 22.5 then Ok(Near0)
    else if 22.5 <= d < 67.5 then Ok(Near45)
    else if 67.5 <= d <= 90.0 then Ok(Near90)
    else Err(DirectionOutOfRange)
  }

  /**
   * Offsets (as Point(dx, dy)) of the two pixels a bin compares against: two distinct
   * 8-neighbours on opposite sides of the centre.
   */
  function Offsets(b: Bin): (r: (Point, Point))
    ensures r.1 == Point(-r.0.x, -r.0.y) && r.0 != Point(0, 0)
    ensures -1 <= r.0.x <= 1 && -1 <= r.0.y <= 1
    ensures b == NearMinus90 || b == Near90 <==> r.0.x == 0
    ensures b == Near0 <==> r.0.y == 0
  {
    match b
    case NearMinus90 => (Point(0, -1), Point(0, 1))
    case NearMinus45 => (Point(1, -1), Point(-1, 1))
    case Near0 => (Point(1, 0), Point(-1, 0))
    case Near45 => (Point(1, 1), Point(-1, -1))
    case Near90 => (Point(0, 1), Point(0, -1))
  }

  /** A coordinate outside [0, size) is replaced by the centre's. */
  function Fallback(c: int, centre: int, size: int): int
  {
    if c < 0 || c >= size then centre else c
  }

  /** The neighbour at `offset` from `centre`, each axis falling back to the centre on its own. */
  function Neighbour(centre: Point, offset: Point, height: int, width: int): (p: Point)
    ensures InGrid(centre, height, width) ==> InGrid(p, height, width)
  {
    Point(Fallback(centre.x + offset.x, centre.x, width), Fallback(centre.y + offset.y, centre.y, height))
  }

  /** The positions getPixelInGradientDirection reads for the pixel at (x, y). */
  function GradientPositions(height: int, width: int, x: int, y: int, d: real): (r: Result<(Point, Point)>)
    ensures r.Ok? <==> -90.0 <= d <= 90.0
    ensures r.Err? ==> r.error == DirectionOutOfRange
    ensures r.Ok? && InGrid(Point(x, y), height, width) ==>
      InGrid(r.value.0, height, width) && InGrid(r.value.1, height, width)
  {
    match DirectionBin(d)
    case Err(e) => Err(e)
    case Ok(b) =>
      var (dp, dq) := Offsets(b);
      Ok((Neighbour(Point(x, y), dp, height, width), Neighbour(Point(x, y), dq, height, width)))
  }

  /** Every direction of the field lies in [-90, 90]. */
  predicate DirectionsInRange(directions: seq<seq<real>>)
  {
    forall y, x :: 0 <= y < |directions| && 0 <= x < |directions[y]| ==> -90.0 <= directions[y][x] <= 90.0
  }

  /**
   * getPixelInGradientDirection: the two pixels along the gradient of the pixel at (x, y);
   * both are inside the image.
   */
  function PixelsInGradientDirection(pixels: seq<seq<GrayPixel>>, directions: seq<seq<real>>, x: int, y: int)
    : (r: Result<(GrayPixel, GrayPixel)>)
    requires Rectangular(pixels) && 0 <= y < |pixels| && 0 <= x < Width(pixels)
    requires 0 <= y < |directions| && 0 <= x < |directions[y]|
    ensures r.Ok? <==> -90.0 <= directions[y][x] <= 90.0
    ensures r.Err? ==> r.error == DirectionOutOfRange
    ensures r.Ok? ==> exists p, q ::
      && InGrid(p, |pixels|, Width(pixels)) && InGrid(q, |pixels|, Width(pixels))
      && GradientPositions(|pixels|, Width(pixels), x, y, directions[y][x]) == Ok((p, q))
      && r.value == (pixels[p.y][p.x], pixels[q.y][q.x])
  {
    match GradientPositions(|pixels|, |pixels[0]|, x, y, directions[y][x])
    case Err(e) => Err(e)
    case Ok((p, q)) => Ok((pixels[p.y][p.x], pixels[q.y][q.x]))
  }

  /** The pixel nonMaximumSuppression writes for (x, y): black and opaque if a gradient neighbour is brighter. */
  function SuppressedPixel(pixels: seq<seq<GrayPixel>>, directions: seq<seq<real>>, x: int, y: int): GrayPixel
    requires Rectangular(pixels) && 0 <= y < |pixels| && 0 <= x < Width(pixels)
    requires 0 <= y < |directions| && 0 <= x < |directions[y]| && -90.0 <= directions[y][x] <= 90.0
  {
    var (p, q) := PixelsInGradientDirection(pixels, directions, x, y).value;
    var r := pixels[y][x];
    if p.y > r.y || q.y > r.y then GrayPixel(0, 255) else r
  }

  /**
   * The grid nonMaximumSuppression returns. Grids of different row counts or first-row
   * lengths are refused, an empty grid fails on its missing first row, and a direction
   * outside [-90, 90] anywhere is refused; otherwise the result has the input's shape.
   */
  function NonMaxSuppressed(pixels: seq<seq<GrayPixel>>, directions: seq<seq<real>>): (r: Result<seq<seq<GrayPixel>>>)
    requires Rectangular(pixels) && Rectangular(directions)
    ensures r.Ok? <==> |pixels| == |directions| > 0 && Width(pixels) == Width(directions) && DirectionsInRange(directions)
    ensures |pixels| != |directions| ==> r == Err(DimensionMismatch)
    ensures |pixels| == |directions| == 0 ==> r == Err(IndexOutOfRange)
    ensures r.Ok? ==> |r.value| == |pixels| && forall y :: 0 <= y < |r.value| ==> |r.value[y]| == Width(pixels)
  {
    if |pixels| != |directions| then Err(DimensionMismatch)
    else if |pixels| == 0 then Err(IndexOutOfRange)
    else if |pixels[0]| != |directions[0]| then Err(DimensionMismatch)
    else if !DirectionsInRange(directions) then Err(DirectionOutOfRange)
    else Ok(seq(|pixels|, y requires 0 <= y < |pixels| =>
              seq(|pixels[0]|, x requires 0 <= x < |pixels[0]| => SuppressedPixel(pixels, directions, x, y))))
  }

  /**
   * nonMaximumSuppression: builds a new grid row by row, each pixel either kept or
   * replaced by black, opaque.
   */
  method NonMaximumSuppression(pixels: seq<seq<GrayPixel>>, directions: seq<seq<real>>)
    returns (r: Result<seq<seq<GrayPixel>>>)
    requires Rectangular(pixels) && Rectangular(directions)
    ensures r == NonMaxSuppressed(pixels, directions)
  {
    if |pixels| != |directions| {
      return Err(DimensionMismatch);
    }
    if |pixels| == 0 {
      return Err(IndexOutOfRange);
    }
    if |pixels[0]| != |directions[0]| {
      return Err(DimensionMismatch);
    }
    var result: seq<seq<GrayPixel>> := [];
    for y := 0 to |pixels|
      invariant |result| == y
      invariant forall i :: 0 <= i < y ==> forall j :: 0 <= j < |directions[i]| ==> -90.0 <= directions[i][j] <= 90.0
      invariant forall i :: 0 <= i < y ==> |result[i]| == |pixels[0]|
      invariant forall i, j :: 0 <= i < y && 0 <= j < |pixels[0]| ==> result[i][j] == SuppressedPixel(pixels, directions, j, i)
    {
      var row := SuppressRow(pixels, directions, y);
      if row.Err? {
        return Err(row.error);
      }
      var resultRow := row.value;
      result := result + [resultRow];
    }
    NonMaxSuppressedIs(pixels, directions, result);
    return Ok(result);
  }

  /** The inner loop of nonMaximumSuppression: row y of the result. */
  method SuppressRow(pixels: seq<seq<GrayPixel>>, directions: seq<seq<real>>, y: int) returns (r: Result<seq<GrayPixel>>)
    requires Rectangular(pixels) && Rectangular(directions)
    requires |pixels| == |directions| > 0 && |pixels[0]| == |directions[0]| && 0 <= y < |pixels|
    ensures r.Ok? <==> forall j :: 0 <= j < |directions[y]| ==> -90.0 <= directions[y][j] <= 90.0
    ensures r.Err? ==> r.error == DirectionOutOfRange
    ensures r.Ok? ==> |r.value| == |pixels[0]|
    ensures r.Ok? ==> forall j :: 0 <= j < |pixels[0]| ==> r.value[j] == SuppressedPixel(pixels, directions, j, y)
  {
    assert |directions[y]| == |pixels[0]|;
    var resultRow: seq<GrayPixel> := [];
    for x := 0 to |pixels[0]|
      invariant |resultRow| == x
      invariant forall j :: 0 <= j < x ==> -90.0 <= directions[y][j] <= 90.0
      invariant forall j :: 0 <= j < x ==> resultRow[j] == SuppressedPixel(pixels, directions, j, y)
    {
      var r := pixels[y][x];
      var pq := PixelsInGradientDirection(pixels, directions, x, y);
      if pq.Err? {
        return Err(pq.error);
      }
      var (p, q) := pq.value;
      if p.y > r.y || q.y > r.y {
        resultRow := resultRow + [GrayPixel(0, 255)];
      } else {
        resultRow := resultRow + [r];
      }
    }
    return Ok(resultRow);
  }

  /** A grid holding the suppressed pixel everywhere is the result of nonMaximumSuppression. */
  lemma NonMaxSuppressedIs(pixels: seq<seq<GrayPixel>>, directions: seq<seq<real>>, result: seq<seq<GrayPixel>>)
    requires Rectangular(pixels) && Rectangular(directions)
    requires |pixels| == |directions| > 0 && |pixels[0]| == |directions[0]| && |result| == |pixels|
    requires forall i :: 0 <= i < |pixels| ==> forall j :: 0 <= j < |directions[i]| ==> -90.0 <= directions[i][j] <= 90.0
    requires forall i :: 0 <= i < |pixels| ==> |result[i]| == |pixels[0]|
    requires forall i, j :: 0 <= i < |pixels| && 0 <= j < |pixels[0]| ==> result[i][j] == SuppressedPixel(pixels, directions, j, i)
    ensures NonMaxSuppressed(pixels, directions) == Ok(result)
  {
    assert DirectionsInRange(directions) by {
      forall i, j | 0 <= i < |directions| && 0 <= j < |directions[i]|
        ensures -90.0 <= directions[i][j] <= 90.0
      {
        assert |directions[i]| == |directions[0]|;
      }
    }
    var expected := NonMaxSuppressed(pixels, directions).value;
    forall i | 0 <= i < |pixels|
      ensures result[i] == expected[i]
    {
      assert forall j :: 0 <= j < |pixels[0]| ==> result[i][j] == expected[i][j];
    }
    assert result == expected;
  }

  /**
   * What suppression does to one pixel: it keeps its value unless one of its two
   * gradient-direction pixels is strictly brighter, in which case it becomes
   * GrayPixel(0, 255) whatever its opacity was. Intensity never grows, and a pixel
   * that stays nonzero is at least as bright as both gradient-direction pixels.
   */
  lemma SuppressionOutcome(pixels: seq<seq<GrayPixel>>, directions: seq<seq<real>>, x: int, y: int)
    requires Rectangular(pixels) && Rectangular(directions)
    requires NonMaxSuppressed(pixels, directions).Ok?
    requires 0 <= y < |pixels| && 0 <= x < Width(pixels)
    ensures var out := NonMaxSuppressed(pixels, directions).value[y][x];
      var (p, q) := PixelsInGradientDirection(pixels, directions, x, y).value;
      && (p.y > pixels[y][x].y || q.y > pixels[y][x].y ==> out == GrayPixel(0, 255))
      && (p.y <= pixels[y][x].y && q.y <= pixels[y][x].y ==> out == pixels[y][x])
      && out.y <= pixels[y][x].y
      && (out.y != 0 ==> out == pixels[y][x] && p.y <= out.y && q.y <= out.y)
  {
    assert |directions[y]| == Width(directions);
  }

  /**
   * Near a border a diagonal neighbour falls back one axis at a time: it becomes the
   * centre exactly when both of its coordinates leave the image, and an axis neighbour
   * of the centre when exactly one of them does.
   */
  lemma DiagonalFallback(height: int, width: int, x: int, y: int, d: real)
    requires InGrid(Point(x, y), height, width)
    requires DirectionBin(d) == Ok(NearMinus45) || DirectionBin(d) == Ok(Near45)
    ensures var (dp, dq) := Offsets(DirectionBin(d).value);
      var (p, q) := GradientPositions(height, width, x, y, d).value;
      && (p == Point(x, y) <==> !(0 <= x + dp.x < width) && !(0 <= y + dp.y < height))
      && (q == Point(x, y) <==> !(0 <= x + dq.x < width) && !(0 <= y + dq.y < height))
      && ((0 <= x + dp.x < width) != (0 <= y + dp.y < height) ==> Abs(p.x - x) + Abs(p.y - y) == 1)
      && ((0 <= x + dq.x < width) != (0 <= y + dq.y < height) ==> Abs(q.x - x) + Abs(q.y - y) == 1)
  {
  }

  /** The Sobel responses (Gx, Gy) of the pixel at (y, x). */
  function SobelResponse(img: seq<seq<GrayPixel>>, y: int, x: int): (int, int)
    requires Sampler.MatrixReadable(img, y, x, 3)
  {
    var m := Sampler.Window(img, y, x, 3);
    SobelXExpanded(m);
    (LinearAlgebra.Frobenius(m, SobelX), LinearAlgebra.Frobenius(m, SobelY))
  }

  /**
   * The direction sobel records: 0 when either response is 0, otherwise the arctangent
   * of Gy / Gx in degrees, which is a parameter here.
   */
  function GradientDirection(gx: int, gy: int, arctanDegrees: (int, int) -> real): real
  {
    if gx == 0 || gy == 0 then 0.0 else arctanDegrees(gx, gy)
  }

  /** Every pixel's 3 x 3 window can be read. */
  predicate SobelReadable(img: seq<seq<GrayPixel>>)
  {
    forall y, x :: 0 <= y < |img| && 0 <= x < Width(img) ==> Sampler.MatrixReadable(img, y, x, 3)
  }

  /**
   * The magnitude grid and direction field sobel returns; `magnitude` stands for the
   * conversion uint8(sqrt(Gx^2 + Gy^2)) and `arctanDegrees` for the arctangent.
   */
  function SobelStage(img: seq<seq<GrayPixel>>, magnitude: (int, int) -> byte, arctanDegrees: (int, int) -> real)
    : (r: Result<(seq<seq<GrayPixel>>, seq<seq<real>>)>)
    requires Rectangular(img)
    ensures r.Ok? <==> SobelReadable(img)
    ensures r.Err? ==> r.error == IndexOutOfRange
    ensures r.Ok? ==> |r.value.0| == |r.value.1| == |img| && Rectangular(r.value.0) && Rectangular(r.value.1)
    ensures r.Ok? ==> forall y :: 0 <= y < |img| ==> |r.value.0[y]| == |r.value.1[y]| == Width(img)
    ensures r.Ok? ==> forall y, x :: 0 <= y < |img| && 0 <= x < Width(img) ==> r.value.0[y][x].a == 255
  {
    if !SobelReadable(img) then Err(IndexOutOfRange)
    else
      var mags := seq(|img|, y requires 0 <= y < |img| => seq(Width(img), x requires 0 <= x < Width(img) =>
        var (gx, gy) := SobelResponse(img, y, x); GrayPixel(magnitude(gx, gy), 255)));
      var dirs := seq(|img|, y requires 0 <= y < |img| => seq(Width(img), x requires 0 <= x < Width(img) =>
        var (gx, gy) := SobelResponse(img, y, x); GradientDirection(gx, gy, arctanDegrees)));
      Ok((mags, dirs))
  }

  /**
   * sobel: builds the magnitude grid and the direction field row by row; every pixel is
   * written fully opaque. A window that cannot be read is an index error.
   */
  method Sobel(pixels: seq<seq<GrayPixel>>, magnitude: (int, int) -> byte, arctanDegrees: (int, int) -> real)
    returns (r: Result<(seq<seq<GrayPixel>>, seq<seq<real>>)>)
    requires Rectangular(pixels)
    ensures r == SobelStage(pixels, magnitude, arctanDegrees)
  {
    var result: seq<seq<GrayPixel>> := [];
    var directions: seq<seq<real>> := [];
    for y := 0 to |pixels|
      invariant |result| == |directions| == y
      invariant forall i, j :: 0 <= i < y && 0 <= j < Width(pixels) ==> Sampler.MatrixReadable(pixels, i, j, 3)
      invariant forall i :: 0 <= i < y ==> |result[i]| == |directions[i]| == Width(pixels)
      invariant forall i, j :: 0 <= i < y && 0 <= j < Width(pixels) ==>
        && result[i][j] == GrayPixel(magnitude(SobelResponse(pixels, i, j).0, SobelResponse(pixels, i, j).1), 255)
        && directions[i][j] == GradientDirection(SobelResponse(pixels, i, j).0, SobelResponse(pixels, i, j).1, arctanDegrees)
    {
      var resultRow: seq<GrayPixel> := [];
      var angleRow: seq<real> := [];
      for x := 0 to |pixels[y]|
        invariant |resultRow| == |angleRow| == x
        invariant forall j :: 0 <= j < x ==> Sampler.MatrixReadable(pixels, y, j, 3)
        invariant forall j :: 0 <= j < x ==>
          && resultRow[j] == GrayPixel(magnitude(SobelResponse(pixels, y, j).0, SobelResponse(pixels, y, j).1), 255)
          && angleRow[j] == GradientDirection(SobelResponse(pixels, y, j).0, SobelResponse(pixels, y, j).1, arctanDegrees)
      {
        var g := SobelGradient(pixels, y, x);
        if g.Err? {
          return Err(g.error);
        }
        var (gx, gy) := g.value;
        resultRow := resultRow + [GrayPixel(magnitude(gx, gy), 255)];
        var angle := if gx == 0 || gy == 0 then 0.0 else arctanDegrees(gx, gy);
        angleRow := angleRow + [angle];
      }
      result := result + [resultRow];
      directions := directions + [angleRow];
    }
    SobelStageIs(pixels, magnitude, arctanDegrees, result, directions);
    return Ok((result, directions));
  }

  /** Grids holding every pixel's magnitude and direction are the result of sobel. */
  lemma SobelStageIs(img: seq<seq<GrayPixel>>, magnitude: (int, int) -> byte, arctanDegrees: (int, int) -> real,
                     mags: seq<seq<GrayPixel>>, dirs: seq<seq<real>>)
    requires Rectangular(img) && |mags| == |dirs| == |img|
    requires forall i, j :: 0 <= i < |img| && 0 <= j < Width(img) ==> Sampler.MatrixReadable(img, i, j, 3)
    requires forall i :: 0 <= i < |img| ==> |mags[i]| == |dirs[i]| == Width(img)
    requires forall i, j :: 0 <= i < |img| && 0 <= j < Width(img) ==>
      && mags[i][j] == GrayPixel(magnitude(SobelResponse(img, i, j).0, SobelResponse(img, i, j).1), 255)
      && dirs[i][j] == GradientDirection(SobelResponse(img, i, j).0, SobelResponse(img, i, j).1, arctanDegrees)
    ensures SobelStage(img, magnitude, arctanDegrees) == Ok((mags, dirs))
  {
    var want := SobelStage(img, magnitude, arctanDegrees);
    assert want.Ok?;
    forall i | 0 <= i < |img|
      ensures mags[i] == want.value.0[i] && dirs[i] == want.value.1[i]
    {
      assert forall j :: 0 <= j < Width(img) ==> mags[i][j] == want.value.0[i][j];
      assert forall j :: 0 <= j < Width(img) ==> dirs[i][j] == want.value.1[i][j];
    }
    assert mags == want.value.0 && dirs == want.value.1;
  }

  /**
   * sobel succeeds on a non-empty image exactly when it has at least two rows and two
   * columns; on a single row or column the mirrored window leaves the image.
   */
  lemma SobelStageDefinedIff(img: seq<seq<GrayPixel>>)
    requires Rectangular(img) && |img| >= 1 && Width(img) >= 1
    ensures SobelReadable(img) <==> |img| >= 2 && Width(img) >= 2
  {
    if |img| >= 2 && Width(img) >= 2 {
      forall y, x | 0 <= y < |img| && 0 <= x < Width(img)
        ensures Sampler.MatrixReadable(img, y, x, 3)
      {
        Sampler.MatrixReadableIff(img, y, x, 3);
      }
    } else {
      Sampler.MatrixReadableIff(img, 0, 0, 3);
    }
  }

  /**
   * sobel gives every pixel of the first and last row and column direction 0, so
   * non-maximum suppression compares those pixels with their left and right neighbours.
   */
  lemma BorderDirectionIsZero(img: seq<seq<GrayPixel>>, magnitude: (int, int) -> byte, arctanDegrees: (int, int) -> real, y: int, x: int)
    requires Rectangular(img) && SobelStage(img, magnitude, arctanDegrees).Ok?
    requires 0 <= y < |img| && 0 <= x < Width(img)
    requires x == 0 || y == 0 || x == Width(img) - 1 || y == |img| - 1
    ensures SobelStage(img, magnitude, arctanDegrees).value.1[y][x] == 0.0
    ensures DirectionBin(SobelStage(img, magnitude, arctanDegrees).value.1[y][x]) == Ok(Near0)
  {
    SobelStageDefinedIff(img);
    SobelZeroOnBorders(img, y, x);
  }

  /**
   * The Sobel responses (Gx, Gy) of the pixel at (y, x): the 3 x 3 window is convolved
   * with both kernels; a window that cannot be read is an index error.
   */
  method SobelGradient(img: seq<seq<GrayPixel>>, y: int, x: int) returns (r: Result<(int, int)>)
    ensures r.Ok? <==> Sampler.MatrixReadable(img, y, x, 3)
    ensures r.Err? ==> r.error == IndexOutOfRange
    ensures r.Ok? ==> r.value == SobelResponse(img, y, x)
  {
    var pane := Sampler.GetSurroundingPixelMatrix(img, y, x, 3);
    if pane.Err? {
      return Err(pane.error);
    }
    var m := pane.value;
    assert Rectangular(m) && Width(m) == 3;
    var gx := LinearAlgebra.Convolve(m, SobelX);
    var gy := LinearAlgebra.Convolve(m, SobelY);
    return Ok((gx.value, gy.value));
  }

  /** Sobel's horizontal response written out. */
  lemma SobelXExpanded(m: seq<seq<int>>)
    requires |m| == 3 && forall a :: 0 <= a < 3 ==> |m[a]| == 3
    ensures LinearAlgebra.SameShape(m, SobelX)
    ensures LinearAlgebra.Frobenius(m, SobelX) == (m[0][0] - m[0][2]) + 2 * (m[1][0] - m[1][2]) + (m[2][0] - m[2][2])
  {
    FrobeniusOfThreeRows(m, SobelX);
    forall a | 0 <= a < 3
      ensures LinearAlgebra.Dot(m[a], SobelX[a]) == m[a][0] * SobelX[a][0] + m[a][1] * SobelX[a][1] + m[a][2] * SobelX[a][2]
    {
      DotOfThree(m[a], SobelX[a]);
    }
  }

  /** Sobel's vertical response written out. */
  lemma SobelYExpanded(m: seq<seq<int>>)
    requires |m| == 3 && forall a :: 0 <= a < 3 ==> |m[a]| == 3
    ensures LinearAlgebra.SameShape(m, SobelY)
    ensures LinearAlgebra.Frobenius(m, SobelY) == (m[0][0] - m[2][0]) + 2 * (m[0][1] - m[2][1]) + (m[0][2] - m[2][2])
  {
    FrobeniusOfThreeRows(m, SobelY);
    forall a | 0 <= a < 3
      ensures LinearAlgebra.Dot(m[a], SobelY[a]) == m[a][0] * SobelY[a][0] + m[a][1] * SobelY[a][1] + m[a][2] * SobelY[a][2]
    {
      DotOfThree(m[a], SobelY[a]);
    }
  }

  lemma FrobeniusOfThreeRows(m: seq<seq<int>>, k: seq<seq<int>>)
    requires LinearAlgebra.SameShape(m, k) && |m| == 3
    ensures LinearAlgebra.Frobenius(m, k) ==
      LinearAlgebra.Dot(m[0], k[0]) + LinearAlgebra.Dot(m[1], k[1]) + LinearAlgebra.Dot(m[2], k[2])
  {
    assert m[..2][..1] == m[..1] && k[..2][..1] == k[..1];
    assert LinearAlgebra.Frobenius(m[..1], k[..1]) == LinearAlgebra.Dot(m[0], k[0]);
    assert LinearAlgebra.Frobenius(m[..2], k[..2]) == LinearAlgebra.Frobenius(m[..1], k[..1]) + LinearAlgebra.Dot(m[1], k[1]);
  }

  lemma DotOfThree(u: seq<int>, v: seq<int>)
    requires |u| == 3 && |v| == 3
    ensures LinearAlgebra.Dot(u, v) == u[0] * v[0] + u[1] * v[1] + u[2] * v[2]
  {
    assert u[..2][..1] == u[..1] && v[..2][..1] == v[..1];
    assert LinearAlgebra.Dot(u[..1], v[..1]) == u[0] * v[0];
    assert LinearAlgebra.Dot(u[..2], v[..2]) == LinearAlgebra.Dot(u[..1], v[..1]) + u[1] * v[1];
    assert LinearAlgebra.Dot(u, v) == LinearAlgebra.Dot(u[..2], v[..2]) + u[2] * v[2];
  }

  /** An image of one intensity has zero Sobel response in both directions wherever it can be read. */
  lemma SobelOfUniformImage(img: seq<seq<GrayPixel>>, y: int, x: int, c: int)
    requires Sampler.MatrixReadable(img, y, x, 3)
    requires forall i, j :: 0 <= i < |img| && 0 <= j < |img[i]| ==> img[i][j].y == c
    ensures LinearAlgebra.SameShape(Sampler.Window(img, y, x, 3), SobelX)
    ensures LinearAlgebra.Frobenius(Sampler.Window(img, y, x, 3), SobelX) == 0
    ensures LinearAlgebra.Frobenius(Sampler.Window(img, y, x, 3), SobelY) == 0
  {
    var m := Sampler.Window(img, y, x, 3);
    SobelXExpanded(m);
    SobelYExpanded(m);
  }

  /**
   * In the first and last column the sampler reads the same column on both sides of the
   * centre, so the horizontal response is zero there; likewise the vertical response in
   * the first and last row. sobel then gives those pixels direction 0.
   */
  lemma SobelZeroOnBorders(img: seq<seq<GrayPixel>>, y: int, x: int)
    requires Rectangular(img) && 2 <= |img| && 2 <= Width(img)
    requires 0 <= y < |img| && 0 <= x < Width(img)
    ensures Sampler.MatrixReadable(img, y, x, 3)
    ensures LinearAlgebra.SameShape(Sampler.Window(img, y, x, 3), SobelX)
    ensures x == 0 || x == Width(img) - 1 ==> LinearAlgebra.Frobenius(Sampler.Window(img, y, x, 3), SobelX) == 0
    ensures y == 0 || y == |img| - 1 ==> LinearAlgebra.Frobenius(Sampler.Window(img, y, x, 3), SobelY) == 0
  {
    Sampler.MatrixReadableIff(img, y, x, 3);
    var m := Sampler.Window(img, y, x, 3);
    SobelXExpanded(m);
    SobelYExpanded(m);
    if x == 0 || x == Width(img) - 1 {
      assert Sampler.MatrixCol(img, x, 3, 0) == Sampler.MatrixCol(img, x, 3, 2);
      assert forall a :: 0 <= a < 3 ==> m[a][0] == m[a][2];
    }
    if y == 0 || y == |img| - 1 {
      assert Sampler.MatrixRow(img, y, 3, 0) == Sampler.MatrixRow(img, y, 3, 2);
      assert forall b :: 0 <= b < 3 ==> m[0][b] == m[2][b];
    }
  }
}
