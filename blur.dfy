/**
 * gaussianBlur of canny.go. The kernel is a row of Pascal's triangle divided by its sum;
 * that division is done exactly over the reals here, and the final
 * uint8(sqrt(v * v + h * h)) of the two weighted sums is the parameter `combine`.
 */
module Blur {
  import opened Pixels
  import Sampler
  import LinearAlgebra
  import Pascal

  /**
   * The weighted sum of `v` against the normalised kernel of size |v|: the Pascal-row
   * dot product divided by the row's sum 2^(|v| - 1).
   */
  function Smoothed(v: seq<int>): real
    requires |v| >= 1
  {
    Pascal.Pow2Positive(|v| - 1);
    LinearAlgebra.Dot(v, Pascal.PascalRow(|v| - 1)) as real / Pascal.Pow2(|v| - 1) as real
  }

  /** Both vectors of every pixel can be read. */
  predicate BlurReadable(img: seq<seq<GrayPixel>>, kernelSize: nat)
  {
    forall y, x :: 0 <= y < |img| && 0 <= x < Width(img) ==>
      && Sampler.VectorReadable(img, Sampler.Vertical, y, x, kernelSize)
      && Sampler.VectorReadable(img, Sampler.Horizontal, y, x, kernelSize)
  }

  /** The blurred pixel at (y, x): both smoothed sums combined, fully opaque. */
  function BlurredPixel(img: seq<seq<GrayPixel>>, kernelSize: nat, combine: (real, real) -> byte, y: int, x: int): GrayPixel
    requires kernelSize >= 1
    requires Sampler.VectorReadable(img, Sampler.Vertical, y, x, kernelSize)
    requires Sampler.VectorReadable(img, Sampler.Horizontal, y, x, kernelSize)
  {
    var vertical := Smoothed(Sampler.Vector(img, Sampler.Vertical, y, x, kernelSize));
    var horizontal := Smoothed(Sampler.Vector(img, Sampler.Horizontal, y, x, kernelSize));
    GrayPixel(combine(vertical, horizontal), 255)
  }

  /** The image gaussianBlur returns, or the reason it panics. */
  function BlurStage(img: seq<seq<GrayPixel>>, kernelSize: nat, combine: (real, real) -> byte): (r: Result<seq<seq<GrayPixel>>>)
    requires Rectangular(img)
    ensures kernelSize % 2 == 0 <==> r == Err(EvenLength)
    ensures kernelSize % 2 == 1 ==> (r.Ok? <==> BlurReadable(img, kernelSize))
    ensures r.Err? ==> r.error == (if kernelSize % 2 == 0 then EvenLength else IndexOutOfRange)
    ensures r.Ok? ==> |r.value| == |img| && Rectangular(r.value)
    ensures r.Ok? ==> forall y :: 0 <= y < |img| ==> |r.value[y]| == Width(img)
    ensures r.Ok? ==> forall y, x :: 0 <= y < |img| && 0 <= x < Width(img) ==> r.value[y][x].a == 255
  {
    if kernelSize % 2 == 0 then Err(EvenLength)
    else if !BlurReadable(img, kernelSize) then Err(IndexOutOfRange)
    else Ok(seq(|img|, y requires 0 <= y < |img| =>
      seq(Width(img), x requires 0 <= x < Width(img) => BlurredPixel(img, kernelSize, combine, y, x))))
  }

  /**
   * gaussianBlur: refuses an even kernel size, then replaces every pixel by the
   * combination of its vertical and horizontal smoothed sums.
   */
  method GaussianBlur(pixels: seq<seq<GrayPixel>>, kernelSize: nat, combine: (real, real) -> byte)
    returns (r: Result<seq<seq<GrayPixel>>>)
    requires Rectangular(pixels)
    ensures r == BlurStage(pixels, kernelSize, combine)
  {
    var k := Pascal.BlurKernel(kernelSize);
    if k.Err? {
      return Err(k.error);
    }
    var kernel: seq<int> := k.value;
    var result: seq<seq<GrayPixel>> := [];
    for y := 0 to |pixels|
      invariant |result| == y
      invariant forall i, j :: 0 <= i < y && 0 <= j < Width(pixels) ==>
        && Sampler.VectorReadable(pixels, Sampler.Vertical, i, j, kernelSize)
        && Sampler.VectorReadable(pixels, Sampler.Horizontal, i, j, kernelSize)
      invariant forall i :: 0 <= i < y ==> |result[i]| == Width(pixels)
      invariant forall i, j :: 0 <= i < y && 0 <= j < Width(pixels) ==>
        result[i][j] == BlurredPixel(pixels, kernelSize, combine, i, j)
    {
      var row := BlurRow(pixels, y, kernelSize, kernel, combine);
      if row.Err? {
        return Err(row.error);
      }
      var resultRow := row.value;
      result := result + [resultRow];
    }
    BlurStageIs(pixels, kernelSize, combine, result);
    return Ok(result);
  }

  /** A grid holding the blurred pixel everywhere is the result of the blur stage. */
  lemma BlurStageIs(img: seq<seq<GrayPixel>>, kernelSize: nat, combine: (real, real) -> byte, result: seq<seq<GrayPixel>>)
    requires Rectangular(img) && kernelSize % 2 == 1 && |result| == |img|
    requires forall i, j :: 0 <= i < |img| && 0 <= j < Width(img) ==>
      && Sampler.VectorReadable(img, Sampler.Vertical, i, j, kernelSize)
      && Sampler.VectorReadable(img, Sampler.Horizontal, i, j, kernelSize)
    requires forall i :: 0 <= i < |img| ==> |result[i]| == Width(img)
    requires forall i, j :: 0 <= i < |img| && 0 <= j < Width(img) ==>
      result[i][j] == BlurredPixel(img, kernelSize, combine, i, j)
    ensures BlurStage(img, kernelSize, combine) == Ok(result)
  {
    var want := BlurStage(img, kernelSize, combine);
    assert want.Ok?;
    forall i | 0 <= i < |img|
      ensures result[i] == want.value[i]
    {
      assert forall j :: 0 <= j < Width(img) ==> result[i][j] == want.value[i][j];
    }
    assert result == want.value;
  }

  /** One row of gaussianBlur's result, pixel by pixel. */
  method BlurRow(pixels: seq<seq<GrayPixel>>, y: int, kernelSize: nat, kernel: seq<int>, combine: (real, real) -> byte)
    returns (r: Result<seq<GrayPixel>>)
    requires 0 <= y < |pixels|
    requires kernelSize % 2 == 1 && kernel == Pascal.PascalRow(kernelSize - 1)
    ensures r.Ok? <==> forall j :: 0 <= j < |pixels[y]| ==>
      && Sampler.VectorReadable(pixels, Sampler.Vertical, y, j, kernelSize)
      && Sampler.VectorReadable(pixels, Sampler.Horizontal, y, j, kernelSize)
    ensures r.Err? ==> r.error == IndexOutOfRange
    ensures r.Ok? ==> |r.value| == |pixels[y]|
    ensures r.Ok? ==> forall j :: 0 <= j < |pixels[y]| ==> r.value[j] == BlurredPixel(pixels, kernelSize, combine, y, j)
  {
    var resultRow: seq<GrayPixel> := [];
    for x := 0 to |pixels[y]|
      invariant |resultRow| == x
      invariant forall j :: 0 <= j < x ==>
        && Sampler.VectorReadable(pixels, Sampler.Vertical, y, j, kernelSize)
        && Sampler.VectorReadable(pixels, Sampler.Horizontal, y, j, kernelSize)
      invariant forall j :: 0 <= j < x ==> resultRow[j] == BlurredPixel(pixels, kernelSize, combine, y, j)
    {
      var pixel := BlurPixel(pixels, y, x, kernelSize, kernel, combine);
      if pixel.Err? {
        return Err(pixel.error);
      }
      resultRow := resultRow + [pixel.value];
    }
    return Ok(resultRow);
  }

  /**
   * The body of gaussianBlur's inner loop: both vectors of the pixel weighed against the
   * kernel, each weighted sum divided by the kernel's sum, and the two combined.
   */
  method BlurPixel(pixels: seq<seq<GrayPixel>>, y: int, x: int, kernelSize: nat, kernel: seq<int>, combine: (real, real) -> byte)
    returns (r: Result<GrayPixel>)
    requires kernelSize % 2 == 1 && kernel == Pascal.PascalRow(kernelSize - 1)
    ensures r.Ok? <==>
      && Sampler.VectorReadable(pixels, Sampler.Vertical, y, x, kernelSize)
      && Sampler.VectorReadable(pixels, Sampler.Horizontal, y, x, kernelSize)
    ensures r.Err? ==> r.error == IndexOutOfRange
    ensures r.Ok? ==> r.value == BlurredPixel(pixels, kernelSize, combine, y, x)
  {
    var vecVert := Sampler.GetPixelVector(pixels, y, x, |kernel|, Sampler.Vertical);
    if vecVert.Err? {
      return Err(vecVert.error);
    }
    var vecHor := Sampler.GetPixelVector(pixels, y, x, |kernel|, Sampler.Horizontal);
    if vecHor.Err? {
      return Err(vecHor.error);
    }
    var verticalDot := LinearAlgebra.InnerProduct(vecVert.value, kernel);
    var horizontalDot := LinearAlgebra.InnerProduct(vecHor.value, kernel);
    Pascal.Pow2Positive(kernelSize - 1);
    var sum := Pascal.Pow2(kernelSize - 1) as real;
    var verticalSum := verticalDot.value as real / sum;
    var horizontalSum := horizontalDot.value as real / sum;
    return Ok(GrayPixel(combine(verticalSum, horizontalSum), 255));
  }

  /**
   * For an odd kernel size and a non-empty image, gaussianBlur succeeds exactly when
   * half the kernel size is less than both the height and the width; with the size 5
   * CannyEdgeDetect uses, images thinner than three pixels make it panic.
   */
  lemma BlurStageDefinedIff(img: seq<seq<GrayPixel>>, kernelSize: nat)
    requires Rectangular(img) && |img| >= 1 && Width(img) >= 1 && kernelSize % 2 == 1
    ensures BlurReadable(img, kernelSize) <==> kernelSize / 2 < |img| && kernelSize / 2 < Width(img)
  {
    if kernelSize / 2 < |img| && kernelSize / 2 < Width(img) {
      forall y, x | 0 <= y < |img| && 0 <= x < Width(img)
        ensures Sampler.VectorReadable(img, Sampler.Vertical, y, x, kernelSize)
        ensures Sampler.VectorReadable(img, Sampler.Horizontal, y, x, kernelSize)
      {
        Sampler.VectorReadableIff(img, Sampler.Vertical, y, x, kernelSize);
        Sampler.VectorReadableIff(img, Sampler.Horizontal, y, x, kernelSize);
      }
    } else {
      Sampler.VectorReadableIff(img, Sampler.Vertical, 0, 0, kernelSize);
      Sampler.VectorReadableIff(img, Sampler.Horizontal, 0, 0, kernelSize);
    }
  }

  /** The normalised kernel leaves a constant vector unchanged: its weighted sum is the constant. */
  lemma SmoothedConstant(v: seq<int>, c: int)
    requires |v| >= 1
    requires forall i :: 0 <= i < |v| ==> v[i] == c
    ensures Smoothed(v) == c as real
  {
    var n := |v| - 1;
    var row := Pascal.PascalRow(n);
    LinearAlgebra.DotConstant(v, row, c);
    Pascal.PascalRowSum(n, row);
    var s := Pascal.Pow2(n);
    assert LinearAlgebra.Dot(v, row) == c * s;
    RealQuotient(c, s);
  }

  /** Dividing c * s by s, as reals, gives back c. */
  lemma RealQuotient(c: int, s: int)
    requires s > 0
    ensures (c * s) as real / s as real == c as real
  {
    assert (c * s) as real == c as real * s as real;
  }

  /**
   * On an image of one intensity c both smoothed sums are c, so the value handed to the
   * square root is 2c^2 and the blurred intensity is sqrt(2) * c, not c: the blur does
   * not keep the brightness of a uniform image.
   */
  lemma BlurOfUniformImage(img: seq<seq<GrayPixel>>, kernelSize: nat, y: int, x: int, c: int)
    requires kernelSize >= 1
    requires Sampler.VectorReadable(img, Sampler.Vertical, y, x, kernelSize)
    requires Sampler.VectorReadable(img, Sampler.Horizontal, y, x, kernelSize)
    requires forall i, j :: 0 <= i < |img| && 0 <= j < |img[i]| ==> img[i][j].y == c
    ensures Smoothed(Sampler.Vector(img, Sampler.Vertical, y, x, kernelSize)) == c as real
    ensures Smoothed(Sampler.Vector(img, Sampler.Horizontal, y, x, kernelSize)) == c as real
    ensures var v := Smoothed(Sampler.Vector(img, Sampler.Vertical, y, x, kernelSize));
            var h := Smoothed(Sampler.Vector(img, Sampler.Horizontal, y, x, kernelSize));
            v * v + h * h == 2.0 * (c * c) as real
  {
    var vertical := Sampler.Vector(img, Sampler.Vertical, y, x, kernelSize);
    var horizontal := Sampler.Vector(img, Sampler.Horizontal, y, x, kernelSize);
    SmoothedConstant(vertical, c);
    SmoothedConstant(horizontal, c);
  }
}
