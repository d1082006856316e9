/**
 * CannyEdgeDetect of canny.go: an optional Gaussian blur with kernel size 5, sobel,
 * non-maximum suppression, then double threshold and edge tracking on one grid.
 */
module Canny {
  import opened Pixels
  import Blur
  import Gradient
  import Threshold

  /** The kernel size CannyEdgeDetect blurs with. */
  const BlurKernelSize: nat := 5

  /** The image sobel receives: the blurred image when blurring is asked for. */
  function Prepared(pixels: seq<seq<GrayPixel>>, blur: bool, combine: (real, real) -> byte): (r: Result<seq<seq<GrayPixel>>>)
    requires Rectangular(pixels)
    ensures r.Ok? ==> Rectangular(r.value) && |r.value| == |pixels|
    ensures r.Ok? && |pixels| > 0 ==> Width(r.value) == Width(pixels)
  {
    if blur then Blur.BlurStage(pixels, BlurKernelSize, combine) else Ok(pixels)
  }

  /** The grid after non-maximum suppression, or the reason one of the stages panics. */
  function Suppressed(pixels: seq<seq<GrayPixel>>, blur: bool, combine: (real, real) -> byte,
                      magnitude: (int, int) -> byte, arctanDegrees: (int, int) -> real): Result<seq<seq<GrayPixel>>>
    requires Rectangular(pixels)
  {
    var prepared := Prepared(pixels, blur, combine);
    if prepared.Err? then Err(prepared.error)
    else
      var gradients := Gradient.SobelStage(prepared.value, magnitude, arctanDegrees);
      if gradients.Err? then Err(gradients.error)
      else Gradient.NonMaxSuppressed(gradients.value.0, gradients.value.1)
  }

  /**
   * CannyEdgeDetect: the edge map of the image, or the panic of the first stage that
   * panics. `combine` and `magnitude` stand for the square roots with their uint8
   * conversions in gaussianBlur and sobel, `arctanDegrees` for math.Atan in degrees.
   */
  method CannyEdgeDetect(pixels: seq<seq<GrayPixel>>, blur: bool, minRatio: real, maxRatio: real,
                         combine: (real, real) -> byte, magnitude: (int, int) -> byte, arctanDegrees: (int, int) -> real)
    returns (r: Result<array2<GrayPixel>>, ghost max: int, ghost strong: set<Point>)
    requires Rectangular(pixels)
    ensures r.Err? <==> Suppressed(pixels, blur, combine, magnitude, arctanDegrees).Err?
    ensures r.Err? ==> r.error == Suppressed(pixels, blur, combine, magnitude, arctanDegrees).error
    ensures r.Ok? ==> fresh(r.value)
    ensures r.Ok? ==> Threshold.EdgeMap(Suppressed(pixels, blur, combine, magnitude, arctanDegrees).value,
                                        r.value, minRatio, maxRatio, max, strong)
  {
    var image := pixels;
    if blur {
      var blurred := Blur.GaussianBlur(pixels, BlurKernelSize, combine);
      if blurred.Err? {
        return Err(blurred.error), 0, {};
      }
      image := blurred.value;
    }
    var gradients := Gradient.Sobel(image, magnitude, arctanDegrees);
    if gradients.Err? {
      return Err(gradients.error), 0, {};
    }
    var (magnitudes, directions) := gradients.value;
    r, max, strong := Threshold.EdgeDetectAfterGradient(magnitudes, directions, minRatio, maxRatio);
  }

  /**
   * For an image with at least one pixel, and directions in [-90, 90] as math.Atan
   * gives, the pipeline runs to the end exactly when the image is at least 3 x 3 with
   * blurring, or 2 x 2 without; an empty image always panics.
   */
  lemma CannyDefinedIff(pixels: seq<seq<GrayPixel>>, blur: bool, combine: (real, real) -> byte,
                        magnitude: (int, int) -> byte, arctanDegrees: (int, int) -> real)
    requires Rectangular(pixels)
    requires forall gx, gy :: -90.0 <= arctanDegrees(gx, gy) <= 90.0
    ensures |pixels| == 0 ==> Suppressed(pixels, blur, combine, magnitude, arctanDegrees).Err?
    ensures |pixels| > 0 && Width(pixels) > 0 ==>
      (Suppressed(pixels, blur, combine, magnitude, arctanDegrees).Ok? <==>
       var least := if blur then 3 else 2; |pixels| >= least && Width(pixels) >= least)
  {
    var prepared := Prepared(pixels, blur, combine);
    if |pixels| > 0 && Width(pixels) > 0 {
      if blur {
        Blur.BlurStageDefinedIff(pixels, BlurKernelSize);
      }
      if prepared.Ok? {
        Gradient.SobelStageDefinedIff(prepared.value);
      }
    }
  }
}
