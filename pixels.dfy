/** Pixel grid shared by every stage of the Canny pipeline (canny.go, main.go). */
module Pixels {

  /** Go's uint8. */
  type byte = x: int | 0 <= x < 256

  /** A grayscale pixel: intensity `y` and opacity `a` (main.go's GrayPixel). */
  datatype GrayPixel = GrayPixel(y: byte, a: byte)

  /** A coordinate as Go's image.Point: column `x`, row `y`. */
  datatype Point = Point(x: int, y: int)

  /** The conditions on which canny.go panics. */
  datatype Error =
    | EvenLength          // "length must be odd number" / "size of kernel must be odd"
    | DimensionMismatch   // pixel and direction grids, vectors or matrices of different shape
    | DirectionOutOfRange // a gradient direction outside [-90, 90]
    | IndexOutOfRange     // a slice index outside the image (Go's runtime panic)

  datatype Result<T> = Ok(value: T) | Err(error: Error)

  /** Row-major grid, every row as long as the first one. */
  predicate Rectangular<T>(g: seq<seq<T>>)
  {
    forall i :: 0 <= i < |g| ==> |g[i]| == |g[0]|
  }

  /** Number of columns, as the Go code reads it from the first row. */
  function Width<T>(g: seq<seq<T>>): nat
  {
    if |g| == 0 then 0 else |g[0]|
  }

  predicate InGrid(p: Point, height: int, width: int)
  {
    0 <= p.y < height && 0 <= p.x < width
  }

  /** canny.go's abs over unbounded integers. */
  function Abs(x: int): (r: nat)
    ensures r == x || r == -x
  {
    if x < 0 then -x else x
  }
}
