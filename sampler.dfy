/**
 * The border-aware sampler of canny.go: getPixelVector and getSorroundingPixelMatrix.
 * A requested index outside the image is mapped back into it by MirrorIndex; a mapped
 * index that still falls outside is the Go runtime's index-out-of-range panic.
 */
module Sampler {
  import opened Pixels

  /** A row of a window, or the position in the row of the read that left the image. */
  datatype ReadResult = ReadOk(value: seq<int>) | ReadErr(error: nat)

  /** The `direction` enumeration of canny.go. */
  datatype Axis = Horizontal | Vertical

  /**
   * The index actually read for requested index `i` on an axis of `size` cells when
   * the window is centred on `pos`: the overflow is measured from the edge but applied
   * to the centre.
   */
  function MirrorIndex(i: int, pos: int, size: int): int
  {
    if i < 0 then pos + Abs(i)
    else if i >= size then pos - (i - size + 1)
    else i
  }

  /** Reflection about the edge cell: one before index 0 is index 1, one past the end is size - 2. */
  function EdgeMirror(i: int, size: int): int
  {
    if i < 0 then -i
    else if i >= size then 2 * (size - 1) - i
    else i
  }

  /** (row, column) pair that can be read from `img` without a panic. */
  predicate Readable(img: seq<seq<GrayPixel>>, row: int, col: int)
  {
    0 <= row < |img| && 0 <= col < |img[row]|
  }

  /** Centre coordinate along `axis`. */
  function Centre(axis: Axis, posY: int, posX: int): int
  {
    if axis == Horizontal then posX else posY
  }

  /** Number of cells along `axis`, as getPixelVector reads it. */
  function AxisSize(img: seq<seq<GrayPixel>>, axis: Axis, posY: int): int
  {
    match axis
    case Horizontal => if 0 <= posY < |img| then |img[posY]| else 0
    case Vertical => |img|
  }

  /** Row read for the k-th vector element. */
  function VectorRow(img: seq<seq<GrayPixel>>, axis: Axis, posY: int, posX: int, length: nat, k: int): int
  {
    if axis == Horizontal then posY
    else MirrorIndex(posY - length / 2 + k, posY, |img|)
  }

  /** Column read for the k-th vector element. */
  function VectorCol(img: seq<seq<GrayPixel>>, axis: Axis, posY: int, posX: int, length: nat, k: int): int
  {
    if axis == Vertical then posX
    else MirrorIndex(posX - length / 2 + k, posX, AxisSize(img, Horizontal, posY))
  }

  /** Every read of getPixelVector stays inside the image. */
  predicate VectorReadable(img: seq<seq<GrayPixel>>, axis: Axis, posY: int, posX: int, length: nat)
  {
    forall k :: 0 <= k < length ==>
      Readable(img, VectorRow(img, axis, posY, posX, length, k), VectorCol(img, axis, posY, posX, length, k))
  }

  /** Row read for row `a` of the matrix. */
  function MatrixRow(img: seq<seq<GrayPixel>>, posY: int, length: nat, a: int): int
  {
    MirrorIndex(posY - length / 2 + a, posY, |img|)
  }

  /** Column read for column `b` of the matrix; the width is that of the first row. */
  function MatrixCol(img: seq<seq<GrayPixel>>, posX: int, length: nat, b: int): int
  {
    MirrorIndex(posX - length / 2 + b, posX, Width(img))
  }

  /** Every read of getSorroundingPixelMatrix stays inside the image. */
  predicate MatrixReadable(img: seq<seq<GrayPixel>>, posY: int, posX: int, length: nat)
  {
    forall a, b {:trigger MatrixRow(img, posY, length, a), MatrixCol(img, posX, length, b)} ::
      0 <= a < length && 0 <= b < length ==>
      Readable(img, MatrixRow(img, posY, length, a), MatrixCol(img, posX, length, b))
  }

  /** The intensities getPixelVector returns, when every read is inside the image. */
  function Vector(img: seq<seq<GrayPixel>>, axis: Axis, posY: int, posX: int, length: nat): seq<int>
    requires VectorReadable(img, axis, posY, posX, length)
  {
    seq(length, k requires 0 <= k < length =>
      img[VectorRow(img, axis, posY, posX, length, k)][VectorCol(img, axis, posY, posX, length, k)].y)
  }

  /** The intensities getSorroundingPixelMatrix returns, when every read is inside the image. */
  function Window(img: seq<seq<GrayPixel>>, posY: int, posX: int, length: nat): seq<seq<int>>
    requires MatrixReadable(img, posY, posX, length)
  {
    seq(length, a requires 0 <= a < length =>
      seq(length, b requires 0 <= b < length => WindowCell(img, posY, posX, length, a, b)))
  }

  function WindowCell(img: seq<seq<GrayPixel>>, posY: int, posX: int, length: nat, a: int, b: int): int
    requires MatrixReadable(img, posY, posX, length) && 0 <= a < length && 0 <= b < length
  {
    var row, col := MatrixRow(img, posY, length, a), MatrixCol(img, posX, length, b);
    assert Readable(img, row, col);
    img[row][col].y
  }

  /**
   * getPixelVector: the `length` intensities along `axis` centred on (posY, posX).
   * Even lengths are refused; a read outside the image is an index error.
   */
  method GetPixelVector(img: seq<seq<GrayPixel>>, posY: int, posX: int, length: nat, axis: Axis)
    returns (r: Result<seq<int>>)
    ensures length % 2 == 0 ==> r == Err(EvenLength)
    ensures length % 2 == 1 ==> (r.Ok? <==> VectorReadable(img, axis, posY, posX, length))
    ensures r.Err? ==> r.error == (if length % 2 == 0 then EvenLength else IndexOutOfRange)
    ensures r.Ok? ==> |r.value| == length && VectorReadable(img, axis, posY, posX, length)
    ensures r.Ok? ==> forall k :: 0 <= k < length ==>
      r.value[k] == img[VectorRow(img, axis, posY, posX, length, k)][VectorCol(img, axis, posY, posX, length, k)].y
    ensures r.Ok? ==> r.value == Vector(img, axis, posY, posX, length)
  {
    if length % 2 == 0 {
      return Err(EvenLength);
    }
    var padding := length / 2;
    var centre := Centre(axis, posY, posX);
    var values: seq<int> := [];
    var i := centre - padding;
    while i <= centre + padding
      invariant centre - padding <= i <= centre + padding + 1
      invariant |values| == i - (centre - padding)
      invariant forall k :: 0 <= k < |values| ==>
        Readable(img, VectorRow(img, axis, posY, posX, length, k), VectorCol(img, axis, posY, posX, length, k)) &&
        values[k] == img[VectorRow(img, axis, posY, posX, length, k)][VectorCol(img, axis, posY, posX, length, k)].y
    {
      var row, col;
      match axis {
        case Horizontal =>
          if !(0 <= posY < |img|) {
            assert !Readable(img, VectorRow(img, axis, posY, posX, length, |values|), VectorCol(img, axis, posY, posX, length, |values|));
            return Err(IndexOutOfRange);
          }
          var rowLength := |img[posY]|;
          row, col := posY, MirrorIndex(i, posX, rowLength);
        case Vertical =>
          var columnLength := |img|;
          row, col := MirrorIndex(i, posY, columnLength), posX;
      }
      assert row == VectorRow(img, axis, posY, posX, length, |values|);
      assert col == VectorCol(img, axis, posY, posX, length, |values|);
      if !Readable(img, row, col) {
        return Err(IndexOutOfRange);
      }
      values := values + [img[row][col].y];
      i := i + 1;
    }
    return Ok(values);
  }

  /**
   * getSorroundingPixelMatrix: the `length` x `length` intensities centred on (posY, posX),
   * row by row. Even lengths are refused; a read outside the image is an index error.
   */
  method GetSurroundingPixelMatrix(img: seq<seq<GrayPixel>>, posY: int, posX: int, length: nat)
    returns (r: Result<seq<seq<int>>>)
    ensures length % 2 == 0 ==> r == Err(EvenLength)
    ensures length % 2 == 1 ==> (r.Ok? <==> MatrixReadable(img, posY, posX, length))
    ensures r.Err? ==> r.error == (if length % 2 == 0 then EvenLength else IndexOutOfRange)
    ensures r.Ok? ==> |r.value| == length && MatrixReadable(img, posY, posX, length)
    ensures r.Ok? ==> forall a :: 0 <= a < length ==> |r.value[a]| == length
    ensures r.Ok? ==> forall a, b :: 0 <= a < length && 0 <= b < length ==>
      Readable(img, MatrixRow(img, posY, length, a), MatrixCol(img, posX, length, b)) &&
      r.value[a][b] == img[MatrixRow(img, posY, length, a)][MatrixCol(img, posX, length, b)].y
    ensures r.Ok? ==> r.value == Window(img, posY, posX, length)
  {
    if length % 2 == 0 {
      return Err(EvenLength);
    }
    var padding := length / 2;
    var height := |img|;
    if height == 0 {
      // width := len(pixels[0]) panics on an empty image
      assert !Readable(img, MatrixRow(img, posY, length, 0), MatrixCol(img, posX, length, 0));
      return Err(IndexOutOfRange);
    }
    var width := |img[0]|;
    var values: seq<seq<int>> := [];
    var y := posY - padding;
    while y <= posY + padding
      invariant posY - padding <= y <= posY + padding + 1
      invariant |values| == y - (posY - padding)
      invariant forall a :: 0 <= a < |values| ==> |values[a]| == length
      invariant forall a, b :: 0 <= a < |values| && 0 <= b < length ==>
        Readable(img, MatrixRow(img, posY, length, a), MatrixCol(img, posX, length, b)) &&
        values[a][b] == img[MatrixRow(img, posY, length, a)][MatrixCol(img, posX, length, b)].y
    {
      var curY := MirrorIndex(y, posY, height);
      assert curY == MatrixRow(img, posY, length, |values|);
      var row := ReadMatrixRow(img, curY, posX, length);
      if row.ReadErr? {
        assert !Readable(img, MatrixRow(img, posY, length, |values|), MatrixCol(img, posX, length, row.error));
        return Err(IndexOutOfRange);
      }
      var rowValues := row.value;
      values := values + [rowValues];
      y := y + 1;
    }
    WindowIs(img, posY, posX, length, values);
    return Ok(values);
  }

  /**
   * The inner loop of getSorroundingPixelMatrix: the `length` intensities of row `curY`
   * centred on column posX, or the position within the row of the first read that
   * leaves the image.
   */
  method ReadMatrixRow(img: seq<seq<GrayPixel>>, curY: int, posX: int, length: nat)
    returns (r: ReadResult)
    requires length % 2 == 1 && |img| > 0
    ensures r.ReadOk? ==> |r.value| == length
    ensures r.ReadOk? ==> forall b :: 0 <= b < length ==>
      Readable(img, curY, MatrixCol(img, posX, length, b)) && r.value[b] == img[curY][MatrixCol(img, posX, length, b)].y
    ensures r.ReadErr? ==> 0 <= r.error < length && !Readable(img, curY, MatrixCol(img, posX, length, r.error))
    ensures r.ReadErr? ==> forall b :: 0 <= b < r.error ==> Readable(img, curY, MatrixCol(img, posX, length, b))
  {
    var padding := length / 2;
    var width := |img[0]|;
    var row: seq<int> := [];
    var x := posX - padding;
    while x <= posX + padding
      invariant posX - padding <= x <= posX + padding + 1
      invariant |row| == x - (posX - padding)
      invariant forall b :: 0 <= b < |row| ==>
        Readable(img, curY, MatrixCol(img, posX, length, b)) &&
        row[b] == img[curY][MatrixCol(img, posX, length, b)].y
    {
      var curX := MirrorIndex(x, posX, width);
      assert curX == MatrixCol(img, posX, length, |row|);
      if !Readable(img, curY, curX) {
        return ReadErr(|row|);
      }
      row := row + [img[curY][curX].y];
      x := x + 1;
    }
    return ReadOk(row);
  }

  /** Values read at every cell of the window are the window. */
  lemma WindowIs(img: seq<seq<GrayPixel>>, posY: int, posX: int, length: nat, values: seq<seq<int>>)
    requires |values| == length && forall a :: 0 <= a < length ==> |values[a]| == length
    requires forall a, b :: 0 <= a < length && 0 <= b < length ==>
      Readable(img, MatrixRow(img, posY, length, a), MatrixCol(img, posX, length, b)) &&
      values[a][b] == img[MatrixRow(img, posY, length, a)][MatrixCol(img, posX, length, b)].y
    ensures MatrixReadable(img, posY, posX, length) && values == Window(img, posY, posX, length)
  {
    var w := Window(img, posY, posX, length);
    forall a | 0 <= a < length
      ensures values[a] == w[a]
    {
      assert forall b :: 0 <= b < length ==> values[a][b] == WindowCell(img, posY, posX, length, a, b);
    }
  }

  /** Inside the image, a requested index is read directly. */
  lemma MirrorIndexInside(i: int, pos: int, size: int)
    requires 0 <= i < size
    ensures MirrorIndex(i, pos, size) == i
  {
  }

  /**
   * The sampler reflects about the centre, not about the edge: before the image the
   * read index is the edge mirror shifted by `pos`, after the image it is shifted by
   * `pos - (size - 1)`. So the two agree exactly when the centre lies on that edge.
   */
  lemma MirrorIndexVersusEdgeMirror(i: int, pos: int, size: int)
    ensures i < 0 ==> MirrorIndex(i, pos, size) == EdgeMirror(i, size) + pos
    ensures i >= size && size >= 0 ==> MirrorIndex(i, pos, size) == EdgeMirror(i, size) + (pos - (size - 1))
    ensures i < 0 ==> (MirrorIndex(i, pos, size) == EdgeMirror(i, size) <==> pos == 0)
    ensures i >= size && size >= 0 ==> (MirrorIndex(i, pos, size) == EdgeMirror(i, size) <==> pos == size - 1)
  {
  }

  /** A window of half-width `pad` centred inside [0, size) is mapped inside when pad < size. */
  lemma MirrorIndexInBounds(i: int, pos: int, size: int, pad: nat)
    requires 0 <= pos < size && pad < size
    requires pos - pad <= i <= pos + pad
    ensures 0 <= MirrorIndex(i, pos, size) < size
  {
  }

  /**
   * For an odd length and a centre inside a rectangular image, getPixelVector reads only
   * inside the image exactly when half the length is less than the size of its axis.
   */
  lemma {:induction false} VectorReadableIff(img: seq<seq<GrayPixel>>, axis: Axis, posY: int, posX: int, length: nat)
    requires Rectangular(img) && 0 <= posY < |img| && 0 <= posX < Width(img)
    requires length % 2 == 1
    ensures VectorReadable(img, axis, posY, posX, length) <==>
      length / 2 < (if axis == Horizontal then Width(img) else |img|)
  {
    var pad := length / 2;
    var size := if axis == Horizontal then Width(img) else |img|;
    assert AxisSize(img, Horizontal, posY) == Width(img);
    if pad < size {
      forall k | 0 <= k < length
        ensures Readable(img, VectorRow(img, axis, posY, posX, length, k), VectorCol(img, axis, posY, posX, length, k))
      {
        var c := Centre(axis, posY, posX);
        MirrorIndexInBounds(c - pad + k, c, size, pad);
      }
    } else {
      // the first requested index lies before the image and is reflected to `pad`
      assert !Readable(img, VectorRow(img, axis, posY, posX, length, 0), VectorCol(img, axis, posY, posX, length, 0));
    }
  }

  /**
   * For an odd length and a centre inside a rectangular image, getSorroundingPixelMatrix
   * reads only inside the image exactly when half the length is less than both the
   * height and the width.
   */
  lemma {:induction false} MatrixReadableIff(img: seq<seq<GrayPixel>>, posY: int, posX: int, length: nat)
    requires Rectangular(img) && 0 <= posY < |img| && 0 <= posX < Width(img)
    requires length % 2 == 1
    ensures MatrixReadable(img, posY, posX, length) <==> length / 2 < |img| && length / 2 < Width(img)
  {
    var pad := length / 2;
    if pad < |img| && pad < Width(img) {
      forall a, b | 0 <= a < length && 0 <= b < length
        ensures Readable(img, MatrixRow(img, posY, length, a), MatrixCol(img, posX, length, b))
      {
        MirrorIndexInBounds(posY - pad + a, posY, |img|, pad);
        MirrorIndexInBounds(posX - pad + b, posX, Width(img), pad);
      }
    } else {
      assert !Readable(img, MatrixRow(img, posY, length, 0), MatrixCol(img, posX, length, 0));
    }
  }

  /** Sobel's 3 x 3 window cannot be read on an image one pixel wide. */
  lemma SobelWindowOnSingleColumn(img: seq<seq<GrayPixel>>, posY: int)
    requires Rectangular(img) && 0 <= posY < |img| && Width(img) == 1
    ensures !MatrixReadable(img, posY, 0, 3)
  {
    assert MatrixCol(img, 0, 3, 0) == 1;
    assert !Readable(img, MatrixRow(img, posY, 3, 0), MatrixCol(img, 0, 3, 0));
  }
}
