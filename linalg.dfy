/**
 * innerProduct and convolve of canny.go, over exact integers. gonum's VecDense and
 * Dense become `seq<int>` and a rectangular `seq<seq<int>>` (rows of the matrix).
 */
module LinearAlgebra {
  import opened Pixels

  /** Sum of the elements of `v`. */
  function Sum(v: seq<int>): int
  {
    if |v| == 0 then 0 else Sum(v[..|v| - 1]) + v[|v| - 1]
  }

  /** Sum of the products of corresponding elements, the last product added last. */
  function Dot(u: seq<int>, v: seq<int>): int
    requires |u| == |v|
  {
    if |u| == 0 then 0 else Dot(u[..|u| - 1], v[..|v| - 1]) + u[|u| - 1] * v[|v| - 1]
  }

  /** Two matrices whose rows pair up with equal lengths. */
  predicate SameShape(m1: seq<seq<int>>, m2: seq<seq<int>>)
  {
    |m1| == |m2| && forall i :: 0 <= i < |m1| ==> |m1[i]| == |m2[i]|
  }

  /** Sum over all cells of the products of corresponding cells. */
  function Frobenius(m1: seq<seq<int>>, m2: seq<seq<int>>): int
    requires SameShape(m1, m2)
  {
    if |m1| == 0 then 0
    else Frobenius(m1[..|m1| - 1], m2[..|m2| - 1]) + Dot(m1[|m1| - 1], m2[|m2| - 1])
  }

  /** Sum over all cells of a matrix. */
  function SumAll(m: seq<seq<int>>): int
  {
    if |m| == 0 then 0 else SumAll(m[..|m| - 1]) + Sum(m[|m| - 1])
  }

  /** Row-major flattening, the layout of gonum's Dense. */
  function Flatten(m: seq<seq<int>>): (r: seq<int>)
  {
    if |m| == 0 then [] else Flatten(m[..|m| - 1]) + m[|m| - 1]
  }

  /** (rows, columns) of a matrix as gonum's Dims reports it. */
  function Dims(m: seq<seq<int>>): (nat, nat)
  {
    (|m|, Width(m))
  }

  /**
   * innerProduct: the sum of products of the two vectors; vectors of different
   * lengths are refused.
   */
  method InnerProduct(pixels: seq<int>, kernel: seq<int>) returns (r: Result<int>)
    ensures |pixels| != |kernel| ==> r == Err(DimensionMismatch)
    ensures |pixels| == |kernel| ==> r == Ok(Dot(pixels, kernel))
  {
    if |pixels| != |kernel| {
      return Err(DimensionMismatch);
    }
    var result := 0;
    var i := 0;
    while i < |pixels|
      invariant 0 <= i <= |pixels|
      invariant result == Dot(pixels[..i], kernel[..i])
    {
      assert pixels[..i + 1][..i] == pixels[..i] && kernel[..i + 1][..i] == kernel[..i];
      result := result + pixels[i] * kernel[i];
      i := i + 1;
    }
    assert pixels[..i] == pixels && kernel[..i] == kernel;
    return Ok(result);
  }

  /**
   * convolve: the sum over all cells of the products of corresponding cells; matrices
   * of different dimensions are refused.
   */
  method Convolve(m1: seq<seq<int>>, m2: seq<seq<int>>) returns (r: Result<int>)
    requires Rectangular(m1) && Rectangular(m2)
    ensures Dims(m1) != Dims(m2) ==> r == Err(DimensionMismatch)
    ensures Dims(m1) == Dims(m2) ==> SameShape(m1, m2) && r == Ok(Frobenius(m1, m2))
  {
    var (rows1, cols1) := Dims(m1);
    var (rows2, cols2) := Dims(m2);
    if rows1 != rows2 || cols1 != cols2 {
      return Err(DimensionMismatch);
    }
    assert SameShape(m1, m2);
    var result := 0;
    var y := 0;
    while y < rows1
      invariant 0 <= y <= rows1
      invariant result == Frobenius(m1[..y], m2[..y])
    {
      var x := 0;
      while x < cols1
        invariant 0 <= x <= cols1
        invariant result == Frobenius(m1[..y], m2[..y]) + Dot(m1[y][..x], m2[y][..x])
      {
        assert m1[y][..x + 1][..x] == m1[y][..x] && m2[y][..x + 1][..x] == m2[y][..x];
        result := result + m1[y][x] * m2[y][x];
        x := x + 1;
      }
      assert m1[y][..x] == m1[y] && m2[y][..x] == m2[y];
      assert m1[..y + 1][..y] == m1[..y] && m2[..y + 1][..y] == m2[..y];
      y := y + 1;
    }
    assert m1[..y] == m1 && m2[..y] == m2;
    return Ok(result);
  }

  /** Dot distributes over concatenation. */
  lemma {:induction false} DotAppend(a: seq<int>, b: seq<int>, c: seq<int>, d: seq<int>)
    requires |a| == |b| && |c| == |d|
    ensures Dot(a + c, b + d) == Dot(a, b) + Dot(c, d)
  {
    if |c| > 0 {
      assert (a + c)[..|a + c| - 1] == a + c[..|c| - 1];
      assert (b + d)[..|b + d| - 1] == b + d[..|d| - 1];
      DotAppend(a, b, c[..|c| - 1], d[..|d| - 1]);
    } else {
      assert a + c == a && b + d == b;
    }
  }

  /** Dot is symmetric: the order of the two vectors does not matter. */
  lemma {:induction false} DotSymmetric(u: seq<int>, v: seq<int>)
    requires |u| == |v|
    ensures Dot(u, v) == Dot(v, u)
  {
    if |u| > 0 {
      DotSymmetric(u[..|u| - 1], v[..|v| - 1]);
    }
  }

  /** Against a vector whose every element is `c`, Dot is `c` times the sum of the kernel. */
  lemma {:induction false} DotConstant(u: seq<int>, v: seq<int>, c: int)
    requires |u| == |v|
    requires forall i :: 0 <= i < |u| ==> u[i] == c
    ensures Dot(u, v) == c * Sum(v)
  {
    if |u| > 0 {
      DotConstant(u[..|u| - 1], v[..|v| - 1], c);
    }
  }

  /**
   * convolve equals innerProduct on the row-major flattening of both matrices
   * (the data layout gonum uses for Dense).
   */
  lemma {:induction false} FrobeniusIsFlatDot(m1: seq<seq<int>>, m2: seq<seq<int>>)
    requires SameShape(m1, m2)
    ensures |Flatten(m1)| == |Flatten(m2)|
    ensures Frobenius(m1, m2) == Dot(Flatten(m1), Flatten(m2))
  {
    if |m1| > 0 {
      var n := |m1| - 1;
      FrobeniusIsFlatDot(m1[..n], m2[..n]);
      DotAppend(Flatten(m1[..n]), Flatten(m2[..n]), m1[n], m2[n]);
    }
  }

  /** Against a matrix whose every cell is `c`, convolve is `c` times the sum of the kernel. */
  lemma {:induction false} FrobeniusConstant(m1: seq<seq<int>>, m2: seq<seq<int>>, c: int)
    requires SameShape(m1, m2)
    requires forall i, j :: 0 <= i < |m1| && 0 <= j < |m1[i]| ==> m1[i][j] == c
    ensures Frobenius(m1, m2) == c * SumAll(m2)
  {
    if |m1| > 0 {
      var n := |m1| - 1;
      assert forall i :: 0 <= i < n ==> m1[..n][i] == m1[i];
      FrobeniusConstant(m1[..n], m2[..n], c);
      DotConstant(m1[n], m2[n], c);
      assert c * SumAll(m2[..n]) + c * Sum(m2[n]) == c * (SumAll(m2[..n]) + Sum(m2[n]));
    }
  }
}
