/**
 * getPascalTriangleRow of canny.go and the size check at the start of gaussianBlur,
 * which builds its smoothing kernel from a row of Pascal's triangle. combin.Binomial
 * is replaced by Binomial below, defined by Pascal's rule.
 */
module Pascal {
  import opened Pixels
  import LinearAlgebra

  /** The binomial coefficient C(n, k) by Pascal's rule; zero when k > n. */
  function Binomial(n: nat, k: nat): nat
  {
    if k == 0 then 1
    else if n == 0 then 0
    else Binomial(n - 1, k - 1) + Binomial(n - 1, k)
  }

  function Factorial(n: nat): nat
  {
    if n == 0 then 1 else n * Factorial(n - 1)
  }

  function Pow2(n: nat): nat
  {
    if n == 0 then 1 else 2 * Pow2(n - 1)
  }

  /** C(n, 0) + ... + C(n, m - 1). */
  function RowPrefixSum(n: nat, m: nat): nat
  {
    if m == 0 then 0 else RowPrefixSum(n, m - 1) + Binomial(n, m - 1)
  }

  /** Row n of Pascal's triangle: C(n, 0), ..., C(n, n). */
  function PascalRow(n: nat): (row: seq<int>)
    ensures |row| == n + 1
  {
    seq(n + 1, i requires 0 <= i <= n => Binomial(n, i))
  }

  /**
   * getPascalTriangleRow: row `index` of Pascal's triangle, `index + 1` entries,
   * entry i being C(index, i).
   */
  method PascalTriangleRow(index: nat) returns (row: seq<nat>)
    ensures row == PascalRow(index)
    ensures |row| == index + 1
    ensures forall i :: 0 <= i <= index ==> row[i] == Binomial(index, i)
  {
    var size := index + 1;
    var values := new nat[size];
    for i := 0 to size
      invariant forall j :: 0 <= j < i ==> values[j] == Binomial(index, j)
    {
      values[i] := Binomial(index, i);
    }
    row := values[..];
    assert forall i :: 0 <= i <= index ==> row[i] == PascalRow(index)[i];
  }

  /**
   * The kernel gaussianBlur starts from, before it is normalised: even sizes are
   * refused, otherwise row `kernelSize - 1`, which has exactly `kernelSize` entries,
   * reads the same in both directions and sums to 2^(kernelSize - 1), so the
   * normalisation divides by a positive number.
   */
  method BlurKernel(kernelSize: nat) returns (r: Result<seq<nat>>)
    ensures kernelSize % 2 == 0 <==> r == Err(EvenLength)
    ensures r.Ok? <==> kernelSize % 2 == 1
    ensures r.Ok? ==> r.value == PascalRow(kernelSize - 1)
    ensures r.Ok? ==> |r.value| == kernelSize
    ensures r.Ok? ==> forall i :: 0 <= i < kernelSize ==> r.value[i] == Binomial(kernelSize - 1, i)
    ensures r.Ok? ==> forall i :: 0 <= i < kernelSize ==> r.value[i] == r.value[kernelSize - 1 - i]
    ensures r.Ok? ==> LinearAlgebra.Sum(r.value) == Pow2(kernelSize - 1) > 0
  {
    if kernelSize % 2 == 0 {
      return Err(EvenLength);
    }
    var row := PascalTriangleRow(kernelSize - 1);
    forall i | 0 <= i < kernelSize
      ensures row[i] == row[kernelSize - 1 - i]
    {
      PascalSymmetric(kernelSize - 1, i);
    }
    PascalRowSum(kernelSize - 1, row);
    return Ok(row);
  }

  /** Entries past the end of a row are zero. */
  lemma {:induction false} BinomialAbove(n: nat, k: nat)
    requires k > n
    ensures Binomial(n, k) == 0
  {
    if n > 0 {
      BinomialAbove(n - 1, k - 1);
      BinomialAbove(n - 1, k);
    }
  }

  /** The last entry of every row is one. */
  lemma {:induction false} BinomialDiagonal(n: nat)
    ensures Binomial(n, n) == 1
  {
    if n > 0 {
      BinomialDiagonal(n - 1);
      BinomialAbove(n - 1, n);
    }
  }

  /** Pascal's rule agrees with the factorial formula n! / (k! (n - k)!) that combin.Binomial computes. */
  lemma {:induction false} BinomialFactorial(n: nat, k: nat)
    requires k <= n
    ensures Binomial(n, k) * Factorial(k) * Factorial(n - k) == Factorial(n)
  {
    if k == 0 {
    } else if k == n {
      BinomialDiagonal(n);
    } else {
      BinomialFactorial(n - 1, k - 1);
      BinomialFactorial(n - 1, k);
      var fk1, fnk1 := Factorial(k - 1), Factorial(n - 1 - k);
      assert Factorial(k) == k * fk1;
      assert Factorial(n - k) == (n - k) * fnk1;
      assert n - k == (n - 1) - (k - 1);
      PascalStepProduct(Binomial(n - 1, k - 1), Binomial(n - 1, k), fk1, fnk1, k, n - k, Factorial(n - 1));
    }
  }

  /** The arithmetic step of BinomialFactorial, with every factorial named. */
  lemma PascalStepProduct(a: nat, b: nat, x: nat, y: nat, k: nat, j: nat, f: nat)
    requires a * x * (j * y) == f && b * (k * x) * y == f
    ensures (a + b) * (k * x) * (j * y) == (k + j) * f
  {
    calc {
      (a + b) * (k * x) * (j * y);
      a * (k * x) * (j * y) + b * (k * x) * (j * y);
      { assert a * (k * x) * (j * y) == k * (a * x * (j * y)); }
      k * f + b * (k * x) * (j * y);
      { assert b * (k * x) * (j * y) == j * (b * (k * x) * y); }
      k * f + j * f;
    }
  }

  /** Every row reads the same in both directions: C(n, k) == C(n, n - k). */
  lemma {:induction false} PascalSymmetric(n: nat, k: nat)
    requires k <= n
    ensures Binomial(n, k) == Binomial(n, n - k)
  {
    if k == 0 {
      BinomialDiagonal(n);
    } else if k == n {
      BinomialDiagonal(n);
    } else {
      PascalSymmetric(n - 1, k - 1);
      PascalSymmetric(n - 1, k);
      assert n - k == (n - 1) - (k - 1);
      assert Binomial(n, n - k) == Binomial(n - 1, n - k - 1) + Binomial(n - 1, n - k);
    }
  }

  /** Summing row n + 1 is summing row n twice, shifted by one. */
  lemma {:induction false} RowPrefixSumStep(n: nat, m: nat)
    ensures RowPrefixSum(n + 1, m + 1) == RowPrefixSum(n, m) + RowPrefixSum(n, m + 1)
  {
    if m > 0 {
      RowPrefixSumStep(n, m - 1);
    }
  }

  /** Row n of Pascal's triangle sums to 2^n. */
  lemma {:induction false} RowSumIsPow2(n: nat)
    ensures RowPrefixSum(n, n + 1) == Pow2(n)
  {
    if n > 0 {
      RowSumIsPow2(n - 1);
      RowPrefixSumStep(n - 1, n);
      BinomialAbove(n - 1, n);
    }
  }

  /** A prefix of a row, summed as a sequence. */
  lemma {:induction false} SumOfRowPrefix(n: nat, row: seq<nat>, m: nat)
    requires m <= |row|
    requires forall i :: 0 <= i < |row| ==> row[i] == Binomial(n, i)
    ensures LinearAlgebra.Sum(row[..m]) == RowPrefixSum(n, m)
  {
    if m > 0 {
      assert row[..m][..m - 1] == row[..m - 1];
      SumOfRowPrefix(n, row, m - 1);
    }
  }

  /** The row getPascalTriangleRow returns sums to 2^index. */
  lemma PascalRowSum(index: nat, row: seq<nat>)
    requires |row| == index + 1
    requires forall i :: 0 <= i <= index ==> row[i] == Binomial(index, i)
    ensures LinearAlgebra.Sum(row) == Pow2(index) > 0
  {
    SumOfRowPrefix(index, row, |row|);
    assert row[..|row|] == row;
    RowSumIsPow2(index);
    Pow2Positive(index);
  }

  lemma {:induction false} Pow2Positive(n: nat)
    ensures Pow2(n) > 0
  {
    if n > 0 {
      Pow2Positive(n - 1);
    }
  }
}
