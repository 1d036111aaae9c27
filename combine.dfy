/**
 * `combine_expression_values` of `alleninf/data.py`: the probes x samples
 * expression matrix reduced to one value per sample.
 */
module Combine {
  import opened Wrappers

  datatype CombineError =
    | UnknownMethod   // the `Exception("Uknown method")` the source raises
    | NotIterable     // `list()` of the scalar NaN numpy returns for the mean of no probes

  /** Every probe vector has one value per sample. */
  predicate Rectangular(values: seq<seq<real>>)
  {
    forall p :: 0 <= p < |values| ==> |values[p]| == |values[0]|
  }

  /** The sum over the first `n` probes of sample `j`. */
  function ColumnSum(values: seq<seq<real>>, j: nat, n: nat): real
    requires n <= |values| && Rectangular(values) && (n > 0 ==> j < |values[0]|)
  {
    if n == 0 then 0.0 else ColumnSum(values, j, n - 1) + values[n - 1][j]
  }

  /** `np.array(values).mean(axis=0)`: the mean over probes, per sample. */
  function Average(values: seq<seq<real>>): (r: seq<real>)
    requires |values| > 0 && Rectangular(values)
    ensures |r| == |values[0]|
  {
    seq(|values[0]|, j requires 0 <= j < |values[0]| => ColumnSum(values, j, |values|) / |values| as real)
  }

  /**
   * `combine_expression_values(values, method)`. The "pca" branch is the
   * first component of a truncated SVD computed by a library; it is the
   * parameter `pca` here.
   */
  function CombineExpressionValues(values: seq<seq<real>>, how: string, pca: seq<seq<real>> -> seq<real>)
    : (r: Result<seq<real>, CombineError>)
    requires Rectangular(values)
    ensures how != "average" && how != "pca" ==> r == Failure(UnknownMethod)
    ensures how == "average" && |values| > 0 ==> r == Success(Average(values)) && |r.value| == |values[0]|
    ensures how == "average" && |values| == 0 ==> r == Failure(NotIterable)
    ensures how == "pca" ==> r == Success(pca(values))
  {
    if how == "average" then
      if |values| == 0 then Failure(NotIterable) else Success(Average(values))
    else if how == "pca" then
      Success(pca(values))
    else
      Failure(UnknownMethod)
  }

  /** `k` copies of the probe vector `v`. */
  function Copies(v: seq<real>, k: nat): (r: seq<seq<real>>)
    ensures |r| == k && Rectangular(r)
  {
    seq(k, _ => v)
  }

  lemma {:induction false} ColumnSumOfCopies(v: seq<real>, k: nat, j: nat, n: nat)
    requires n <= k && j < |v|
    ensures ColumnSum(Copies(v, k), j, n) == n as real * v[j]
  {
    if n > 0 {
      ColumnSumOfCopies(v, k, j, n - 1);
      assert (n - 1) as real * v[j] + v[j] == n as real * v[j];
    }
  }

  /** Averaging any positive number of copies of one probe vector gives that vector back. */
  lemma AverageOfCopies(v: seq<real>, k: nat)
    requires k > 0
    ensures Average(Copies(v, k)) == v
  {
    var values := Copies(v, k);
    forall j | 0 <= j < |v|
      ensures Average(values)[j] == v[j]
    {
      ColumnSumOfCopies(v, k, j, k);
      assert (k as real * v[j]) / k as real == v[j];
    }
  }

  lemma {:induction false} ColumnSumBounded(values: seq<seq<real>>, j: nat, n: nat, lo: real, hi: real)
    requires n <= |values| && Rectangular(values) && (n > 0 ==> j < |values[0]|)
    requires forall p :: 0 <= p < |values| ==> j < |values[p]| && lo <= values[p][j] <= hi
    ensures n as real * lo <= ColumnSum(values, j, n) <= n as real * hi
  {
    if n > 0 {
      ColumnSumBounded(values, j, n - 1, lo, hi);
      assert (n - 1) as real * lo + lo == n as real * lo;
      assert (n - 1) as real * hi + hi == n as real * hi;
    }
  }

  lemma QuotientBounded(t: real, n: real, lo: real, hi: real)
    requires n > 0.0 && n * lo <= t <= n * hi
    ensures lo <= t / n <= hi
  {
  }

  /** Each combined value lies between the smallest and the largest probe value of its sample. */
  lemma AverageBetweenProbeValues(values: seq<seq<real>>, j: nat, lo: real, hi: real)
    requires |values| > 0 && Rectangular(values) && j < |values[0]|
    requires forall p :: 0 <= p < |values| ==> lo <= values[p][j] <= hi
    ensures lo <= Average(values)[j] <= hi
  {
    ColumnSumBounded(values, j, |values|, lo, hi);
    QuotientBounded(ColumnSum(values, j, |values|), |values| as real, lo, hi);
  }

  /** The worked example: the average of [1, 2, 3] and [3, 2, 1] is [2, 2, 2]. */
  lemma AverageExample()
    ensures CombineExpressionValues([[1.0, 2.0, 3.0], [3.0, 2.0, 1.0]], "average", _ => []) ==
            Success([2.0, 2.0, 2.0])
  {
    var values := [[1.0, 2.0, 3.0], [3.0, 2.0, 1.0]];
    assert ColumnSum(values, 0, 2) == 4.0;
    assert ColumnSum(values, 1, 2) == 4.0;
    assert ColumnSum(values, 2, 2) == 4.0;
    var avg := Average(values);
    assert avg[0] == 2.0 && avg[1] == 2.0 && avg[2] == 2.0;
    assert avg == [2.0, 2.0, 2.0];
  }
}
