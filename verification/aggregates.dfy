/**
 * SQL aggregates over one column: `SUM`, `MIN`, `MAX` and `AVG` are null (`None`) on an empty
 * column, `COUNT(*)` is the number of rows.
 */
module Aggregates {
  import opened Common

  /** The column `f` of the rows, in row order. */
  function Column<E, T>(rows: seq<E>, f: E -> T): (c: seq<T>)
    ensures |c| == |rows|
    ensures forall i :: 0 <= i < |rows| ==> c[i] == f(rows[i])
  {
    seq(|rows|, i requires 0 <= i < |rows| => f(rows[i]))
  }

  function Sum(xs: seq<real>): real
  {
    if xs == [] then 0.0 else Sum(xs[..|xs| - 1]) + xs[|xs| - 1]
  }

  function SumInt(xs: seq<int>): int
  {
    if xs == [] then 0 else SumInt(xs[..|xs| - 1]) + xs[|xs| - 1]
  }

  /** `SUM` of a `REAL` column: null on no rows, otherwise the sum. */
  function SqlSum(xs: seq<real>): (r: Option<real>)
    ensures r.None? <==> xs == []
    ensures r.Some? ==> r.value == Sum(xs)
  {
    if xs == [] then None else Some(Sum(xs))
  }

  /** `SUM` of an `INTEGER` column: null on no rows, otherwise the sum. */
  function SqlSumInt(xs: seq<int>): (r: Option<int>)
    ensures r.None? <==> xs == []
    ensures r.Some? ==> r.value == SumInt(xs)
  {
    if xs == [] then None else Some(SumInt(xs))
  }

  /** `MAX`: null on no rows, otherwise a value of the column that no value exceeds. */
  function Max(xs: seq<real>): (r: Option<real>)
    ensures r.None? <==> xs == []
    ensures r.Some? ==> r.value in xs && forall x :: x in xs ==> x <= r.value
  {
    if xs == [] then None
    else
      var init, last := xs[..|xs| - 1], xs[|xs| - 1];
      assert xs == init + [last];
      match Max(init)
      case None => Some(last)
      case Some(m) => Some(if m < last then last else m)
  }

  /**
   * `MAX` of an `INTEGER` column. It repeats `Max` for `int` because the language offers no ordering
   * shared by `int` and `real` without traits, and a generic version would carry an ordering and its
   * totality and transitivity as preconditions at every caller.
   */
  function MaxInt(xs: seq<int>): (r: Option<int>)
    ensures r.None? <==> xs == []
    ensures r.Some? ==> r.value in xs && forall x :: x in xs ==> x <= r.value
  {
    if xs == [] then None
    else
      var init, last := xs[..|xs| - 1], xs[|xs| - 1];
      assert xs == init + [last];
      match MaxInt(init)
      case None => Some(last)
      case Some(m) => Some(if m < last then last else m)
  }

  /** `MIN`: null on no rows, otherwise a value of the column that no value undercuts. */
  function Min(xs: seq<real>): (r: Option<real>)
    ensures r.None? <==> xs == []
    ensures r.Some? ==> r.value in xs && forall x :: x in xs ==> r.value <= x
  {
    if xs == [] then None
    else
      var init, last := xs[..|xs| - 1], xs[|xs| - 1];
      assert xs == init + [last];
      match Min(init)
      case None => Some(last)
      case Some(m) => Some(if last < m then last else m)
  }

  /** `m` is the mean of `xs`: times the number of values, it is their sum. */
  predicate IsMean(m: real, xs: seq<real>)
  {
    m * |xs| as real == Sum(xs)
  }

  /** `AVG`: null on no rows, otherwise the mean of the column. */
  function Avg(xs: seq<real>): (r: Option<real>)
    ensures r.None? <==> xs == []
    ensures r.Some? ==> IsMean(r.value, xs)
  {
    if xs == [] then None else Some(Sum(xs) / |xs| as real)
  }

  /** A column of values no smaller than `lo` sums to at least `lo` per row. */
  lemma {:induction false} SumAtLeast(xs: seq<real>, lo: real)
    requires forall x :: x in xs ==> lo <= x
    ensures |xs| as real * lo <= Sum(xs)
  {
    if xs != [] {
      var init, last := xs[..|xs| - 1], xs[|xs| - 1];
      assert xs == init + [last];
      assert forall x :: x in init ==> x in xs;
      assert last in xs;
      SumAtLeast(init, lo);
      assert |xs| as real * lo == |init| as real * lo + lo;
    }
  }

  /** A column of non-negative values sums to at least each of its values. */
  lemma {:induction false} SumAtLeastEach(xs: seq<real>, x: real)
    requires forall y :: y in xs ==> 0.0 <= y
    requires x in xs
    ensures x <= Sum(xs)
  {
    var init, last := xs[..|xs| - 1], xs[|xs| - 1];
    assert xs == init + [last];
    assert forall y :: y in init ==> y in xs;
    assert last in xs;
    SumNonNegative(init);
    if x != last {
      SumAtLeastEach(init, x);
    }
  }

  lemma {:induction false} SumNonNegative(xs: seq<real>)
    requires forall y :: y in xs ==> 0.0 <= y
    ensures 0.0 <= Sum(xs)
  {
    if xs != [] {
      var init, last := xs[..|xs| - 1], xs[|xs| - 1];
      assert xs == init + [last];
      assert forall y :: y in init ==> y in xs;
      assert last in xs;
      SumNonNegative(init);
    }
  }

  /** The minimum of a column never exceeds its average. */
  lemma MinAtMostAvg(xs: seq<real>)
    requires xs != []
    ensures Min(xs).value <= Avg(xs).value
  {
    var lo, avg, n := Min(xs).value, Avg(xs).value, |xs| as real;
    assert IsMean(avg, xs);
    SumAtLeast(xs, lo);
    CancelFactor(lo, avg, n);
  }

  lemma CancelFactor(a: real, b: real, n: real)
    requires n > 0.0 && n * a <= b * n
    ensures a <= b
  {
  }

  /** The maximum of a non-negative column never exceeds its sum. */
  lemma MaxAtMostSum(xs: seq<real>)
    requires xs != []
    requires forall y :: y in xs ==> 0.0 <= y
    ensures Max(xs).value <= Sum(xs)
  {
    SumAtLeastEach(xs, Max(xs).value);
  }
}
