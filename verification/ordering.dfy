/** `ORDER BY ... DESC` and `LIMIT` as the DAO queries use them. */
module Ordering {

  /** Ordered by `rank`, highest first: no row ranks above a row before it. */
  ghost predicate Descending<E>(xs: seq<E>, rank: E -> int)
  {
    forall i, j :: 0 <= i < j < |xs| ==> rank(xs[i]) >= rank(xs[j])
  }

  /** Inserts `x` into a descending sequence, before the first row it does not rank below. */
  function InsertDescending<E(!new)>(x: E, xs: seq<E>, rank: E -> int): (r: seq<E>)
    requires Descending(xs, rank)
    ensures Descending(r, rank)
    ensures multiset(r) == multiset(xs) + multiset{x}
    ensures forall y :: y in r <==> y == x || y in xs
  {
    if xs == [] || rank(x) >= rank(xs[0]) then
      HeadRanksHighestCons(x, xs, rank);
      [x] + xs
    else
      assert xs == [xs[0]] + xs[1..];
      HeadRanksHighest(xs, rank);
      var rest := InsertDescending(x, xs[1..], rank);
      assert rest != [] ==> rest[0] in rest;
      HeadRanksHighestCons(xs[0], rest, rank);
      [xs[0]] + rest
  }

  /** A row ranking at least as high as every row of a descending sequence can lead it. */
  lemma HeadRanksHighestCons<E>(h: E, xs: seq<E>, rank: E -> int)
    requires Descending(xs, rank)
    requires xs != [] ==> rank(h) >= rank(xs[0])
    ensures Descending([h] + xs, rank)
  {
    forall i, j | 0 <= i < j < |[h] + xs|
      ensures rank(([h] + xs)[i]) >= rank(([h] + xs)[j])
    {
      assert ([h] + xs)[j] == xs[j - 1];
      if i > 0 {
        assert ([h] + xs)[i] == xs[i - 1];
      } else {
        assert rank(xs[j - 1]) <= rank(xs[0]);
      }
    }
  }

  /** The first row of a descending sequence ranks at least as high as every row. */
  lemma HeadRanksHighest<E>(xs: seq<E>, rank: E -> int)
    requires Descending(xs, rank) && xs != []
    ensures forall y :: y in xs ==> rank(y) <= rank(xs[0])
  {
    forall y | y in xs
      ensures rank(y) <= rank(xs[0])
    {
      var k :| 0 <= k < |xs| && xs[k] == y;
    }
  }

  /** The rows sorted by `rank`, highest first; rows of equal rank may come in either order, as in SQL. */
  function SortDescending<E(!new)>(xs: seq<E>, rank: E -> int): (r: seq<E>)
    ensures Descending(r, rank)
    ensures multiset(r) == multiset(xs) && |r| == |xs|
    ensures forall y :: y in r <==> y in xs
    ensures r != [] ==> forall y :: y in xs ==> rank(y) <= rank(r[0])
  {
    if xs == [] then []
    else
      assert xs == [xs[0]] + xs[1..];
      InsertDescending(xs[0], SortDescending(xs[1..], rank), rank)
  }

  /**
   * SQLite `LIMIT n`: the first `n` rows, or all of them when there are fewer; a negative limit
   * means no limit.
   */
  function Limit<E>(xs: seq<E>, limit: int): (r: seq<E>)
    ensures limit < 0 ==> r == xs
    ensures limit >= 0 ==> |r| == if limit < |xs| then limit else |xs|
    ensures r == xs[..|r|]
  {
    if limit < 0 || limit >= |xs| then xs else xs[..limit]
  }

  /** A prefix of a descending sequence is descending. */
  lemma LimitDescending<E>(xs: seq<E>, rank: E -> int, limit: int)
    requires Descending(xs, rank)
    ensures Descending(Limit(xs, limit), rank)
  {
  }
}
