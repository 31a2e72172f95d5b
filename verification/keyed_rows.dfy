/**
 * A database table as the DAOs see it: its rows in scan (rowid) order, each carrying a primary key
 * that no two rows share. The functions below are the row-level effects of `REPLACE` inserts,
 * Room `Update`, `DELETE ... WHERE` and `UPDATE ... SET`; each is specified by which rows it leaves.
 */
module KeyedRows {
  import opened Common
  import opened Aggregates

  /** No two rows share a primary key. */
  ghost predicate UniqueKeys<K, E>(rows: seq<E>, key: E -> K)
  {
    forall i, j :: 0 <= i < j < |rows| ==> key(rows[i]) != key(rows[j])
  }

  /** Appending a row whose key is new keeps the keys unique. */
  lemma UniqueAppend<K, E>(rows: seq<E>, key: E -> K, e: E)
    requires UniqueKeys(rows, key)
    requires forall x :: x in rows ==> key(x) != key(e)
    ensures UniqueKeys(rows + [e], key)
  {
    forall i, j | 0 <= i < j < |rows + [e]|
      ensures key((rows + [e])[i]) != key((rows + [e])[j])
    {
      if j == |rows| {
        assert rows[i] in rows;
      }
    }
  }

  /**
   * The rows satisfying `keep`, in their original order (`SELECT`/`DELETE ... WHERE`): each row
   * that passes appears exactly as often as in `rows`, and no other row appears.
   */
  function Filter<E(!new)>(rows: seq<E>, keep: E -> bool): (r: seq<E>)
    ensures |r| <= |rows|
    ensures forall e :: e in r <==> e in rows && keep(e)
    ensures forall e :: multiset(r)[e] == if keep(e) then multiset(rows)[e] else 0
  {
    if rows == [] then []
    else
      var init, last := rows[..|rows| - 1], rows[|rows| - 1];
      assert rows == init + [last];
      Filter(init, keep) + if keep(last) then [last] else []
  }

  /** Filtering never makes two rows share a key. */
  lemma {:induction false} FilterUnique<K, E(!new)>(rows: seq<E>, keep: E -> bool, key: E -> K)
    ensures UniqueKeys(rows, key) ==> UniqueKeys(Filter(rows, keep), key)
  {
    if rows != [] && UniqueKeys(rows, key) {
      var init, last := rows[..|rows| - 1], rows[|rows| - 1];
      assert UniqueKeys(init, key);
      FilterUnique(init, keep, key);
      if keep(last) {
        forall x | x in Filter(init, keep)
          ensures key(x) != key(last)
        {
          var i :| 0 <= i < |init| && init[i] == x;
          assert rows[i] == x;
        }
        UniqueAppend(Filter(init, keep), key, last);
      }
    }
  }

  /** A filter every row passes keeps the rows as they are. */
  lemma {:induction false} FilterAll<E(!new)>(rows: seq<E>, keep: E -> bool)
    requires forall e :: e in rows ==> keep(e)
    ensures Filter(rows, keep) == rows
  {
    if rows != [] {
      var init, last := rows[..|rows| - 1], rows[|rows| - 1];
      assert rows == init + [last];
      assert forall e :: e in init ==> e in rows;
      assert keep(last);
      FilterAll(init, keep);
      assert Filter(rows, keep) == Filter(init, keep) + [last];
    }
  }

  /** A `REPLACE` insert under a key no row has appends the row. */
  lemma UpsertFresh<K, E(!new)>(rows: seq<E>, key: E -> K, e: E)
    requires forall x :: x in rows ==> key(x) != key(e)
    ensures Upsert(rows, key, e) == rows + [e]
  {
    FilterAll(rows, (x: E) => key(x) != key(e));
  }

  /** The `REPLACE` insert: any row with the same key is dropped and the new row is added last. */
  function Upsert<K(==), E(!new)>(rows: seq<E>, key: E -> K, e: E): (r: seq<E>)
    ensures forall x :: x in r <==> x == e || (x in rows && key(x) != key(e))
    ensures UniqueKeys(rows, key) ==> UniqueKeys(r, key)
  {
    var keep := (x: E) => key(x) != key(e);
    FilterUnique(rows, keep, key);
    var kept := Filter(rows, keep);
    UpsertUnique(rows, key, e, kept);
    kept + [e]
  }

  lemma UpsertUnique<K, E(!new)>(rows: seq<E>, key: E -> K, e: E, kept: seq<E>)
    requires forall x :: x in kept <==> x in rows && key(x) != key(e)
    requires UniqueKeys(rows, key) ==> UniqueKeys(kept, key)
    ensures UniqueKeys(rows, key) ==> UniqueKeys(kept + [e], key)
  {
    if UniqueKeys(rows, key) {
      UniqueAppend(kept, key, e);
    }
  }

  /** Deleting by primary key: every row but the one with key `k` stays. */
  function RemoveKey<K(==), E(!new)>(rows: seq<E>, key: E -> K, k: K): (r: seq<E>)
    ensures forall x :: x in r <==> x in rows && key(x) != k
    ensures UniqueKeys(rows, key) ==> UniqueKeys(r, key)
  {
    var keep := (x: E) => key(x) != k;
    FilterUnique(rows, keep, key);
    Filter(rows, keep)
  }

  /** The Room `Update` effect on one row: the row with the same primary key as `e` becomes `e`. */
  function Replacing<K(==), E>(key: E -> K, e: E): E -> E
  {
    (x: E) => if key(x) == key(e) then e else x
  }

  /** A key-preserving rewrite of every row (an `UPDATE` that keeps primary keys) keeps the keys unique. */
  lemma ColumnUnique<K, E>(rows: seq<E>, f: E -> E, key: E -> K)
    requires forall x :: key(f(x)) == key(x)
    requires UniqueKeys(rows, key)
    ensures UniqueKeys(Column(rows, f), key)
  {
  }

  /** The first row, in scan order, that satisfies `p` (a single-row `SELECT`). */
  function Find<E>(rows: seq<E>, p: E -> bool): (r: Option<E>)
    ensures r.Some? ==> r.value in rows && p(r.value)
    ensures r.None? ==> forall e :: e in rows ==> !p(e)
  {
    if rows == [] then None
    else if p(rows[0]) then Some(rows[0])
    else Find(rows[1..], p)
  }

  /** The row with primary key `k`, if any: with unique keys, the only one. */
  function Lookup<K(==), E>(rows: seq<E>, key: E -> K, k: K): (r: Option<E>)
    ensures r.Some? ==> r.value in rows && key(r.value) == k
    ensures r.None? ==> forall e :: e in rows ==> key(e) != k
  {
    Find(rows, (x: E) => key(x) == k)
  }

  /** With unique keys, a row is exactly what looking up its key returns. */
  lemma LookupUnique<K, E>(rows: seq<E>, key: E -> K, e: E)
    requires UniqueKeys(rows, key)
    ensures e in rows <==> Lookup(rows, key, key(e)) == Some(e)
  {
    var r := Lookup(rows, key, key(e));
    if e in rows {
      var i :| 0 <= i < |rows| && rows[i] == e;
      var j :| 0 <= j < |rows| && rows[j] == r.value;
      assert i == j;
    }
  }

  /** Two tables with unique keys that hold the same rows under key `k` answer the same lookup of `k`. */
  lemma LookupDetermined<K, E>(a: seq<E>, b: seq<E>, key: E -> K, k: K)
    requires UniqueKeys(a, key) && UniqueKeys(b, key)
    requires forall x :: key(x) == k ==> (x in a <==> x in b)
    ensures Lookup(a, key, k) == Lookup(b, key, k)
  {
    var ra, rb := Lookup(a, key, k), Lookup(b, key, k);
    if ra.Some? {
      LookupUnique(b, key, ra.value);
    } else if rb.Some? {
      LookupUnique(a, key, rb.value);
    }
  }

  /** After a `REPLACE` insert the key holds the new row and every other key answers as before. */
  lemma UpsertLookup<K, E(!new)>(rows: seq<E>, key: E -> K, e: E, k: K)
    requires UniqueKeys(rows, key)
    ensures Lookup(Upsert(rows, key, e), key, key(e)) == Some(e)
    ensures k != key(e) ==> Lookup(Upsert(rows, key, e), key, k) == Lookup(rows, key, k)
  {
    LookupUnique(Upsert(rows, key, e), key, e);
    if k != key(e) {
      LookupDetermined(Upsert(rows, key, e), rows, key, k);
    }
  }

  /** After deleting key `k` nothing answers to `k` and every other key answers as before. */
  lemma RemoveKeyLookup<K, E(!new)>(rows: seq<E>, key: E -> K, k: K, k': K)
    requires UniqueKeys(rows, key)
    ensures Lookup(RemoveKey(rows, key, k), key, k) == None
    ensures k' != k ==> Lookup(RemoveKey(rows, key, k), key, k') == Lookup(rows, key, k')
  {
    if k' != k {
      LookupDetermined(RemoveKey(rows, key, k), rows, key, k');
    }
  }
}
