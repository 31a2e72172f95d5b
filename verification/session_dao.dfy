/**
 * `RunningSessionDao`: the `running_sessions` table and the queries Room generates from its SQL.
 * The table is its rows in scan order; `id` is the primary key, so no two rows share one.
 */
module SessionDao {
  import opened Common
  import opened Entities
  import opened KeyedRows
  import opened Ordering
  import opened Aggregates

  function StartTime(e: RunningSessionEntity): int { e.startTime }
  function Distance(e: RunningSessionEntity): real { e.distance }
  function Duration(e: RunningSessionEntity): int { e.duration }
  function Calories(e: RunningSessionEntity): int { e.calories }
  function Pace(e: RunningSessionEntity): real { e.avgPace }

  /** The `WHERE avgPace > 0` filter of the pace queries. */
  predicate HasPace(e: RunningSessionEntity) { e.avgPace > 0.0 }

  /** `UpsertAll(rows, es)`: the rows after inserting each of `es` in turn with `REPLACE`. */
  function UpsertAll(rows: seq<RunningSessionEntity>, es: seq<RunningSessionEntity>): (r: seq<RunningSessionEntity>)
    ensures forall x :: x in r ==> x in rows || x in es
  {
    if es == [] then rows else Upsert(UpsertAll(rows, es[..|es| - 1]), SessionKey, es[|es| - 1])
  }

  /**
   * Inserting a list keeps ids unique. Each id of the list ends up holding the last session listed
   * with it (`REPLACE` lets later rows overwrite earlier ones); any other id holds what it held.
   */
  lemma UpsertAllLookup(rows: seq<RunningSessionEntity>, es: seq<RunningSessionEntity>, k: string)
    requires UniqueKeys(rows, SessionKey)
    ensures UniqueKeys(UpsertAll(rows, es), SessionKey)
    ensures forall j :: 0 <= j < |es| && es[j].id == k && (forall i :: j < i < |es| ==> es[i].id != k) ==>
              Lookup(UpsertAll(rows, es), SessionKey, k) == Some(es[j])
    ensures (forall e :: e in es ==> e.id != k) ==>
              Lookup(UpsertAll(rows, es), SessionKey, k) == Lookup(rows, SessionKey, k)
  {
    UpsertAllUnique(rows, es);
    forall j | 0 <= j < |es| && es[j].id == k && (forall i :: j < i < |es| ==> es[i].id != k)
      ensures Lookup(UpsertAll(rows, es), SessionKey, k) == Some(es[j])
    {
      UpsertAllLast(rows, es, k, j);
    }
    if forall e :: e in es ==> e.id != k {
      UpsertAllOthers(rows, es, k);
    }
  }

  lemma {:induction false} UpsertAllUnique(rows: seq<RunningSessionEntity>, es: seq<RunningSessionEntity>)
    requires UniqueKeys(rows, SessionKey)
    ensures UniqueKeys(UpsertAll(rows, es), SessionKey)
  {
    if es != [] {
      UpsertAllUnique(rows, es[..|es| - 1]);
    }
  }

  lemma {:induction false} UpsertAllLast(rows: seq<RunningSessionEntity>, es: seq<RunningSessionEntity>, k: string, j: int)
    requires UniqueKeys(rows, SessionKey)
    requires 0 <= j < |es| && es[j].id == k
    requires forall i :: j < i < |es| ==> es[i].id != k
    ensures Lookup(UpsertAll(rows, es), SessionKey, k) == Some(es[j])
  {
    var init, last := es[..|es| - 1], es[|es| - 1];
    var before := UpsertAll(rows, init);
    assert UpsertAll(rows, es) == Upsert(before, SessionKey, last);
    UpsertAllUnique(rows, init);
    if j < |es| - 1 {
      assert Lookup(before, SessionKey, k) == Some(es[j]) by {
        assert init[j] == es[j];
        assert forall i :: j < i < |init| ==> init[i] == es[i];
        UpsertAllLast(rows, init, k, j);
      }
      assert last.id != k;
    }
    UpsertLookup(before, SessionKey, last, k);
  }

  lemma {:induction false} UpsertAllOthers(rows: seq<RunningSessionEntity>, es: seq<RunningSessionEntity>, k: string)
    requires UniqueKeys(rows, SessionKey)
    requires forall e :: e in es ==> e.id != k
    ensures Lookup(UpsertAll(rows, es), SessionKey, k) == Lookup(rows, SessionKey, k)
  {
    if es != [] {
      var init, last := es[..|es| - 1], es[|es| - 1];
      assert forall e :: e in init ==> e in es;
      assert last in es;
      UpsertAllUnique(rows, init);
      UpsertLookup(UpsertAll(rows, init), SessionKey, last, k);
      UpsertAllOthers(rows, init, k);
    }
  }

  /**
   * The `avgPace` values the pace queries see: one per run with a positive pace, and nothing else
   * (`PacesCount` gives the multiplicity of each value).
   */
  function Paces(rows: seq<RunningSessionEntity>): (ps: seq<real>)
    ensures |ps| == |Filter(rows, HasPace)|
    ensures forall p :: p in ps ==> p > 0.0 && exists e :: e in rows && e.avgPace == p
    ensures forall e :: e in rows && e.avgPace > 0.0 ==> e.avgPace in ps
    ensures ps == [] <==> forall e :: e in rows ==> e.avgPace <= 0.0
  {
    var paced := Filter(rows, HasPace);
    PacedColumn(rows, paced);
    Column(paced, Pace)
  }

  lemma PacedColumn(rows: seq<RunningSessionEntity>, paced: seq<RunningSessionEntity>)
    requires forall e :: e in paced <==> e in rows && e.avgPace > 0.0
    ensures var ps := Column(paced, Pace);
            && (forall p :: p in ps ==> p > 0.0 && exists e :: e in rows && e.avgPace == p)
            && (forall e :: e in rows && e.avgPace > 0.0 ==> e.avgPace in ps)
            && (ps == [] <==> forall e :: e in rows ==> e.avgPace <= 0.0)
  {
    var ps := Column(paced, Pace);
    forall p | p in ps
      ensures p > 0.0 && exists e :: e in rows && e.avgPace == p
    {
      var i :| 0 <= i < |ps| && ps[i] == p;
      assert paced[i] in paced;
    }
    forall e | e in rows && e.avgPace > 0.0
      ensures e.avgPace in ps
    {
      var i :| 0 <= i < |paced| && paced[i] == e;
      assert ps[i] == e.avgPace;
    }
    assert paced != [] ==> paced[0] in paced;
  }

  /** `Column` distributes over appending one row. */
  lemma ColumnAppend<T>(rows: seq<RunningSessionEntity>, e: RunningSessionEntity, f: RunningSessionEntity -> T)
    ensures Column(rows + [e], f) == Column(rows, f) + [f(e)]
  {
  }

  /** Each positive pace occurs in `Paces` exactly as often as there are runs with that pace. */
  lemma {:induction false} PacesCount(rows: seq<RunningSessionEntity>, p: real)
    requires p > 0.0
    ensures multiset(Paces(rows))[p] == |Filter(rows, (e: RunningSessionEntity) => e.avgPace == p)|
  {
    if rows != [] {
      var init, last := rows[..|rows| - 1], rows[|rows| - 1];
      var paced := Filter(init, HasPace);
      PacesCount(init, p);
      if HasPace(last) {
        assert Filter(rows, HasPace) == paced + [last];
        ColumnAppend(paced, last, Pace);
      } else {
        assert Filter(rows, HasPace) == paced;
      }
    }
  }

  /** `SELECT * ... ORDER BY startTime DESC`: every row once, newest start first. */
  function GetAllSessions(rows: seq<RunningSessionEntity>): (r: seq<RunningSessionEntity>)
    ensures Descending(r, StartTime)
    ensures multiset(r) == multiset(rows)
  {
    SortDescending(rows, StartTime)
  }

  /** `SELECT * ... WHERE id = :sessionId`: the row with that id, or null. */
  function GetSessionById(rows: seq<RunningSessionEntity>, sessionId: string): (r: Option<RunningSessionEntity>)
    ensures r.Some? ==> r.value in rows && r.value.id == sessionId
    ensures r.None? ==> forall e :: e in rows ==> e.id != sessionId
  {
    Lookup(rows, SessionKey, sessionId)
  }

  /** `... ORDER BY startTime DESC LIMIT :limit`: the newest `limit` rows (all of them when fewer). */
  function GetRecentSessions(rows: seq<RunningSessionEntity>, limit: int := 10): (r: seq<RunningSessionEntity>)
    ensures |r| <= |rows| && r == GetAllSessions(rows)[..|r|]
    ensures limit >= 0 ==> |r| == if limit < |rows| then limit else |rows|
    ensures limit < 0 ==> |r| == |rows|
    ensures Descending(r, StartTime)
  {
    LimitDescending(GetAllSessions(rows), StartTime, limit);
    Limit(GetAllSessions(rows), limit)
  }

  /** `... WHERE startTime BETWEEN :startDate AND :endDate ORDER BY startTime DESC`; both ends inclusive. */
  function GetSessionsInDateRange(rows: seq<RunningSessionEntity>, startDate: int, endDate: int): (r: seq<RunningSessionEntity>)
    ensures forall e :: e in r <==> e in rows && startDate <= e.startTime <= endDate
    ensures forall e :: multiset(r)[e] == if startDate <= e.startTime <= endDate then multiset(rows)[e] else 0
    ensures Descending(r, StartTime)
  {
    SortDescending(Filter(rows, (e: RunningSessionEntity) => startDate <= e.startTime <= endDate), StartTime)
  }

  /**
   * `getThisWeekSessions`/`getThisMonthSessions`: `... WHERE startTime >= :bound ORDER BY startTime DESC`;
   * the two queries differ only in the bound the caller passes.
   */
  function GetSessionsSince(rows: seq<RunningSessionEntity>, bound: int): (r: seq<RunningSessionEntity>)
    ensures forall e :: e in r <==> e in rows && bound <= e.startTime
    ensures forall e :: multiset(r)[e] == if bound <= e.startTime then multiset(rows)[e] else 0
    ensures Descending(r, StartTime)
  {
    SortDescending(Filter(rows, (e: RunningSessionEntity) => bound <= e.startTime), StartTime)
  }

  /** `SELECT COUNT(*)`: the number of rows, zero exactly when no session is listed. */
  function GetTotalSessionCount(rows: seq<RunningSessionEntity>): (n: int)
    ensures n == |GetAllSessions(rows)|
    ensures n == 0 <==> GetAllSessions(rows) == []
  {
    |rows|
  }

  /** `SELECT SUM(distance)`: null on an empty table, otherwise the distances summed. */
  function GetTotalDistance(rows: seq<RunningSessionEntity>): (r: Option<real>)
    ensures r.None? <==> rows == []
    ensures r.Some? ==> r.value == Sum(Column(rows, Distance))
  {
    SqlSum(Column(rows, Distance))
  }

  /** `SELECT SUM(duration)`. */
  function GetTotalDuration(rows: seq<RunningSessionEntity>): (r: Option<int>)
    ensures r.None? <==> rows == []
    ensures r.Some? ==> r.value == SumInt(Column(rows, Duration))
  {
    SqlSumInt(Column(rows, Duration))
  }

  /** `SELECT SUM(calories)`. */
  function GetTotalCalories(rows: seq<RunningSessionEntity>): (r: Option<int>)
    ensures r.None? <==> rows == []
    ensures r.Some? ==> r.value == SumInt(Column(rows, Calories))
  {
    SqlSumInt(Column(rows, Calories))
  }

  /** `SELECT AVG(avgPace) ... WHERE avgPace > 0`: null when no run has a pace. */
  function GetAveragePace(rows: seq<RunningSessionEntity>): (r: Option<real>)
    ensures r.Some? ==> IsMean(r.value, Paces(rows))
    ensures r.None? <==> forall e :: e in rows ==> e.avgPace <= 0.0
  {
    Avg(Paces(rows))
  }

  /** `SELECT MIN(avgPace) ... WHERE avgPace > 0`: null when no run has a pace, else the fastest pace. */
  function GetBestPace(rows: seq<RunningSessionEntity>): (r: Option<real>)
    ensures r.None? <==> forall e :: e in rows ==> e.avgPace <= 0.0
    ensures r.Some? ==> r.value > 0.0 && r.value in Paces(rows)
    ensures r.Some? ==> forall e :: e in rows && e.avgPace > 0.0 ==> r.value <= e.avgPace
  {
    Min(Paces(rows))
  }

  /** `SELECT MAX(distance)`: null on an empty table, else a distance no run exceeds. */
  function GetLongestDistance(rows: seq<RunningSessionEntity>): (r: Option<real>)
    ensures r.None? <==> rows == []
    ensures r.Some? ==> r.value in Column(rows, Distance)
    ensures r.Some? ==> exists e :: e in rows && e.distance == r.value
    ensures r.Some? ==> forall e :: e in rows ==> e.distance <= r.value
  {
    var ds := Column(rows, Distance);
    assert forall e :: e in rows ==> e.distance in ds by {
      forall e | e in rows
        ensures e.distance in ds
      {
        var i :| 0 <= i < |rows| && rows[i] == e;
        assert ds[i] == e.distance;
      }
    }
    var r := Max(ds);
    if r.Some? then
      var i :| 0 <= i < |ds| && ds[i] == r.value;
      assert rows[i] in rows && rows[i].distance == r.value;
      r
    else r
  }

  /** `SELECT MAX(duration)`. */
  function GetLongestDuration(rows: seq<RunningSessionEntity>): (r: Option<int>)
    ensures r.None? <==> rows == []
    ensures r.Some? ==> forall e :: e in rows ==> e.duration <= r.value
    ensures r.Some? ==> exists e :: e in rows && e.duration == r.value
  {
    var ds := Column(rows, Duration);
    assert forall e :: e in rows ==> e.duration in ds by {
      forall e | e in rows
        ensures e.duration in ds
      {
        var i :| 0 <= i < |rows| && rows[i] == e;
        assert ds[i] == e.duration;
      }
    }
    var r := MaxInt(ds);
    if r.Some? then
      var i :| 0 <= i < |ds| && ds[i] == r.value;
      assert rows[i] in rows && rows[i].duration == r.value;
      r
    else r
  }

  /** `... WHERE distance = (SELECT MAX(distance) ...)`: a run no other run is longer than, or null. */
  function GetLongestRun(rows: seq<RunningSessionEntity>): (r: Option<RunningSessionEntity>)
    ensures r.None? <==> rows == []
    ensures r.Some? ==> r.value in rows && forall e :: e in rows ==> e.distance <= r.value.distance
  {
    match GetLongestDistance(rows)
    case None => None
    case Some(longest) =>
      var i :| 0 <= i < |rows| && Column(rows, Distance)[i] == longest;
      assert rows[i] in rows && rows[i].distance == longest;
      Find(rows, (e: RunningSessionEntity) => e.distance == longest)
  }

  /** `... WHERE avgPace = (SELECT MIN(avgPace) ... WHERE avgPace > 0)`: a run with the best pace, or null. */
  function GetFastestRun(rows: seq<RunningSessionEntity>): (r: Option<RunningSessionEntity>)
    ensures r.None? <==> forall e :: e in rows ==> e.avgPace <= 0.0
    ensures r.Some? ==> r.value in rows && r.value.avgPace > 0.0
    ensures r.Some? ==> forall e :: e in rows && e.avgPace > 0.0 ==> r.value.avgPace <= e.avgPace
  {
    match GetBestPace(rows)
    case None => None
    case Some(best) =>
      var e :| e in rows && e.avgPace > 0.0 && e.avgPace == best;
      Find(rows, (x: RunningSessionEntity) => x.avgPace == best)
  }

  class RunningSessionDao {
    var rows: seq<RunningSessionEntity>

    ghost predicate Valid()
      reads this
    {
      UniqueKeys(rows, SessionKey)
    }

    constructor ()
      ensures Valid() && rows == []
    {
      rows := [];
    }

    /** Room `Insert` with `REPLACE`: afterwards the id holds exactly `session`; every other row stays. */
    method InsertSession(session: RunningSessionEntity)
      requires Valid()
      modifies this
      ensures Valid()
      ensures rows == Upsert(old(rows), SessionKey, session)
      ensures GetSessionById(rows, session.id) == Some(session)
      ensures forall k :: k != session.id ==> GetSessionById(rows, k) == GetSessionById(old(rows), k)
    {
      forall k | true
        ensures Lookup(Upsert(rows, SessionKey, session), SessionKey, k)
                == if k == session.id then Some(session) else Lookup(rows, SessionKey, k)
      {
        UpsertLookup(rows, SessionKey, session, k);
      }
      rows := Upsert(rows, SessionKey, session);
    }

    /** Room `Insert` with `REPLACE` of a list: the sessions are inserted one after the other. */
    method InsertSessions(sessions: seq<RunningSessionEntity>)
      requires Valid()
      modifies this
      ensures Valid()
      ensures rows == UpsertAll(old(rows), sessions)
    {
      for i := 0 to |sessions|
        invariant Valid()
        invariant rows == UpsertAll(old(rows), sessions[..i])
      {
        assert sessions[..i + 1][..i] == sessions[..i];
        rows := Upsert(rows, SessionKey, sessions[i]);
      }
      assert sessions[..|sessions|] == sessions;
    }

    /** Room `Update`: the row with the same id becomes `session`; with no such row nothing changes. */
    method UpdateSession(session: RunningSessionEntity)
      requires Valid()
      modifies this
      ensures Valid()
      ensures rows == Column(old(rows), Replacing(SessionKey, session))
      ensures GetSessionById(old(rows), session.id).Some? ==> GetSessionById(rows, session.id) == Some(session)
      ensures GetSessionById(old(rows), session.id).None? ==> rows == old(rows)
    {
      ColumnUnique(rows, Replacing(SessionKey, session), SessionKey);
      var updated := Column(rows, Replacing(SessionKey, session));
      if Lookup(rows, SessionKey, session.id).Some? {
        var j :| 0 <= j < |rows| && rows[j] == Lookup(rows, SessionKey, session.id).value;
        assert updated[j] == session;
        LookupUnique(updated, SessionKey, session);
      } else {
        assert updated == rows;
      }
      rows := updated;
    }

    /** Room `Delete`: removes the row with the entity's primary key. */
    method DeleteSession(session: RunningSessionEntity)
      requires Valid()
      modifies this
      ensures Valid()
      ensures rows == RemoveKey(old(rows), SessionKey, session.id)
    {
      rows := RemoveKey(rows, SessionKey, session.id);
    }

    /** `DELETE ... WHERE id = :sessionId`: that id is gone and every other id answers as before. */
    method DeleteSessionById(sessionId: string)
      requires Valid()
      modifies this
      ensures Valid()
      ensures forall e :: e in rows <==> e in old(rows) && e.id != sessionId
      ensures GetSessionById(rows, sessionId) == None
      ensures forall k :: k != sessionId ==> GetSessionById(rows, k) == GetSessionById(old(rows), k)
    {
      forall k | k != sessionId
        ensures Lookup(RemoveKey(rows, SessionKey, sessionId), SessionKey, k) == Lookup(rows, SessionKey, k)
      {
        RemoveKeyLookup(rows, SessionKey, sessionId, k);
      }
      rows := RemoveKey(rows, SessionKey, sessionId);
    }

    /** `DELETE FROM running_sessions`. */
    method DeleteAllSessions()
      modifies this
      ensures Valid() && rows == []
    {
      rows := [];
    }

    /** `DELETE ... WHERE startTime < :cutoffDate`: exactly the rows that started before the cutoff go. */
    method DeleteOldSessions(cutoffDate: int)
      requires Valid()
      modifies this
      ensures Valid()
      ensures forall e :: e in rows <==> e in old(rows) && e.startTime >= cutoffDate
    {
      var keep := (e: RunningSessionEntity) => e.startTime >= cutoffDate;
      FilterUnique(rows, keep, SessionKey);
      rows := Filter(rows, keep);
    }
  }
}
