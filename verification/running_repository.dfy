/**
 * `RunningRepository`: converts between the domain session and its stored row, writes sessions
 * through `RunningSessionDao`, and recomputes the statistics row after each write but `deleteAllSessions`. A DAO call that
 * throws is a `...Fails` parameter; a failed Room write changes nothing.
 */
module Repository {
  import opened Common
  import opened RunningData
  import opened Entities
  import opened KeyedRows
  import opened Aggregates
  import opened SessionDao
  import opened StatisticsDao

  /**
   * `toEntity`: every field the two records share is copied, `notes` and `weather` take their
   * defaults and `createdAt` is the clock (`now`). The derived getters agree on both sides.
   */
  function ToEntity(s: RunningSession, now: int): (e: RunningSessionEntity)
    ensures e.id == s.id && e.createdAt == now && e.notes == "" && e.weather == ""
    ensures e.IsActive() == s.IsActive()
    ensures e.AverageSpeed() == s.AverageSpeed()
    ensures e.DistanceInKm() == s.DistanceInKm()
    ensures e.DurationInSeconds() == s.DurationInSeconds()
  {
    RunningSessionEntity(s.id, s.startTime, s.endTime, s.distance, s.duration, s.avgPace, s.maxSpeed,
                         s.calories, now, route := s.route)
  }

  /** `toDomainModel`: every shared field is copied; the individual fixes are not stored, so `locations` is empty. */
  function ToDomainModel(e: RunningSessionEntity): (s: RunningSession)
    ensures s.id == e.id && s.locations == []
    ensures s.IsActive() == e.IsActive()
    ensures s.AverageSpeed() == e.AverageSpeed()
    ensures s.DistanceInKm() == e.DistanceInKm()
    ensures s.DurationInSeconds() == e.DurationInSeconds()
  {
    RunningSession(e.id, e.startTime, e.endTime, e.distance, e.duration, e.avgPace, e.maxSpeed,
                   e.calories, [], e.route)
  }

  /** A session survives storing and loading except for its fixes. */
  lemma DomainRoundTrip(s: RunningSession, now: int)
    ensures ToDomainModel(ToEntity(s, now)) == s.(locations := [])
  {
  }

  /** A row survives loading and storing except for its notes, weather and creation time. */
  lemma EntityRoundTrip(e: RunningSessionEntity, now: int)
    ensures ToEntity(ToDomainModel(e), now) == e.(notes := "", weather := "", createdAt := now)
  {
  }

  /** Two sessions that store to the same row differ at most in their fixes. */
  lemma ToEntityInjective(a: RunningSession, b: RunningSession, now: int)
    requires ToEntity(a, now) == ToEntity(b, now)
    ensures a.(locations := []) == b.(locations := [])
  {
    DomainRoundTrip(a, now);
    DomainRoundTrip(b, now);
  }

  /** Kotlin `Int` range. */
  const IntMin: int := -0x8000_0000
  const IntMax: int := 0x7fff_ffff

  predicate IsInt(x: int)
  {
    IntMin <= x <= IntMax
  }

  /** Kotlin `Int` arithmetic: the exact result wrapped into the 32-bit two's-complement range. */
  function WrapInt(x: int): (r: int)
    ensures IsInt(r)
    ensures IsInt(x) ==> r == x
    ensures (r - x) % 0x1_0000_0000 == 0
  {
    (x - IntMin) % 0x1_0000_0000 + IntMin
  }

  const MillisPerDay: int := 86_400_000

  /**
   * The cleanup cutoff as `deleteOldSessions` computes it: `daysToKeep * 24 * 60 * 60` is `Int`
   * arithmetic that wraps, and only then is the product widened by `* 1000L`.
   */
  function CutoffAsWritten(daysToKeep: int, now: int): (cutoff: int)
    requires IsInt(daysToKeep)
    ensures (now - cutoff) % 1000 == 0 && IsInt((now - cutoff) / 1000)
  {
    var seconds := WrapInt(WrapInt(WrapInt(daysToKeep * 24) * 60) * 60);
    WholeThousands(seconds);
    now - seconds * 1000
  }

  lemma WholeThousands(n: int)
    ensures (n * 1000) % 1000 == 0 && (n * 1000) / 1000 == n
  {
  }

  /** Keeping 25000 days wraps the seconds product negative, so the cutoff lands after `now`. */
  lemma CutoffOverflow(now: int)
    ensures CutoffAsWritten(25000, now) == now + 2_134_967_296_000
    ensures CutoffAsWritten(25000, now) > now
  {
  }

  /** The cutoff the cleanup means: `daysToKeep` whole days before `now`, in milliseconds. */
  function Cutoff(daysToKeep: int, now: int): (cutoff: int)
    ensures cutoff + daysToKeep * MillisPerDay == now
    ensures daysToKeep >= 0 ==> cutoff <= now
  {
    now - daysToKeep * MillisPerDay
  }

  /** Keeping more days moves the cutoff earlier. */
  lemma CutoffAntitone(d1: int, d2: int, now: int)
    requires d1 <= d2
    ensures Cutoff(d2, now) <= Cutoff(d1, now)
  {
  }

  /** The two cutoffs agree as long as the seconds product fits in an `Int` (about 68 years). */
  lemma CutoffAgreesWithoutOverflow(daysToKeep: int, now: int)
    requires -24855 <= daysToKeep <= 24855
    ensures CutoffAsWritten(daysToKeep, now) == Cutoff(daysToKeep, now)
  {
    assert IsInt(daysToKeep * 24);
    assert IsInt(daysToKeep * 24 * 60);
    assert IsInt(daysToKeep * 24 * 60 * 60);
  }

  /**
   * The statistics row `updateStatistics` builds from the session table at time `now`: the run
   * count, the sums, the average and best positive pace and the longest distance and duration,
   * each null aggregate read as 0. Its properties are the lemmas below.
   */
  function StatisticsOf(rows: seq<RunningSessionEntity>, now: int): (s: RunningStatisticsEntity)
    ensures s.id == 0 && s.lastUpdated == now
    ensures s.totalRuns == |rows|
  {
    RunningStatisticsEntity(
      lastUpdated := now,
      totalRuns := GetTotalSessionCount(rows),
      totalDistance := OrElse(GetTotalDistance(rows), 0.0),
      totalDuration := OrElse(GetTotalDuration(rows), 0),
      totalCalories := OrElse(GetTotalCalories(rows), 0),
      averagePace := OrElse(GetAveragePace(rows), 0.0),
      bestPace := OrElse(GetBestPace(rows), 0.0),
      longestRun := OrElse(GetLongestDistance(rows), 0.0),
      longestDuration := OrElse(GetLongestDuration(rows), 0))
  }

  /** With no sessions every aggregate is null, so the statistics are the all-zero default row. */
  lemma StatisticsOfEmpty(rows: seq<RunningSessionEntity>, now: int)
    requires rows == []
    ensures StatisticsOf(rows, now) == RunningStatisticsEntity(now)
  {
  }

  /** With sessions, the totals are the column sums. */
  lemma StatisticsOfTotals(rows: seq<RunningSessionEntity>, now: int)
    requires rows != []
    ensures var s := StatisticsOf(rows, now);
            && s.totalDistance == Sum(Column(rows, Distance))
            && s.totalDuration == SumInt(Column(rows, Duration))
            && s.totalCalories == SumInt(Column(rows, Calories))
  {
  }

  /**
   * The records are the longest distance and duration of some run, and bound every run; with
   * non-negative distances the longest run is at most the total distance.
   */
  lemma StatisticsOfRecords(rows: seq<RunningSessionEntity>, now: int)
    ensures var s := StatisticsOf(rows, now);
            forall e :: e in rows ==> e.distance <= s.longestRun && e.duration <= s.longestDuration
    ensures var s := StatisticsOf(rows, now);
            rows != [] ==>
              && (exists e :: e in rows && e.distance == s.longestRun)
              && (exists e :: e in rows && e.duration == s.longestDuration)
    ensures (forall e :: e in rows ==> e.distance >= 0.0) ==>
              StatisticsOf(rows, now).longestRun <= StatisticsOf(rows, now).totalDistance
  {
    var ds := Column(rows, Distance);
    if rows != [] && forall e :: e in rows ==> e.distance >= 0.0 {
      forall y | y in ds
        ensures 0.0 <= y
      {
        var i :| 0 <= i < |ds| && ds[i] == y;
        assert rows[i] in rows;
      }
      MaxAtMostSum(ds);
    }
  }

  /**
   * Without a run that has a pace, both pace fields are 0. Otherwise the best pace is the pace of
   * some run and no slower than any, and the average pace is the mean of the positive paces, one
   * per run (`PacesCount`); the best never exceeds the average.
   */
  lemma StatisticsOfPaces(rows: seq<RunningSessionEntity>, now: int)
    ensures var s := StatisticsOf(rows, now);
            (forall e :: e in rows ==> e.avgPace <= 0.0) ==> s.bestPace == 0.0 && s.averagePace == 0.0
    ensures var s := StatisticsOf(rows, now);
            (exists e :: e in rows && e.avgPace > 0.0) ==>
              && IsMean(s.averagePace, Paces(rows))
              && s.bestPace > 0.0
              && (exists e :: e in rows && e.avgPace == s.bestPace)
    ensures var s := StatisticsOf(rows, now);
            forall e :: e in rows && e.avgPace > 0.0 ==> s.bestPace <= e.avgPace
    ensures StatisticsOf(rows, now).bestPace <= StatisticsOf(rows, now).averagePace
  {
    var paces := Paces(rows);
    if paces != [] {
      MinAtMostAvg(paces);
    }
  }

  /** `after` is `before` with `x` added as its last row. */
  predicate Appended<T(==)>(before: seq<T>, after: seq<T>, x: T)
  {
    |after| == |before| + 1 && after[..|before|] == before && after[|before|] == x
  }

  class RunningRepository {
    const sessionDao: RunningSessionDao
    const statisticsDao: RunningStatisticsDao

    ghost predicate Valid()
      reads sessionDao, statisticsDao
    {
      sessionDao.Valid() && statisticsDao.Valid()
    }

    constructor ()
      ensures Valid()
      ensures fresh(sessionDao) && fresh(statisticsDao)
      ensures sessionDao.rows == [] && statisticsDao.rows == []
    {
      sessionDao := new RunningSessionDao();
      statisticsDao := new RunningStatisticsDao();
    }

    /**
     * `updateStatistics`: appends `StatisticsOf(sessionDao.rows, now)` as a new row under a fresh
     * id. Any failure is swallowed: the statistics are then left as they were, and nothing is reported to the caller.
     */
    method UpdateStatistics(now: int, fails: bool)
      requires Valid()
      modifies statisticsDao
      ensures Valid()
      ensures fails ==> unchanged(statisticsDao)
      ensures !fails ==> Appended(old(statisticsDao.rows), statisticsDao.rows, StatisticsOf(sessionDao.rows, now).(id := old(statisticsDao.lastId) + 1))
      ensures !fails ==> GetLatestStatistics(statisticsDao.rows).Some? && GetLatestStatistics(statisticsDao.rows).value.lastUpdated >= now
    {
      if fails {
        return;
      }
      var statistics := StatisticsOf(sessionDao.rows, now);
      UpsertFresh(statisticsDao.rows, StatisticsKey, statistics.(id := statisticsDao.lastId + 1));
      var _ := statisticsDao.InsertStatistics(statistics);
    }

    /**
     * `insertSession`: stores the session (`REPLACE`) and refreshes the statistics. A failing insert
     * is rethrown (`Fail`) and leaves both tables as they were. The clock is read twice: `createdAt`
     * when the row is built, `now` when the statistics are stamped.
     */
    method InsertSession(session: RunningSession, createdAt: int, now: int, insertFails: bool, statisticsFail: bool)
      returns (outcome: Outcome)
      requires Valid()
      modifies sessionDao, statisticsDao
      ensures Valid()
      ensures outcome == Fail <==> insertFails
      ensures insertFails ==> unchanged(sessionDao, statisticsDao)
      ensures !insertFails ==> sessionDao.rows == Upsert(old(sessionDao.rows), SessionKey, ToEntity(session, createdAt))
      ensures !insertFails ==> GetSessionById(sessionDao.rows, session.id) == Some(ToEntity(session, createdAt))
      ensures !insertFails && statisticsFail ==> unchanged(statisticsDao)
      ensures !insertFails && !statisticsFail ==>
                Appended(old(statisticsDao.rows), statisticsDao.rows, StatisticsOf(sessionDao.rows, now).(id := old(statisticsDao.lastId) + 1))
    {
      if insertFails {
        return Fail;
      }
      sessionDao.InsertSession(ToEntity(session, createdAt));
      UpdateStatistics(now, statisticsFail);
      return Pass;
    }

    /**
     * `updateSession`: rewrites the row with the session's id (none: no change) and refreshes the
     * statistics. The rewritten row takes `createdAt` (a first clock reading) as its creation time and
     * loses its notes and weather; `now` (a second reading) stamps the statistics.
     */
    method UpdateSession(session: RunningSession, createdAt: int, now: int, updateFails: bool, statisticsFail: bool)
      returns (outcome: Outcome)
      requires Valid()
      modifies sessionDao, statisticsDao
      ensures Valid()
      ensures outcome == Fail <==> updateFails
      ensures updateFails ==> unchanged(sessionDao, statisticsDao)
      ensures !updateFails ==> sessionDao.rows == Column(old(sessionDao.rows), Replacing(SessionKey, ToEntity(session, createdAt)))
      ensures !updateFails && old(GetSessionById(sessionDao.rows, session.id)).Some? ==>
                GetSessionById(sessionDao.rows, session.id) == Some(ToEntity(session, createdAt))
      ensures !updateFails && statisticsFail ==> unchanged(statisticsDao)
      ensures !updateFails && !statisticsFail ==>
                Appended(old(statisticsDao.rows), statisticsDao.rows, StatisticsOf(sessionDao.rows, now).(id := old(statisticsDao.lastId) + 1))
    {
      if updateFails {
        return Fail;
      }
      sessionDao.UpdateSession(ToEntity(session, createdAt));
      UpdateStatistics(now, statisticsFail);
      return Pass;
    }

    /** `deleteSession`: removes the row with that id and refreshes the statistics; a failing delete is rethrown. */
    method DeleteSession(sessionId: string, now: int, deleteFails: bool, statisticsFail: bool)
      returns (outcome: Outcome)
      requires Valid()
      modifies sessionDao, statisticsDao
      ensures Valid()
      ensures outcome == Fail <==> deleteFails
      ensures deleteFails ==> unchanged(sessionDao, statisticsDao)
      ensures !deleteFails ==> forall e :: e in sessionDao.rows <==> e in old(sessionDao.rows) && e.id != sessionId
      ensures !deleteFails ==> GetSessionById(sessionDao.rows, sessionId) == None
      ensures !deleteFails && statisticsFail ==> unchanged(statisticsDao)
      ensures !deleteFails && !statisticsFail ==>
                Appended(old(statisticsDao.rows), statisticsDao.rows, StatisticsOf(sessionDao.rows, now).(id := old(statisticsDao.lastId) + 1))
    {
      if deleteFails {
        return Fail;
      }
      sessionDao.DeleteSessionById(sessionId);
      UpdateStatistics(now, statisticsFail);
      return Pass;
    }

    /**
     * `deleteAllSessions`: empties the session table, then the statistics table; the statistics are
     * not recomputed. A failure at either step is rethrown and leaves the later step undone.
     */
    method DeleteAllSessions(sessionsFail: bool, statisticsFail: bool) returns (outcome: Outcome)
      requires Valid()
      modifies sessionDao, statisticsDao
      ensures Valid()
      ensures outcome == Pass <==> !sessionsFail && !statisticsFail
      ensures sessionsFail ==> unchanged(sessionDao, statisticsDao)
      ensures !sessionsFail ==> sessionDao.rows == []
      ensures !sessionsFail && statisticsFail ==> unchanged(statisticsDao)
      ensures !sessionsFail && !statisticsFail ==> statisticsDao.rows == [] && GetLatestStatistics(statisticsDao.rows) == None
    {
      if sessionsFail {
        return Fail;
      }
      sessionDao.DeleteAllSessions();
      if statisticsFail {
        return Fail;
      }
      statisticsDao.DeleteAllStatistics();
      return Pass;
    }

    /**
     * `deleteOldSessions`: removes the sessions that started before `CutoffAsWritten(daysToKeep, now)`,
     * which is `Cutoff(daysToKeep, now)` for -24855..24855 days, and refreshes the statistics.
     * Failures are logged and swallowed. The clock is read twice: `now` for the cutoff, `statsNow`
     * when the statistics are stamped.
     */
    method DeleteOldSessions(now: int, statsNow: int, deleteFails: bool, statisticsFail: bool, daysToKeep: int := 365)
      requires Valid()
      requires IsInt(daysToKeep)
      modifies sessionDao, statisticsDao
      ensures Valid()
      ensures deleteFails ==> unchanged(sessionDao, statisticsDao)
      ensures !deleteFails ==>
                forall e :: e in sessionDao.rows <==> e in old(sessionDao.rows) && e.startTime >= CutoffAsWritten(daysToKeep, now)
      ensures !deleteFails && -24855 <= daysToKeep <= 24855 ==>
                forall e :: e in sessionDao.rows <==> e in old(sessionDao.rows) && e.startTime >= Cutoff(daysToKeep, now)
      ensures !deleteFails && statisticsFail ==> unchanged(statisticsDao)
      ensures !deleteFails && !statisticsFail ==>
                Appended(old(statisticsDao.rows), statisticsDao.rows, StatisticsOf(sessionDao.rows, statsNow).(id := old(statisticsDao.lastId) + 1))
    {
      var cutoffTime := CutoffAsWritten(daysToKeep, now);
      if -24855 <= daysToKeep <= 24855 {
        CutoffAgreesWithoutOverflow(daysToKeep, now);
      }
      if deleteFails {
        return;
      }
      sessionDao.DeleteOldSessions(cutoffTime);
      UpdateStatistics(statsNow, statisticsFail);
    }
  }
}
