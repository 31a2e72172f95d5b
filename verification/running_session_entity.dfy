/** The stored rows of `database/entities/RunningSessionEntity.kt`. */
module Entities {
  import opened Common
  import opened Geo

  /**
   * A row of `running_sessions`; `id` is its primary key. `createdAt` defaults to the clock in the
   * source, so it has no default here and is given by the caller.
   */
  datatype RunningSessionEntity = RunningSessionEntity(
    id: string,
    startTime: int,
    endTime: int,
    distance: real,
    duration: int,
    avgPace: real,
    maxSpeed: real,
    calories: int,
    createdAt: int,
    route: seq<LatLng> := [],
    notes: string := "",
    weather: string := "")
  {
    predicate IsActive()
    {
      ActiveSpan(startTime, endTime)
    }

    function AverageSpeed(): real
    {
      SpeedOver(distance, duration)
    }

    function DistanceInKm(): real
    {
      MetresToKm(distance)
    }

    function DurationInSeconds(): int
    {
      WholeSeconds(duration)
    }
  }

  /** The primary key of a session row. */
  function SessionKey(e: RunningSessionEntity): string
  {
    e.id
  }

  /**
   * A row of `running_statistics`; `id` is an auto-generated primary key (0 means "not yet assigned").
   * `lastUpdated` defaults to the clock in the source, so it comes first here and has no default.
   */
  datatype RunningStatisticsEntity = RunningStatisticsEntity(
    lastUpdated: int,
    id: int := 0,
    totalRuns: int := 0,
    totalDistance: real := 0.0,
    totalDuration: int := 0,
    totalCalories: int := 0,
    averagePace: real := 0.0,
    bestPace: real := 0.0,
    longestRun: real := 0.0,
    longestDuration: int := 0)

  /** The primary key of a statistics row. */
  function StatisticsKey(s: RunningStatisticsEntity): int
  {
    s.id
  }

  /** A session row built with only the required fields has an empty route and empty notes and weather. */
  lemma SessionEntityDefaults(id: string, startTime: int, endTime: int, distance: real, duration: int,
                              avgPace: real, maxSpeed: real, calories: int, createdAt: int)
    ensures var e := RunningSessionEntity(id, startTime, endTime, distance, duration, avgPace, maxSpeed,
                                          calories, createdAt);
            e.route == [] && e.notes == "" && e.weather == ""
  {
  }

  /** A default statistics row awaits an id and has every total and record zero. */
  lemma StatisticsEntityDefaults(now: int)
    ensures var s := RunningStatisticsEntity(now);
            && s.id == 0 && s.lastUpdated == now
            && s.totalRuns == 0 && s.totalDistance == 0.0 && s.totalDuration == 0 && s.totalCalories == 0
            && s.averagePace == 0.0 && s.bestPace == 0.0 && s.longestRun == 0.0 && s.longestDuration == 0
  {
  }
}
