/** The domain records of `data/RunningSession.kt`: a recorded run and the live statistics of one. */
module RunningData {
  import opened Common
  import opened Geo

  /**
   * A run. `endTime` is 0 while the run is in progress. `route` is the list of map coordinates the
   * rest of the app stores with a session.
   */
  datatype RunningSession = RunningSession(
    id: string := "",
    startTime: int := 0,
    endTime: int := 0,
    distance: real := 0.0,     // metres
    duration: int := 0,        // milliseconds
    avgPace: real := 0.0,      // minutes per kilometre
    maxSpeed: real := 0.0,     // metres per second
    calories: int := 0,
    locations: seq<Location> := [],
    route: seq<LatLng> := [])
  {
    predicate IsActive()
    {
      ActiveSpan(startTime, endTime)
    }

    function AverageSpeed(): real
    {
      SpeedOver(distance, duration)
    }

    function DistanceInKm(): real
    {
      MetresToKm(distance)
    }

    function DurationInSeconds(): int
    {
      WholeSeconds(duration)
    }
  }

  /**
   * What the running screen shows while a run is recorded. `currentLocation` and `currentRoute` are
   * the last fix's coordinate and the route drawn so far.
   */
  datatype RunningStats = RunningStats(
    currentDistance: real := 0.0,
    currentDuration: int := 0,
    currentPace: real := 0.0,
    currentSpeed: real := 0.0,
    isRunning: bool := false,
    isPaused: bool := false,
    currentLocation: Option<LatLng> := None,
    currentRoute: seq<LatLng> := [])

  /** The default session has no id, zero times and metrics and no fixes, so it is not active. */
  lemma DefaultSessionInactive()
    ensures var s := RunningSession();
            && s.id == "" && s.startTime == 0 && s.endTime == 0
            && s.distance == 0.0 && s.duration == 0 && s.avgPace == 0.0 && s.maxSpeed == 0.0 && s.calories == 0
            && s.locations == [] && s.route == []
            && !s.IsActive()
            && s.AverageSpeed() == 0.0 && s.DurationInSeconds() == 0
  {
  }

  /** The default statistics are neither running nor paused, with every metric zero. */
  lemma DefaultStatsIdle()
    ensures var st := RunningStats();
            && !st.isRunning && !st.isPaused
            && st.currentDistance == 0.0 && st.currentDuration == 0
            && st.currentPace == 0.0 && st.currentSpeed == 0.0
            && st.currentLocation == None && st.currentRoute == []
  {
  }

  /**
   * Without an end time a session is active exactly when it has started; a non-zero end time makes
   * any session inactive.
   */
  lemma ActiveUntilEnded(s: RunningSession, endTime: int)
    ensures s.(endTime := 0).IsActive() <==> s.startTime > 0
    ensures endTime != 0 ==> !s.(endTime := endTime).IsActive()
  {
  }
}
