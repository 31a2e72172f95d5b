/**
 * `RunningViewModel`: the run lifecycle (start, pause, resume, stop), the location samples
 * recorded while tracking, and the live statistics shown on the running screen.
 *
 * The clock is the parameter `now`; the session id (`UUID.randomUUID()`) is the parameter `id`.
 * A location sample arriving and a timer tick are method calls (`OnLocation`, `TimerTick`).
 * `StopRun` returns the completed session that the source hands to the background save.
 */
module ViewModel {
  import opened Common
  import opened Geo
  import opened RunningData
  import opened LocationService
  import opened Aggregates

  function Speed(l: Location): real { l.speed }

  /** `locations.maxOfOrNull { it.speed } ?: 0f`: the top speed of the fixes, 0 when there are none. */
  function MaxSpeed(ls: seq<Location>): (m: real)
    ensures ls == [] ==> m == 0.0
    ensures ls != [] ==> exists i :: 0 <= i < |ls| && ls[i].speed == m
    ensures forall i :: 0 <= i < |ls| ==> ls[i].speed <= m
  {
    var speeds := Column(ls, Speed);
    assert forall i :: 0 <= i < |ls| ==> speeds[i] in speeds;
    OrElse(Max(speeds), 0.0)
  }

  /** The time a run has lasted at `now`: the wall-clock span minus the pauses already resumed. */
  function RunDuration(now: int, startTime: int, totalPausedDuration: int): (duration: int)
    ensures duration + totalPausedDuration == now - startTime
  {
    now - startTime - totalPausedDuration
  }

  /**
   * The live statistics `updateRunningStats` makes of `stats` from the buffered fixes after a run
   * time of `duration`: the distance along the fixes, the pace of that distance over that time, the
   * speed and position of the last fix (0 and null with no fixes) and the buffered route; the
   * lifecycle flags are kept.
   */
  function LiveStats(stats: RunningStats, distanceTo: (Location, Location) -> real, locations: seq<Location>,
                     routePoints: seq<LatLng>, duration: int): (s: RunningStats)
    ensures s.isRunning == stats.isRunning && s.isPaused == stats.isPaused
    ensures s.currentDuration == duration
    ensures s.currentPace == CalculatePace(s.currentDistance, s.currentDuration)
    ensures s.currentDistance == PathLength(distanceTo, locations)
    ensures s.currentLocation.Some? <==> locations != []
    ensures locations != [] ==>
              && s.currentLocation.value == ToLatLng(locations[|locations| - 1])
              && s.currentSpeed == locations[|locations| - 1].speed
    ensures s.currentRoute == routePoints
  {
    var distance := PathLength(distanceTo, locations);
    stats.(
      currentDistance := distance,
      currentDuration := duration,
      currentPace := CalculatePace(distance, duration),
      currentSpeed := if locations == [] then 0.0 else locations[|locations| - 1].speed,
      currentLocation := if locations == [] then None else Some(ToLatLng(locations[|locations| - 1])),
      currentRoute := routePoints)
  }

  class RunningViewModel {
    /** `Location.distanceTo`, fixed for the lifetime of the view model. */
    const distanceTo: (Location, Location) -> real

    var startTime: int
    var pausedTime: int
    var totalPausedDuration: int
    var locations: seq<Location>
    var routePoints: seq<LatLng>
    var runningStats: RunningStats
    var currentSession: RunningSession

    /**
     * The two buffers move in lockstep (`routePoints[i]` is the coordinate of `locations[i]`), and
     * a run is only ever paused while it is running.
     */
    ghost predicate Valid()
      reads this
    {
      && routePoints == RouteOf(locations)
      && (runningStats.isPaused ==> runningStats.isRunning)
    }

    constructor (distanceTo: (Location, Location) -> real)
      ensures Valid()
      ensures this.distanceTo == distanceTo
      ensures startTime == 0 && pausedTime == 0 && totalPausedDuration == 0
      ensures locations == [] && routePoints == []
      ensures runningStats == RunningStats() && currentSession == RunningSession()
    {
      this.distanceTo := distanceTo;
      startTime := 0;
      pausedTime := 0;
      totalPausedDuration := 0;
      locations := [];
      routePoints := [];
      runningStats := RunningStats();
      currentSession := RunningSession();
    }

    /**
     * `startRun`: unguarded, so it also restarts a run already in progress. The clock becomes the
     * start time, the closed pauses and both buffers are cleared, the run is running and not paused,
     * and a fresh session starting now becomes current.
     */
    method StartRun(now: int, id: string)
      requires Valid()
      modifies this
      ensures Valid()
      ensures startTime == now && totalPausedDuration == 0
      ensures locations == [] && routePoints == []
      ensures runningStats == old(runningStats).(isRunning := true, isPaused := false)
      ensures currentSession == RunningSession(id := id, startTime := now)
      ensures currentSession.startTime == startTime && currentSession.IsActive() == (now > 0)
      ensures pausedTime == old(pausedTime)
    {
      startTime := now;
      totalPausedDuration := 0;
      locations := [];
      routePoints := [];
      runningStats := runningStats.(isRunning := true, isPaused := false);
      currentSession := RunningSession(id := id, startTime := startTime);
    }

    /** `pauseRun`: only a running, unpaused run is paused, remembering when; otherwise nothing happens. */
    method PauseRun(now: int)
      requires Valid()
      modifies this
      ensures Valid()
      ensures old(runningStats.isRunning && !runningStats.isPaused) ==>
                && pausedTime == now
                && runningStats == old(runningStats).(isPaused := true)
                && startTime == old(startTime) && totalPausedDuration == old(totalPausedDuration)
                && locations == old(locations) && routePoints == old(routePoints)
                && currentSession == old(currentSession)
      ensures !old(runningStats.isRunning && !runningStats.isPaused) ==> unchanged(this)
    {
      if runningStats.isRunning && !runningStats.isPaused {
        pausedTime := now;
        runningStats := runningStats.(isPaused := true);
      }
    }

    /**
     * `resumeRun`: only a running, paused run resumes, and the pause just ended is added to the
     * paused total; otherwise nothing happens.
     */
    method ResumeRun(now: int)
      requires Valid()
      modifies this
      ensures Valid()
      ensures old(runningStats.isRunning && runningStats.isPaused) ==>
                && totalPausedDuration == old(totalPausedDuration) + (now - old(pausedTime))
                && runningStats == old(runningStats).(isPaused := false)
                && startTime == old(startTime) && pausedTime == old(pausedTime)
                && locations == old(locations) && routePoints == old(routePoints)
                && currentSession == old(currentSession)
      ensures !old(runningStats.isRunning && runningStats.isPaused) ==> unchanged(this)
    {
      if runningStats.isRunning && runningStats.isPaused {
        totalPausedDuration := totalPausedDuration + (now - pausedTime);
        runningStats := runningStats.(isPaused := false);
      }
    }

    /**
     * `updateRunningStats`: the live statistics are recomputed from the buffers at `now`. Speed and
     * position come from the last fix (0 and null with no fixes); the route is the buffered route.
     */
    method UpdateRunningStats(now: int)
      requires Valid()
      modifies this
      ensures Valid()
      ensures runningStats == LiveStats(old(runningStats), distanceTo, locations, routePoints,
                                        RunDuration(now, startTime, totalPausedDuration))
      ensures runningStats.currentRoute == RouteOf(locations)
      ensures startTime == old(startTime) && pausedTime == old(pausedTime)
      ensures totalPausedDuration == old(totalPausedDuration)
      ensures locations == old(locations) && routePoints == old(routePoints)
      ensures currentSession == old(currentSession)
    {
      var duration := now - startTime - totalPausedDuration;
      var distance := CalculateDistance(distanceTo, locations);
      var pace := CalculatePace(distance, duration);
      var speed := if |locations| > 0 then locations[|locations| - 1].speed else 0.0;
      var currentLocation := if |locations| > 0 then Some(ToLatLng(locations[|locations| - 1])) else None;
      runningStats := runningStats.(
        currentDistance := distance,
        currentDuration := duration,
        currentPace := pace,
        currentSpeed := speed,
        currentLocation := currentLocation,
        currentRoute := routePoints);
    }

    /**
     * A fix delivered to the tracking collector: it is appended to `locations`, its coordinate to
     * `routePoints`, and the live statistics are recomputed.
     */
    method OnLocation(location: Location, now: int)
      requires Valid()
      modifies this
      ensures Valid()
      ensures locations == old(locations) + [location]
      ensures routePoints == old(routePoints) + [ToLatLng(location)]
      ensures runningStats == LiveStats(old(runningStats), distanceTo, locations, routePoints,
                                        RunDuration(now, startTime, totalPausedDuration))
      ensures runningStats.currentSpeed == location.speed
      ensures runningStats.currentLocation == Some(ToLatLng(location))
      ensures startTime == old(startTime) && pausedTime == old(pausedTime)
      ensures totalPausedDuration == old(totalPausedDuration)
      ensures currentSession == old(currentSession)
    {
      RouteOfAppend(locations, location);
      locations := locations + [location];
      routePoints := routePoints + [ToLatLng(location)];
      UpdateRunningStats(now);
    }

    /**
     * One pass of the timer loop at `now`: the loop ends once the run is no longer running
     * (`stopped`); otherwise the statistics are refreshed unless the run is paused.
     */
    method TimerTick(now: int) returns (stopped: bool)
      requires Valid()
      modifies this
      ensures Valid()
      ensures stopped <==> !old(runningStats.isRunning)
      ensures !old(runningStats.isRunning) || old(runningStats.isPaused) ==> unchanged(this)
      ensures old(runningStats.isRunning) && !old(runningStats.isPaused) ==>
                runningStats == LiveStats(old(runningStats), distanceTo, locations, routePoints,
                                          RunDuration(now, startTime, totalPausedDuration))
      ensures runningStats.isRunning == old(runningStats.isRunning)
      ensures runningStats.isPaused == old(runningStats.isPaused)
      ensures startTime == old(startTime) && pausedTime == old(pausedTime)
      ensures totalPausedDuration == old(totalPausedDuration)
      ensures locations == old(locations) && routePoints == old(routePoints)
      ensures currentSession == old(currentSession)
    {
      if !runningStats.isRunning {
        return true;
      }
      if !runningStats.isPaused {
        UpdateRunningStats(now);
      }
      return false;
    }

    /**
     * `stopRun`: unguarded. The current session is completed with the measurements over the
     * buffered fixes (a pause still open is not subtracted from the duration) and returned for
     * saving; the live state then goes back to its defaults and both buffers are emptied.
     */
    method StopRun(now: int) returns (completed: RunningSession)
      requires Valid()
      modifies this
      ensures Valid()
      ensures var duration := RunDuration(now, old(startTime), old(totalPausedDuration));
              var distance := PathLength(distanceTo, old(locations));
              completed == old(currentSession).(
                endTime := now,
                distance := distance,
                duration := duration,
                avgPace := CalculatePace(distance, duration),
                maxSpeed := MaxSpeed(old(locations)),
                calories := CalculateCalories(distance, duration),
                locations := old(locations),
                route := old(routePoints))
      ensures completed.route == RouteOf(completed.locations)
      ensures now != 0 ==> !completed.IsActive()
      ensures runningStats == RunningStats() && currentSession == RunningSession()
      ensures locations == [] && routePoints == []
      ensures startTime == old(startTime) && pausedTime == old(pausedTime)
      ensures totalPausedDuration == old(totalPausedDuration)
    {
      var endTime := now;
      var duration := endTime - startTime - totalPausedDuration;
      var distance := CalculateDistance(distanceTo, locations);
      var avgPace := CalculatePace(distance, duration);
      var calories := CalculateCalories(distance, duration);
      var maxSpeed := MaxSpeed(locations);
      completed := currentSession.(
        endTime := endTime,
        distance := distance,
        duration := duration,
        avgPace := avgPace,
        maxSpeed := maxSpeed,
        calories := calories,
        locations := locations,
        route := routePoints);
      runningStats := RunningStats();
      currentSession := RunningSession();
      locations := [];
      routePoints := [];
    }
  }

  /**
   * Start at t0, pause at t1, resume at t2, stop at t3: the saved duration is the run time minus the
   * one pause, and the session spans t0 to t3.
   */
  method PauseIsSubtracted(vm: RunningViewModel, id: string, t0: int, t1: int, t2: int, t3: int)
    returns (completed: RunningSession)
    requires vm.Valid()
    modifies vm
    ensures completed.duration == (t3 - t0) - (t2 - t1)
    ensures completed.startTime == t0 && completed.endTime == t3 && completed.id == id
  {
    vm.StartRun(t0, id);
    vm.PauseRun(t1);
    vm.ResumeRun(t2);
    completed := vm.StopRun(t3);
  }

  /** Start at t0, pause at t1 and stop at t3 without resuming: the open pause counts as run time. */
  method OpenPauseIsNotSubtracted(vm: RunningViewModel, id: string, t0: int, t1: int, t3: int)
    returns (completed: RunningSession)
    requires vm.Valid()
    modifies vm
    ensures completed.duration == t3 - t0
  {
    vm.StartRun(t0, id);
    vm.PauseRun(t1);
    completed := vm.StopRun(t3);
  }

  /** A run stopped before any fix arrives is saved with no distance, pace, speed or route. */
  method StopWithoutFixes(vm: RunningViewModel, id: string, t0: int, t3: int)
    returns (completed: RunningSession)
    requires vm.Valid()
    modifies vm
    ensures completed.distance == 0.0 && completed.avgPace == 0.0 && completed.maxSpeed == 0.0
    ensures completed.locations == [] && completed.route == []
    ensures completed.duration == t3 - t0
  {
    vm.StartRun(t0, id);
    completed := vm.StopRun(t3);
  }

  /**
   * Fixes recorded while running are saved in order, each with its coordinate on the route, and the
   * saved distance is the length of the path through them.
   */
  method FixesAreSaved(vm: RunningViewModel, id: string, t0: int, a: Location, b: Location, t3: int)
    returns (completed: RunningSession)
    requires vm.Valid()
    modifies vm
    ensures completed.locations == [a, b]
    ensures completed.route == [ToLatLng(a), ToLatLng(b)]
    ensures completed.distance == vm.distanceTo(a, b)
    ensures completed.maxSpeed == if a.speed < b.speed then b.speed else a.speed
  {
    vm.StartRun(t0, id);
    vm.OnLocation(a, t0);
    vm.OnLocation(b, t0);
    completed := vm.StopRun(t3);
    assert completed.locations == [a, b];
    assert PathLength(vm.distanceTo, [a, b][1..]) == 0.0;
  }
}
