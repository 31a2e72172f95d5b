/**
 * The metric calculations of `LocationService`: route distance, pace and calories.
 * `Location.distanceTo` is passed in as `distanceTo`; Float rounding is not modelled (values are reals).
 */
module LocationService {
  import opened Common
  import opened Geo

  /** MET value of moderate-intensity running used by `calculateCalories`. */
  const RunningMet: real := 8.0

  /** Body weight `calculateCalories` assumes when none is given, in kilograms. */
  const DefaultWeightKg: real := 70.0

  /** The length of a route: the sum of `distanceTo` over each consecutive pair of fixes, in list order. */
  function PathLength(distanceTo: (Location, Location) -> real, ls: seq<Location>): real
    decreases |ls|
  {
    if |ls| < 2 then 0.0 else distanceTo(ls[0], ls[1]) + PathLength(distanceTo, ls[1..])
  }

  /** Appending a fix adds exactly the segment from the previous last fix. */
  lemma {:induction false} PathLengthAppend(distanceTo: (Location, Location) -> real, ls: seq<Location>, l: Location)
    requires |ls| >= 1
    ensures PathLength(distanceTo, ls + [l]) == PathLength(distanceTo, ls) + distanceTo(ls[|ls| - 1], l)
  {
    if |ls| == 1 {
      assert (ls + [l])[1..] == [l];
    } else {
      assert (ls + [l])[1..] == ls[1..] + [l];
      PathLengthAppend(distanceTo, ls[1..], l);
    }
  }

  /** With non-negative segment lengths the distance is never negative. */
  lemma {:induction false} PathLengthNonNegative(distanceTo: (Location, Location) -> real, ls: seq<Location>)
    requires NonNegative(distanceTo)
    ensures PathLength(distanceTo, ls) >= 0.0
    decreases |ls|
  {
    if |ls| >= 2 {
      PathLengthNonNegative(distanceTo, ls[1..]);
    }
  }

  /** With non-negative segment lengths the distance never decreases as fixes are appended. */
  lemma {:induction false} PathLengthMonotone(distanceTo: (Location, Location) -> real, ls: seq<Location>, i: nat, j: nat)
    requires NonNegative(distanceTo)
    requires i <= j <= |ls|
    ensures PathLength(distanceTo, ls[..i]) <= PathLength(distanceTo, ls[..j])
    decreases j - i
  {
    if i < j {
      PathLengthMonotone(distanceTo, ls, i, j - 1);
      if j >= 2 {
        assert ls[..j] == ls[..j - 1] + [ls[j - 1]];
        PathLengthAppend(distanceTo, ls[..j - 1], ls[j - 1]);
      }
    }
  }

  /** `calculateDistance`: 0 for fewer than two fixes, otherwise the loop sums the consecutive segments. */
  method CalculateDistance(distanceTo: (Location, Location) -> real, locations: seq<Location>)
    returns (totalDistance: real)
    ensures |locations| < 2 ==> totalDistance == 0.0
    ensures totalDistance == PathLength(distanceTo, locations)
  {
    if |locations| < 2 {
      return 0.0;
    }
    totalDistance := 0.0;
    for i := 1 to |locations|
      invariant totalDistance == PathLength(distanceTo, locations[..i])
    {
      assert locations[..i + 1] == locations[..i] + [locations[i]];
      PathLengthAppend(distanceTo, locations[..i], locations[i]);
      totalDistance := totalDistance + distanceTo(locations[i - 1], locations[i]);
    }
    assert locations[..|locations|] == locations;
  }

  /**
   * `calculatePace`: minutes per kilometre. 0 unless both distance (m) and duration (ms) are positive;
   * otherwise the positive pace that, times the kilometres run, gives the minutes taken.
   */
  function CalculatePace(distance: real, duration: int): (pace: real)
    ensures distance <= 0.0 || duration <= 0 ==> pace == 0.0
    ensures distance > 0.0 && duration > 0 ==>
              pace > 0.0 && pace * (distance / 1000.0) == duration as real / 60000.0
  {
    if distance <= 0.0 || duration <= 0 then 0.0
    else
      var distanceInKm := distance / 1000.0;
      var durationInMinutes := duration as real / 60000.0;
      durationInMinutes / distanceInKm
  }

  /**
   * `averageSpeed` and `calculatePace` describe the same run: metres per second times minutes per
   * kilometre is always 1000/60.
   */
  lemma SpeedTimesPace(distance: real, duration: int)
    requires distance > 0.0 && duration > 0
    ensures SpeedOver(distance, duration) * CalculatePace(distance, duration) == 50.0 / 3.0
  {
    var speed, pace := SpeedOver(distance, duration), CalculatePace(distance, duration);
    var seconds, km := duration as real / 1000.0, distance / 1000.0;
    assert speed * seconds == 1000.0 * km;
    assert pace * km == seconds / 60.0;
    assert (speed * pace) * (seconds * km) == (speed * seconds) * (pace * km);
    MulEqual(speed * seconds, 1000.0 * km, pace * km, seconds / 60.0);
    assert (1000.0 * km) * (seconds / 60.0) == (50.0 / 3.0) * (seconds * km);
    CancelPositive(speed * pace, 50.0 / 3.0, seconds * km);
  }

  lemma MulEqual(a: real, a': real, b: real, b': real)
    requires a == a' && b == b'
    ensures a * b == a' * b'
  {
  }

  lemma CancelPositive(a: real, b: real, c: real)
    requires c > 0.0 && a * c == b * c
    ensures a == b
  {
  }

  /** The energy estimate before truncation: MET x body weight (kg) x duration in hours. */
  function Energy(duration: int, weightKg: real): real
  {
    RunningMet * weightKg * (duration as real / 3600000.0)
  }

  /**
   * `calculateCalories`: the MET estimate truncated to a whole number of calories; the distance
   * argument is accepted and ignored.
   */
  function CalculateCalories(distance: real, duration: int, weightKg: real := DefaultWeightKg): (calories: int)
    ensures Energy(duration, weightKg) >= 0.0 ==>
              calories as real <= Energy(duration, weightKg) < calories as real + 1.0
    ensures Energy(duration, weightKg) < 0.0 ==>
              calories as real - 1.0 < Energy(duration, weightKg) <= calories as real
  {
    var durationInHours := duration as real / 3600000.0;
    var met := RunningMet;
    TruncToInt(met * weightKg * durationInHours)
  }

  /** Calories depend on duration and weight only, never on distance. */
  lemma CaloriesIgnoreDistance(d1: real, d2: real, duration: int, weightKg: real)
    ensures CalculateCalories(d1, duration, weightKg) == CalculateCalories(d2, duration, weightKg)
  {
  }

  /** For a fixed non-negative weight, calories are non-negative and non-decreasing in duration. */
  lemma CaloriesMonotone(distance: real, t1: int, t2: int, weightKg: real)
    requires weightKg >= 0.0 && 0 <= t1 <= t2
    ensures 0 <= CalculateCalories(distance, t1, weightKg) <= CalculateCalories(distance, t2, weightKg)
  {
    var e1, e2 := Energy(t1, weightKg), Energy(t2, weightKg);
    assert 0.0 <= e1 <= e2 by {
      var h1, h2 := t1 as real / 3600000.0, t2 as real / 3600000.0;
      assert 0.0 <= h1 <= h2;
      assert RunningMet * weightKg >= 0.0;
      MulMonotone(RunningMet * weightKg, h1, h2);
    }
  }

  lemma MulMonotone(k: real, x: real, y: real)
    requires k >= 0.0 && 0.0 <= x <= y
    ensures 0.0 <= k * x <= k * y
  {
  }
}
