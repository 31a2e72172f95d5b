/** Value types and JVM/Kotlin arithmetic shared by the rest of the model. */
module Common {

  /** Kotlin's nullable value (`T?`). */
  datatype Option<+T> = None | Some(value: T)

  /** Kotlin's elvis operator `o ?: default`. */
  function OrElse<T>(o: Option<T>, default: T): T
  {
    if o.Some? then o.value else default
  }

  /** Whether an operation that may throw completed (`Pass`) or threw to its caller (`Fail`). */
  datatype Outcome = Pass | Fail

  /** A Kotlin `Float` as `formatPace` inspects it: a finite value, an infinity, or NaN. */
  datatype KFloat = Finite(value: real) | PositiveInfinity | NegativeInfinity | NaN

  /** Kotlin `Long`/`Int` division by a positive divisor: the quotient is truncated toward zero. */
  function TruncDiv(a: int, b: int): (q: int)
    requires b > 0
    ensures a >= 0 ==> q >= 0 && b * q <= a < b * q + b
    ensures a < 0 ==> q <= 0 && b * q - b < a <= b * q
  {
    if a >= 0 then
      FloorDivBounds(a, b);
      a / b
    else
      FloorDivBounds(-a, b);
      var m := (-a) / b;
      assert b * -m == -(b * m);
      -m
  }

  lemma FloorDivBounds(n: int, b: int)
    requires n >= 0 && b > 0
    ensures n / b >= 0 && b * (n / b) <= n < b * (n / b) + b
  {
    assert n == b * (n / b) + n % b;
  }

  /** Kotlin `%` by a positive divisor: the remainder takes the sign of the dividend. */
  function TruncRem(a: int, b: int): (r: int)
    requires b > 0
    ensures a == b * TruncDiv(a, b) + r
    ensures a >= 0 ==> 0 <= r < b
    ensures a < 0 ==> -b < r <= 0
  {
    a - b * TruncDiv(a, b)
  }

  /** Kotlin `Float.toInt()` on a value in range: the fraction is dropped (rounds toward zero). */
  function TruncToInt(x: real): (n: int)
    ensures 0.0 <= x ==> 0 <= n && n as real <= x < n as real + 1.0
    ensures x < 0.0 ==> n <= 0 && n as real - 1.0 < x <= n as real
  {
    if x >= 0.0 then x.Floor else -((-x).Floor)
  }

  /** Kotlin `Float.roundToInt()`: the nearest integer, halves rounded up. */
  function RoundToInt(x: real): (n: int)
    ensures n as real - 0.5 <= x < n as real + 0.5
  {
    (x + 0.5).Floor
  }

  /** Truncated divisions by the clock's unit sizes compose: ms / 1000 / 60 is ms / 60000, and so on. */
  lemma TruncDivUnits(ms: int)
    ensures TruncDiv(TruncDiv(ms, 1000), 60) == TruncDiv(ms, 60000)
    ensures TruncDiv(TruncDiv(ms, 60000), 60) == TruncDiv(ms, 3600000)
  {
  }

  /** `isActive`: the run has started and has not been given an end time. */
  predicate ActiveSpan(startTime: int, endTime: int)
  {
    endTime == 0 && startTime > 0
  }

  /** `averageSpeed` in metres per second from metres and milliseconds; 0 for a non-positive duration. */
  function SpeedOver(distance: real, duration: int): (speed: real)
    ensures duration > 0 ==> speed * (duration as real / 1000.0) == distance
    ensures duration <= 0 ==> speed == 0.0
  {
    if duration > 0 then distance / (duration as real / 1000.0) else 0.0
  }

  /** `distanceInKm`: metres expressed in kilometres. */
  function MetresToKm(distance: real): (km: real)
    ensures km * 1000.0 == distance
  {
    distance / 1000.0
  }

  /** `durationInSeconds`: whole seconds of a millisecond duration, truncated toward zero. */
  function WholeSeconds(duration: int): (seconds: int)
    ensures duration >= 0 ==> 0 <= duration - 1000 * seconds < 1000
    ensures duration < 0 ==> -1000 < duration - 1000 * seconds <= 0
  {
    TruncDiv(duration, 1000)
  }
}
