/**
 * `FormatUtils`: the text the screens show for durations, distances, paces, speeds and calories.
 * `String.format` is modelled for the integer conversions (`%d`, `%02d`); the `%.Nf` conversions are
 * kept as a `Reading` (amount, decimals, unit) because their rounding is floating-point.
 */
module FormatUtils {
  import opened Common

  predicate IsDigit(c: char)
  {
    '0' <= c <= '9'
  }

  predicate AllDigits(s: string)
  {
    forall i :: 0 <= i < |s| ==> IsDigit(s[i])
  }

  function DigitChar(d: int): (c: char)
    requires 0 <= d < 10
    ensures IsDigit(c)
  {
    ('0' as int + d) as char
  }

  /** The decimal digits of `n`, most significant first, without leading zeros (`%d` of `n >= 0`). */
  function Digits(n: nat): (s: string)
    ensures |s| >= 1 && AllDigits(s)
    ensures |s| == 1 <==> n < 10
    ensures 10 <= n < 100 ==> |s| == 2
    ensures s[0] == '0' <==> n == 0
  {
    if n < 10 then [DigitChar(n)] else Digits(n / 10) + [DigitChar(n % 10)]
  }

  /** Reads a run of decimal digits back as a number. */
  function ParseDigits(s: string): int
  {
    if s == [] then 0 else ParseDigits(s[..|s| - 1]) * 10 + (s[|s| - 1] as int - '0' as int)
  }

  /** Reads an optionally signed decimal numeral back as a number. */
  function ParseSigned(s: string): int
  {
    if |s| > 0 && s[0] == '-' then -ParseDigits(s[1..]) else ParseDigits(s)
  }

  lemma {:induction false} DigitsRoundTrip(n: nat)
    ensures ParseDigits(Digits(n)) == n
  {
    if n >= 10 {
      var s := Digits(n / 10);
      assert (s + [DigitChar(n % 10)])[..|s|] == s;
      DigitsRoundTrip(n / 10);
    }
  }

  /** A leading zero does not change the value read back. */
  lemma {:induction false} LeadingZero(s: string)
    ensures ParseDigits("0" + s) == ParseDigits(s)
  {
    if s != [] {
      assert ("0" + s)[..|s|] == "0" + s[..|s| - 1];
      LeadingZero(s[..|s| - 1]);
    }
  }

  /** `%d` of an `Int` or `Long`, and `"$n"` in a string template. */
  function Signed(n: int): (s: string)
    ensures |s| >= 1
    ensures n >= 0 ==> AllDigits(s) && (|s| == 1 || s[0] != '0')
    ensures n < 0 ==> |s| >= 2 && s[0] == '-' && AllDigits(s[1..]) && s[1] != '0'
    ensures ParseSigned(s) == n
  {
    if n < 0 then
      DigitsRoundTrip(-n);
      assert ("-" + Digits(-n))[1..] == Digits(-n);
      "-" + Digits(-n)
    else
      DigitsRoundTrip(n);
      Digits(n)
  }

  /**
   * `%02d`: the decimal numeral, zero-padded to at least two characters. A negative number already
   * has two (sign and digit), so it is never padded.
   */
  function Pad2(n: int): (s: string)
    ensures |s| >= 2
    ensures 0 <= n < 100 ==> |s| == 2
    ensures n >= 0 ==> AllDigits(s) && (n >= 10 ==> s[0] != '0')
    ensures n < 0 ==> |s| >= 2 && s[0] == '-' && AllDigits(s[1..]) && s[1] != '0'
    ensures ParseSigned(s) == n
  {
    if 0 <= n < 10 then
      DigitsRoundTrip(n);
      LeadingZero(Digits(n));
      "0" + Digits(n)
    else
      Signed(n)
  }

  /** The pieces of `s` between occurrences of `sep` (like Kotlin's `split`). */
  function Split(s: string, sep: char): (parts: seq<string>)
    ensures |parts| >= 1
  {
    if s == [] then [[]]
    else
      var rest := Split(s[1..], sep);
      if s[0] == sep then [[]] + rest else [[s[0]] + rest[0]] + rest[1..]
  }

  lemma {:induction false} SplitWhole(a: string, sep: char)
    requires sep !in a
    ensures Split(a, sep) == [a]
  {
    if a != [] {
      SplitWhole(a[1..], sep);
      assert [a[0]] + a[1..] == a;
    }
  }

  lemma {:induction false} SplitJoin(a: string, b: string, sep: char)
    requires sep !in a
    ensures Split(a + [sep] + b, sep) == [a] + Split(b, sep)
  {
    if a == [] {
      assert (a + [sep] + b)[1..] == b;
    } else {
      assert (a + [sep] + b)[1..] == a[1..] + [sep] + b;
      SplitJoin(a[1..], b, sep);
      assert [a[0]] + a[1..] == a;
    }
  }

  /** The numbers written in the colon-separated fields of `text`. */
  function ReadFields(text: string): (values: seq<int>)
    ensures |values| == |Split(text, ':')|
  {
    var parts := Split(text, ':');
    seq(|parts|, i requires 0 <= i < |parts| => ParseSigned(parts[i]))
  }

  /** The hours, minutes (of the hour) and seconds (of the minute) of a millisecond count. */
  function TimeFields(ms: int): (fields: (int, int, int))
    ensures ms >= 0 ==>
              && fields.0 >= 0
              && 0 <= fields.1 < 60
              && 0 <= fields.2 < 60
              && 3600 * fields.0 + 60 * fields.1 + fields.2 == ms / 1000
  {
    var seconds := TruncRem(TruncDiv(ms, 1000), 60);
    var minutes := TruncRem(TruncDiv(ms, 1000 * 60), 60);
    var hours := TruncDiv(ms, 1000 * 60 * 60);
    TruncDivUnits(ms);
    (hours, minutes, seconds)
  }

  /**
   * `formatTime`: "HH:MM:SS" when the hour count is positive, otherwise "MM:SS"; for a
   * non-negative duration the five-character form is used exactly below one hour.
   */
  function FormatTime(milliseconds: int): (text: string)
    ensures |text| >= 5
    ensures milliseconds >= 0 ==> (|text| == 5 <==> milliseconds < 3_600_000)
  {
    var (hours, minutes, seconds) := TimeFields(milliseconds);
    if hours > 0 then Pad2(hours) + ":" + Pad2(minutes) + ":" + Pad2(seconds)
    else Pad2(minutes) + ":" + Pad2(seconds)
  }

  /**
   * For a non-negative duration the text has three fields exactly when there is a whole hour, every
   * field is at least two digits, and the fields read back as the hours, minutes and seconds.
   */
  lemma FormatTimeReadsBack(ms: int)
    requires ms >= 0
    ensures var (h, m, s) := TimeFields(ms);
            && ReadFields(FormatTime(ms)) == (if h > 0 then [h, m, s] else [m, s])
            && (h == 0 ==> |FormatTime(ms)| == 5)
            && forall part :: part in Split(FormatTime(ms), ':') ==> |part| >= 2 && AllDigits(part)
  {
    var (h, m, s) := TimeFields(ms);
    FormatTimeFields(ms);
    var parts := Split(FormatTime(ms), ':');
    assert ReadFields(FormatTime(ms)) == (if h > 0 then [h, m, s] else [m, s]) by {
      if h > 0 {
        assert parts == [Pad2(h), Pad2(m), Pad2(s)];
      } else {
        assert parts == [Pad2(m), Pad2(s)];
      }
    }
  }

  /** The colon-separated fields of `formatTime` are the padded hours (when positive), minutes and seconds. */
  lemma FormatTimeFields(ms: int)
    requires ms >= 0
    ensures var (h, m, s) := TimeFields(ms);
            Split(FormatTime(ms), ':') == if h > 0 then [Pad2(h), Pad2(m), Pad2(s)] else [Pad2(m), Pad2(s)]
  {
    var (h, m, s) := TimeFields(ms);
    var ph, pm, ps := Pad2(h), Pad2(m), Pad2(s);
    assert ':' !in ph && ':' !in pm && ':' !in ps by {
      assert AllDigits(ph) && AllDigits(pm) && AllDigits(ps);
    }
    assert Split(pm + [':'] + ps, ':') == [pm, ps] by {
      SplitWhole(ps, ':');
      SplitJoin(pm, ps, ':');
    }
    if h > 0 {
      assert FormatTime(ms) == ph + [':'] + (pm + [':'] + ps);
      assert Split(ph + [':'] + (pm + [':'] + ps), ':') == [ph, pm, ps] by {
        SplitJoin(ph, pm + [':'] + ps, ':');
      }
    } else {
      assert FormatTime(ms) == pm + [':'] + ps;
    }
  }

  /** Durations with the same whole-second count are shown identically. */
  lemma SameSecondSameText(a: int, b: int)
    requires TruncDiv(a, 1000) == TruncDiv(b, 1000)
    ensures FormatTime(a) == FormatTime(b)
  {
    TruncDivUnits(a);
    TruncDivUnits(b);
    assert TruncDiv(a, 3600000) == TruncDiv(TruncDiv(TruncDiv(a, 1000), 60), 60);
    assert TruncDiv(b, 3600000) == TruncDiv(TruncDiv(TruncDiv(b, 1000), 60), 60);
  }

  /** A number rendered with `String.format("%.<decimals>f <unit>", amount)`. */
  datatype Reading = Reading(amount: real, decimals: nat, unit: string)

  /** `formatDistance`: kilometres with two decimals from 1000 m on, otherwise whole metres. */
  function FormatDistance(meters: real): (r: Reading)
    ensures r.unit == "km" <==> meters >= 1000.0
    ensures r.unit == "km" ==> r.decimals == 2 && r.amount * 1000.0 == meters
    ensures r.unit != "km" ==> r.unit == "m" && r.decimals == 0 && r.amount == meters
  {
    if meters >= 1000.0 then Reading(meters / 1000.0, 2, "km") else Reading(meters, 0, "m")
  }

  /** `formatSpeed`: metres per second shown as km/h with one decimal. */
  function FormatSpeed(speedMps: real): (r: Reading)
    ensures r.unit == "km/h" && r.decimals == 1
    ensures r.amount * 1000.0 == speedMps * 3600.0
  {
    Reading(speedMps * 3.6, 1, "km/h")
  }

  /** From 1000 m on, the distance shown is `distanceInKm`. */
  lemma DistanceShownInKm(meters: real)
    requires meters >= 1000.0
    ensures FormatDistance(meters) == Reading(MetresToKm(meters), 2, "km")
  {
  }

  /**
   * The km/h shown for a run's `averageSpeed`, times the hours it lasted, is the kilometres it
   * covered (`distanceInKm`).
   */
  lemma SpeedShownPerHour(distance: real, duration: int)
    requires duration > 0
    ensures FormatSpeed(SpeedOver(distance, duration)).amount * (duration as real / 3_600_000.0) == MetresToKm(distance)
  {
    var speed := SpeedOver(distance, duration);
    var seconds := duration as real / 1000.0;
    assert speed * seconds == distance;
    assert FormatSpeed(speed).amount == speed * 3.6;
    assert speed * 3.6 * (duration as real / 3_600_000.0) == speed * seconds / 1000.0;
  }

  /** `formatCalories`: the decimal integer followed by " cal". */
  function FormatCalories(calories: int): (text: string)
    ensures |text| >= 5 && text[|text| - 4..] == " cal"
    ensures ParseSigned(text[..|text| - 4]) == calories
  {
    var number := Signed(calories);
    assert (number + " cal")[..|number|] == number;
    number + " cal"
  }

  /** The text `formatPace` shows when there is no usable pace. */
  const NoPace: string := "--:--"

  predicate UsablePace(pace: KFloat)
  {
    pace.Finite? && pace.value > 0.0
  }

  /** The "%d:%02d" text of a pace split into minutes and seconds. */
  function PaceText(minutes: int, seconds: int): (text: string)
    requires minutes >= 0
    ensures text != NoPace
    ensures ReadFields(text) == [minutes, seconds]
  {
    var pm, ps := Signed(minutes), Pad2(seconds);
    assert ':' !in pm && ':' !in ps by {
      assert forall c :: c in pm + ps ==> c != ':';
    }
    SplitWhole(ps, ':');
    SplitJoin(pm, ps, ':');
    var text := pm + [':'] + ps;
    assert text[0] != '-';
    text
  }

  /**
   * `formatPace` as written: "--:--" for a pace that is not positive, infinite or NaN; otherwise the
   * integer part as minutes and the rounded fraction of a minute as seconds, "%d:%02d".
   */
  function FormatPace(pace: KFloat): (text: string)
    ensures text == NoPace <==> !UsablePace(pace)
  {
    if !UsablePace(pace) then NoPace
    else
      var minutes := TruncToInt(pace.value);
      var seconds := RoundToInt((pace.value - minutes as real) * 60.0);
      PaceText(minutes, seconds)
  }

  /** The minutes field is the integer part of the pace; the seconds field lies in 0..60 (60 included). */
  lemma FormatPaceFields(p: real)
    requires p > 0.0
    ensures var fields := ReadFields(FormatPace(Finite(p)));
            && |fields| == 2
            && fields[0] == p.Floor
            && 0 <= fields[1] <= 60
  {
    assert TruncToInt(p) == p.Floor;
  }

  /** The rounding of the seconds is not carried into the minutes: a pace of 5.995 shows as "5:60". */
  lemma FormatPaceShowsSixtySeconds()
    ensures FormatPace(Finite(5.995)) == "5:60"
  {
    assert TruncToInt(5.995) == 5;
    assert RoundToInt((5.995 - 5.0) * 60.0) == 60;
    assert FormatPace(Finite(5.995)) == PaceText(5, 60);
    assert Signed(5) == "5";
    assert Digits(60) == Digits(6) + [DigitChar(0)];
    assert Pad2(60) == "60";
  }

  /** `formatPace` with the rounding carried: total seconds are rounded first and then split. */
  function FormatPaceCarried(pace: KFloat): (text: string)
    ensures text == NoPace <==> !UsablePace(pace)
  {
    if !UsablePace(pace) then NoPace
    else
      var totalSeconds := RoundToInt(pace.value * 60.0);
      PaceText(totalSeconds / 60, totalSeconds % 60)
  }

  /**
   * For a usable pace, the carried text has a minutes and a seconds field, the seconds lie in 0..59,
   * and together they are the pace in seconds, rounded.
   */
  lemma FormatPaceCarriedFields(p: real)
    requires p > 0.0
    ensures var fields := ReadFields(FormatPaceCarried(Finite(p)));
            && |fields| == 2
            && 0 <= fields[1] < 60
            && 60 * fields[0] + fields[1] == RoundToInt(p * 60.0)
  {
    var t := RoundToInt(p * 60.0);
    assert FormatPaceCarried(Finite(p)) == PaceText(t / 60, t % 60);
  }

  /** The carried form differs from `formatPace` only where the latter shows 60 seconds. */
  lemma CarriedAgreesBelowSixty(p: real)
    requires p > 0.0
    ensures var m := p.Floor;
            var s := RoundToInt((p - m as real) * 60.0);
            && (s < 60 ==> FormatPaceCarried(Finite(p)) == FormatPace(Finite(p)))
            && (s == 60 ==> FormatPaceCarried(Finite(p)) == PaceText(m + 1, 0))
  {
    var m := p.Floor;
    var s := RoundToInt((p - m as real) * 60.0);
    var t := RoundToInt(p * 60.0);
    PaceSeconds(p);
    SplitMinutes(t, m, s);
    PaceTexts(p);
  }

  /** Both pace texts of a usable pace, unfolded into their minutes and seconds fields. */
  lemma PaceTexts(p: real)
    requires p > 0.0
    ensures var m := p.Floor;
            var t := RoundToInt(p * 60.0);
            && t >= 0
            && FormatPace(Finite(p)) == PaceText(m, RoundToInt((p - m as real) * 60.0))
            && FormatPaceCarried(Finite(p)) == PaceText(t / 60, t % 60)
  {
    PaceTextAsWritten(p);
    PaceTextCarried(p);
  }

  lemma PaceTextAsWritten(p: real)
    requires p > 0.0
    ensures FormatPace(Finite(p)) == PaceText(p.Floor, RoundToInt((p - p.Floor as real) * 60.0))
  {
    assert UsablePace(Finite(p));
    assert TruncToInt(p) == p.Floor;
  }

  lemma PaceTextCarried(p: real)
    requires p > 0.0
    ensures var t := RoundToInt(p * 60.0);
            t >= 0 && FormatPaceCarried(Finite(p)) == PaceText(t / 60, t % 60)
  {
    assert UsablePace(Finite(p));
  }

  /** A total of `60 m + s` seconds with `s` in 0..60 splits into `m` minutes and `s` seconds, carrying a 60. */
  lemma SplitMinutes(t: int, m: int, s: int)
    requires 0 <= s <= 60 && t == 60 * m + s
    ensures s < 60 ==> t / 60 == m && t % 60 == s
    ensures s == 60 ==> t / 60 == m + 1 && t % 60 == 0
  {
  }

  /** The rounded seconds of the fraction lie in 0..60, and with the whole minutes make up the rounded total. */
  lemma PaceSeconds(p: real)
    requires p > 0.0
    ensures var m := p.Floor;
            var s := RoundToInt((p - m as real) * 60.0);
            && 0 <= s <= 60
            && RoundToInt(p * 60.0) == 60 * m + s
  {
    var m := p.Floor;
    var x := (p - m as real) * 60.0;
    assert 0.0 <= x < 60.0;
    assert p * 60.0 == x + (60 * m) as real;
    RoundShift(x, 60 * m);
  }

  /** Rounding commutes with adding a whole number. */
  lemma RoundShift(x: real, k: int)
    ensures RoundToInt(x + k as real) == RoundToInt(x) + k
  {
    var n := RoundToInt(x + k as real);
    assert (n - k) as real - 0.5 <= x < (n - k) as real + 0.5;
  }
}
