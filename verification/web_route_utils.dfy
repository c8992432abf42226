/** The web client’s duration estimate, the plausibility adjustment of a
    routing service’s duration, and the duration and distance labels. */
module WebRouteUtils {
  import opened Wrappers
  import opened Numeric
  import opened Text
  import opened WebTypes
  import Routes

  /** `AVERAGE_SPEEDS` in m/s; Transit has no entry. */
  function Speed(m: WebMode): (r: Option<real>)
    ensures r.None? <==> m == Transit
    ensures r.Some? ==> r.value > 0.0
  {
    match m
    case Walking => Some(1.4)
    case Bicycling => Some(4.2)
    case Driving => Some(13.9)
    case Transit => None
  }

  /** The buffer for stops and traffic: 15% when driving, 10% otherwise. */
  function BufferMultiplier(m: WebMode): (k: real)
    ensures k > 1.0
  {
    if m == Driving then 1.15 else 1.1
  }

  /** The unrounded estimate `distance / speed * buffer`. */
  function RawEstimate(distance: real, speed: real, m: WebMode): real
    requires speed > 0.0
  {
    distance / speed * BufferMultiplier(m)
  }

  /** `calculateDuration`: 0 without a speed or for a non-positive distance,
      else the buffered travel time rounded to whole seconds. */
  function CalculateDuration(distance: real, m: WebMode): (r: int)
    ensures r >= 0
    ensures r == 0 <== distance <= 0.0 || m == Transit
    ensures distance > 0.0 && m != Transit ==>
      var e := RawEstimate(distance, Speed(m).value, m);
      e > 0.0 && Abs(r as real - e) <= 0.5
  {
    match Speed(m)
    case None => 0
    case Some(speed) =>
      if distance <= 0.0 then 0
      else
        var e := RawEstimate(distance, speed, m);
        PositiveEstimate(distance, speed, m);
        Round(e)
  }

  lemma PositiveEstimate(distance: real, speed: real, m: WebMode)
    requires distance > 0.0 && speed > 0.0
    ensures RawEstimate(distance, speed, m) > 0.0
  {
    assert distance / speed > 0.0;
  }

  lemma RoundMonotone(x: real, y: real)
    requires x <= y
    ensures Round(x) <= Round(y)
  {
  }

  /** A longer distance never gives a shorter estimate. */
  lemma {:induction false} CalculateDurationMonotone(d1: real, d2: real, m: WebMode)
    requires d1 <= d2
    ensures CalculateDuration(d1, m) <= CalculateDuration(d2, m)
  {
    if m != Transit && d1 > 0.0 {
      var speed := Speed(m).value;
      var k := BufferMultiplier(m);
      assert d1 / speed <= d2 / speed by {
        MulMonotone(1.0 / speed, d1, d2);
      }
      MulMonotone(k, d1 / speed, d2 / speed);
      RoundMonotone(RawEstimate(d1, speed, m), RawEstimate(d2, speed, m));
    }
  }

  /** The deviation test `|api - c| / c * 100 > 50` for a positive `c`. */
  predicate Implausible(api: real, c: real)
    requires c > 0.0
  {
    Abs(api - c) / c * 100.0 > 50.0
  }

  lemma ImplausibleIff(api: real, c: real)
    requires c > 0.0
    ensures Implausible(api, c) <==> api < 0.5 * c || api > 1.5 * c
  {
    var q := Abs(api - c) / c;
    assert Abs(api - c) == q * c;
    if q * 100.0 > 50.0 {
      assert q > 0.5;
      MulMonotone(c, 0.5, q);
      assert Abs(api - c) > 0.5 * c;
    } else {
      assert q <= 0.5;
      MulMonotone(c, q, 0.5);
      assert Abs(api - c) <= 0.5 * c;
    }
  }

  /** `adjustDuration`. With c = `calculateDuration(distance, mode)`: when c is
      0 the result is 0 (a nonzero API value deviates by an infinite
      percentage and c is returned; a zero API value makes the percentage NaN
      and the clamp into [0, 0] gives 0). Otherwise an API value more than 50%
      away from c is replaced by c, and any other is clamped into
      [0.7c, 2c]. */
  function AdjustDuration(api: real, distance: real, m: WebMode): (r: real)
    ensures var c := CalculateDuration(distance, m) as real;
      && (c == 0.0 ==> r == 0.0)
      && (c > 0.0 ==> 0.7 * c <= r <= 2.0 * c)
  {
    var c := CalculateDuration(distance, m) as real;
    if c == 0.0 then 0.0
    else if Implausible(api, c) then c
    else ClampReal(api, 0.7 * c, 2.0 * c)
  }

  /** The adjustment case by case: an API value outside [0.5c, 1.5c] is
      replaced by c, one in [0.5c, 0.7c) is raised to 0.7c, and one in
      [0.7c, 1.5c] is kept as is; the upper clamp never fires. */
  lemma AdjustDurationCases(api: real, distance: real, m: WebMode)
    requires CalculateDuration(distance, m) > 0
    ensures var c := CalculateDuration(distance, m) as real;
      AdjustDuration(api, distance, m) ==
        if api < 0.5 * c || api > 1.5 * c then c
        else if api < 0.7 * c then 0.7 * c
        else api
  {
    ImplausibleIff(api, CalculateDuration(distance, m) as real);
  }

  /** Without a speed or a positive distance there is nothing to adjust. */
  lemma AdjustDurationWithoutEstimate(api: real, distance: real, m: WebMode)
    requires distance <= 0.0 || m == Transit
    ensures AdjustDuration(api, distance, m) == 0.0
  {
  }

  /** `formatDuration`’s `Math.floor(s / 3600)` and
      `Math.floor((s % 3600) / 60)`. */
  function DurationParts(s: real): (hm: (int, int))
    ensures s >= 0.0 ==> hm == (s.Floor / 3600, (s.Floor % 3600) / 60)
    ensures s < 0.0 ==> hm.0 < 0 && -60 <= hm.1 <= 0
  {
    if s >= 0.0 then
      FloorDiv(s, 3600);
      FloorOfFMod(s, 3600);
      FloorDiv(FMod(s, 3600.0), 60);
      (Floor(s / 3600.0), Floor(FMod(s, 3600.0) / 60.0))
    else
      (Floor(s / 3600.0), Floor(FMod(s, 3600.0) / 60.0))
  }

  lemma FloorDiv(d: real, k: nat)
    requires d >= 0.0 && k > 0
    ensures Floor(d / k as real) == d.Floor / k
  {
    TruncDiv(d, k);
    assert d / k as real >= 0.0;
  }

  /** For a non-negative duration the web and desktop clients split it into
      the same hours and minutes. */
  lemma DurationPartsAgree(s: real)
    requires s >= 0.0
    ensures DurationParts(s) == Routes.DurationParts(s)
  {
  }

  /** `formatDuration`: "{h}h {m}min" with hours, else "{m}min". For a
      non-negative duration the label names the whole hours, from one hour
      up, and the leftover whole minutes; seconds are dropped. */
  function FormatDuration(s: real): (text: string)
    ensures s >= 0.0 ==> var (h, m) := DurationParts(s);
      && h >= 0 && 0 <= m < 60
      && (h * 3600 + m * 60) as real <= s < (h * 3600 + m * 60 + 60) as real
      && text == (if s >= 3600.0 then NatToString(h) + "h " else "") + NatToString(m) + "min"
    ensures s < 0.0 ==> var (h, m) := DurationParts(s);
      && -60 <= m <= 0
      && text == IntToString(m) + "min"
  {
    var (h, m) := DurationParts(s);
    if s >= 0.0 then Routes.DurationPartsBracket(s); Format(h, m) else Format(h, m)
  }

  function Format(h: int, m: int): string {
    if h > 0 then IntToString(h) + "h " + IntToString(m) + "min" else IntToString(m) + "min"
  }

  /** `formatDistance`: rounded metres below 1000, else kilometres with two
      decimals. */
  /** The label reads back as the distance: to the metre below 1 km, to ten
      metres from 1 km up. */
  function FormatDistance(meters: real): (s: string)
    ensures meters < 1000.0 ==>
      && |s| >= 2 && s[|s| - 2..] == " m"
      && s[..|s| - 2] == IntToString(Round(meters))
      && Abs(Round(meters) as real - meters) <= 0.5
    ensures meters >= 1000.0 ==> Labelled(s, " km", Routes.Kilometres(meters), 2)
  {
    if meters < 1000.0 then
      var s := IntToString(Round(meters)) + " m";
      assert s[..|s| - 2] == IntToString(Round(meters));
      s
    else
      FixedWithUnit(Routes.Kilometres(meters), 2, " km")
  }

  /** For a non-negative distance the web and desktop clients print the
      same distance label. */
  lemma FormatDistanceAgrees(meters: real)
    requires meters >= 0.0
    ensures FormatDistance(meters) == Routes.FormattedDistance(Routes.NewRoute().(totalDistance := meters))
  {
    var r := Routes.NewRoute().(totalDistance := meters);
    if meters < 1000.0 {
      WholeMetres(meters);
      assert Routes.FormattedDistance(r) == FixedWithUnit(meters, 0, " m");
    }
  }

  /** With no decimals a non-negative number prints as its rounded value. */
  lemma WholeMetres(x: real)
    requires x >= 0.0
    ensures FixedWithUnit(x, 0, " m") == IntToString(Round(x)) + " m"
  {
    assert ScaledMagnitude(x, 0) == Round(x);
    assert Fixed(x, 0) == IntToString(Round(x));
  }
}
