/** The data behind the weekly weather chart: for each of 48 weeks, the
    highest of the week's maximum temperatures, the lowest of its minimum
    temperatures, and the chance of significant snowfall. */
module WeeklyWeatherChart {
  import opened Wrappers

  datatype Elevation = Top | Middle | Bottom

  /** One elevation's forecast: per week, the lists of daily maximum and
      minimum temperatures, and per week the snowfall chance in percent. */
  datatype Forecast = Forecast(
    weeksMax: seq<seq<real>>,
    weeksMin: seq<seq<real>>,
    significantSnowfall: seq<real>)

  /** Forecasts by elevation; an elevation may have none. */
  datatype Forecasts = Forecasts(top: Option<Forecast>, middle: Option<Forecast>, bottom: Option<Forecast>)

  /** A plotted temperature: `null` when the week has no list, the extreme
      of the list otherwise; `Math.max()` and `Math.min()` of an empty list
      give minus and plus infinity. */
  datatype Extreme = NoData | Value(v: real) | NegInfinity | PosInfinity

  datatype WeekRow = WeekRow(week: nat, maxTemperature: Extreme, minTemperature: Extreme, snowfallChance: real)

  const Weeks: nat := 48

  function Select(fs: Forecasts, e: Elevation): Option<Forecast> {
    match e
    case Top => fs.top
    case Middle => fs.middle
    case Bottom => fs.bottom
  }

  ghost predicate IsGreatest(v: real, xs: seq<real>) {
    v in xs && forall x :: x in xs ==> x <= v
  }

  ghost predicate IsLeast(v: real, xs: seq<real>) {
    v in xs && forall x :: x in xs ==> v <= x
  }

  /** `Math.max(...xs)`. */
  function Max(xs: seq<real>): (r: Extreme)
    ensures |xs| == 0 <==> r == NegInfinity
    ensures |xs| > 0 ==> r.Value? && IsGreatest(r.v, xs)
  {
    if |xs| == 0 then NegInfinity
    else
      assert xs == [xs[0]] + xs[1..];
      if |xs| == 1 then Value(xs[0])
      else
        var m := Max(xs[1..]).v;
        Value(if xs[0] >= m then xs[0] else m)
  }

  /** `Math.min(...xs)`. */
  function Min(xs: seq<real>): (r: Extreme)
    ensures |xs| == 0 <==> r == PosInfinity
    ensures |xs| > 0 ==> r.Value? && IsLeast(r.v, xs)
  {
    if |xs| == 0 then PosInfinity
    else
      assert xs == [xs[0]] + xs[1..];
      if |xs| == 1 then Value(xs[0])
      else
        var m := Min(xs[1..]).v;
        Value(if xs[0] <= m then xs[0] else m)
  }

  /** The row of week `i`. */
  function WeekRowOf(f: Forecast, i: nat): WeekRow {
    WeekRow(
      i,
      if i < |f.weeksMax| then Max(f.weeksMax[i]) else NoData,
      if i < |f.weeksMin| then Min(f.weeksMin[i]) else NoData,
      if i < |f.significantSnowfall| && f.significantSnowfall[i] != 0.0 then f.significantSnowfall[i] else 0.0)
  }

  /** `chartData`: no rows without a forecast for the elevation; otherwise
      48 weekly rows. A week's maximum is the largest of its maximum list
      and its minimum the smallest of its minimum list, `null` when the
      week has no list; the snowfall chance is the week's value, 0 when
      the week has none. */
  function ChartData(fs: Forecasts, e: Elevation): (rows: seq<WeekRow>)
    ensures Select(fs, e).None? ==> rows == []
    ensures Select(fs, e).Some? ==> |rows| == Weeks
    ensures forall i :: 0 <= i < |rows| ==>
              var f := Select(fs, e).value;
              var row := rows[i];
              && row.week == i
              && (row.maxTemperature == NoData <==> i >= |f.weeksMax|)
              && (row.minTemperature == NoData <==> i >= |f.weeksMin|)
              && (i < |f.weeksMax| && |f.weeksMax[i]| > 0 ==>
                    row.maxTemperature.Value? && IsGreatest(row.maxTemperature.v, f.weeksMax[i]))
              && (i < |f.weeksMin| && |f.weeksMin[i]| > 0 ==>
                    row.minTemperature.Value? && IsLeast(row.minTemperature.v, f.weeksMin[i]))
              && (i < |f.weeksMax| && |f.weeksMax[i]| == 0 ==> row.maxTemperature == NegInfinity)
              && (i < |f.weeksMin| && |f.weeksMin[i]| == 0 ==> row.minTemperature == PosInfinity)
              && row.snowfallChance == (if i < |f.significantSnowfall| then f.significantSnowfall[i] else 0.0)
  {
    match Select(fs, e)
    case None => []
    case Some(f) => seq(Weeks, i requires 0 <= i => WeekRowOf(f, i))
  }
}
