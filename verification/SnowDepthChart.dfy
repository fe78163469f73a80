/** The data behind the snow-depth distribution chart: for every date of
    the season, the readings of all past years for that date, summarised
    as minimum, quartiles, median and maximum. */
module SnowDepthChart {
  import opened Wrappers
  import opened Calendar
  import opened Sorting

  /** One year's readings, indexed by month slot and then by day of month
      minus one; `None` is a missing (`null`) reading. Depths are whole
      centimetres. */
  type YearReadings = seq<seq<Option<int>>>

  /** `snowDepths`: the year of the first row (unused beyond the presence
      check) and the readings, year by year. Either may be missing. */
  datatype SnowDepths = SnowDepths(firstYear: Option<int>, data: Option<seq<YearReadings>>)

  datatype Stats = Stats(min: real, q1: real, median: real, q3: real, max: real)

  /** One chart row. `None` stands for the five statistics all being `null`,
      which the chart shows as a gap, not as a depth of zero. */
  datatype BandRow = BandRow(date: MonthDay, stats: Option<Stats>)

  /** The month each slot of a year's readings holds. */
  const MonthMapping: seq<int> := [1, 2, 3, 4, 12]

  /** The slot that holds `month`, if any. */
  function SlotOf(month: int): (r: Option<nat>)
    ensures r.Some? <==> month in MonthMapping
    ensures r.Some? ==> r.value < |MonthMapping| && MonthMapping[r.value] == month
  {
    if month == 1 then Some(0)
    else if month == 2 then Some(1)
    else if month == 3 then Some(2)
    else if month == 4 then Some(3)
    else if month == 12 then Some(4)
    else None
  }

  /** The non-null reading a year holds for date `k`, if any. */
  function ReadingAt(yd: YearReadings, k: MonthDay): Option<int> {
    match SlotOf(k.month)
    case None => None
    case Some(i) =>
      if i < |yd| && 1 <= k.day <= |yd[i]| then yd[i][k.day - 1] else None
  }

  function YearReading(yd: YearReadings, k: MonthDay): seq<int> {
    match ReadingAt(yd, k)
    case Some(v) => [v]
    case None => []
  }

  /** The years whose reading for date `k` is `v`. */
  ghost function YearsWith(data: seq<YearReadings>, k: MonthDay, v: int): set<int> {
    set y | 0 <= y < |data| && ReadingAt(data[y], k) == Some(v)
  }

  /** The last year adds itself to the years of its own reading only. */
  lemma YearsStep(data: seq<YearReadings>, k: MonthDay)
    requires |data| > 0
    ensures forall v :: |YearsWith(data, k, v)| ==
              |YearsWith(data[..|data| - 1], k, v)| + (if ReadingAt(data[|data| - 1], k) == Some(v) then 1 else 0)
  {
    var front := data[..|data| - 1];
    forall v
      ensures |YearsWith(data, k, v)| ==
              |YearsWith(front, k, v)| + (if ReadingAt(data[|data| - 1], k) == Some(v) then 1 else 0)
    {
      var a, b := YearsWith(front, k, v), YearsWith(data, k, v);
      assert forall y :: 0 <= y < |front| ==> front[y] == data[y];
      if ReadingAt(data[|data| - 1], k) == Some(v) {
        assert b == a + {|data| - 1};
        assert |data| - 1 !in a;
      } else {
        assert b == a;
      }
    }
  }

  /** Appending the last year's reading to a list counting the earlier
      years' readings gives a list counting every year's. */
  lemma CountsAppend(data: seq<YearReadings>, k: MonthDay, a: seq<int>)
    requires |data| > 0
    requires forall v :: multiset(a)[v] == |YearsWith(data[..|data| - 1], k, v)|
    ensures forall v :: multiset(a + YearReading(data[|data| - 1], k))[v] == |YearsWith(data, k, v)|
  {
    YearsStep(data, k);
    var t := YearReading(data[|data| - 1], k);
    assert multiset(a + t) == multiset(a) + multiset(t);
  }

  /** A list counting each year's reading holds exactly the values some
      year read. */
  lemma CountsGiveMembership(data: seq<YearReadings>, k: MonthDay, r: seq<int>)
    requires forall v :: multiset(r)[v] == |YearsWith(data, k, v)|
    ensures forall v :: v in r <==> exists y :: 0 <= y < |data| && ReadingAt(data[y], k) == Some(v)
  {
    forall v
      ensures v in r <==> exists y :: 0 <= y < |data| && ReadingAt(data[y], k) == Some(v)
    {
      var ys := YearsWith(data, k, v);
      if v in r {
        assert multiset(r)[v] > 0;
        var y :| y in ys;
      }
      if exists y :: 0 <= y < |data| && ReadingAt(data[y], k) == Some(v) {
        var y :| 0 <= y < |data| && ReadingAt(data[y], k) == Some(v);
        assert y in ys;
      }
    }
  }

  /** The readings for date `k`, one per year that has one, in year order:
      each value occurs once for every year that read it. */
  function Bucket(data: seq<YearReadings>, k: MonthDay): (r: seq<int>)
    ensures |r| <= |data|
    ensures forall v :: v in r <==> exists y :: 0 <= y < |data| && ReadingAt(data[y], k) == Some(v)
    ensures forall v :: multiset(r)[v] == |YearsWith(data, k, v)|
  {
    if |data| == 0 then []
    else
      var front := data[..|data| - 1];
      var r := Bucket(front, k) + YearReading(data[|data| - 1], k);
      CountsAppend(data, k, Bucket(front, k));
      CountsGiveMembership(data, k, r);
      r
  }

  /** What slot `i` of year `yd` adds to the bucket of `k` once its first
      `j` days have been visited. */
  function SlotPrefix(yd: YearReadings, i: nat, j: int, k: MonthDay): seq<int> {
    if SlotOf(k.month) == Some(i) && k.day - 1 < j then YearReading(yd, k) else []
  }

  /** What year `yd` adds to the bucket of `k` once its first `i` slots
      have been visited. */
  function YearPrefix(yd: YearReadings, i: nat, k: MonthDay): seq<int> {
    match SlotOf(k.month)
    case None => []
    case Some(s) => if s < i then YearReading(yd, k) else []
  }

  /** Visiting day `j` of slot `i` adds its reading to the bucket of its own
      date and to no other. */
  lemma SlotStep(yd: YearReadings, i: nat, j: nat, k: MonthDay)
    requires i < |yd| && j < |yd[i]|
    ensures SlotPrefix(yd, i, j + 1, k) ==
            SlotPrefix(yd, i, j, k) +
            (if yd[i][j].Some? && i < |MonthMapping| && k == MonthDay(MonthMapping[i], j + 1)
             then [yd[i][j].value] else [])
  {
  }

  /** Once every day of slot `i` is visited, the slot has added all it holds. */
  lemma SlotDone(yd: YearReadings, i: nat, k: MonthDay)
    requires i < |yd|
    ensures YearPrefix(yd, i + 1, k) == YearPrefix(yd, i, k) + SlotPrefix(yd, i, |yd[i]|, k)
  {
  }

  /** Once every slot is visited, the year has added its reading for `k`. */
  lemma YearDone(yd: YearReadings, k: MonthDay)
    ensures YearPrefix(yd, |yd|, k) == YearReading(yd, k)
  {
  }

  /** Appends the non-null readings of slot `i` of one year to the lists
      of their dates, skipping dates that have no list. */
  method AddSlot(buckets: map<MonthDay, seq<int>>, yd: YearReadings, i: nat)
    returns (out: map<MonthDay, seq<int>>)
    requires i < |yd|
    ensures out.Keys == buckets.Keys
    ensures forall k :: k in out ==> out[k] == buckets[k] + SlotPrefix(yd, i, |yd[i]|, k)
  {
    out := buckets;
    var j := 0;
    while j < |yd[i]|
      invariant 0 <= j <= |yd[i]|
      invariant out.Keys == buckets.Keys
      invariant forall k :: k in out ==> out[k] == buckets[k] + SlotPrefix(yd, i, j, k)
    {
      var next := out;
      var reading := yd[i][j];
      if reading.Some? && i < |MonthMapping| {
        var key := MonthDay(MonthMapping[i], j + 1);
        if key in out {
          next := out[key := out[key] + [reading.value]];
        }
      }
      forall k | k in next
        ensures next[k] == buckets[k] + SlotPrefix(yd, i, j + 1, k)
      {
        SlotStep(yd, i, j, k);
      }
      out := next;
      j := j + 1;
    }
  }

  /** Appends every non-null reading of one year to the list of its date. */
  method AddYear(buckets: map<MonthDay, seq<int>>, yd: YearReadings)
    returns (out: map<MonthDay, seq<int>>)
    ensures out.Keys == buckets.Keys
    ensures forall k :: k in out ==> out[k] == buckets[k] + YearReading(yd, k)
  {
    out := buckets;
    var i := 0;
    while i < |yd|
      invariant 0 <= i <= |yd|
      invariant out.Keys == buckets.Keys
      invariant forall k :: k in out ==> out[k] == buckets[k] + YearPrefix(yd, i, k)
    {
      var next := AddSlot(out, yd, i);
      forall k | k in next
        ensures next[k] == buckets[k] + YearPrefix(yd, i + 1, k)
      {
        SlotDone(yd, i, k);
      }
      out := next;
      i := i + 1;
    }
    forall k | k in out
      ensures out[k] == buckets[k] + YearReading(yd, k)
    {
      YearDone(yd, k);
    }
  }

  /** The per-date buckets as the chart builds them: an empty list for each
      of `dates`, then every non-null reading of every year appended to the
      list of its date, if that date has one. */
  method BuildBuckets(data: seq<YearReadings>, dates: seq<MonthDay>) returns (buckets: map<MonthDay, seq<int>>)
    ensures forall k :: k in buckets <==> k in dates
    ensures forall k :: k in buckets ==> buckets[k] == Bucket(data, k)
  {
    buckets := map k | k in dates :: [];
    var y := 0;
    while y < |data|
      invariant 0 <= y <= |data|
      invariant forall k :: k in buckets <==> k in dates
      invariant forall k :: k in buckets ==> buckets[k] == Bucket(data[..y], k)
    {
      buckets := AddYear(buckets, data[y]);
      assert data[..y + 1][..y] == data[..y];
      y := y + 1;
    }
    assert data[..y] == data;
  }

  // ---------------------------------------------------------------------
  // Quantiles
  // ---------------------------------------------------------------------

  /** Index of the sorted reading at or below the `q` position. */
  function QuantileBase(n: nat, q: real): (b: int)
    requires n > 0 && 0.0 <= q <= 1.0
    ensures 0 <= b < n
    ensures b as real <= (n - 1) as real * q < b as real + 1.0
  {
    var pos := (n - 1) as real * q;
    ScaleBounds((n - 1) as real, q);
    assert pos.Floor as real <= pos < pos.Floor as real + 1.0;
    assert pos.Floor as real <= (n - 1) as real;
    pos.Floor
  }

  lemma ScaleBounds(x: real, q: real)
    requires 0.0 <= x && 0.0 <= q <= 1.0
    ensures 0.0 <= x * q <= x
  {
    MulNonNeg(x, q);
    MulNonNeg(x, 1.0 - q);
    assert x * (1.0 - q) == x - x * q;
  }

  lemma MulNonNeg(x: real, y: real)
    requires 0.0 <= x && 0.0 <= y
    ensures 0.0 <= x * y
  {
  }

  /** `quantile(arr, q)`: linear interpolation between the two readings
      around position `(n - 1) * q`, or the reading at that position when
      it is the last one. */
  function Quantile(arr: seq<int>, q: real): (r: real)
    requires |arr| > 0 && 0.0 <= q <= 1.0
    ensures Sorted(arr) ==> arr[0] as real <= r <= arr[|arr| - 1] as real
  {
    var pos := (|arr| - 1) as real * q;
    var base := QuantileBase(|arr|, q);
    var rest := pos - base as real;
    if base + 1 < |arr| then
      LerpBetween(arr[base] as real, arr[base + 1] as real, rest);
      Lerp(arr[base] as real, arr[base + 1] as real, rest)
    else
      arr[base] as real
  }

  /** The point a fraction `t` of the way from `a` to `b`. */
  function Lerp(a: real, b: real, t: real): real {
    a + t * (b - a)
  }

  /** An interpolated value lies between its two end points. */
  lemma LerpBetween(a: real, b: real, t: real)
    requires 0.0 <= t <= 1.0
    ensures a <= b ==> a <= Lerp(a, b, t) <= b
  {
    if a <= b {
      var d := b - a;
      MulNonNeg(t, d);
      MulNonNeg(1.0 - t, d);
      assert (1.0 - t) * d == d - t * d;
    }
  }

  /** Moving further from `a` towards a `b` no smaller never goes down. */
  lemma LerpMonotone(a: real, b: real, t1: real, t2: real)
    requires a <= b && t1 <= t2
    ensures Lerp(a, b, t1) <= Lerp(a, b, t2)
  {
    var d := b - a;
    MulNonNeg(t2 - t1, d);
    assert (t2 - t1) * d == t2 * d - t1 * d;
  }

  /** Quantile 0 is the first reading and quantile 1 the last. */
  lemma QuantileEnds(arr: seq<int>)
    requires |arr| > 0
    ensures Quantile(arr, 0.0) == arr[0] as real
    ensures Quantile(arr, 1.0) == arr[|arr| - 1] as real
  {
  }

  /** A single reading is every quantile. */
  lemma QuantileSingle(arr: seq<int>, q: real)
    requires |arr| == 1 && 0.0 <= q <= 1.0
    ensures Quantile(arr, q) == arr[0] as real
  {
  }

  /** On sorted readings, the quantile lies between the reading at its
      base index and the next one. */
  lemma QuantileBracket(arr: seq<int>, q: real)
    requires |arr| > 0 && Sorted(arr) && 0.0 <= q <= 1.0
    ensures var b := QuantileBase(|arr|, q);
            && arr[b] as real <= Quantile(arr, q)
            && (b + 1 < |arr| ==> Quantile(arr, q) <= arr[b + 1] as real)
  {
    var b := QuantileBase(|arr|, q);
    var rest := (|arr| - 1) as real * q - b as real;
    if b + 1 < |arr| {
      assert Quantile(arr, q) == Lerp(arr[b] as real, arr[b + 1] as real, rest);
      assert arr[b] <= arr[b + 1];
      LerpBetween(arr[b] as real, arr[b + 1] as real, rest);
    } else {
      assert Quantile(arr, q) == arr[b] as real;
    }
  }

  /** On sorted readings, a higher `q` never gives a lower quantile. */
  lemma QuantileMonotone(arr: seq<int>, q1: real, q2: real)
    requires |arr| > 0 && Sorted(arr)
    requires 0.0 <= q1 <= q2 <= 1.0
    ensures Quantile(arr, q1) <= Quantile(arr, q2)
  {
    var n := |arr|;
    var b1, b2 := QuantileBase(n, q1), QuantileBase(n, q2);
    var p1, p2 := (n - 1) as real * q1, (n - 1) as real * q2;
    assert p1 <= p2 by {
      ScaleBounds((n - 1) as real, q2 - q1);
      assert p2 - p1 == (n - 1) as real * (q2 - q1);
    }
    assert b1 <= b2;
    if b1 == b2 {
      if b1 + 1 < n {
        assert Quantile(arr, q1) == Lerp(arr[b1] as real, arr[b1 + 1] as real, p1 - b1 as real);
        assert Quantile(arr, q2) == Lerp(arr[b1] as real, arr[b1 + 1] as real, p2 - b1 as real);
        assert arr[b1] <= arr[b1 + 1];
        LerpMonotone(arr[b1] as real, arr[b1 + 1] as real, p1 - b1 as real, p2 - b1 as real);
      } else {
        assert Quantile(arr, q1) == arr[b1] as real == Quantile(arr, q2);
      }
    } else {
      QuantileBracket(arr, q1);
      QuantileBracket(arr, q2);
      assert arr[b1 + 1] <= arr[b2];
    }
  }

  /** Sorted readings 10, 20, 30, 40 have quartiles 17.5 and 32.5 and
      median 25. */
  lemma QuantileExample()
    ensures Quantile([10, 20, 30, 40], 0.25) == 17.5
    ensures Quantile([10, 20, 30, 40], 0.5) == 25.0
    ensures Quantile([10, 20, 30, 40], 0.75) == 32.5
  {
    assert (0.75).Floor == 0;
    assert (1.5).Floor == 1;
    assert (2.25).Floor == 2;
  }

  // ---------------------------------------------------------------------
  // Rows
  // ---------------------------------------------------------------------

  /** The statistics of one date's bucket: all null for an empty bucket;
      otherwise the smallest reading, the three quartile positions of the
      sorted readings, and the largest reading. */
  function BandStats(bucket: seq<int>): (r: Option<Stats>)
    ensures r.None? <==> |bucket| == 0
    ensures r.Some? ==>
              && (exists x :: x in bucket && r.value.min == x as real)
              && (exists x :: x in bucket && r.value.max == x as real)
              && (forall x :: x in bucket ==> r.value.min <= x as real <= r.value.max)
    ensures r.Some? ==>
              r.value.min <= r.value.q1 <= r.value.median <= r.value.q3 <= r.value.max
  {
    var depths := Sort(bucket);
    if |depths| == 0 then None
    else
      SortExtremes(bucket);
      QuantileEnds(depths);
      QuantileMonotone(depths, 0.0, 0.25);
      QuantileMonotone(depths, 0.25, 0.5);
      QuantileMonotone(depths, 0.5, 0.75);
      QuantileMonotone(depths, 0.75, 1.0);
      Some(Stats(
        depths[0] as real,
        Quantile(depths, 0.25),
        Quantile(depths, 0.5),
        Quantile(depths, 0.75),
        depths[|depths| - 1] as real))
  }

  /** Whether the chart has data: `snowDepths`, its `data` and a truthy
      (present, non-zero) `firstYear`. */
  predicate Charted(sd: Option<SnowDepths>) {
    && sd.Some?
    && sd.value.data.Some?
    && sd.value.firstYear.Some?
    && sd.value.firstYear.value != 0
  }

  /** The rows for `dates`: one per date, in order, each with the
      statistics of that date's bucket. */
  function RowsFor(data: seq<YearReadings>, dates: seq<MonthDay>): (r: seq<BandRow>)
    ensures |r| == |dates|
    ensures forall i :: 0 <= i < |dates| ==> r[i].date == dates[i]
  {
    seq(|dates|, i requires 0 <= i < |dates| => BandRow(dates[i], BandStats(Bucket(data, dates[i]))))
  }

  /** The rows the chart expects: one per season date. */
  function ExpectedRows(data: seq<YearReadings>): seq<BandRow> {
    RowsFor(data, SeasonDates)
  }

  /** Summarises the bucket of each of `dates`, in order. */
  method Summarise(dates: seq<MonthDay>, buckets: map<MonthDay, seq<int>>)
    returns (rows: seq<BandRow>)
    requires forall k :: k in dates ==> k in buckets
    ensures |rows| == |dates|
    ensures forall m :: 0 <= m < |dates| ==> rows[m] == BandRow(dates[m], BandStats(buckets[dates[m]]))
  {
    rows := [];
    var i := 0;
    while i < |dates|
      invariant 0 <= i <= |dates|
      invariant |rows| == i
      invariant forall m :: 0 <= m < i ==> rows[m] == BandRow(dates[m], BandStats(buckets[dates[m]]))
    {
      var k := dates[i];
      rows := rows + [BandRow(k, BandStats(buckets[k]))];
      i := i + 1;
    }
  }

  /** Summaries of buckets that hold what `Bucket` describes are the
      expected rows. */
  lemma SummariesAreRows(data: seq<YearReadings>, dates: seq<MonthDay>, buckets: map<MonthDay, seq<int>>, rows: seq<BandRow>)
    requires forall k :: k in dates ==> k in buckets && buckets[k] == Bucket(data, k)
    requires |rows| == |dates|
    requires forall m :: 0 <= m < |dates| ==> rows[m] == BandRow(dates[m], BandStats(buckets[dates[m]]))
    ensures rows == RowsFor(data, dates)
  {
    forall m | 0 <= m < |dates|
      ensures rows[m] == RowsFor(data, dates)[m]
    {
      assert buckets[dates[m]] == Bucket(data, dates[m]);
    }
  }

  /** `lineData`: no rows without data; otherwise the per-date buckets are
      built, and each season date's bucket is sorted and summarised. */
  method LineData(sd: Option<SnowDepths>) returns (rows: seq<BandRow>)
    ensures !Charted(sd) ==> rows == []
    ensures Charted(sd) ==> rows == ExpectedRows(sd.value.data.value)
  {
    if !Charted(sd) {
      return [];
    }
    var data := sd.value.data.value;
    var buckets := BuildBuckets(data, SeasonDates);
    rows := Summarise(SeasonDates, buckets);
    SummariesAreRows(data, SeasonDates, buckets, rows);
  }

  /** A date no year has a reading for gets all-null statistics, and a date
      some year read as 0 cm gets numbers, with a minimum of at most 0. */
  lemma NullIsNotZero(data: seq<YearReadings>, i: nat)
    requires i < |SeasonDates|
    ensures var row := ExpectedRows(data)[i];
            && (row.stats.None? <==> forall y :: 0 <= y < |data| ==> ReadingAt(data[y], SeasonDates[i]).None?)
            && ((exists y :: 0 <= y < |data| && ReadingAt(data[y], SeasonDates[i]) == Some(0)) ==>
                  row.stats.Some? && row.stats.value.min <= 0.0)
  {
    var b := Bucket(data, SeasonDates[i]);
    if exists y :: 0 <= y < |data| && ReadingAt(data[y], SeasonDates[i]) == Some(0) {
      assert 0 in b;
    }
    if |b| > 0 {
      assert b[0] in b;
    }
  }

  /** Unsorted readings 40, 10, 30, 20 give minimum 10, quartiles 17.5 and
      32.5, median 25 and maximum 40. */
  lemma BandStatsExample()
    ensures BandStats([40, 10, 30, 20]) == Some(Stats(10.0, 17.5, 25.0, 32.5, 40.0))
  {
    SortExample();
    QuantileExample();
  }

  lemma SortExample()
    ensures Sort([40, 10, 30, 20]) == [10, 20, 30, 40]
  {
    var s, t := [40, 10, 30, 20], [10, 20, 30, 40];
    assert multiset(s) == multiset(t);
    SortIsTheSortedPermutation(s, t);
  }

  /** Buckets depend on the data only through each year's reading for the
      date. */
  lemma {:induction false} BucketCongruent(d1: seq<YearReadings>, d2: seq<YearReadings>, k: MonthDay)
    requires |d1| == |d2|
    requires forall y :: 0 <= y < |d1| ==> ReadingAt(d1[y], k) == ReadingAt(d2[y], k)
    ensures Bucket(d1, k) == Bucket(d2, k)
  {
    if |d1| > 0 {
      BucketCongruent(d1[..|d1| - 1], d2[..|d2| - 1], k);
    }
  }

  /** A reading stored where no season date is (a sixth month slot, or a
      day such as 2/30 or 4/31) reaches no bucket: changing it changes no
      season date's bucket. */
  lemma OffSeasonReadingIgnored(data: seq<YearReadings>, y: nat, i: nat, j: nat, v: Option<int>)
    requires y < |data| && i < |data[y]| && j < |data[y][i]|
    requires !(i < |MonthMapping| && MonthDay(MonthMapping[i], j + 1) in SeasonDates)
    ensures var changed := data[y := data[y][i := data[y][i][j := v]]];
            forall k :: k in SeasonDates ==> Bucket(changed, k) == Bucket(data, k)
  {
    var changed := data[y := data[y][i := data[y][i][j := v]]];
    forall k | k in SeasonDates
      ensures Bucket(changed, k) == Bucket(data, k)
    {
      assert forall y' :: 0 <= y' < |data| ==> ReadingAt(changed[y'], k) == ReadingAt(data[y'], k);
      BucketCongruent(changed, data, k);
    }
  }
}
