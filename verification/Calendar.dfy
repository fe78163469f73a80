/** The winter-season calendar of the snow-depth chart: every date from
    1 December 2023 to 30 April 2024, one day apart, as (month, day) pairs. */
module Calendar {

  datatype MonthDay = MonthDay(month: int, day: int)

  predicate IsLeapYear(year: int) {
    year % 4 == 0 && (year % 100 != 0 || year % 400 == 0)
  }

  /** Length of a month of the Gregorian calendar. */
  function DaysInMonth(year: int, month: int): int {
    if month == 2 then (if IsLeapYear(year) then 29 else 28)
    else if month in {4, 6, 9, 11} then 30
    else 31
  }

  /** The months of the season in calendar order. */
  const SeasonMonths: seq<int> := [12, 1, 2, 3, 4]

  const SeasonStart: MonthDay := MonthDay(12, 1)
  const SeasonEnd: MonthDay := MonthDay(4, 30)

  /** December belongs to 2023, the other season months to 2024. */
  function SeasonYear(month: int): int {
    if month == 12 then 2023 else 2024
  }

  function MonthLength(month: int): int {
    DaysInMonth(SeasonYear(month), month)
  }

  /** The day after `k`: the next day of the month, or the first of the
      next month after the month's last day. */
  function NextDay(k: MonthDay): MonthDay {
    if k.day < MonthLength(k.month) then MonthDay(k.month, k.day + 1)
    else MonthDay(k.month % 12 + 1, 1)
  }

  /** Position of a season month in `SeasonMonths`. */
  function SeasonMonthIndex(month: int): int {
    if month == 12 then 0 else month
  }

  /** A key that orders season dates chronologically. */
  function Rank(k: MonthDay): int {
    SeasonMonthIndex(k.month) * 32 + k.day
  }

  predicate IsSeasonDate(k: MonthDay) {
    k.month in SeasonMonths && 1 <= k.day <= MonthLength(k.month)
  }

  /** Every date of one month, in order. */
  function MonthDates(month: int): (r: seq<MonthDay>)
    requires month in SeasonMonths
    ensures |r| == MonthLength(month)
    ensures forall k :: k in r <==> k.month == month && 1 <= k.day <= MonthLength(month)
  {
    var r := seq(MonthLength(month), i requires 0 <= i => MonthDay(month, i + 1));
    assert forall k: MonthDay :: k.month == month && 1 <= k.day <= MonthLength(month) ==> r[k.day - 1] == k;
    r
  }

  /** The season's dates, December first. */
  const SeasonDates: seq<MonthDay> :=
    MonthDates(12) + MonthDates(1) + MonthDates(2) + MonthDates(3) + MonthDates(4)

  ghost predicate Steps(s: seq<MonthDay>) {
    forall i :: 0 <= i < |s| - 1 ==> s[i + 1] == NextDay(s[i])
  }

  ghost predicate Ascending(s: seq<MonthDay>) {
    forall i, j :: 0 <= i < j < |s| ==> Rank(s[i]) < Rank(s[j])
  }

  lemma MonthSteps(month: int)
    requires month in SeasonMonths
    ensures Steps(MonthDates(month))
    ensures Ascending(MonthDates(month))
    ensures MonthDates(month)[0] == MonthDay(month, 1)
    ensures MonthDates(month)[|MonthDates(month)| - 1] == MonthDay(month, MonthLength(month))
  {
  }

  lemma StepsConcat(a: seq<MonthDay>, b: seq<MonthDay>)
    requires Steps(a) && Steps(b) && |a| > 0 && |b| > 0
    requires b[0] == NextDay(a[|a| - 1])
    ensures Steps(a + b)
  {
  }

  lemma AscendingConcat(a: seq<MonthDay>, b: seq<MonthDay>)
    requires Ascending(a) && Ascending(b)
    requires forall x, y :: x in a && y in b ==> Rank(x) < Rank(y)
    ensures Ascending(a + b)
  {
    forall i, j | 0 <= i < j < |a + b|
      ensures Rank((a + b)[i]) < Rank((a + b)[j])
    {
      if j < |a| {
      } else if i >= |a| {
        assert (a + b)[i] == b[i - |a|] && (a + b)[j] == b[j - |a|];
      } else {
        assert (a + b)[i] in a && (a + b)[j] in b;
      }
    }
  }

  /** The dates of the months before `month` in the season rank below
      every date of `month`. */
  lemma MonthRanks(month: int)
    requires month in SeasonMonths
    ensures forall k :: k in MonthDates(month) ==>
              SeasonMonthIndex(month) * 32 < Rank(k) < SeasonMonthIndex(month) * 32 + 32
  {
  }

  lemma OrderConcat(a: seq<MonthDay>, month: int)
    requires month in SeasonMonths && Ascending(a)
    requires forall k :: k in a ==> Rank(k) < SeasonMonthIndex(month) * 32
    ensures Ascending(a + MonthDates(month))
    ensures forall k :: k in a + MonthDates(month) ==> Rank(k) < SeasonMonthIndex(month) * 32 + 32
  {
    MonthSteps(month);
    MonthRanks(month);
    AscendingConcat(a, MonthDates(month));
  }

  /** `getDatesBetween(new Date(2023, 11, 1), new Date(2024, 3, 30))`: the
      list starts on 12/1, each date is the day after the one before, it
      ends on 4/30, and it holds 152 dates including 2/29 (2024 is a leap
      year). */
  lemma SeasonCalendar()
    ensures |SeasonDates| == 152
    ensures SeasonDates[0] == SeasonStart && SeasonDates[151] == SeasonEnd
    ensures forall i :: 0 <= i < 151 ==> SeasonDates[i + 1] == NextDay(SeasonDates[i])
    ensures MonthDay(2, 29) in SeasonDates
  {
    var dec, jan, feb, mar, apr := MonthDates(12), MonthDates(1), MonthDates(2), MonthDates(3), MonthDates(4);
    MonthSteps(12);
    MonthSteps(1);
    MonthSteps(2);
    MonthSteps(3);
    MonthSteps(4);
    StepsConcat(dec, jan);
    var p := dec + jan;
    assert p[|p| - 1] == MonthDay(1, 31);
    StepsConcat(p, feb);
    p := p + feb;
    assert p[|p| - 1] == MonthDay(2, 29);
    StepsConcat(p, mar);
    p := p + mar;
    assert p[|p| - 1] == MonthDay(3, 31);
    StepsConcat(p, apr);
    p := p + apr;
    assert p == SeasonDates;
    assert feb[28] == MonthDay(2, 29);
  }

  /** The season dates are listed once each, in chronological order, and
      a (month, day) pair is listed exactly when it is a date of a season
      month. */
  lemma SeasonMembership()
    ensures forall i, j :: 0 <= i < j < |SeasonDates| ==> Rank(SeasonDates[i]) < Rank(SeasonDates[j])
    ensures forall k :: k in SeasonDates <==> IsSeasonDate(k)
  {
    MonthSteps(12);
    MonthRanks(12);
    OrderConcat(MonthDates(12), 1);
    OrderConcat(MonthDates(12) + MonthDates(1), 2);
    OrderConcat(MonthDates(12) + MonthDates(1) + MonthDates(2), 3);
    OrderConcat(MonthDates(12) + MonthDates(1) + MonthDates(2) + MonthDates(3), 4);
  }
}
