# Ski-resort map: filter and chart data, modelled in Dafny

This project models the logic behind the web application's ski-resort map
and its resort detail charts. It covers three parts.

- **The resort filter.** This is the home page's `filteredResorts`. It keeps,
  in dataset order, the resorts that pass every enabled criterion:
  - "operating now" means `outline.status` contains 滑走可;
  - "Yuki-Magi participant";
  - "beginner friendly" means a beginner-course share of at least 30 %;
  - a case-insensitive keyword in the Japanese name;
  - a minimum vertical drop;
  - a minimum number of courses.
- **The filter panel.** This covers the `Filters` record, `handleChange`
  (turns an input's change event into an updated record) and `handleReset`.
- **Chart data.** This covers:
  - the snow-depth distribution chart's `lineData`: it builds one bucket of
    past readings for each date from 1 December to 30 April, then sorts each
    bucket and summarises it as minimum, quartiles, median and maximum;
  - the weekly chart's `chartData`: 48 rows, each holding a week's highest
    maximum, lowest minimum and snowfall chance;
  - the wind-speed colour bands of the forecast table.

Modules, one per file:

| module | models |
|---|---|
| `Wrappers` | `Option`, for JavaScript's `null`/`undefined` and optional chaining |
| `Strings` | `toLowerCase` on ASCII letters, `String.prototype.includes`, and `parseInt(s, 10)` |
| `Resorts` | the part of the resort record that the filter reads |
| `FilterPanel` | `Filters`, `handleChange`, `handleReset` |
| `Home` | the filter predicate and `filteredResorts`, and their properties |
| `Sorting` | `sort((a, b) => a - b)` on a list of depths |
| `Calendar` | the season's dates as `getDatesBetween` lists them |
| `SnowDepthChart` | bucketing, `quantile`, and the rows of `lineData` |
| `WeeklyWeatherChart` | the 48 weekly rows of `chartData` |
| `ForecastTable` | the wind-speed colour class |

## Model

| member | source | states |
|---|---|---|
| Home.Accepts | src/app/page.tsx:40-57 | The callback's chain of early rejections accepts a record exactly when every enabled check holds: operating if the status check is on, a Yuki-Magi participant if that check is on, at least 30 % beginners if that check is on, the lowered keyword in the lowered name if the keyword is not empty, and both minimums met. |
| Home.FilterResorts | src/app/page.tsx:38-58 | The result is no longer than the dataset. Every kept record is in the dataset and passes the criteria. Every dataset record that passes the criteria is kept. |
| Home.FilterIsSubsequence | src/app/page.tsx:40 | `filter` keeps the surviving records in their dataset order. |
| Home.FilterCounts | src/app/page.tsx:40-57 | A record occurs in the result as often as in the dataset if it passes the criteria, and not at all otherwise. |
| Home.FilterDefaultIsIdentity | src/app/page.tsx:25-32 | The page's initial criteria keep the whole dataset, in order. This assumes no record has a negative vertical drop or course count. |
| Home.StatusFilter | src/app/page.tsx:41-42 | With the status check on, every kept record has an outline whose status contains 滑走可. A record missing the outline or the status is dropped. |
| Home.YukiMagiFilter | src/app/page.tsx:43 | With the Yuki-Magi check on, every kept record has `yukiMagi.available` set. A record with no `yukiMagi` entry is dropped. |
| Home.BeginnerFilter | src/app/page.tsx:44-48 | With the beginner check on, no kept record has a beginner share below 30 %. |
| Home.ThresholdsInclusive | src/app/page.tsx:44-55 | A record exactly at the minimum vertical, the minimum course count and 30 % beginners passes those checks (`>` and `<`, not `>=` and `<=`). |
| Home.KeywordFilter | src/app/page.tsx:49-53 | An empty keyword constrains nothing. Otherwise a record is accepted exactly when it passes the other checks and the lowered keyword occurs in its lowered Japanese name. |
| Home.KeywordCaseInsensitive | src/app/page.tsx:49-53 | Two keywords with the same lower-case form select the same records. |
| Home.KeywordNiseko | src/app/page.tsx:51 | "NISEKO" and "niseko" select the same records. |
| Home.AcceptsMonotone | src/app/page.tsx:41-56 | A record that passes stricter criteria also passes weaker ones. Stricter means more flags on, higher minimums, and a keyword that contains the weaker one. |
| Home.FilterThenTighter | src/app/page.tsx:38-58 | Filtering with weaker criteria and then stricter ones gives the same result as filtering with the stricter ones alone. |
| Home.TighteningNarrows | src/app/page.tsx:38-58 | The result for stricter criteria is a subsequence of the result for weaker ones. |
| Home.FilterIdempotent | src/app/page.tsx:38-58 | Filtering a filtered list again with the same criteria changes nothing. |
| Home.SampleScenario | src/app/page.tsx:40-57 | On a three-resort dataset, the beginner check with an 800 m minimum vertical keeps exactly the two qualifying resorts, in order. The course minimum stays at its default of 0. |
| Home.ResetShowsEverything | src/components/FilterPanel.tsx:47-56 | After the reset button, the filter shows the whole dataset. As in FilterDefaultIsIdentity, this assumes no record has a negative vertical drop or course count. |
| FilterPanel.Set | src/components/FilterPanel.tsx:44 | `{ ...filters, [name]: v }`: the named field reads back as `v`, every other field is unchanged, and the update is defined exactly when `v` has the field's kind. |
| FilterPanel.HandleChange | src/components/FilterPanel.tsx:33-45 | Only the named field changes. A checkbox stores its `checked` flag. An empty number box stores 0. A text input stores its raw value in `keyword`. An event whose kind does not match its field gives no update. |
| FilterPanel.HandleNumberDigits | src/components/FilterPanel.tsx:38-41 | A number box holding a non-empty string of decimal digits stores the digits' base-10 value, as an unbounded integer. |
| FilterPanel.HandleNumberRoundTrip | src/components/FilterPanel.tsx:38-44 | A number box holding the decimal rendering of an integer `n`, with a minus sign if negative, stores `n`. Filter numbers are unbounded integers here; JavaScript agrees for magnitudes up to 2^53. |
| FilterPanel.PanelEventsUpdate | src/components/FilterPanel.tsx:33-45 | Every event of the panel's own inputs gives an updated record, provided a number box's text is empty or starts with a numeral that `parseInt` reads. |
| FilterPanel.HandleReset | src/components/FilterPanel.tsx:47-56 | Whatever the current criteria, the result has an empty keyword, all three flags off and both minimums 0. |
| Strings.Lower | src/app/page.tsx:51 | Lower-casing keeps the length, turns each ASCII capital into its small letter (code point plus 32), and changes nothing else. |
| Strings.LowerIdempotent | src/app/page.tsx:51 | Lower-casing twice gives the same string as lower-casing once. |
| Strings.LowerEmpty | src/app/page.tsx:50-51 | Only the empty string lowers to the empty string, so "keyword is empty" is unaffected by case. |
| Strings.Includes | src/app/page.tsx:41 | `includes` holds exactly when the substring occurs at some position. |
| Strings.IncludesEmpty | src/app/page.tsx:51 | Every string includes the empty string. |
| Strings.IncludesTransitive | src/app/page.tsx:51 | If `a` includes `b` and `b` includes `c`, then `a` includes `c`. |
| Strings.DigitPrefix | src/components/FilterPanel.tsx:41 | The prefix `parseInt` reads is all digits and is maximal: the next character, if any, is not a digit. |
| Strings.ParseInt | src/components/FilterPanel.tsx:41 | `parseInt(value, 10)` gives a number exactly when a digit follows the optional sign. The number's magnitude is the value of the digit run, as an unbounded integer, and it is negative only after a minus sign. A leading `+` reads as the rest of the text, and a leading `-` as the rest negated, unless a second sign follows. |
| Strings.ParseIntDigits | src/components/FilterPanel.tsx:41 | A non-empty string of digits parses to its decimal value. |
| Strings.ParseIntStopsAtNonDigit | src/components/FilterPanel.tsx:41 | Parsing stops at the first non-digit: "12a5" parses as 12. |
| Strings.ParseIntRoundTrip | src/components/FilterPanel.tsx:41 | Parsing the decimal rendering of `n` gives `n`, and parsing it with a leading minus gives `-n`. |
| Strings.DecimalRoundTrip | src/components/FilterPanel.tsx:41 | The decimal value of the rendering of `n` is `n`. |
| Calendar.MonthDates | src/components/WeatherChart.tsx:356-368 | A season month's list holds exactly the dates of that month, one per day. |
| Calendar.SeasonCalendar | src/components/WeatherChart.tsx:356-368 | The season list starts on 12/1 and ends on 4/30. Each date is the day after the one before. It holds 152 dates, including 2/29 because 2024 is a leap year. |
| Calendar.SeasonMembership | src/components/WeatherChart.tsx:356-372 | The season dates are strictly increasing in time, so each key is created once. A month/day pair is a key exactly when it is a date of the season. |
| SnowDepthChart.SlotOf | src/components/WeatherChart.tsx:373-376 | A month has a slot exactly when it appears in `monthMapping`, and `monthMapping` maps the slot back to that month. |
| SnowDepthChart.Bucket | src/components/WeatherChart.tsx:374-384 | Each value occurs in a date's bucket once for every year whose non-null reading for that date is that value, so repeated readings are kept. A value is in the bucket exactly when some year read it. The bucket is no longer than the number of years. |
| SnowDepthChart.AddSlot | src/components/WeatherChart.tsx:377-382 | One month slot of one year appends each non-null reading to its date's list and creates no new keys. |
| SnowDepthChart.AddYear | src/components/WeatherChart.tsx:375-383 | One year appends to each date's list exactly that year's reading for the date, if it has one. |
| SnowDepthChart.BuildBuckets | src/components/WeatherChart.tsx:369-384 | The built map has a key exactly for each season date, and each key's list equals that date's `Bucket`. |
| SnowDepthChart.OffSeasonReadingIgnored | src/components/WeatherChart.tsx:374-381 | Changing a reading stored where no season date is changes no season date's bucket. That covers a sixth slot, or a day such as 2/30 or 4/31. |
| SnowDepthChart.BucketCongruent | src/components/WeatherChart.tsx:374-384 | A bucket depends on the data only through each year's reading for that date. |
| SnowDepthChart.QuantileBase | src/components/WeatherChart.tsx:398-399 | `Math.floor((n - 1) * q)` is a valid index and lies within one below the position. |
| SnowDepthChart.Quantile | src/components/WeatherChart.tsx:397-404 | On sorted readings, every quantile lies between the first and the last reading. |
| SnowDepthChart.LerpBetween | src/components/WeatherChart.tsx:401-402 | `a + rest * (b - a)` with `0 <= rest <= 1` lies between `a` and `b`. |
| SnowDepthChart.QuantileBracket | src/components/WeatherChart.tsx:397-404 | On sorted readings, the quantile lies between the reading at the base index and the next one. |
| SnowDepthChart.QuantileMonotone | src/components/WeatherChart.tsx:397-411 | On sorted readings, a higher `q` never gives a lower quantile. |
| SnowDepthChart.QuantileEnds | src/components/WeatherChart.tsx:397-404 | Quantile 0 is the first reading and quantile 1 the last. |
| SnowDepthChart.QuantileSingle | src/components/WeatherChart.tsx:397-404 | A single reading is every quantile. |
| SnowDepthChart.QuantileExample | src/components/WeatherChart.tsx:397-404 | For sorted 10, 20, 30, 40 the quartiles are 17.5 and 32.5 and the median is 25. |
| SnowDepthChart.BandStats | src/components/WeatherChart.tsx:385-412 | An empty bucket gives all-null statistics. Otherwise min and max are readings of the bucket that bound every reading, and min <= q1 <= median <= q3 <= max. |
| SnowDepthChart.BandStatsExample | src/components/WeatherChart.tsx:385-412 | Unsorted readings 40, 10, 30, 20 give 10, 17.5, 25, 32.5, 40. |
| SnowDepthChart.SortExample | src/components/WeatherChart.tsx:387 | The numeric sort orders 40, 10, 30, 20 as 10, 20, 30, 40. |
| SnowDepthChart.NullIsNotZero | src/components/WeatherChart.tsx:379-396 | A date with no non-null reading in any year gets all-null statistics. A date some year read as 0 cm gets numbers, with a minimum of at most 0. |
| SnowDepthChart.RowsFor | src/components/WeatherChart.tsx:385-412 | One row per date, in the order of the dates, each named by its date. |
| SnowDepthChart.Summarise | src/components/WeatherChart.tsx:385-412 | Each date's row summarises that date's list from the map, in the order of the dates. |
| SnowDepthChart.SummariesAreRows | src/components/WeatherChart.tsx:369-412 | Summaries of lists that equal the dates' buckets are the expected rows. |
| SnowDepthChart.LineData | src/components/WeatherChart.tsx:354-414 | Without `data` or a truthy `firstYear` there are no rows. Otherwise there is one row per season date, holding the statistics of the date's bucket. |
| Sorting.Insert | src/components/WeatherChart.tsx:387 | Inserting into a sorted list keeps it sorted and adds exactly one copy of the element. |
| Sorting.Sort | src/components/WeatherChart.tsx:387 | The sorted depths are ascending and are a permutation of the bucket. |
| Sorting.SortExtremes | src/components/WeatherChart.tsx:387-409 | The first sorted depth is a least reading of the bucket, and the last is a greatest. |
| Sorting.SortedUnique | src/components/WeatherChart.tsx:387 | Two ascending lists with the same elements are equal. |
| Sorting.SortIsTheSortedPermutation | src/components/WeatherChart.tsx:387 | Sorting gives the one ascending arrangement of the input's elements. |
| WeeklyWeatherChart.Max | src/components/WeatherChart.tsx:254-256 | `Math.max(...xs)` is a greatest element of a non-empty list, and minus infinity for an empty one. |
| WeeklyWeatherChart.Min | src/components/WeatherChart.tsx:257-259 | `Math.min(...xs)` is a least element of a non-empty list, and plus infinity for an empty one. |
| WeeklyWeatherChart.ChartData | src/components/WeatherChart.tsx:244-262 | There are no rows without a forecast for the elevation, and 48 otherwise. Week `i`'s maximum is null exactly when there is no list for it, the greatest value of a non-empty list, and minus infinity for an empty list; likewise its minimum is null, the least value, or plus infinity. The snowfall chance is the week's value, or 0 when there is none. |
| ForecastTable.ColourFor | src/components/WeatherChart.tsx:155-164 | Red exactly at 30 km/h or more; orange exactly from 20 up to 30; yellow exactly from 10 up to 20; gray exactly below 10. |
| ForecastTable.ColourMonotone | src/components/WeatherChart.tsx:155-164 | A stronger wind never gets a milder colour. |
| ForecastTable.WindColours | src/components/WeatherChart.tsx:155-164 | One colour per cell of the row, and each cell gets the band of its own speed. A cell is red exactly when its speed is at least 30. A faster wind anywhere in the row is never shown milder than a slower one. |

## Left out

- Rendering is not modelled: React state, the map, the bottom sheet, the recharts components and CSS classes. The model covers the data each component computes, not how it is shown.
- Loading the resort dataset with `require("../lib/mock-data.json")` is not modelled. The dataset is a parameter of `Home.FilterResorts`, and the snow-depth and forecast records are parameters of the chart functions.
- The selected resort and the map viewport are not modelled. The page keeps a selected-resort id but filters on the criteria above alone; nothing in `src/app/page.tsx` restricts the list to the resorts visible on the map.
- Date label formatting is not modelled. The weekly labels are computed from `meta.date_start` with `Date` arithmetic, and each snow-depth row's name is its date key. Rows are keyed by `Calendar.MonthDay` instead.
- The wind-direction rotation string in the forecast table is not modelled. It needs `parseFloat` and string replacement, and nothing depends on it.
- FilterPanel.HandleChange: in JavaScript, a number box whose text `parseInt` rejects stores `NaN`, and comparisons with `NaN` are false, so that bound stops constraining. The model returns `None` for that event instead of storing `NaN`.
- FilterPanel.HandleChange: an input whose `name` is not a field of `Filters` would add a new key. An input whose kind does not match its field would store a value of the wrong type. Neither input exists on the panel. `Field` lists only real field names, and a kind mismatch gives `None`.
- Strings.ParseInt skips no leading whitespace. Like `parseInt(value, 10)`, it accepts an optional `-` or `+` and then reads digits.
- Strings.ParseInt returns an unbounded integer. `parseInt` returns a double, so it rounds digit runs above 2^53 ("100000000000000001" becomes 100000000000000000), and a numeral of about 310 digits or more gives `Infinity`. This rounding is not modelled.
- FilterPanel.HandleNumberRoundTrip and FilterPanel.HandleNumberDigits store the exact parsed integer. The filter minimums and the resort's vertical drop, course count and beginner share are unbounded integers here, not doubles. The two lemmas therefore agree with JavaScript only for magnitudes up to 2^53.
- Strings.Lower lower-cases ASCII letters only. JavaScript's `toLowerCase` also maps other scripts and the full-width Latin letters. A user who types the keyword "ＮＩＳＥＫＯ" matches a name containing "ｎｉｓｅｋｏ" in JavaScript, but not in the model.
- FilterPanel.PanelEventsUpdate: a number box can deliver text that `parseInt` rejects, such as ".5" or "-.5". `handleChange` then stores `NaN`, and the model gives no update. The lemma therefore covers only number texts that are empty or start with a numeral.
- Calendar.SeasonCalendar: the 152 dates assume local midnight exists on every day of the season. `getDatesBetween` steps local `Date` values and compares them with `<=`. In a time zone whose daylight-saving change skips local midnight inside the season, such as America/Havana on 10 March 2024, every later date falls at 01:00. Then 30 April fails `<= end` and the list has 151 dates. The model does not depend on the time zone.
- Home.FilterDefaultIsIdentity and Home.ResetShowsEverything require non-negative vertical drops and course counts. A record with a negative value fails `0 > vertical` and is hidden even by the default criteria.
- Temperatures, wind speeds and interpolated quantiles are exact `real` numbers, not IEEE doubles. Snow depths are whole centimetres, as the dataset records them. `NaN` in the data is not modelled.
- WeeklyWeatherChart.ChartData treats a week's list as present or absent and does not model a `null` entry inside the list of weeks. A week with an empty list gives minus or plus infinity, as `Math.max()` and `Math.min()` do.
- SnowDepthChart.BandStats returns `None` for an empty bucket. The source emits a row whose five statistics are all `null`; `None` stands for that row.
- The snow-depth chart's use of `firstYear` beyond the truthiness check is not modelled, because the data shaping does not use it.
