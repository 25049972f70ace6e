# Monthly statistics engine of the statistics page

The statistics page of the operations dashboard has two reports. The
**collection report** counts device collections. The **sales report**
counts new customers on the 399 plan of partner 3 in 2025. Each report
turns a flat list of loosely typed records into a chart series. The series
has one bucket per calendar month, ascending by month, and each bucket
counts records per region: Gauteng, Limpopo or Other. From that series the
page derives:

- the totals cards;
- the chart's vertical scale, with 20% headroom;
- the grid labels;
- each bar's height, its three segment shares and its two-line caption.

This project models that engine and proves its contracts:

- `Regions`: the two classifiers. Collection rows use free-text province
  names (trim, lower-case, substring test). Sales rows use numeric
  location ids.
- `JsText`, `JsNumber`: the JavaScript text and number operations the page
  relies on. These are truthiness, `trim`, `toLowerCase`, `includes`,
  `replace(' ', 'T')`, `parseInt(x, 10)` and `parseFloat(x)`.
- `Dates`: a fixed parser in place of `new Date(text)`. It accepts the
  ECMA-262 date-time string format, with a day no larger than the length
  of its month. The module also holds the `"<Mon> <Year>"` month label and
  the `year * 100 + monthIndex` sort key.
- `Records`: the raw collection and sales records.
  - Collection rows: the date is taken as `Date || date || created_at` and
    the province as `Province || province`. The date then has its first
    space turned into `T` before parsing.
  - Sales rows: the eligibility filter is partner 3, revenue within a cent
    of 399, and `"2025"` anywhere in `date_add`. The sales normaliser
    parses `date_add` as it is.
- `Aggregation`: the loop that both reports share.
  - `Tabulate` runs over an array of records and updates a map from month
    label to bucket. Each bucket is created lazily with zero counts, then
    one region counter is incremented. The loop is proved equal to a pure
    fold.
  - `SortByKey` orders the buckets by sort key.
  - `IsSeriesOf` is the declarative specification of the result. The
    buckets ascend strictly by sort key, there is one bucket per month that
    has records, and each holds that month's per-region counts.
- `Chart`: the render-time arithmetic over a series.
  - Totals, computed with `reduce`.
  - `maxValue`, which is 10 for an empty series.
  - `chartMax = Math.ceil(maxValue * 1.2)`, written exactly as
    `(6m + 4) / 5`.
  - The grid labels `Math.round(chartMax * tick)`.
  - Bar heights and segment shares, as exact reals.
  - The caption `label.split(' ')`.
  - Whether the Other legend entry and the Other card are shown.
- `SeriesLaws`: what follows from the specification.
  - The series is unique, and it does not depend on the input order.
  - A skipped record changes nothing.
  - Every kept record is counted exactly once: the region totals are the
    region counts, and `totalAll` is the number of kept records.
  - The scale bounds every bar.
  - The captions read back the month name and the year.
- `Stats`: the two reports end to end, plus the facts specific to each.

The model follows the code of pages/StatsPage.tsx in three places a reader
might not expect:

- Only the collection pipeline replaces a space with `T`
  (pages/StatsPage.tsx:54). The sales pipeline parses `date_add` unchanged
  (pages/StatsPage.tsx:116).
- A date field is taken when it is truthy (`||`), so an empty string is
  skipped like a missing field.
- The segment shares of all three regions are computed for every bar with
  a positive total.

## Model

| member | source | states |
|---|---|---|
| Regions.ProvinceNamed | pages/StatsPage.tsx:68-72 | a region name in any case and anywhere in the trimmed text decides the region: "gauteng" always gives Gauteng; "limpopo" gives Limpopo when "gauteng" is absent |
| Regions.BlankProvince | pages/StatsPage.tsx:68-72 | empty or all-white-space province text is Other |
| Regions.ClassifyLocation | pages/StatsPage.tsx:91-92 | Gauteng iff the parsed id is in {3,5,…,10}; Limpopo iff it is 2 or 11; Other iff the id did not parse or is in neither list |
| JsText.TrimAround | pages/StatsPage.tsx:68 | `trim` removes only the white space around a non-blank word |
| JsText.ContainsLowered | pages/StatsPage.tsx:68-70 | a word occurring in a text still occurs, lower-cased, in the lower-cased text |
| JsText.ReplaceFirstAt | pages/StatsPage.tsx:54 | `replace(' ', 'T')` changes the first space only and keeps the rest |
| JsNumber.ParseIntOfDecimal | pages/StatsPage.tsx:95 | `parseInt` skips leading white space and reads back a decimal numeral followed by any non-digit text |
| JsNumber.ParseIntOfNegative | pages/StatsPage.tsx:131 | `parseInt` reads a minus sign before a numeral as a negative number |
| JsNumber.ParseFloatOfZeroFraction | pages/StatsPage.tsx:96 | `parseFloat` reads `n.000…` (any zeros) as `n` |
| JsNumber.ParseFloatOfNumeral | pages/StatsPage.tsx:96 | `parseFloat` reads back a whole numeral |
| Dates.ParseFormattedDate | pages/StatsPage.tsx:55-56 | a calendar date `YYYY-MM-DD`, alone or followed by `T` and a valid time, parses to its year and zero-based month |
| Dates.FormattedTimeValid | pages/StatsPage.tsx:55 | `hh:mm:ss` followed by a valid fraction and zone is a valid time |
| Dates.ParsedDateHasNoSpace | pages/StatsPage.tsx:54-56 | no text containing a space parses as a date |
| Dates.LabelInjective | pages/StatsPage.tsx:58-60 | two months with the same `"<Mon> <Year>"` label are the same month |
| Dates.SortKeyChronological | pages/StatsPage.tsx:61 | sort keys order months chronologically across years, and equal keys mean equal months |
| Dates.MonthOfSortKey | pages/StatsPage.tsx:61 | a month can be read back from its sort key |
| Records.CollectionDateText | pages/StatsPage.tsx:49 | the first truthy field of `Date`, `date`, `created_at`, in that order, or none |
| Records.ProvinceText | pages/StatsPage.tsx:50 | the first truthy field of `Province`, `province`, else empty text |
| Records.NormaliseCollection | pages/StatsPage.tsx:49-72 | a row is kept iff it has a truthy date that parses once its first space is `T`; a kept row is in that month and in the province's region |
| Records.UnnamedProvinceIsOther | pages/StatsPage.tsx:50-72 | a kept row without a truthy province field counts as Other |
| Records.CollectionTimestamp | pages/StatsPage.tsx:54-56 | a database timestamp `YYYY-MM-DD hh:mm…` is counted in its calendar month |
| Records.CollectionPlainDate | pages/StatsPage.tsx:54-56 | a plain `YYYY-MM-DD` is counted in its calendar month |
| Records.EligibleCustomer | pages/StatsPage.tsx:94-106 | partner `"3"`, revenue `"399.000…"` (any leading white space, any zeros) and a `date_add` containing "2025" pass |
| Records.Customer2025 | pages/StatsPage.tsx:94-106 | such a customer whose `date_add` is a 2025 calendar date passes |
| Records.LooseYearCheck | pages/StatsPage.tsx:103 | the year check is textual: a 2024 timestamp whose fraction of a second reads 2025 passes |
| Records.LooseYearMonth | pages/StatsPage.tsx:116-122 | and such a customer is counted in its 2024 month |
| Records.IneligibleCustomer | pages/StatsPage.tsx:94-106 | a partner other than 3, or no "2025" in `date_add`, fails the filter |
| Records.OffPlanCustomer | pages/StatsPage.tsx:96-102 | a revenue that reads as a whole number other than 399 fails the filter, whatever the partner and the date |
| Records.FilterEligible | pages/StatsPage.tsx:94-106 | the filtered rows are exactly the eligible input rows, each eligible row as many times as in the input and no ineligible row |
| Records.Filter | pages/StatsPage.tsx:94 | `filter` keeps exactly the elements that pass, each as many times as in the input |
| Records.FilterAppend | pages/StatsPage.tsx:94 | `filter` keeps input order: the filter of a concatenation is the filter of each part, in turn |
| Records.NormaliseSales | pages/StatsPage.tsx:113-139 | a row is kept iff `date_add` is truthy and parses unchanged; a kept row is in that month and in the region of `parseInt(location_id, 10)` |
| Records.SalesCustomer | pages/StatsPage.tsx:116-139 | a customer dated `YYYY-MM-DD[T…]` at a numeric location id is counted in that month and that id's region |
| Aggregation.Tally | pages/StatsPage.tsx:70-72 | incrementing a bucket adds one to its region's counter and changes nothing else |
| Aggregation.FoldSummarises | pages/StatsPage.tsx:63-72 | after the loop the map holds, under each month's label, exactly that month's bucket of counts, and every kept record's month is in it |
| Aggregation.SortByKey | pages/StatsPage.tsx:75 | the sorted series is strictly ascending by sort key and holds exactly the map's buckets |
| Aggregation.AddToBucket | pages/StatsPage.tsx:63-72 | one loop step: the bucket is created with zero counts when its label is new, then the record's region counter is incremented |
| Aggregation.Tabulate | pages/StatsPage.tsx:48-73 | the loop over the record array leaves the map that the fold over the kept records defines |
| Aggregation.Aggregate | pages/StatsPage.tsx:48-76 | the result is the chart series of the kept records |
| SeriesLaws.SeriesUnique | pages/StatsPage.tsx:75 | two series with the same per-month, per-region counts are equal |
| SeriesLaws.OrderIndependent | pages/StatsPage.tsx:48-75 | reordering the records does not change the series |
| SeriesLaws.SkippedRecordIgnored | pages/StatsPage.tsx:52-56 | a record that normalisation drops leaves the series as if it were absent |
| SeriesLaws.SeriesRegionSum | pages/StatsPage.tsx:149-151 | each region's sum over the buckets is the number of kept records in that region |
| SeriesLaws.RegionCountsAddUp | pages/StatsPage.tsx:70-72 | every kept record is in exactly one region |
| SeriesLaws.RenderedTotals | pages/StatsPage.tsx:149-152 | the totals cards show the per-region counts, and `totalAll` is the number of kept records |
| SeriesLaws.BucketsNonEmpty | pages/StatsPage.tsx:63-72 | every bucket of a series counts at least one record |
| SeriesLaws.RenderedScale | pages/StatsPage.tsx:155-253 | for a non-empty series `maxValue >= 1`, `chartMax >= 2`, and every bar is strictly above 0 and at most 100% high |
| SeriesLaws.EventShown | pages/StatsPage.tsx:63-72 | every kept record's month has a bucket with a positive count in its region |
| SeriesLaws.KeptRecordShown | pages/StatsPage.tsx:48-75 | every kept record's month appears in the series under its label |
| SeriesLaws.RenderedCaptions | pages/StatsPage.tsx:311-312 | each bar's caption is the month name over the year of its sort key |
| SeriesLaws.EmptyInput | pages/StatsPage.tsx:149-160 | no kept records give an empty series, zero totals, `maxValue` 10 and `chartMax` 12 |
| Chart.RegionSumsAddUp | pages/StatsPage.tsx:149-152 | the three region sums add up to the sum of the bar totals |
| Chart.ComputeTotals | pages/StatsPage.tsx:149-152 | `totalAll` is the sum of the region totals and of all bar totals |
| Chart.MaxTotal | pages/StatsPage.tsx:155-156 | the largest bar total: attained by some bar, at least every bar's total |
| Chart.ChartMax | pages/StatsPage.tsx:160 | the least whole number at or above `maxValue * 1.2` |
| Chart.HeightPct | pages/StatsPage.tsx:253 | a bar height is proportional to its total: height times `chartMax` is the total times 100; it is at least 0, at most 100 for totals up to the scale, 0 without a scale, 100 at the scale, positive for a positive total |
| Chart.SegmentPcts | pages/StatsPage.tsx:256-258 | the shares are at least 0; they sum to 100 for a non-empty bar and are all 0 for an empty one |
| Chart.SharesProportional | pages/StatsPage.tsx:256-258 | each share times the bar total is its region's count times 100 |
| Chart.JsRound | pages/StatsPage.tsx:242 | `Math.round` gives the integer within half a unit, halves rounding up |
| Chart.AxisLabels | pages/StatsPage.tsx:239-242 | five grid labels, top first: `chartMax` at the top, 0 at the bottom, never increasing downwards, each within half a unit of its fraction of the scale |
| Chart.CaptionOfLabel | pages/StatsPage.tsx:311-312 | splitting a label on spaces gives exactly the month name and the year |
| Chart.Render | pages/StatsPage.tsx:149-336 | one bar per bucket; `chartMax >= maxValue`; the Other legend and card are shown iff `totalOther > 0`; heights within [0, 100]; shares summing to 100 for a non-empty bar; for an empty series 10 and 12 |
| Stats.CollectionStats | pages/StatsPage.tsx:42-77 | the collection report is the series of the collection rows the normaliser keeps |
| Stats.SalesStats | pages/StatsPage.tsx:80-144 | the sales report is the series of the eligible rows the sales normaliser keeps |
| Stats.FilterThenNormalise | pages/StatsPage.tsx:94-117 | filtering and then normalising keeps the same records as normalising with ineligibility as one more reason to skip |
| Stats.CollectionRowSkipped | pages/StatsPage.tsx:49-56 | a collection row without a truthy date, or with a date that does not parse, leaves the report unchanged |
| Stats.IneligibleCustomerSkipped | pages/StatsPage.tsx:94-112 | an ineligible customer is in no bucket and adds nothing to Other |
| Stats.UndatedCustomerSkipped | pages/StatsPage.tsx:113-117 | a customer without a truthy or parseable `date_add` leaves the report unchanged |
| Stats.CollectionOrderIndependent | pages/StatsPage.tsx:48-75 | the collection report does not depend on row order |
| Stats.SalesOrderIndependent | pages/StatsPage.tsx:94-142 | the sales report does not depend on row order |
| Stats.TimestampedRowShown | pages/StatsPage.tsx:49-75 | a row with a database timestamp shows up under its month's label |
| Stats.SalesTotals | pages/StatsPage.tsx:94-152 | `totalAll` of the sales report is the number of kept customers, at most the number of eligible ones, at most the number of rows |

## Left out

- The React shell is not modelled: component state, the effect that runs
  on a tab change, the loading and error state, the debug message, and all
  markup and styling. This includes the `minHeight: '4px'` sliver, which
  is CSS rather than arithmetic.
- The fetches `getAllCollectionHistory` and `umojaService.getSalesData` are
  network clients outside this model. Their results are the input arrays
  of `CollectionStats` and `SalesStats`.
- Record fields are `Option<string>`: `None` stands for a missing or `null`
  field. A field that holds a number rather than text is modelled by its
  text. This loses one truthiness case: JavaScript's `||` treats the
  number 0 as falsy, while its text `"0"` is truthy in the model. So a
  collection row `{Date: 0, date: "2025-03-01"}` is counted by the page
  (pages/StatsPage.tsx:49), which falls through to `date`, but dropped by
  the model, which takes `"0"` and fails to parse it.
- `Records.Eligible`: it reads `date_add` as text. The page calls
  `dateStr.includes('2025')` on the raw field (pages/StatsPage.tsx:97-103).
  A truthy `date_add` that is not a string, such as the number `20250610`
  or `true`, has no `includes` method, so the filter callback throws. The
  error is caught at pages/StatsPage.tsx:28-31, and the page then shows
  "Failed to load sales data." instead of any series. The model does not
  capture this failure of the whole report. It treats such a row like any
  other row, so the row is counted or skipped on its own.
- `Dates.ParseDate`: it does not model the JavaScript engine's fallback
  heuristics for text outside the ECMA-262 date-time format. Examples are
  `2025/03/01` or, in the sales pipeline, `2025-06-10 12:00:00`; both are
  treated as invalid dates. It also does not model hour 24, expanded
  (six-digit) years, or week-day names.
- `Dates.ParseDate`: it checks the day against the length of its month, so
  it rejects `2025-02-30`. V8 accepts any day from 01 to 31 and rolls the
  excess over into the next month. The page therefore counts such a row in
  the following month, while the model drops it.
- `Dates.Label`: it uses a fixed month-name table ("Jan" … "Dec") rather
  than the runtime locale.
- `Dates.ParseDate`: the month is the month as written. It does not model
  the local time-zone shift of `getMonth` and `getFullYear` on a timestamp
  near a month boundary.
- `JsText.ToLower` lower-cases ASCII letters only. Other letters are kept,
  which cannot change whether "gauteng" or "limpopo" occurs.
- `JsNumber.ParseFloat` is exact, because numbers are reals. The model does
  not capture IEEE rounding: `"399.01"` is rejected, while doubles accept
  it. It also does not capture overflow to `Infinity` for long numerals.
  `Chart.HeightPct` and `Chart.SegmentPcts` are exact in the same way.
- `Chart.Caption` gives empty text as the second line for a label without
  a space. There JavaScript's `split` yields `undefined`, which JSX renders
  as nothing, so the page shows the same empty line. The model does not
  distinguish the two values. Labels built by `Dates.Label` always have
  one space (`Chart.CaptionOfLabel`).
- `Chart.Render`: it does not model that a segment is drawn only when its
  count is positive. For a non-empty bar, `Chart.SharesProportional`
  implies that a share is 0 exactly when its count is 0.
- The collection and sales reports are modelled as two methods. Switching
  between them is not modelled.
- pages/DashboardPage.tsx is not part of this model.
