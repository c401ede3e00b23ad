# Police firearm injury explorer: data core

This project models in Dafny the data core of the browser dashboard
`pfie-web/js/app.js`. The dashboard loads a table of police firearm injury
records, filters it, and draws a map, a bar chart, a monthly trend chart and a
table. It can also download the filtered rows. The model covers what the
dashboard computes from its data:

- **Loading:** the state-centroid lookup, the fallback of missing coordinates to
  the state centroid, the removal of rows without a date, and the sorted state
  list (`records.dfy`).
- **Filtering:** `runFilters` with its per-incident aggregates, the case-count
  text, and the `Dashboard` object holding `rawData` and `filteredData`
  (`filters.dfy`).
- **Map positions:**
  - the seeded generator `mulberry32`, including the 32-bit `Math.imul` and the
    shifts (`prng.dfy`);
  - `applyJitter`, `medianPosDiff` and `computeJitterAmount` (`jitter.dfy`);
  - the marker coordinates and seeds of `drawMapPoints` (`mappoints.dfy`).
- **Bar chart:** `updateBarChart`'s counts per agency type and status, and its
  traces (`barchart.dfy`).
- **Trend chart:**
  - `updateTrendsChart`'s month buckets, its two series in month order, and
    `makeTraces` (`trends.dfy`);
  - the LOESS smoother `loess` (`loess.dfy`).
- **Dates:** `fmtDate` and `floorMonth` over proleptic Gregorian dates, with
  month keys as millisecond time stamps (`dates.dfy`). `floorMonth` rebuilds
  the date with `new Date(y, m, 1)`, which reads a year from 0 to 99 as 1900
  plus that year, so such a date is filed under a twentieth-century month.
- **Table and download:** `buildTableRows`, with its source links, and the CSV
  and tab-separated downloads of `downloadData` (`export.dfy`).
- **Shared helpers:** sequences, number formatting, `split`, `join`, `trim` and
  string order (`seqs.dfy`, `text.dfy`).

The code follows the source's own form:

- Loops that update variables are methods with loop invariants. Examples are
  `Aggregate`, `CountByMonth`, `AccumulateSums`, `MedianPosDiff`, `ApplyJitter`
  and `BuildCentroidMap`.
- The generator closure is a class, `Mulberry32`, whose `Next` updates its state.
- `loess` fills an array.
- The dashboard's globals are fields of the `Dashboard` class.
- Each method is proved equal to a specification function. The properties the
  dashboard relies on are lemmas about those functions.

Inputs the code reads from the page or from JavaScript's number formatting are
parameters:

- the filter controls, as `Criteria`;
- the jitter slider, as `steps`;
- `Number(x).toFixed(4)`, as `fixed4`;
- `String(x)` of a coordinate, as `numText`.

## Model

| member | source | states |
|---|---|---|
| Prng.Mulberry32.constructor | pfie-web/js/app.js:37-38 | The state starts at the seed taken modulo 2^32 (`seed >>> 0`). |
| Prng.Mulberry32.Next | pfie-web/js/app.js:39-44 | Each call advances the state by 0x6D2B79F5 modulo 2^32 and returns the scrambled output of the new state. |
| Prng.ToUint32 | pfie-web/js/app.js:38 | `>>> 0` is the remainder modulo 2^32, the identity on values already in range. |
| Prng.ImulSpec | pfie-web/js/app.js:41-42 | The bitwise model of `Math.imul` is the product of its operands modulo 2^32. |
| Prng.MulLowSpec | pfie-web/js/app.js:41-42 | The shift-and-add multiplication over k bits is `a * (b mod 2^k)` modulo 2^32. |
| Prng.BitwiseBound | pfie-web/js/app.js:41-43 | XOR and OR over k bits stay below 2^k, so the 32-bit results are words. |
| Prng.Output | pfie-web/js/app.js:43 | Every draw lies in [0, 1). |
| Prng.Draws | pfie-web/js/app.js:39-44 | The first k draws of a generator are k values, each in [0, 1). |
| Prng.DrawsAt | pfie-web/js/app.js:39-44 | Draw j of a seeded generator is the output of the state after j + 1 steps. |
| Prng.StateAfterClosedForm | pfie-web/js/app.js:40 | After k steps the state is `(seed + k * 0x6D2B79F5) mod 2^32`. |
| Jitter.Shift | pfie-web/js/app.js:51 | An infinite value stays as it is. A finite value moves by `(r * 2 - 1) * amount`, which is at most `abs(amount)`. |
| Jitter.JitterFromAt | pfie-web/js/app.js:50-52 | Null and NaN are kept unchanged and take no draw. Any other value is shifted by the draw whose number is one more than the values before it that took a draw. |
| Jitter.JitteredAt | pfie-web/js/app.js:48-53 | `applyJitter` keeps the length and leaves null, NaN and infinite values unchanged. It moves every finite value by at most the amount, using the draw fixed by the seed and by its position. |
| Jitter.JitterFromCons | pfie-web/js/app.js:50-52 | Jittering a value in front of a list either consumes one draw for that value or passes the generator on untouched. |
| Jitter.ApplyJitter | pfie-web/js/app.js:48-53 | The loop over the values with a live generator returns exactly the specified jittered values. |
| Jitter.FiniteValuesSpec | pfie-web/js/app.js:292 | The values kept are exactly the finite ones. |
| Jitter.SortDistinctSpec | pfie-web/js/app.js:292 | The deduplicated sort is strictly increasing and has the same members as its input. |
| Jitter.DistinctCard | pfie-web/js/app.js:292-293 | A strictly increasing list has as many elements as distinct members. |
| Jitter.PositiveGapsSpec | pfie-web/js/app.js:294-298 | On a strictly increasing list every consecutive difference is kept: there are n - 1 of them, each equal to `s[i + 1] - s[i]` and positive. |
| Jitter.SortAscendingSpec | pfie-web/js/app.js:300 | Sorting the differences orders them and keeps them as a multiset. |
| Jitter.MedianBounds | pfie-web/js/app.js:301-302 | The median of a sorted list lies between its first and last elements. |
| Jitter.MedianGap | pfie-web/js/app.js:291-303 | A median gap, when there is one, is positive. |
| Jitter.MedianGapSpec | pfie-web/js/app.js:291-303 | There is no median (NaN) exactly when fewer than two distinct finite values exist. Otherwise the median lies between the smallest and largest gaps. |
| Jitter.CollectGaps | pfie-web/js/app.js:294-298 | The loop over consecutive values collects exactly the positive differences, in order. |
| Jitter.MedianPosDiff | pfie-web/js/app.js:291-303 | The loop over the sorted distinct values computes exactly the specified median gap. |
| Jitter.BaseUnit | pfie-web/js/app.js:313-314 | The base unit is positive and at least each positive finite step. When some step is positive it is one of the positive steps, so the larger of them. When neither step is positive it is 1e-5. |
| Jitter.Scaled | pfie-web/js/app.js:307-316 | The amount is zero exactly at slider position 0, and has the sign of the slider position. |
| Jitter.ComputeJitterAmount | pfie-web/js/app.js:305-317 | The amount is the slider position over 10 times the base unit of the two medians. It returns early with 0 at position 0. |
| MapPoints.PointsSpec | pfie-web/js/app.js:324 | The points are exactly the filtered rows with both coordinates present, counted as such. |
| MapPoints.RoundSpec | pfie-web/js/app.js:329 | `Math.round` gives the integer within a half, with halves rounded up. |
| MapPoints.MarkerPositionsSpec | pfie-web/js/app.js:324-334 | One finite position per located row, in order. At slider position 0 or below, the rows' own coordinates. Above 0, a positive amount; latitude i is shifted by draw i + 1 of the generator seeded with the rounded position plus 1000, longitude i by the same draw of the next seed. Neither moves by more than the amount. |
| MapPoints.DrawMapPoints | pfie-web/js/app.js:319-334 | Returns early with no points. Otherwise it computes the amount, the seed and the conditional jitter, equal to the specified positions. |
| Loess.Span | pfie-web/js/app.js:62-63 | The span is at least 2. |
| Loess.SpanBounds | pfie-web/js/app.js:62-63 | For a bandwidth in [0, 1] and n >= 3, the span is between 2 and n. A zero bandwidth falls back to 0.75, and otherwise the span is `floor(bw * n)` when that is at least 2. |
| Loess.Indexed | pfie-web/js/app.js:70 | Entry j pairs index j with the distance `abs(xs[j] - xi)`. |
| Loess.SortByDistanceSpec | pfie-web/js/app.js:71 | The stable sort of the index-ordered list orders by distance and then by index, keeping the entries. |
| Loess.NeighboursNearest | pfie-web/js/app.js:69-73 | The neighbours are the first min(span, n) entries of the sorted list. None of the others is nearer than the farthest neighbour. |
| Loess.SelfIsNeighbour | pfie-web/js/app.js:72-75 | When the farthest neighbour has a positive distance, the point itself is a neighbour. |
| Loess.WeightBounds | pfie-web/js/app.js:80-81 | The tricube weight is in [0, 1], and 1 at distance 0. |
| Loess.WeightSum | pfie-web/js/app.js:84 | The weight sum is non-negative, and at least 1 when the point itself is among the neighbours. |
| Loess.WeightedMeanBounds | pfie-web/js/app.js:78-93 | Weighted sums of values in [lo, hi] keep `swy` within `[lo * sw, hi * sw]`. |
| Loess.LinearSums | pfie-web/js/app.js:78-89 | Points on a line `y = a x + b` give sums satisfying that line's normal equations. |
| Loess.RegressionOnLine | pfie-web/js/app.js:91-97 | The least-squares line through such sums is that line. |
| Loess.NeighbourSums | pfie-web/js/app.js:78-89 | When the farthest neighbour has a positive distance, the weight sum is at least 1, so `swy / sw` is defined. |
| Loess.SmoothedCopies | pfie-web/js/app.js:58-75 | With fewer than three points the values come back unchanged. So does a point whose neighbours all share its abscissa. |
| Loess.DegenerateFitBounds | pfie-web/js/app.js:92-93 | In the singular branch the value lies between any bounds of the neighbours' values. |
| Loess.LinearDataReproduced | pfie-web/js/app.js:94-97 | On data lying on a line, the regression branch returns the line's value at the point. |
| Loess.AccumulateSums | pfie-web/js/app.js:78-89 | The accumulation loop computes exactly the specified five sums. |
| Loess.FitAt | pfie-web/js/app.js:67-98 | The body of the outer loop computes exactly the specified value at point i. |
| Loess.Smooth | pfie-web/js/app.js:58-101 | The output array holds exactly the specified smoothed values. |
| Dates.FloorMonth | pfie-web/js/app.js:120-122 | The result is a valid date on day 1 of the same month. Its year is the date's year, or 1900 plus it when the year is 0 to 99, as `new Date(y, m, 1)` reads a year. |
| Dates.FloorMonthBounds | pfie-web/js/app.js:120-122 | Flooring is idempotent. Outside the years 0 to 99, the floored date is on or before the date and less than 31 days before it. Inside them it lies after the date. |
| Dates.MonthKeyInjective | pfie-web/js/app.js:467-468 | Two dates get the same month time stamp exactly when their months agree and their years agree once 0 to 99 are read as 1900 to 1999. Outside those years, this means the same year and month. |
| Dates.MonthKeyCentury | pfie-web/js/app.js:120-122 | A date in March of year 50 and one in March 1950 share the month key 1950-03-01. |
| Dates.DayNumberMonotonic | pfie-web/js/app.js:145-146 | The day number is strictly increasing in date order, and equal exactly for equal dates. |
| Dates.FmtDate | pfie-web/js/app.js:111-117 | The text is empty exactly for a missing date. |
| Dates.FmtDateRoundTrip | pfie-web/js/app.js:111-117 | Reading `YYYY-MM-DD` back gives the date, for years from 0. Years 1000-9999 give 10 characters. |
| Dates.Pad2Value | pfie-web/js/app.js:114-115 | `padStart(2, '0')` of 1-99 gives two digits with that value. |
| Text.NatToStringRoundTrip | pfie-web/js/app.js:114-115 | The decimal digits of n read back as n. |
| Text.PadStart | pfie-web/js/app.js:114-115 | The result has length max(width, \|s\|), ends with s, and is filled with the pad character in front. |
| Text.SplitJoin | pfie-web/js/app.js:535-539 | Splitting a join at a separator absent from the parts gives the parts back. |
| Text.TrimWithin | pfie-web/js/app.js:536 | Trimming introduces no character that was not there. |
| Text.LessTotal | pfie-web/js/app.js:745 | The default string order of `sort()` is total, and also irreflexive and transitive (`LessIrreflexive`, `LessTransitive`). |
| Records.CentroidMapSpec | pfie-web/js/app.js:727-728 | A state has an entry exactly when some centroid row names it. The entry is that of the last such row. |
| Records.BuildCentroidMap | pfie-web/js/app.js:727-728 | The `forEach` over the centroid rows builds exactly that map. |
| Records.Resolve | pfie-web/js/app.js:735-741 | Resolving changes only the two coordinates. |
| Records.ResolveFromTable | pfie-web/js/app.js:739-740 | A missing coordinate takes the centroid of the row's state. A present one is kept. |
| Records.ResolveWithoutCentroid | pfie-web/js/app.js:739-740 | Without a centroid row for the state, both coordinates stay as they were. |
| Records.LoadRowsSpec | pfie-web/js/app.js:734-742 | Every loaded row has a date and is the resolved form of a row whose date parsed. Every row whose date parsed is loaded, resolved. There are as many loaded rows as such rows. |
| Records.LoadRowsOrder | pfie-web/js/app.js:734-742 | Loading keeps file order. Loading two consecutive runs of rows loads each in turn, and a single row yields its resolved form exactly when its date parsed. |
| Records.StateListSpec | pfie-web/js/app.js:745 | The state list is strictly sorted and names exactly the states of the rows. |
| Records.StateListDistinct | pfie-web/js/app.js:745 | No state appears twice. |
| Filters.MakeCriteria | pfie-web/js/app.js:130-139 | A missing start or end date defaults to 2014-01-01 or 2020-12-31. |
| Filters.SelectSpec | pfie-web/js/app.js:141-150 | Every kept row is a row of `rawData` that matches every control, and every matching row is kept. Each matching row is kept as often as it occurs, and no other row is kept. |
| Filters.SelectOrder | pfie-web/js/app.js:141-150 | The selection keeps the order of `rawData`. Selecting from two consecutive runs of rows selects from each in turn, and a single row is kept exactly when it matches. |
| Filters.StepwiseIsSelect | pfie-web/js/app.js:143-150 | The chain of up to six filters keeps the same rows, in the same order, as the conjunction. |
| Filters.EmptyRange | pfie-web/js/app.js:145-146 | An end before the start keeps nothing. |
| Filters.DefaultCriteriaKeepAll | pfie-web/js/app.js:130-150 | With default dates, National, All and All, every row dated within 2014-2020 is kept. |
| Filters.TalliesSpec | pfie-web/js/app.js:152-160 | An incident has an aggregate exactly when it has a filtered row. The aggregate holds its number of rows and of Fatal and Nonfatal rows. |
| Filters.StatusesWithinTotal | pfie-web/js/app.js:157-159 | Fatal plus Nonfatal rows never exceed the total. |
| Filters.FilteredDataSpec | pfie-web/js/app.js:162-167 | Each filtered row keeps its fields and position. It carries its incident's filtered total (at least 1, so `?? 1` never applies) and the Fatal and Nonfatal counts. |
| Filters.CountsOnlyFiltered | pfie-web/js/app.js:152-160 | The aggregates count the matching rows only, never more than the incident's rows in all. |
| Filters.CaseSummarySpec | pfie-web/js/app.js:169-170 | The text starts with the count's digits, which read back as the count. It ends in " case shown" exactly for one case and in " cases shown" exactly otherwise. |
| Filters.Aggregate | pfie-web/js/app.js:153-160 | The grouping loop builds exactly the specified aggregates. |
| Filters.ApplyFilters | pfie-web/js/app.js:143-150 | The chain of filters returns exactly the matching rows. |
| Filters.Dashboard.RunFilters | pfie-web/js/app.js:141-171 | `filteredData` and the case count are set from the current controls. `rawData` and the state list are unchanged. |
| Filters.Dashboard.LoadData | pfie-web/js/app.js:726-758 | `rawData` is the loaded rows and the state list is theirs. A first filtering pass follows. |
| BarChart.BarCountsSpec | pfie-web/js/app.js:395-401 | The table has exactly the four agency types, each with Fatal and Nonfatal cells and a cell for any other status seen. Every cell counts the rows with that agency type and status. |
| BarChart.ZeroTable | pfie-web/js/app.js:396-396 | The loop over the agency types gives each of the four a Fatal and a Nonfatal cell at zero, and nothing else. |
| BarChart.AggregateBars | pfie-web/js/app.js:395-401 | The counting loop builds exactly that table. |
| BarChart.Column | pfie-web/js/app.js:418-428 | One count per agency type. |
| BarChart.BarTracesSpec | pfie-web/js/app.js:414-434 | There is one trace for a Fatal or Nonfatal selection and two otherwise. The Fatal trace appears exactly unless the selection is Nonfatal, and vice versa. Each trace lists the four agency types with their counts. |
| BarChart.UpdateBarChart | pfie-web/js/app.js:390-434 | The traces are computed from the aggregated table as specified. |
| Trends.KeyInjective | pfie-web/js/app.js:468 | Two month keys `${time}_${status}` are equal exactly when month and status are. |
| Trends.MonthBucketsSpec | pfie-web/js/app.js:465-471 | The map's keys are distinct and every count is at least 1. A key is present exactly when some row has that month and status, and its count is the number of such rows. |
| Trends.VisitSpec | pfie-web/js/app.js:467-470 | Counting one row keeps the map well formed and adds one to its own key only. |
| Trends.CountByMonth | pfie-web/js/app.js:465-471 | The counting loop builds exactly that map. |
| Trends.ValuesSpec | pfie-web/js/app.js:473-476 | The values have distinct month and status pairs and count their rows. Every row's month and status has a value. |
| Trends.SortByMonthSpec | pfie-web/js/app.js:473-476 | The stable sort by month orders the buckets and keeps them. |
| Trends.SeriesSpec | pfie-web/js/app.js:473-476 | A series is strictly increasing in month, and each bucket has the label, a first-of-month date and its row count of at least 1. Every row of the label has its month in the series. |
| Trends.SeriesTotal | pfie-web/js/app.js:465-476 | The counts of a series add up to the number of rows with its label. It is empty exactly when there are none. |
| Trends.FilteredDated | pfie-web/js/app.js:162-167 | Every filtered row has a date, so `floorMonth(r._date)` is defined. |
| Trends.TracesForSpec | pfie-web/js/app.js:479-508 | An empty series gives no traces. Otherwise there are markers and a line with one x per bucket. The x reads back as the bucket's month, y is the counts, and under three points the line repeats the counts. |
| Trends.MakeTraces | pfie-web/js/app.js:479-508 | `makeTraces` computes exactly those traces. |
| Trends.TrendTracesSpec | pfie-web/js/app.js:510-512 | The Fatal pair is shown exactly when the selector allows it and a Fatal row exists, and likewise the Nonfatal pair. The Fatal pair comes first. |
| Trends.UpdateTrendsChart | pfie-web/js/app.js:465-512 | The chart's traces are computed as specified. |
| Export.SplitSources | pfie-web/js/app.js:535 | Splitting always yields at least one piece. |
| Export.KeepUrlsSpec | pfie-web/js/app.js:536-537 | Keeping the URLs is trim-then-drop-empty. |
| Export.LinksSpec | pfie-web/js/app.js:538-539 | The links are the anchors joined by `<br>`. |
| Export.SourceUrlsShape | pfie-web/js/app.js:534-537 | Every kept URL is non-empty, trimmed and free of commas. |
| Export.SourceUrlsRoundTrip | pfie-web/js/app.js:534-537 | URLs of that shape, joined by ", ", split back to themselves. |
| Export.SplitSourcesSpaced | pfie-web/js/app.js:535 | The `/,\s*/` split of URLs joined by ", " gives them back. |
| Export.SourceLinksOf | pfie-web/js/app.js:534-539 | The links of such a sources text are the anchors of its URLs joined by `<br>`. |
| Export.TableRow | pfie-web/js/app.js:541-550 | A table row has eight cells. |
| Export.TableRowSpec | pfie-web/js/app.js:541-550 | Id, status, state and agency are copied. The date cell is empty exactly when the date is missing, and otherwise reads back as the date. A coordinate cell is empty exactly when the coordinate is missing. |
| Export.TableRowsSpec | pfie-web/js/app.js:531-552 | One row per filtered row, in order. |
| Export.CellsSpec | pfie-web/js/app.js:593-615 | The download cells, in column order, are: the id, `fmtDate`, the status, the state, each coordinate's text or "", the agency type, and the sources or "". |
| Export.EscSpec | pfie-web/js/app.js:622-625 | A field is unchanged exactly when it has no comma, quote or line feed. Otherwise it is quoted with its quotes doubled. Unquoting gives it back. |
| Export.HalveDoubled | pfie-web/js/app.js:624 | Halving doubled quotes inverts the doubling. |
| Export.ReadFieldOf | pfie-web/js/app.js:622-625 | An escaped field followed by a comma or the line's end reads back as itself. |
| Export.CsvLineRoundTrip | pfie-web/js/app.js:626-627 | A CSV line of escaped fields joined by commas parses back to the fields. |
| Export.CsvRowsSpec | pfie-web/js/app.js:626-627 | The header line and every row line parse back to the column names and the row's cells. |
| Export.CsvContentSpec | pfie-web/js/app.js:626-628 | Without line feeds in the cells, the CSV text splits into the header line and one line per row. With no rows it is the header line and an empty line. |
| Export.TsvRowsSpec | pfie-web/js/app.js:614-615 | Without tabs in the cells, the header and every row split at tabs into the column names and the row's cells. |
| Export.TsvContentSpec | pfie-web/js/app.js:614-616 | Without line feeds in the cells, the text file splits into the header line and one line per row. |
| Export.CsvRows | pfie-web/js/app.js:627 | One CSV line per filtered row, each the escaped cells of that row. |
| Export.TsvRows | pfie-web/js/app.js:615 | One tab-separated line per filtered row, each the cells of that row. |
| Export.DownloadFile | pfie-web/js/app.js:606-631 | The JSON choice gives no file in this model. TXT gives the tab-separated text and any other choice gives the CSV. |

## Left out

- The DOM, Leaflet, Plotly, DataTables and flatpickr:
  - markers, colours, popups, clustering and map bounds;
  - chart titles, layout and `buildTitleBase`;
  - `fmtMonthLabel`, which uses locale formatting;
  - the table widget and the file download mechanics (`Blob`, object URLs).

  Only the values handed to these libraries are modelled.
- Reading the data:
  - `fetch`, and Papa's CSV parsing and type inference, are not modelled. The
    tables arrive already parsed as `Record` and `CentroidRow` values.
  - A present date is a parsed date; `parseDate` is not modelled.
  - `dynamicTyping` is assumed to give numbers for coordinates and text for the
    other columns.
- The JSON download (`JSON.stringify`) is not modelled. `Export.DownloadFile`
  returns no file for it.
- JavaScript numbers are not modelled bit for bit:
  - coordinates, counts, draws and LOESS sums are exact reals;
  - `toFixed(4)` and `String(number)` are the parameters `fixed4` and `numText`;
  - `toLocaleString` in the case count is left out: no thousands separators.
- Time zones are left out. Dates are calendar triples, and a month key is the
  UTC millisecond count of its first day. The page uses local time, which only
  shifts every key by the same offset, except across daylight-saving changes.
- `Jitter.Num`: an infinite coordinate is modelled by its sign only. NaN and
  infinity enter only through the generic jitter and median inputs. Map rows
  carry `Option<real>` coordinates, as Papa gives numbers or null.
- Jitter slider text is a real `steps`. A slider value that `parseFloat` cannot
  read (NaN) is left out, as the range input always gives a number.
- Object keys:
  - `monthMap`'s text key is modelled by the (month, status) pair it encodes;
    `Trends.KeyInjective` proves the two agree.
  - Keys such as `__proto__` or `constructor` in `agg` or `centroidMap` are left
    out: a plain map is used.
- String order in the state list is by UTF-16 code unit, as `sort()` does; this
  model compares Dafny characters, which agrees for characters of the Basic
  Multilingual Plane.
- `Export.CsvContentSpec`, `Export.TsvContentSpec`: these state the line
  structure only for cells without line feeds. A CSV cell with a line feed is
  quoted and spans lines, as intended. `esc` does not quote a carriage return.
- `Loess.DegenerateFitBounds`: the near-singular test `abs(det) < 1e-12` is
  modelled with exact arithmetic, so the bound holds for the exact weighted mean
  rather than its floating-point value.
- `Loess.Smooth`: the `bandwidth || 0.75` fallback treats only 0 as falsy. NaN
  and a missing argument are left out, as the only caller passes 0.75.
