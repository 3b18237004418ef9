# Singapore rainfall dashboard core, modelled in Dafny

This project models the two core classes of a rainfall dashboard that reads
Singapore's real-time rainfall API.

- `RainfallDataProcessor` (data_processor.py) takes the API's JSON response.
  It resolves every station into the `stations_info` dictionary. It picks
  identifier, name and coordinates by fixed alias priorities, and a later
  station with the same key overwrites an earlier one. It then flattens the
  time-bucketed readings into one row per data point. Each row is joined
  against `stations_info`, with a placeholder name and coordinates 0 for an
  unknown station.
- `RainfallAnalyzer` (analyzer.py) works on the joined table. It ranks
  stations, or cells of rounded coordinates, by total rainfall, top-n and
  bottom-n. It builds the hourly distribution and the current month's
  average. It raises alerts for stations whose mean exceeds that average
  times a multiplier. It also produces summary statistics.

## Files

- json.dfy: JSON values and the Python rules the processor relies on (truth
  values, `dict.get` chains, iteration with `len`, dictionary keys).
- data_processor.dfy: the processor. Its class `RainfallDataProcessor` holds
  `stationsInfo` as a `map` field. `ProcessStations` and `ProcessReadings` are
  the source's loops, proved against specification functions.
- table.dfy: the joined table the analyzer reads, with sums and means.
- grouping.dfy: `groupby(...).agg(...)`, proved against a reference
  definition: each group aggregates exactly the rows of its key.
- ranking.dfy: `sort_values` and `nlargest`, an insertion sort proved to
  return a sorted permutation.
- analyzer.dfy: the analyzer, including the class `RainfallAnalyzer`.

## How the model reads the Python

- A Python exception on a malformed payload is an explicit outcome:
  `Raised`, or `None` in the specification functions. Examples are `.get` on
  a non-object, `len` of a number, or a list used as a dictionary key. No
  precondition rules these payloads out.
- Python's `True == 1` and `False == 0` hash alike, so they share one
  dictionary key (`Json.HashKey`).
- The placeholder name `Station_<id>` is kept symbolic as `Placeholder(id)`.
- The clock the analyzer reads (`datetime.now()`) becomes the `month` and
  `year` parameters.
- `Series.round(2)` becomes a function parameter.
- The fetch result becomes an `Option` input to `GetAllData`.

### Where the code and the repository's design description disagree

The model follows the code in both cases below.

- Malformed entries: the design description skips a malformed station or
  reading entry and carries on. The code catches nothing on this path. A
  station that is not an object, a location that is not an object or an
  unhashable identifier raises (data_processor.py:52-68). So do a bucket or
  point that is not an object, or a `data` value that cannot be iterated
  (data_processor.py:87-107). The exception aborts the whole step. The model
  makes that step `Raised` (`StationsResult`, `ReadingsResult`). The stores
  made before a failing station stay in `stations_info`.
- The worked summary example: two stations each read 0, 5 and 10 mm, and
  the description gives an average of 2.5. The code computes the plain mean
  over all six readings, which is 5.0. `Analyzer.ExampleTwoStations` proves
  5.0 for that table, together with 6 readings, 2 stations and 2 zero
  readings.

## Model

| member | source | states |
|---|---|---|
| DataProcessor.RainfallDataProcessor.constructor | data_processor.py:10-12 | A new processor starts with an empty `stations_info` dictionary. |
| DataProcessor.RainfallDataProcessor.ProcessStations | data_processor.py:34-70 | Result and new dictionary equal the specification functions `StationsResult` and `StationsInfoAfter`. It returns an empty frame for a missing or empty payload. Raises at the first malformed station. Otherwise returns the station list. Leaves `stations_info` updated with every station processed before any failure, in order. |
| DataProcessor.RainfallDataProcessor.ProcessBucket | data_processor.py:87-107 | Result equals the specification function `BucketRows` for one bucket. It gives that bucket's rows in point order, or nothing when the bucket is not an object, its `data` cannot be iterated, or one of its points raises. |
| DataProcessor.RainfallDataProcessor.ProcessReadings | data_processor.py:72-117 | Result equals the specification function `ReadingsResult`. It returns exactly the rows of all buckets' points, joined against the current `stations_info`. Returns an empty table when the payload or its readings are missing or empty, and raises when a bucket or point is malformed. |
| DataProcessor.RainfallDataProcessor.GetAllData | data_processor.py:119-147 | Returns nothing and leaves `stations_info` untouched for a failed or falsy fetch. Returns nothing when the station frame is empty. Otherwise returns what the reading step gives against the dictionary the station step has just updated. |
| DataProcessor.StationEntrySpec | data_processor.py:52-68 | A station raises exactly when it or its location is not an object, or its identifier is unhashable. Otherwise its key, name and coordinates follow the alias chains (`id` before `stationId`; `labelLocation`, then `location`, then `coordinates`; `latitude` before `lat`; `longitude`, then `lng`, then `lon`), with the placeholder name and 0 as defaults. |
| DataProcessor.RegisterLastWins | data_processor.py:64-68 | After a sequence of stores, a key holds the entry of its last store. |
| DataProcessor.RegisterKeepsOthers | data_processor.py:64-68 | A key that no store uses keeps its old entry, or stays absent. |
| DataProcessor.RegisterKeys | data_processor.py:52-68 | The dictionary's keys afterwards are the old keys plus every stored key, and nothing else. |
| DataProcessor.StationsInfoLastWins | data_processor.py:52-68 | After the station step, each station processed before the first failure is stored under its key unless a later processed station reuses that key. |
| DataProcessor.StationsInfoKeepsOthers | data_processor.py:52-68 | After the station step, every key no processed station uses keeps its old entry, or stays absent. |
| DataProcessor.NoStations | data_processor.py:36-45 | A falsy response, one without `data`, or one with absent or empty `stations` gives an empty frame. `stations_info` is left unchanged. |
| DataProcessor.PointRowSpec | data_processor.py:93-106 | A point raises exactly when it is not an object or its identifier is unhashable. Otherwise its row carries the bucket's timestamp and the identifier (`stationId`, then `station_id`, then `id`). Rainfall is `value`, then `rainfall`. The station entry is joined in, or the placeholder name and coordinates 0 for an unknown station. |
| DataProcessor.CollectionSpec | data_processor.py:36-45 | Specifies `Collection` and `DataSection`, the guard and lookup at lines 36-45 and 74-83. A step walks entries exactly when the response is an object whose `data` is an object holding a non-empty list under the key, and it then walks exactly that list's items. |
| DataProcessor.PointRowsSome | data_processor.py:93-107 | A bucket's points give rows exactly when none of them raises. |
| DataProcessor.BucketRowsSome | data_processor.py:87-107 | A bucket raises exactly when it is not an object, its `data` cannot be iterated, or one of its points raises. |
| DataProcessor.ReadingRowsSome | data_processor.py:87-107 | The reading step gives rows exactly when no bucket raises. |
| DataProcessor.NoReadings | data_processor.py:74-83 | A falsy response, one without `data`, or one with absent or empty `readings` gives an empty table. |
| DataProcessor.ReadingRowsLayout | data_processor.py:85-107 | The table has one row per data point, with none dropped or invented, laid out bucket-major and point-minor. |
| DataProcessor.PointRowsFail | data_processor.py:93-107 | One point that raises makes its whole bucket raise. |
| DataProcessor.ReadingRowsFail | data_processor.py:87-107 | One bucket that raises makes the whole reading step raise. |
| Json.FirstPresentAt | data_processor.py:94-95 | A `.get` alias chain returns the value of the first alias present, even when later aliases are present too. |
| Json.FirstPresentAbsent | data_processor.py:53 | A `.get` alias chain with no alias present returns its default. |
| Json.Entries | data_processor.py:40-52 | `len` and iteration visit exactly a list's own items, and nothing for an empty string or object. A non-empty result arises exactly for a non-empty list. Anything else raises. |
| Json.HashKey | data_processor.py:64 | A dictionary key raises exactly for lists and objects. Booleans share a key with 1 and 0, and every other value is its own key. |
| Grouping.GroupBySpec | analyzer.py:29-35 | Group-by has distinct keys, and each group is the aggregate of exactly its key's rows. Every row lies in a group. Group totals and counts add up to the table's rainfall and row count. |
| Ranking.SortDescSpec | analyzer.py:105 | The sort returns a permutation of its input, in non-increasing order. |
| Ranking.LargestSpec | analyzer.py:37 | `nlargest` returns min(n, size) elements of its input, sorted, and none scores below an element left out. |
| Analyzer.AreasSpec | analyzer.py:16-35 | Each ranking row aggregates exactly its group's rows: sum, count, mean, mean coordinates and name (`first` for a cell). Keys are distinct and every row is covered. Totals and counts add up to the table's. |
| Analyzer.TopAreasSpec | analyzer.py:11-37 | Specifies `TopAreas`. Top-n is empty for an empty table. Otherwise it holds min(n, groups) of the groups in non-increasing total order, and no group left out has a larger total. |
| Analyzer.LowestRainfallAreasSpec | analyzer.py:39-52 | Specifies `LowestRainfallAreas`. Bottom-n is empty for an empty table. Otherwise it holds min(n, stations) station groups in non-decreasing total order, and no group left out has a smaller total. |
| Analyzer.HourlyDistributionSpec | analyzer.py:54-64 | Specifies `HourlyDistribution`. The hourly table is empty for an empty table. Its hours are strictly ascending, and each row aggregates exactly that hour's readings. Every reading's hour appears, totals add up to the table's rainfall, and there are at most 24 rows for valid timestamps. |
| Analyzer.InMonthCounts | analyzer.py:74-77 | Each row of the month and year occurs in the filtered table exactly as often as in the whole table, and rows outside it not at all. |
| Analyzer.InMonthSpec | analyzer.py:74-77 | The month filter keeps exactly the rows of that month and year, each as often as it occurs in the table (multiset counts). Its size is the number of matching rows and its rainfall sum is theirs. |
| Analyzer.MaxRain | analyzer.py:118 | The maximum is attained by some reading and bounds every reading. |
| Analyzer.MinRain | analyzer.py:119 | The minimum is attained by some reading and bounds every reading. |
| Analyzer.MonthlyAverageSpec | analyzer.py:66-82 | Specifies `MonthlyAverage`. The monthly average is 0 for an empty table. When some row is in the month, it is the month's rainfall total divided by the month's row count. Otherwise it is the mean of all rows. It lies between the table's minimum and maximum. |
| Analyzer.AlertAreasSpec | analyzer.py:84-107 | Specifies `AlertAreas`. Alerts are `([], 0)` for an empty table. The threshold is the monthly average times the multiplier. Alerts are exactly the stations whose mean exceeds it, each once, each with excess = mean - threshold > 0, sorted by excess from largest. |
| Analyzer.SummaryStatsSpec | analyzer.py:109-124 | Specifies `SummaryStats`. The summary is `{}` exactly for an empty table. Otherwise it reports the row count, the number of distinct station ids (between 1 and the row count), the mean, attained extremes with min <= mean <= max, the count of zero readings, and a time range enclosing every timestamp. |
| Analyzer.ZeroReadingsCount | analyzer.py:121 | The zero-rainfall count is the number of readings equal to 0. |
| Analyzer.StationIdsBound | analyzer.py:115 | The number of distinct station ids is at most the row count, and at least 1 for a non-empty table. |
| Analyzer.Earliest | analyzer.py:122 | The start of the time range is some row's timestamp, and no timestamp is earlier. |
| Analyzer.Latest | analyzer.py:123 | The end of the time range is some row's timestamp, and no timestamp is later. |
| Analyzer.ExampleTwoStations | analyzer.py:114-121 | Two stations reading 0, 5 and 10 mm give 6 readings, 2 stations, mean 5.0, maximum 10, minimum 0 and 2 zero readings. |
| Analyzer.RainfallAnalyzer.constructor | analyzer.py:8-9 | The analyzer holds its own copy of the table and no added columns. |
| Analyzer.RainfallAnalyzer.GetTopRainfallAreas | analyzer.py:11-37 | Returns the top-n areas, grouped by station or, with grouping by proximity, by rounded coordinates. Only in the latter case, on a non-empty table, does it store the rounded `lat_group` / `lon_group` columns on the analyzer's copy. |

## Left out

- `fetch_data`: the HTTP request, its timeout and failure handling are I/O. The fetch result is the `Option` input of `GetAllData`.
- `debug_api_structure`, every `print`, the `debug` flag and the `__main__` blocks: output only. The model keeps the `len` calls the prints make, because they can raise.
- app.py and test_api.py are not part of this model: they are the dashboard front end and a manual API probe.
- DataProcessor.RainfallDataProcessor.ProcessReadings: does not model `pd.to_datetime` (a timestamp stays the raw JSON value, and a parse that raises is not captured). It also omits the derived `hour` and `date` columns.
- The conversion from the processor's rows (JSON values) to the analyzer's typed table is not modelled: pandas' column type inference is not part of this model.
- Analyzer.HourlyDistributionSpec and Analyzer.SummaryStatsSpec: standard deviations (`std`) need square roots and floating point, so they are left out.
- Analyzer.RainfallAnalyzer.GetTopRainfallAreas: `Series.round(2)` is the parameter `round`, since decimal rounding of binary floating point is not modelled.
- Analyzer.TopAreasSpec, Analyzer.LowestRainfallAreasSpec and Analyzer.AlertAreasSpec: the order among rows with equal scores is not fixed, because pandas' tie-breaking is not modelled.
- Grouping.GroupBySpec: groups are kept in first-appearance order, not in pandas' sorted-key order. No caller depends on that order except through ties.
- DataProcessor.StationEntrySpec: the placeholder `Station_<id>` is kept symbolic, because Python's `str()` rendering of non-string identifiers is not modelled.
- Numbers are exact reals. Floating-point rounding, NaN and pandas' skipping of missing values are not modelled.
