/**
 * The aggregation and alert engine of analyzer.py (class RainfallAnalyzer):
 * rankings by total rainfall, the hourly distribution, the monthly average
 * and the alerts it drives, and summary statistics. Every operation gives an
 * empty or neutral result on an empty table. The clock the source reads
 * (`datetime.now()`) is the `month` and `year` parameters here.
 */
module Analyzer {
  import opened Wrappers
  import opened Table
  import opened Grouping
  import opened Ranking

  // ---------------------------------------------------------------------
  // Rankings

  /** A ranking group: a station (`station_id`, `station_name`), or a cell of rounded coordinates. */
  datatype AreaKey = Station(id: string, name: string) | Cell(latGroup: real, lonGroup: real)

  /** A ranking row: the group, its name, `total_rainfall`, `avg_rainfall`, `reading_count` and mean coordinates. */
  datatype Area = Area(
    key: AreaKey,
    stationName: string,
    totalRainfall: real,
    avgRainfall: real,
    readingCount: nat,
    latitude: real,
    longitude: real)

  function StationKey(r: Row): AreaKey { Station(r.stationId, r.stationName) }

  /** The `lat_group` / `lon_group` key, `round` standing for `Series.round(2)`. */
  function CellKey(round: real -> real): Row -> AreaKey {
    (r: Row) => Cell(round(r.latitude), round(r.longitude))
  }

  function TotalRainfall(a: Area): real { a.totalRainfall }
  function NegTotalRainfall(a: Area): real { -a.totalRainfall }
  function ReadingCount(a: Area): real { a.readingCount as real }
  function AreaKeyOf(a: Area): AreaKey { a.key }

  /** One aggregated group as a ranking row; a cell is named after its first row (`'first'`). */
  function ToArea(g: Group<AreaKey>): Area
    requires g.count > 0
  {
    var n := g.count as real;
    Area(g.key, if g.key.Station? then g.key.name else g.firstName, g.total, g.total / n, g.count, g.latSum / n, g.lonSum / n)
  }

  /** `groupby(keys).agg({'rainfall_mm': ['sum', 'mean', 'count'], ...}).reset_index()` */
  function Areas(rows: seq<Row>, keyOf: Row -> AreaKey): seq<Area> {
    var gs := GroupBy(rows, keyOf);
    seq(|gs|, i requires 0 <= i < |gs| => ToArea(gs[i]))
  }

  /** Area `a` is the aggregate of exactly the rows of its key: sum, count and mean rainfall, mean coordinates, name. */
  predicate AggregatesRows(rows: seq<Row>, keyOf: Row -> AreaKey, a: Area) {
    var ms := Members(rows, keyOf, a.key);
    && ms != []
    && a.totalRainfall == Sum(ms, Rain)
    && a.readingCount == |ms|
    && a.avgRainfall == Mean(ms)
    && a.latitude == Sum(ms, Lat) / |ms| as real
    && a.longitude == Sum(ms, Lon) / |ms| as real
    && a.stationName == (if a.key.Station? then a.key.name else ms[0].stationName)
  }

  lemma ToAreaAggregates(rows: seq<Row>, keyOf: Row -> AreaKey, g: Group<AreaKey>)
    requires Members(rows, keyOf, g.key) != []
    requires g == Aggregate(g.key, Members(rows, keyOf, g.key))
    ensures AggregatesRows(rows, keyOf, ToArea(g))
  {
  }

  /**
   * Each area aggregates exactly the rows of its key; keys are distinct,
   * every row is in some area, and totals and counts add up to the table's.
   */
  lemma AreasSpec(rows: seq<Row>, keyOf: Row -> AreaKey)
    ensures Distinct(Areas(rows, keyOf), AreaKeyOf)
    ensures forall i :: 0 <= i < |Areas(rows, keyOf)| ==> AggregatesRows(rows, keyOf, Areas(rows, keyOf)[i])
    ensures forall j :: 0 <= j < |rows| ==>
      exists i :: 0 <= i < |Areas(rows, keyOf)| && Areas(rows, keyOf)[i].key == keyOf(rows[j])
    ensures Sum(Areas(rows, keyOf), TotalRainfall) == Sum(rows, Rain)
    ensures Sum(Areas(rows, keyOf), ReadingCount) == |rows| as real
  {
    AreasRows(rows, keyOf);
    AreasCover(rows, keyOf);
    AreasSums(rows, keyOf);
  }

  lemma AreasRows(rows: seq<Row>, keyOf: Row -> AreaKey)
    ensures Distinct(Areas(rows, keyOf), AreaKeyOf)
    ensures forall i :: 0 <= i < |Areas(rows, keyOf)| ==> AggregatesRows(rows, keyOf, Areas(rows, keyOf)[i])
  {
    var gs := GroupBy(rows, keyOf);
    var areas := Areas(rows, keyOf);
    GroupBySpec(rows, keyOf);
    forall i | 0 <= i < |areas| ensures AggregatesRows(rows, keyOf, areas[i]) {
      ToAreaAggregates(rows, keyOf, gs[i]);
    }
    forall i, j | 0 <= i < j < |areas| ensures AreaKeyOf(areas[i]) != AreaKeyOf(areas[j]) {
      assert KeyOf(gs[i]) != KeyOf(gs[j]);
    }
  }

  lemma AreasCover(rows: seq<Row>, keyOf: Row -> AreaKey)
    ensures forall j :: 0 <= j < |rows| ==>
      exists i :: 0 <= i < |Areas(rows, keyOf)| && Areas(rows, keyOf)[i].key == keyOf(rows[j])
  {
    var gs := GroupBy(rows, keyOf);
    var areas := Areas(rows, keyOf);
    forall j | 0 <= j < |rows|
      ensures exists i :: 0 <= i < |areas| && areas[i].key == keyOf(rows[j])
    {
      GroupByCoversRow(rows, keyOf, j);
      var i :| 0 <= i < |gs| && gs[i].key == keyOf(rows[j]);
      assert areas[i].key == gs[i].key;
    }
  }

  lemma AreasSums(rows: seq<Row>, keyOf: Row -> AreaKey)
    ensures Sum(Areas(rows, keyOf), TotalRainfall) == Sum(rows, Rain)
    ensures Sum(Areas(rows, keyOf), ReadingCount) == |rows| as real
  {
    var gs := GroupBy(rows, keyOf);
    GroupBySums(rows, keyOf);
    SumPointwise(Areas(rows, keyOf), TotalRainfall, gs, TotalOf);
    SumPointwise(Areas(rows, keyOf), ReadingCount, gs, CountOf);
  }

  /** `nlargest(n, 'total_rainfall')` of the areas under `keyOf`; nothing for an empty table. */
  function TopAreas(data: seq<Row>, n: nat, keyOf: Row -> AreaKey): seq<Area> {
    if data == [] then [] else Largest(Areas(data, keyOf), n, TotalRainfall)
  }

  /** `get_lowest_rainfall_areas`: `nsmallest(n, 'total_rainfall')` of the station areas. */
  function LowestRainfallAreas(data: seq<Row>, n: nat := 10): seq<Area> {
    if data == [] then [] else Largest(Areas(data, StationKey), n, NegTotalRainfall)
  }

  lemma AreasEmpty(keyOf: Row -> AreaKey)
    ensures Areas([], keyOf) == []
  {
    assert GroupBy([], keyOf) == [];
  }

  /**
   * Top-n: min(n, number of areas) areas, all of them real groups of the
   * table, in non-increasing order of total, and none with a smaller total
   * than an area left out.
   */
  lemma TopAreasSpec(data: seq<Row>, n: nat, keyOf: Row -> AreaKey)
    ensures data == [] ==> TopAreas(data, n, keyOf) == []
    ensures |TopAreas(data, n, keyOf)| == if n < |Areas(data, keyOf)| then n else |Areas(data, keyOf)|
    ensures multiset(TopAreas(data, n, keyOf)) <= multiset(Areas(data, keyOf))
    ensures SortedDesc(TopAreas(data, n, keyOf), TotalRainfall)
    ensures forall a, b :: a in TopAreas(data, n, keyOf) && b in Areas(data, keyOf) && b !in TopAreas(data, n, keyOf) ==>
      a.totalRainfall >= b.totalRainfall
  {
    var all := Areas(data, keyOf);
    var top := TopAreas(data, n, keyOf);
    if data == [] {
      AreasEmpty(keyOf);
    } else {
      assert top == Largest(all, n, TotalRainfall);
      LargestSpec(all, n, TotalRainfall);
      forall a, b | a in top && b in all && b !in top ensures a.totalRainfall >= b.totalRainfall {
        assert TotalRainfall(a) >= TotalRainfall(b);
      }
    }
  }

  /** Bottom-n: the mirror image, in non-decreasing order of total. */
  lemma LowestRainfallAreasSpec(data: seq<Row>, n: nat)
    ensures data == [] ==> LowestRainfallAreas(data, n) == []
    ensures |LowestRainfallAreas(data, n)| == if n < |Areas(data, StationKey)| then n else |Areas(data, StationKey)|
    ensures multiset(LowestRainfallAreas(data, n)) <= multiset(Areas(data, StationKey))
    ensures forall i, j :: 0 <= i < j < |LowestRainfallAreas(data, n)| ==>
      LowestRainfallAreas(data, n)[i].totalRainfall <= LowestRainfallAreas(data, n)[j].totalRainfall
    ensures forall a, b :: a in LowestRainfallAreas(data, n) && b in Areas(data, StationKey) && b !in LowestRainfallAreas(data, n) ==>
      a.totalRainfall <= b.totalRainfall
  {
    var all := Areas(data, StationKey);
    var low := LowestRainfallAreas(data, n);
    if data == [] {
      AreasEmpty(StationKey);
    } else {
      assert low == Largest(all, n, NegTotalRainfall);
      LargestSpec(all, n, NegTotalRainfall);
      forall a, b | a in low && b in all && b !in low ensures a.totalRainfall <= b.totalRainfall {
        assert NegTotalRainfall(a) >= NegTotalRainfall(b);
      }
      forall i, j | 0 <= i < j < |low| ensures low[i].totalRainfall <= low[j].totalRainfall {
        assert NegTotalRainfall(low[i]) >= NegTotalRainfall(low[j]);
      }
    }
  }

  // ---------------------------------------------------------------------
  // Hourly distribution

  /** One row of the hourly table: `hour`, `total_rainfall`, `avg_rainfall`, `reading_count`. */
  datatype HourStat = HourStat(hour: int, totalRainfall: real, avgRainfall: real, readingCount: nat)

  function HourKey(h: HourStat): int { h.hour }
  function NegHour(h: HourStat): real { -(h.hour as real) }
  function HourTotal(h: HourStat): real { h.totalRainfall }

  function ToHourStat(g: Group<int>): HourStat
    requires g.count > 0
  {
    HourStat(g.key, g.total, g.total / g.count as real, g.count)
  }

  /** `groupby('hour').agg(...)`, before sorting. */
  function HourStats(data: seq<Row>): seq<HourStat> {
    var gs := GroupBy(data, HourOf);
    seq(|gs|, i requires 0 <= i < |gs| => ToHourStat(gs[i]))
  }

  /** `get_hourly_distribution`: grouped by hour, sorted by hour. */
  function HourlyDistribution(data: seq<Row>): seq<HourStat> {
    if data == [] then [] else SortDesc(HourStats(data), NegHour)
  }

  /** Row `h` of the hourly table aggregates exactly the readings taken in hour `h.hour`. */
  predicate AggregatesHour(data: seq<Row>, h: HourStat) {
    var ms := Members(data, HourOf, h.hour);
    ms != [] && h.totalRainfall == Sum(ms, Rain) && h.readingCount == |ms| && h.avgRainfall == Mean(ms)
  }

  lemma ToHourAggregates(data: seq<Row>, g: Group<int>)
    requires Members(data, HourOf, g.key) != []
    requires g == Aggregate(g.key, Members(data, HourOf, g.key))
    ensures AggregatesHour(data, ToHourStat(g))
  {
  }

  lemma HourStatsSpec(data: seq<Row>)
    ensures Distinct(HourStats(data), HourKey)
    ensures forall h :: h in HourStats(data) ==> AggregatesHour(data, h)
    ensures forall j :: 0 <= j < |data| ==> exists h :: h in HourStats(data) && h.hour == HourOf(data[j])
    ensures Sum(HourStats(data), HourTotal) == Sum(data, Rain)
  {
    HourStatsRows(data);
    HourStatsCover(data);
    HourStatsSum(data);
  }

  lemma HourStatsRows(data: seq<Row>)
    ensures Distinct(HourStats(data), HourKey)
    ensures forall h :: h in HourStats(data) ==> AggregatesHour(data, h)
  {
    var gs := GroupBy(data, HourOf);
    GroupBySpec(data, HourOf);
    var stats := HourStats(data);
    assert Distinct(stats, HourKey) by {
      forall i, j | 0 <= i < j < |stats| ensures HourKey(stats[i]) != HourKey(stats[j]) {
        assert KeyOf(gs[i]) != KeyOf(gs[j]);
      }
    }
    forall h | h in stats ensures AggregatesHour(data, h) {
      var k :| 0 <= k < |stats| && stats[k] == h;
      ToHourAggregates(data, gs[k]);
    }
  }

  lemma HourStatsCover(data: seq<Row>)
    ensures forall j :: 0 <= j < |data| ==> exists h :: h in HourStats(data) && h.hour == HourOf(data[j])
  {
    var gs := GroupBy(data, HourOf);
    var stats := HourStats(data);
    forall j | 0 <= j < |data| ensures exists h :: h in stats && h.hour == HourOf(data[j]) {
      GroupByCoversRow(data, HourOf, j);
      var k :| 0 <= k < |gs| && gs[k].key == HourOf(data[j]);
      assert stats[k].hour == gs[k].key;
      assert stats[k] in stats;
    }
  }

  lemma HourStatsSum(data: seq<Row>)
    ensures Sum(HourStats(data), HourTotal) == Sum(data, Rain)
  {
    var gs := GroupBy(data, HourOf);
    GroupBySums(data, HourOf);
    SumPointwise(HourStats(data), HourTotal, gs, TotalOf);
  }

  /** A strictly increasing run of hours inside [lo, hi] has at most hi - lo + 1 entries. */
  lemma {:induction false} IncreasingHoursBound(hs: seq<HourStat>, lo: int, hi: int)
    requires forall i, j :: 0 <= i < j < |hs| ==> hs[i].hour < hs[j].hour
    requires forall i :: 0 <= i < |hs| ==> lo <= hs[i].hour <= hi
    ensures |hs| <= if hi < lo then 0 else hi - lo + 1
  {
    if hs != [] {
      var tail := hs[1..];
      assert forall i :: 0 <= i < |tail| ==> tail[i] == hs[i + 1];
      IncreasingHoursBound(tail, hs[0].hour + 1, hi);
    }
  }

  /**
   * The hourly table has one row per hour present in the data (no zero
   * filling), strictly ascending by hour; each row aggregates exactly that
   * hour's readings, and the totals add up to the table's rainfall. With
   * valid timestamps there are at most 24 rows.
   */
  lemma HourlyDistributionSpec(data: seq<Row>)
    ensures data == [] ==> HourlyDistribution(data) == []
    ensures forall i, j :: 0 <= i < j < |HourlyDistribution(data)| ==>
      HourlyDistribution(data)[i].hour < HourlyDistribution(data)[j].hour
    ensures forall h :: h in HourlyDistribution(data) ==> AggregatesHour(data, h)
    ensures forall j :: 0 <= j < |data| ==>
      exists h :: h in HourlyDistribution(data) && h.hour == HourOf(data[j])
    ensures Sum(HourlyDistribution(data), HourTotal) == Sum(data, Rain)
    ensures (forall j :: 0 <= j < |data| ==> ValidTime(data[j].timestamp)) ==> |HourlyDistribution(data)| <= 24
  {
    if data != [] {
      var stats := HourStats(data);
      var hourly := HourlyDistribution(data);
      HourStatsSpec(data);
      SortDescSpec(stats, NegHour);
      SortDescDistinct(stats, NegHour, HourKey);
      SortDescSum(stats, NegHour, HourTotal);
      forall i, j | 0 <= i < j < |hourly| ensures hourly[i].hour < hourly[j].hour {
        assert NegHour(hourly[i]) >= NegHour(hourly[j]);
        assert HourKey(hourly[i]) != HourKey(hourly[j]);
      }
      forall h | h in hourly ensures AggregatesHour(data, h) {
        assert h in multiset(stats);
      }
      forall j | 0 <= j < |data| ensures exists h :: h in hourly && h.hour == HourOf(data[j]) {
        var h :| h in stats && h.hour == HourOf(data[j]);
        assert h in multiset(hourly);
      }
      if forall j :: 0 <= j < |data| ==> ValidTime(data[j].timestamp) {
        forall i | 0 <= i < |hourly| ensures 0 <= hourly[i].hour <= 23 {
          assert hourly[i] in hourly;
          MembersNonEmpty(data, HourOf, hourly[i].hour);
          var j :| 0 <= j < |data| && HourOf(data[j]) == hourly[i].hour;
        }
        IncreasingHoursBound(hourly, 0, 23);
      }
    }
  }

  // ---------------------------------------------------------------------
  // Monthly average and alerts

  predicate InMonthOf(r: Row, month: int, year: int) {
    r.timestamp.month == month && r.timestamp.year == year
  }

  /** The rows whose timestamp falls in `month` of `year`, in table order. */
  function InMonth(data: seq<Row>, month: int, year: int): seq<Row> {
    if data == [] then []
    else (if InMonthOf(data[0], month, year) then [data[0]] else []) + InMonth(data[1..], month, year)
  }

  /** A row's rainfall if it falls in the month, else 0. */
  function MonthRain(month: int, year: int): Row -> real {
    (r: Row) => if InMonthOf(r, month, year) then r.rainfallMm else 0.0
  }

  /** 1 for a row that falls in the month, else 0. */
  function MonthOne(month: int, year: int): Row -> real {
    (r: Row) => if InMonthOf(r, month, year) then 1.0 else 0.0
  }

  /**
   * The month filter keeps exactly the rows of that month, each as often as
   * it occurs in the table; so its size and its rainfall sum are those of the
   * matching rows of the table.
   */
  lemma {:induction false} InMonthSpec(data: seq<Row>, month: int, year: int)
    ensures forall r :: r in InMonth(data, month, year) <==> r in data && InMonthOf(r, month, year)
    ensures |InMonth(data, month, year)| as real == Sum(data, MonthOne(month, year))
    ensures Sum(InMonth(data, month, year), Rain) == Sum(data, MonthRain(month, year))
    ensures forall x ::
      multiset(InMonth(data, month, year))[x] == if InMonthOf(x, month, year) then multiset(data)[x] else 0
  {
    InMonthCounts(data, month, year);
    if data != [] {
      InMonthSpec(data[1..], month, year);
      assert data == [data[0]] + data[1..];
      var head := if InMonthOf(data[0], month, year) then [data[0]] else [];
      SumAppend(head, InMonth(data[1..], month, year), Rain);
      if head != [] {
        SumSingle(data[0], Rain);
      }
    }
  }

  /** Each row of the month occurs in the filter as often as in the table. */
  lemma {:induction false} InMonthCounts(data: seq<Row>, month: int, year: int)
    ensures forall x ::
      multiset(InMonth(data, month, year))[x] == if InMonthOf(x, month, year) then multiset(data)[x] else 0
  {
    if data != [] {
      InMonthCounts(data[1..], month, year);
      assert data == [data[0]] + data[1..];
    }
  }

  /** The largest rainfall value. */
  function MaxRain(rows: seq<Row>): (m: real)
    requires rows != []
    ensures exists i :: 0 <= i < |rows| && rows[i].rainfallMm == m
    ensures forall i :: 0 <= i < |rows| ==> rows[i].rainfallMm <= m
  {
    if |rows| == 1 then rows[0].rainfallMm
    else
      var rest := MaxRain(rows[1..]);
      assert forall i :: 1 <= i < |rows| ==> rows[i] == rows[1..][i - 1];
      if rows[0].rainfallMm >= rest then rows[0].rainfallMm else rest
  }

  /** The smallest rainfall value. */
  function MinRain(rows: seq<Row>): (m: real)
    requires rows != []
    ensures exists i :: 0 <= i < |rows| && rows[i].rainfallMm == m
    ensures forall i :: 0 <= i < |rows| ==> m <= rows[i].rainfallMm
  {
    if |rows| == 1 then rows[0].rainfallMm
    else
      var rest := MinRain(rows[1..]);
      assert forall i :: 1 <= i < |rows| ==> rows[i] == rows[1..][i - 1];
      if rows[0].rainfallMm <= rest then rows[0].rainfallMm else rest
  }

  /**
   * `get_monthly_average`: the mean rainfall of the rows of the current
   * month, or of all rows when none falls in it; 0 for an empty table.
   */
  function MonthlyAverage(data: seq<Row>, month: int, year: int): real {
    if data == [] then 0.0
    else
      var current := InMonth(data, month, year);
      if current == [] then Mean(data) else Mean(current)
  }

  /**
   * The monthly average is the mean over exactly the rows of that month
   * (all rows when none matches), and so lies between the smallest and the
   * largest reading of the table.
   */
  lemma MonthlyAverageSpec(data: seq<Row>, month: int, year: int)
    ensures data == [] ==> MonthlyAverage(data, month, year) == 0.0
    ensures data != [] ==> MinRain(data) <= MonthlyAverage(data, month, year) <= MaxRain(data)
    ensures (exists j :: 0 <= j < |data| && InMonthOf(data[j], month, year)) ==>
      var current := InMonth(data, month, year);
      && current != []
      && (forall r :: r in current <==> r in data && InMonthOf(r, month, year))
      && MonthlyAverage(data, month, year) == Mean(current)
      && Sum(data, MonthOne(month, year)) > 0.0
      && MonthlyAverage(data, month, year) == Sum(data, MonthRain(month, year)) / Sum(data, MonthOne(month, year))
    ensures data != [] && (forall j :: 0 <= j < |data| ==> !InMonthOf(data[j], month, year)) ==>
      MonthlyAverage(data, month, year) == Mean(data)
  {
    InMonthSpec(data, month, year);
    var current := InMonth(data, month, year);
    if current != [] {
      assert current[0] in current;
      var j :| 0 <= j < |data| && data[j] == current[0];
      assert InMonthOf(data[j], month, year);
    }
    if exists j :: 0 <= j < |data| && InMonthOf(data[j], month, year) {
      var j :| 0 <= j < |data| && InMonthOf(data[j], month, year);
      assert data[j] in current;
    }
    if data != [] {
      var lo, hi := MinRain(data), MaxRain(data);
      if current == [] {
        MeanWithin(data, lo, hi);
      } else {
        forall i | 0 <= i < |current| ensures lo <= current[i].rainfallMm <= hi {
          assert current[i] in data;
        }
        MeanWithin(current, lo, hi);
      }
    }
  }

  /** One alert row: the station, its mean `rainfall_mm`, mean coordinates, `threshold` and `excess_rainfall`. */
  datatype Alert = Alert(
    station: AreaKey,
    rainfallMm: real,
    latitude: real,
    longitude: real,
    threshold: real,
    excessRainfall: real)

  function Excess(a: Alert): real { a.excessRainfall }
  function AlertStation(a: Alert): AreaKey { a.station }

  function ToAlert(a: Area, threshold: real): Alert {
    Alert(a.key, a.avgRainfall, a.latitude, a.longitude, threshold, a.avgRainfall - threshold)
  }

  /** The areas whose mean exceeds the threshold, as alert rows, in order. */
  function Exceeding(areas: seq<Area>, threshold: real): seq<Alert> {
    if areas == [] then []
    else
      var head := if areas[0].avgRainfall > threshold then [ToAlert(areas[0], threshold)] else [];
      head + Exceeding(areas[1..], threshold)
  }

  lemma {:induction false} ExceedingSpec(areas: seq<Area>, threshold: real)
    ensures forall a :: a in Exceeding(areas, threshold) <==>
      exists s :: s in areas && s.avgRainfall > threshold && a == ToAlert(s, threshold)
  {
    if areas != [] {
      ExceedingSpec(areas[1..], threshold);
      assert areas == [areas[0]] + areas[1..];
    }
  }

  lemma {:induction false} ExceedingDistinct(areas: seq<Area>, threshold: real)
    requires Distinct(areas, AreaKeyOf)
    ensures Distinct(Exceeding(areas, threshold), AlertStation)
  {
    if areas != [] {
      var tail := areas[1..];
      assert Distinct(tail, AreaKeyOf) by {
        forall i, j | 0 <= i < j < |tail| ensures AreaKeyOf(tail[i]) != AreaKeyOf(tail[j]) {
          assert tail[i] == areas[i + 1] && tail[j] == areas[j + 1];
        }
      }
      ExceedingDistinct(tail, threshold);
      ExceedingSpec(tail, threshold);
      var rest := Exceeding(tail, threshold);
      var head := if areas[0].avgRainfall > threshold then [ToAlert(areas[0], threshold)] else [];
      var r := head + rest;
      forall i, j | 0 <= i < j < |r| ensures AlertStation(r[i]) != AlertStation(r[j]) {
        if i < |head| {
          assert r[j] == rest[j - 1];
          assert r[j] in rest;
          var s :| s in tail && s.avgRainfall > threshold && r[j] == ToAlert(s, threshold);
          var k :| 0 <= k < |tail| && tail[k] == s;
          assert areas[k + 1] == s;
        } else {
          assert r[i] == rest[i - |head|] && r[j] == rest[j - |head|];
        }
      }
    }
  }

  /**
   * `get_alert_areas`: the stations whose mean rainfall exceeds the monthly
   * average times `multiplier`, with the threshold and the excess, sorted by
   * excess from largest; `([], 0)` for an empty table.
   */
  function AlertAreas(data: seq<Row>, month: int, year: int, multiplier: real := 1.5): (seq<Alert>, real) {
    if data == [] then ([], 0.0)
    else
      var threshold := MonthlyAverage(data, month, year) * multiplier;
      (SortDesc(Exceeding(Areas(data, StationKey), threshold), Excess), threshold)
  }

  /**
   * Alert `a` belongs to a station whose readings have mean rainfall (and
   * mean coordinates) as reported, above `threshold`, by the reported excess.
   */
  predicate AlertFor(data: seq<Row>, threshold: real, a: Alert) {
    var ms := Members(data, StationKey, a.station);
    && a.station.Station?
    && ms != []
    && a.rainfallMm == Mean(ms)
    && a.latitude == Sum(ms, Lat) / |ms| as real
    && a.longitude == Sum(ms, Lon) / |ms| as real
    && a.rainfallMm > threshold
    && a.threshold == threshold
    && a.excessRainfall == a.rainfallMm - threshold
    && a.excessRainfall > 0.0
  }

  lemma ToAlertFor(data: seq<Row>, threshold: real, s: Area)
    requires AggregatesRows(data, StationKey, s) && s.avgRainfall > threshold
    ensures AlertFor(data, threshold, ToAlert(s, threshold))
  {
    MembersNonEmpty(data, StationKey, s.key);
    var j :| 0 <= j < |data| && StationKey(data[j]) == s.key;
  }

  lemma ExceedingAlerts(data: seq<Row>, threshold: real)
    ensures forall a :: a in Exceeding(Areas(data, StationKey), threshold) ==> AlertFor(data, threshold, a)
  {
    var areas := Areas(data, StationKey);
    AreasSpec(data, StationKey);
    ExceedingSpec(areas, threshold);
    forall a | a in Exceeding(areas, threshold) ensures AlertFor(data, threshold, a) {
      var s :| s in areas && s.avgRainfall > threshold && a == ToAlert(s, threshold);
      var k :| 0 <= k < |areas| && areas[k] == s;
      ToAlertFor(data, threshold, s);
    }
  }

  lemma ExceedingCovers(data: seq<Row>, threshold: real)
    ensures forall j :: 0 <= j < |data| ==>
      var ms := Members(data, StationKey, StationKey(data[j]));
      && ms != []
      && (Mean(ms) > threshold ==>
            exists a :: a in Exceeding(Areas(data, StationKey), threshold) && a.station == StationKey(data[j]))
  {
    var areas := Areas(data, StationKey);
    AreasSpec(data, StationKey);
    ExceedingSpec(areas, threshold);
    forall j | 0 <= j < |data|
      ensures
        var ms := Members(data, StationKey, StationKey(data[j]));
        && ms != []
        && (Mean(ms) > threshold ==>
              exists a :: a in Exceeding(areas, threshold) && a.station == StationKey(data[j]))
    {
      var k :| 0 <= k < |areas| && areas[k].key == StationKey(data[j]);
      assert AggregatesRows(data, StationKey, areas[k]);
      if Mean(Members(data, StationKey, StationKey(data[j]))) > threshold {
        assert ToAlert(areas[k], threshold) in Exceeding(areas, threshold);
      }
    }
  }

  /**
   * The alerts are exactly the stations whose mean exceeds the threshold
   * (threshold = monthly average times multiplier), each once, each with
   * excess = mean - threshold > 0, in non-increasing order of excess.
   */
  lemma AlertAreasSpec(data: seq<Row>, month: int, year: int, multiplier: real)
    ensures data == [] ==> AlertAreas(data, month, year, multiplier) == ([], 0.0)
    ensures data != [] ==> AlertAreas(data, month, year, multiplier).1 == MonthlyAverage(data, month, year) * multiplier
    ensures SortedDesc(AlertAreas(data, month, year, multiplier).0, Excess)
    ensures Distinct(AlertAreas(data, month, year, multiplier).0, AlertStation)
    ensures forall a :: a in AlertAreas(data, month, year, multiplier).0 ==>
      AlertFor(data, AlertAreas(data, month, year, multiplier).1, a)
    ensures forall j :: 0 <= j < |data| ==>
      var ms := Members(data, StationKey, StationKey(data[j]));
      && ms != []
      && (Mean(ms) > AlertAreas(data, month, year, multiplier).1 ==>
            exists a :: a in AlertAreas(data, month, year, multiplier).0 && a.station == StationKey(data[j]))
  {
    if data != [] {
      var (alerts, threshold) := AlertAreas(data, month, year, multiplier);
      var areas := Areas(data, StationKey);
      var exceeding := Exceeding(areas, threshold);
      assert alerts == SortDesc(exceeding, Excess);
      SortDescSpec(exceeding, Excess);
      AreasSpec(data, StationKey);
      ExceedingDistinct(areas, threshold);
      SortDescDistinct(exceeding, Excess, AlertStation);
      ExceedingAlerts(data, threshold);
      ExceedingCovers(data, threshold);
      forall a | a in alerts ensures AlertFor(data, threshold, a) {
        assert a in multiset(exceeding);
      }
      forall j | 0 <= j < |data|
        ensures
          var ms := Members(data, StationKey, StationKey(data[j]));
          Mean(ms) > threshold ==> exists a :: a in alerts && a.station == StationKey(data[j])
      {
        var ms := Members(data, StationKey, StationKey(data[j]));
        if Mean(ms) > threshold {
          var a :| a in exceeding && a.station == StationKey(data[j]);
          assert a in multiset(alerts);
        }
      }
    }
  }

  // ---------------------------------------------------------------------
  // Summary statistics

  /** `generate_summary_stats` without the standard deviation. */
  datatype Summary = Summary(
    totalStations: nat,
    totalReadings: nat,
    avgRainfall: real,
    maxRainfall: real,
    minRainfall: real,
    zeroRainfallReadings: nat,
    timeRangeStart: Time,
    timeRangeEnd: Time)

  /** The number of readings of exactly 0 mm. */
  function ZeroReadings(rows: seq<Row>): nat {
    if rows == [] then 0
    else
      var n := |rows| - 1;
      ZeroReadings(rows[..n]) + if rows[n].rainfallMm == 0.0 then 1 else 0
  }

  /** The distinct station identifiers (`nunique`). */
  function StationIds(rows: seq<Row>): set<string> {
    set i | 0 <= i < |rows| :: rows[i].stationId
  }

  /** The earliest timestamp. */
  function Earliest(rows: seq<Row>): (t: Time)
    requires rows != []
    ensures exists i :: 0 <= i < |rows| && rows[i].timestamp == t
    ensures forall i :: 0 <= i < |rows| ==> NotAfter(t, rows[i].timestamp)
  {
    if |rows| == 1 then rows[0].timestamp
    else
      var rest := Earliest(rows[1..]);
      assert forall i :: 1 <= i < |rows| ==> rows[i] == rows[1..][i - 1];
      if NotAfter(rows[0].timestamp, rest) then rows[0].timestamp else rest
  }

  /** The latest timestamp. */
  function Latest(rows: seq<Row>): (t: Time)
    requires rows != []
    ensures exists i :: 0 <= i < |rows| && rows[i].timestamp == t
    ensures forall i :: 0 <= i < |rows| ==> NotAfter(rows[i].timestamp, t)
  {
    if |rows| == 1 then rows[0].timestamp
    else
      var rest := Latest(rows[1..]);
      assert forall i :: 1 <= i < |rows| ==> rows[i] == rows[1..][i - 1];
      if NotAfter(rest, rows[0].timestamp) then rows[0].timestamp else rest
  }

  /** `generate_summary_stats`: `{}` (here `None`) for an empty table. */
  function SummaryStats(data: seq<Row>): Option<Summary> {
    if data == [] then None
    else Some(Summary(
      |StationIds(data)|,
      |data|,
      Mean(data),
      MaxRain(data),
      MinRain(data),
      ZeroReadings(data),
      Earliest(data),
      Latest(data)))
  }

  lemma {:induction false} ZeroReadingsCount(rows: seq<Row>)
    ensures ZeroReadings(rows) == |set i | 0 <= i < |rows| && rows[i].rainfallMm == 0.0|
  {
    if rows != [] {
      var n := |rows| - 1;
      var front := rows[..n];
      ZeroReadingsCount(front);
      var all := set i | 0 <= i < |rows| && rows[i].rainfallMm == 0.0;
      var before := set i | 0 <= i < |front| && front[i].rainfallMm == 0.0;
      assert all == before + (if rows[n].rainfallMm == 0.0 then {n} else {}) by {
        forall i | i in all ensures i in before + (if rows[n].rainfallMm == 0.0 then {n} else {}) {
          if i < n { assert front[i] == rows[i]; }
        }
        forall i | i in before ensures i in all {
          assert front[i] == rows[i];
        }
      }
      assert n !in before;
    }
  }

  lemma {:induction false} StationIdsBound(rows: seq<Row>)
    ensures |StationIds(rows)| <= |rows|
    ensures rows != [] ==> |StationIds(rows)| >= 1
  {
    if rows != [] {
      var n := |rows| - 1;
      var front := rows[..n];
      StationIdsBound(front);
      assert StationIds(rows) == StationIds(front) + {rows[n].stationId} by {
        forall id | id in StationIds(rows) ensures id in StationIds(front) + {rows[n].stationId} {
          var i :| 0 <= i < |rows| && rows[i].stationId == id;
          if i < n { assert front[i] == rows[i]; }
        }
        forall id | id in StationIds(front) ensures id in StationIds(rows) {
          var i :| 0 <= i < |front| && front[i].stationId == id;
          assert rows[i] == front[i];
        }
      }
      assert rows[n].stationId in StationIds(rows);
    }
  }

  /**
   * The summary: `{}` exactly for an empty table; otherwise the row count,
   * between 1 and that many distinct stations, min <= mean <= max with both
   * extremes attained, the number of readings that are exactly 0, and the
   * earliest and latest timestamps.
   */
  lemma SummaryStatsSpec(data: seq<Row>)
    ensures SummaryStats(data).None? <==> data == []
    ensures data != [] ==>
      var s := SummaryStats(data).value;
      && s.totalReadings == |data|
      && s.totalStations == |set i | 0 <= i < |data| :: data[i].stationId|
      && 1 <= s.totalStations <= s.totalReadings
      && s.avgRainfall == Sum(data, Rain) / |data| as real
      && s.minRainfall <= s.avgRainfall <= s.maxRainfall
      && (exists i :: 0 <= i < |data| && data[i].rainfallMm == s.maxRainfall)
      && (exists i :: 0 <= i < |data| && data[i].rainfallMm == s.minRainfall)
      && (forall i :: 0 <= i < |data| ==> s.minRainfall <= data[i].rainfallMm <= s.maxRainfall)
      && s.zeroRainfallReadings == |set i | 0 <= i < |data| && data[i].rainfallMm == 0.0|
      && (forall i :: 0 <= i < |data| ==>
            NotAfter(s.timeRangeStart, data[i].timestamp) && NotAfter(data[i].timestamp, s.timeRangeEnd))
  {
    if data != [] {
      MeanWithin(data, MinRain(data), MaxRain(data));
      ZeroReadingsCount(data);
      StationIdsBound(data);
    }
  }

  /** Two stations, each reading 0, 5 and 10 mm at hours 0, 1 and 2 of one day. */
  function ExampleData(): seq<Row> {
    var t0, t1, t2 := Time(2024, 1, 1, 0, 0, 0), Time(2024, 1, 1, 1, 0, 0), Time(2024, 1, 1, 2, 0, 0);
    [Row(t0, "S1", "S1", 1.30, 103.80, 0.0), Row(t1, "S1", "S1", 1.30, 103.80, 5.0), Row(t2, "S1", "S1", 1.30, 103.80, 10.0),
     Row(t0, "S2", "S2", 1.35, 103.82, 0.0), Row(t1, "S2", "S2", 1.35, 103.82, 5.0), Row(t2, "S2", "S2", 1.35, 103.82, 10.0)]
  }

  lemma ExampleSum()
    ensures Sum(ExampleData(), Rain) == 30.0
  {
    var data := ExampleData();
    assert data[5..][1..] == [];
    assert Sum(data[5..], Rain) == 10.0;
    assert data[4..][1..] == data[5..];
    assert Sum(data[4..], Rain) == 15.0;
    assert data[3..][1..] == data[4..];
    assert Sum(data[3..], Rain) == 15.0;
    assert data[2..][1..] == data[3..];
    assert Sum(data[2..], Rain) == 25.0;
    assert data[1..][1..] == data[2..];
    assert Sum(data[1..], Rain) == 30.0;
  }

  lemma ExampleZeros()
    ensures ZeroReadings(ExampleData()) == 2
  {
    var data := ExampleData();
    assert data[..1][..0] == [];
    assert ZeroReadings(data[..1]) == 1;
    assert data[..2][..1] == data[..1];
    assert ZeroReadings(data[..2]) == 1;
    assert data[..3][..2] == data[..2];
    assert ZeroReadings(data[..3]) == 1;
    assert data[..4][..3] == data[..3];
    assert ZeroReadings(data[..4]) == 2;
    assert data[..5][..4] == data[..4];
    assert ZeroReadings(data[..5]) == 2;
    assert data[..5] == data[..|data| - 1];
  }

  lemma ExampleRainBounds()
    ensures forall i :: 0 <= i < |ExampleData()| ==> 0.0 <= ExampleData()[i].rainfallMm <= 10.0
  {
  }

  lemma ExampleMax()
    ensures MaxRain(ExampleData()) == 10.0
  {
    ExampleRainBounds();
    var m := MaxRain(ExampleData());
    assert ExampleData()[2].rainfallMm == 10.0;
  }

  lemma ExampleMin()
    ensures MinRain(ExampleData()) == 0.0
  {
    ExampleRainBounds();
    var m := MinRain(ExampleData());
    assert ExampleData()[0].rainfallMm == 0.0;
  }

  lemma ExampleStations()
    ensures |StationIds(ExampleData())| == 2
  {
    var data := ExampleData();
    assert StationIds(data) == {"S1", "S2"} by {
      assert data[0].stationId == "S1" && data[3].stationId == "S2";
    }
    assert "S1" != "S2";
  }

  /**
   * The example's summary fields: six readings from two stations, two of them
   * zero, mean 5 mm over all readings, extremes 0 and 10 mm. `SummaryStatsSpec`
   * and `SummaryStats` carry these over to the summary.
   */
  lemma ExampleTwoStations()
    ensures |StationIds(ExampleData())| == 2
    ensures |ExampleData()| == 6
    ensures Mean(ExampleData()) == 5.0
    ensures MaxRain(ExampleData()) == 10.0
    ensures MinRain(ExampleData()) == 0.0
    ensures ZeroReadings(ExampleData()) == 2
  {
    ExampleStations();
    ExampleSum();
    ExampleZeros();
    ExampleMax();
    ExampleMin();
  }

  // ---------------------------------------------------------------------
  // The analyzer object

  /** The `lat_group` / `lon_group` columns: each row's coordinates, rounded. */
  function RoundedColumns(rows: seq<Row>, round: real -> real): (cols: seq<(real, real)>)
    ensures |cols| == |rows|
    ensures forall i :: 0 <= i < |rows| ==> cols[i] == (round(rows[i].latitude), round(rows[i].longitude))
    ensures forall i :: 0 <= i < |rows| ==> CellKey(round)(rows[i]) == Cell(cols[i].0, cols[i].1)
  {
    seq(|rows|, i requires 0 <= i < |rows| => (round(rows[i].latitude), round(rows[i].longitude)))
  }

  class RainfallAnalyzer {
    /** The analyzer's own copy of the table. */
    var data: seq<Row>
    /** The `lat_group` / `lon_group` columns that grouping by proximity adds to that copy. */
    var groupColumns: seq<(real, real)>

    /** Takes a copy: the caller's table is a value and never sees the added columns. */
    constructor (table: seq<Row>)
      ensures data == table && groupColumns == []
    {
      data := table;
      groupColumns := [];
    }

    /**
     * `get_top_rainfall_areas`: the n areas of largest total, grouped by
     * station or, with `groupNearby`, by rounded coordinates; the latter
     * first stores the rounded columns on the analyzer's copy.
     */
    method GetTopRainfallAreas(round: real -> real, n: nat := 10, groupNearby: bool := false) returns (areas: seq<Area>)
      modifies this
      ensures data == old(data)
      ensures groupColumns ==
        if data != [] && groupNearby
        then RoundedColumns(data, round)
        else old(groupColumns)
      ensures areas == TopAreas(data, n, if groupNearby then CellKey(round) else StationKey)
    {
      if data == [] {
        return [];
      }
      if groupNearby {
        groupColumns := RoundedColumns(data, round);
        areas := Largest(Areas(data, CellKey(round)), n, TotalRainfall);
      } else {
        areas := Largest(Areas(data, StationKey), n, TotalRainfall);
      }
    }
  }
}
