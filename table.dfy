/**
 * The canonical table the analyzer reads: one row per reading, joined with
 * its station, with the timestamp already parsed. Rainfall and coordinates
 * are exact reals.
 */
module Table {

  /** A parsed timestamp, taken at face value (no time zone). */
  datatype Time = Time(year: int, month: int, day: int, hour: int, minute: int, second: int)

  predicate ValidTime(t: Time) {
    1 <= t.month <= 12 && 1 <= t.day <= 31 && 0 <= t.hour <= 23 && 0 <= t.minute <= 59 && 0 <= t.second <= 59
  }

  /** `a <= b` on timestamps: lexicographic on year, month, day, hour, minute, second. */
  predicate NotAfter(a: Time, b: Time) {
    if a.year != b.year then a.year < b.year
    else if a.month != b.month then a.month < b.month
    else if a.day != b.day then a.day < b.day
    else if a.hour != b.hour then a.hour < b.hour
    else if a.minute != b.minute then a.minute < b.minute
    else a.second <= b.second
  }

  /** One row: `timestamp`, `station_id`, `station_name`, `latitude`, `longitude`, `rainfall_mm`. */
  datatype Row = Row(
    timestamp: Time,
    stationId: string,
    stationName: string,
    latitude: real,
    longitude: real,
    rainfallMm: real)

  function Rain(r: Row): real { r.rainfallMm }
  function Lat(r: Row): real { r.latitude }
  function Lon(r: Row): real { r.longitude }

  /** The derived `hour` column. */
  function HourOf(r: Row): int { r.timestamp.hour }

  /** The sum of `f` over `xs`. */
  function Sum<T>(xs: seq<T>, f: T -> real): real {
    if xs == [] then 0.0 else f(xs[0]) + Sum(xs[1..], f)
  }

  lemma {:induction false} SumAppend<T>(xs: seq<T>, ys: seq<T>, f: T -> real)
    ensures Sum(xs + ys, f) == Sum(xs, f) + Sum(ys, f)
  {
    if xs == [] {
      assert xs + ys == ys;
    } else {
      assert (xs + ys)[0] == xs[0];
      assert (xs + ys)[1..] == xs[1..] + ys;
      SumAppend(xs[1..], ys, f);
    }
  }

  lemma SumSingle<T>(x: T, f: T -> real)
    ensures Sum([x], f) == f(x)
  {
    assert [x][1..] == [];
  }

  /** Two sequences that agree element by element have equal sums. */
  lemma {:induction false} SumPointwise<A, B>(xs: seq<A>, f: A -> real, ys: seq<B>, g: B -> real)
    requires |xs| == |ys|
    requires forall i :: 0 <= i < |xs| ==> f(xs[i]) == g(ys[i])
    ensures Sum(xs, f) == Sum(ys, g)
  {
    if xs != [] {
      SumPointwise(xs[1..], f, ys[1..], g);
    }
  }

  /** A sum of terms each at most `hi` (at least `lo`) is at most `n * hi` (at least `n * lo`). */
  lemma {:induction false} SumBounds(rows: seq<Row>, lo: real, hi: real)
    requires forall i :: 0 <= i < |rows| ==> lo <= rows[i].rainfallMm <= hi
    ensures |rows| as real * lo <= Sum(rows, Rain) <= |rows| as real * hi
  {
    if rows != [] {
      SumBounds(rows[1..], lo, hi);
    }
  }

  /** `Series.mean()` of `rainfall_mm`. */
  function Mean(rows: seq<Row>): real
    requires rows != []
  {
    Sum(rows, Rain) / |rows| as real
  }

  /** A mean lies between any bounds of the values it averages. */
  lemma MeanWithin(rows: seq<Row>, lo: real, hi: real)
    requires rows != []
    requires forall i :: 0 <= i < |rows| ==> lo <= rows[i].rainfallMm <= hi
    ensures lo <= Mean(rows) <= hi
  {
    SumBounds(rows, lo, hi);
    var n := |rows| as real;
    assert Mean(rows) * n == Sum(rows, Rain);
  }

  /** No two elements share a key. */
  predicate Distinct<T, K(==)>(xs: seq<T>, key: T -> K) {
    forall i, j :: 0 <= i < j < |xs| ==> key(xs[i]) != key(xs[j])
  }
}
