/**
 * The schema-tolerant normaliser and join of data_processor.py
 * (class RainfallDataProcessor): station entries are resolved by fixed alias
 * priorities into the `stationsInfo` dictionary, and every data point of every
 * time bucket becomes one flat row joined against that dictionary.
 *
 * A Python exception (a missing `.get` on a non-object, `len` of a number, an
 * unhashable dictionary key) is the outcome `Raised`; it escapes the methods,
 * as it does in the source, which catches nothing on this path.
 */
module DataProcessor {
  import opened Wrappers
  import opened Json

  /** The result of a Python call: a returned value, or an exception. */
  datatype Outcome<+T> = Done(value: T) | Raised

  /**
   * A station name: the payload's own `name` value, or the placeholder text
   * `Station_<id>` built from the resolved identifier.
   */
  datatype Name = Given(v: Value) | Placeholder(id: Value)

  /** One entry of `stations_info`. */
  datatype StationInfo = StationInfo(name: Name, latitude: Value, longitude: Value)

  /** One row of the table `process_readings` builds (before timestamp parsing). */
  datatype ProcessedRow = ProcessedRow(
    timestamp: Value,
    stationId: Value,
    stationName: Name,
    latitude: Value,
    longitude: Value,
    rainfallMm: Value)

  /** How the guard `if not api_response or 'data' not in api_response` ends. */
  datatype Section = NoData | Data(fields: map<string, Value>) | SectionRaised

  /**
   * The guard and `api_response['data']`, which must be an object for the
   * following `.get`. On a truthy list `'data' in` is membership and on a
   * string it is a substring test; indexing either with 'data' then raises,
   * and so does `in` on a number or `True`.
   */
  function DataSection(response: Value): Section
  {
    if !Truthy(response) then NoData
    else match response
      case Obj(m) =>
        if "data" !in m then NoData
        else if m["data"].Obj? then Data(m["data"].fields)
        else SectionRaised
      case List(xs) => if Str("data") in xs then SectionRaised else NoData
      case Str(s) => if Contains(s, "data") then SectionRaised else NoData
      case _ => SectionRaised
  }

  /** The collection a processing step walks, or why it walks none. */
  datatype Listing = Empty | Items(entries: seq<Value>) | ListingRaised

  /** `api_response['data'].get(key, [])`, its `len` and the `if not ...` check. */
  function Collection(response: Value, key: string): Listing
  {
    match DataSection(response)
    case NoData => Empty
    case SectionRaised => ListingRaised
    case Data(d) =>
      match Entries(FirstPresent(d, [key], List([])))
      case None => ListingRaised
      case Some(xs) => if xs == [] then Empty else Items(xs)
  }

  /**
   * A step walks entries exactly when the response is an object whose `data`
   * is an object holding a non-empty list under `key`, and it then walks that
   * list's items.
   */
  lemma CollectionSpec(response: Value, key: string)
    ensures Collection(response, key).Items? <==>
      && response.Obj? && "data" in response.fields && response.fields["data"].Obj?
      && var d := response.fields["data"].fields;
         key in d && d[key].List? && d[key].items != []
    ensures Collection(response, key).Items? ==>
      Collection(response, key).entries == response.fields["data"].fields[key].items
  {
    if DataSection(response).Data? {
      Aliases1(DataSection(response).fields, key, List([]));
    }
  }

  // ---------------------------------------------------------------------
  // Stations

  /** `station.get('id', station.get('stationId', 'unknown'))` */
  function StationId(s: map<string, Value>): Value {
    FirstPresent(s, ["id", "stationId"], Str("unknown"))
  }

  /** The `labelLocation` / `location` / `coordinates` chain, `{}` when none is present. */
  function LocationOf(s: map<string, Value>): Value {
    FirstPresent(s, ["labelLocation", "location", "coordinates"], Obj(map[]))
  }

  /**
   * One iteration of the station loop: the dictionary key and the entry the
   * station stores, or `None` when Python raises (the station or its location
   * is not an object, or the identifier is unhashable).
   */
  function StationEntry(station: Value): Option<(Value, StationInfo)> {
    match station
    case Obj(s) =>
      var id := StationId(s);
      var location := LocationOf(s);
      if !location.Obj? then None
      else
        var loc := location.fields;
        var name := if "name" in s then Given(s["name"]) else Placeholder(id);
        var info := StationInfo(
          name,
          FirstPresent(loc, ["latitude", "lat"], Num(0.0)),
          FirstPresent(loc, ["longitude", "lng", "lon"], Num(0.0)));
        (match HashKey(id)
         case None => None
         case Some(key) => Some((key, info)))
    case _ => None
  }

  /**
   * The station step raises exactly when the station or its location is not
   * an object or the identifier is a list or object; otherwise the key is the
   * identifier chosen by the alias chain, the name falls back to the
   * placeholder, and latitude and longitude follow their alias chains with 0
   * as the last resort.
   */
  lemma StationEntrySpec(station: Value)
    ensures StationEntry(station).Some? <==>
      station.Obj? && LocationOf(station.fields).Obj? && !StationId(station.fields).List? && !StationId(station.fields).Obj?
    ensures StationEntry(station).Some? ==>
      var r := StationEntry(station).value;
      var s := station.fields;
      var id := if "id" in s then s["id"] else if "stationId" in s then s["stationId"] else Str("unknown");
      var location :=
        if "labelLocation" in s then s["labelLocation"]
        else if "location" in s then s["location"]
        else if "coordinates" in s then s["coordinates"]
        else Obj(map[]);
      && location.Obj?
      && var loc := location.fields;
      && Some(r.0) == HashKey(id)
      && r.1.name == (if "name" in s then Given(s["name"]) else Placeholder(id))
      && r.1.latitude ==
           (if "latitude" in loc then loc["latitude"] else if "lat" in loc then loc["lat"] else Num(0.0))
      && r.1.longitude ==
           (if "longitude" in loc then loc["longitude"]
            else if "lng" in loc then loc["lng"]
            else if "lon" in loc then loc["lon"]
            else Num(0.0))
  {
    if station.Obj? {
      var s := station.fields;
      Aliases2(s, "id", "stationId", Str("unknown"));
      Aliases3(s, "labelLocation", "location", "coordinates", Obj(map[]));
      var location := LocationOf(s);
      if location.Obj? {
        Aliases2(location.fields, "latitude", "lat", Num(0.0));
        Aliases3(location.fields, "longitude", "lng", "lon", Num(0.0));
      }
    }
  }

  predicate Resolves(station: Value) {
    StationEntry(station).Some?
  }

  predicate AllResolve(stations: seq<Value>) {
    forall i :: 0 <= i < |stations| ==> Resolves(stations[i])
  }

  /** The index of the first station whose iteration raises, or `|stations|`. */
  function FirstBad(stations: seq<Value>): (k: nat)
    ensures k <= |stations|
    ensures forall i :: 0 <= i < k ==> Resolves(stations[i])
    ensures k < |stations| ==> !Resolves(stations[k])
  {
    if stations == [] then 0
    else if !Resolves(stations[0]) then 0
    else 1 + FirstBad(stations[1..])
  }

  /** Below the first failure, station `i` resolves exactly when `i` is not the failure itself. */
  lemma FirstBadAt(stations: seq<Value>, i: nat)
    requires i <= FirstBad(stations) && i < |stations|
    ensures Resolves(stations[i]) <==> i < FirstBad(stations)
  {
  }

  /** The `(key, entry)` pairs the stations store, in order. */
  function Resolved(stations: seq<Value>): seq<(Value, StationInfo)> {
    if stations == [] then []
    else
      var n := |stations| - 1;
      Resolved(stations[..n]) + (match StationEntry(stations[n]) case Some(e) => [e] case None => [])
  }

  /** When every station resolves, the `i`-th store is exactly station `i`'s entry. */
  lemma {:induction false} ResolvedAt(stations: seq<Value>, i: nat)
    requires AllResolve(stations) && i < |stations|
    ensures |Resolved(stations)| == |stations|
    ensures Resolved(stations)[i] == StationEntry(stations[i]).value
  {
    var n := |stations| - 1;
    var front := stations[..n];
    assert AllResolve(front) by {
      forall l | 0 <= l < |front| ensures Resolves(front[l]) {
        assert front[l] == stations[l];
      }
    }
    if n > 0 {
      ResolvedAt(front, if i < n then i else 0);
    }
    if i < n {
      assert front[i] == stations[i];
    }
  }

  /** One more store extends the entries by station `i`'s. */
  lemma ResolvedSnoc(stations: seq<Value>, i: nat)
    requires i < |stations| && Resolves(stations[i])
    ensures Resolved(stations[..i + 1]) == Resolved(stations[..i]) + [StationEntry(stations[i]).value]
  {
    assert stations[..i + 1][..i] == stations[..i];
  }

  /** `stations_info` after storing every entry in order, each store overwriting. */
  function Register(info: map<Value, StationInfo>, es: seq<(Value, StationInfo)>): map<Value, StationInfo>
  {
    if es == [] then info
    else
      var n := |es| - 1;
      Register(info, es[..n])[es[n].0 := es[n].1]
  }

  lemma RegisterSnoc(info: map<Value, StationInfo>, es: seq<(Value, StationInfo)>, e: (Value, StationInfo))
    ensures Register(info, es + [e]) == Register(info, es)[e.0 := e.1]
  {
    assert (es + [e])[..|es|] == es;
  }

  /** Last write wins: the entry under a key is that of the last store with that key. */
  lemma {:induction false} RegisterLastWins(info: map<Value, StationInfo>, es: seq<(Value, StationInfo)>, j: nat)
    requires j < |es|
    requires forall l :: j < l < |es| ==> es[l].0 != es[j].0
    ensures es[j].0 in Register(info, es)
    ensures Register(info, es)[es[j].0] == es[j].1
  {
    var n := |es| - 1;
    if j < n {
      var front := es[..n];
      assert front[j] == es[j];
      assert forall l :: j < l < |front| ==> front[l] == es[l];
      RegisterLastWins(info, front, j);
    }
  }

  /** A key no store names keeps its old entry, or stays absent. */
  lemma {:induction false} RegisterKeepsOthers(info: map<Value, StationInfo>, es: seq<(Value, StationInfo)>, k: Value)
    requires forall l :: 0 <= l < |es| ==> es[l].0 != k
    ensures (k in Register(info, es)) == (k in info)
    ensures k in info ==> Register(info, es)[k] == info[k]
  {
    if es != [] {
      var n := |es| - 1;
      var front := es[..n];
      assert forall l :: 0 <= l < |front| ==> front[l] == es[l];
      RegisterKeepsOthers(info, front, k);
    }
  }

  /** Registering adds exactly the stored keys and removes none. */
  lemma {:induction false} RegisterKeys(info: map<Value, StationInfo>, es: seq<(Value, StationInfo)>)
    ensures Register(info, es).Keys == info.Keys + set i | 0 <= i < |es| :: es[i].0
  {
    if es != [] {
      var n := |es| - 1;
      var front := es[..n];
      RegisterKeys(info, front);
      var all := set i | 0 <= i < |es| :: es[i].0;
      var some := set i | 0 <= i < |front| :: front[i].0;
      assert all == some + {es[n].0} by {
        forall k | k in all ensures k in some + {es[n].0} {
          var i :| 0 <= i < |es| && es[i].0 == k;
          if i < n { assert front[i].0 == k; }
        }
        forall k | k in some ensures k in all {
          var i :| 0 <= i < |front| && front[i].0 == k;
          assert es[i].0 == k;
        }
      }
    }
  }

  /** What `process_stations` returns: the station list as a frame, or an empty frame. */
  function StationsResult(response: Value): Outcome<seq<Value>>
  {
    match Collection(response, "stations")
    case Empty => Done([])
    case ListingRaised => Raised
    case Items(xs) => if FirstBad(xs) < |xs| then Raised else Done(xs)
  }

  /** `stations_info` after `process_stations`; an exception leaves the stores already made. */
  function StationsInfoAfter(info: map<Value, StationInfo>, response: Value): map<Value, StationInfo>
  {
    match Collection(response, "stations")
    case Items(xs) =>
      Register(info, Resolved(xs[..FirstBad(xs)]))
    case _ => info
  }

  /**
   * `stations_info` after the station step: station `j`, processed before the
   * first failure, is stored under its own key unless a later station
   * processed before the failure reuses that key (last write wins).
   */
  lemma StationsInfoLastWins(info: map<Value, StationInfo>, response: Value, j: nat)
    requires Collection(response, "stations").Items?
    requires j < FirstBad(Collection(response, "stations").entries)
    requires var xs := Collection(response, "stations").entries;
      forall l :: j < l < FirstBad(xs) ==> StationEntry(xs[l]).value.0 != StationEntry(xs[j]).value.0
    ensures var e := StationEntry(Collection(response, "stations").entries[j]).value;
      e.0 in StationsInfoAfter(info, response) && StationsInfoAfter(info, response)[e.0] == e.1
  {
    var xs := Collection(response, "stations").entries;
    var es := StationsResolvedPrefix(xs);
    RegisterLastWins(info, es, j);
  }

  /** A key none of the stations processed before the first failure uses keeps its old entry, or stays absent. */
  lemma StationsInfoKeepsOthers(info: map<Value, StationInfo>, response: Value, key: Value)
    requires Collection(response, "stations").Items?
    requires var xs := Collection(response, "stations").entries;
      forall l :: 0 <= l < FirstBad(xs) ==> StationEntry(xs[l]).value.0 != key
    ensures key in StationsInfoAfter(info, response) <==> key in info
    ensures key in info ==> StationsInfoAfter(info, response)[key] == info[key]
  {
    var xs := Collection(response, "stations").entries;
    var es := StationsResolvedPrefix(xs);
    RegisterKeepsOthers(info, es, key);
  }

  /** The entries of the stations before the first failure, one per station. */
  lemma StationsResolvedPrefix(xs: seq<Value>) returns (es: seq<(Value, StationInfo)>)
    ensures es == Resolved(xs[..FirstBad(xs)])
    ensures |es| == FirstBad(xs)
    ensures forall l :: 0 <= l < FirstBad(xs) ==> es[l] == StationEntry(xs[l]).value
  {
    var k := FirstBad(xs);
    var done := xs[..k];
    assert forall l :: 0 <= l < k ==> done[l] == xs[l];
    assert AllResolve(done);
    es := Resolved(done);
    forall l | 0 <= l < k ensures |es| == k && es[l] == StationEntry(xs[l]).value {
      ResolvedAt(done, l);
    }
  }

  /** The station step's result and `stations_info`, case by case on the listing. */
  lemma StationsCases(info: map<Value, StationInfo>, response: Value)
    ensures Collection(response, "stations").Empty? ==>
      StationsResult(response) == Done([]) && StationsInfoAfter(info, response) == info
    ensures Collection(response, "stations").ListingRaised? ==>
      StationsResult(response) == Raised && StationsInfoAfter(info, response) == info
    ensures Collection(response, "stations").Items? ==>
      var xs := Collection(response, "stations").entries;
      && StationsResult(response) == (if FirstBad(xs) < |xs| then Raised else Done(xs))
      && StationsInfoAfter(info, response) == Register(info, Resolved(xs[..FirstBad(xs)]))
  {
  }

  /** `pd.DataFrame(stations).empty`: no rows, or no columns because every station is `{}`. */
  predicate FrameEmpty(stations: seq<Value>) {
    forall i :: 0 <= i < |stations| ==> stations[i] == Obj(map[])
  }

  /**
   * A missing or falsy response, one without `data`, or one whose `stations`
   * are absent or empty yields an empty frame and leaves `stations_info` as it was.
   */
  lemma NoStations(info: map<Value, StationInfo>, response: Value)
    requires
      || !Truthy(response)
      || (response.Obj? && "data" !in response.fields)
      || (response.Obj? && "data" in response.fields && response.fields["data"].Obj? &&
          var d := response.fields["data"].fields;
          "stations" !in d || d["stations"] == List([]))
    ensures StationsResult(response) == Done([])
    ensures StationsInfoAfter(info, response) == info
  {
    if Truthy(response) && response.Obj? && "data" in response.fields && response.fields["data"].Obj? {
      Aliases1(response.fields["data"].fields, "stations", List([]));
    }
  }

  // ---------------------------------------------------------------------
  // Readings

  /**
   * One data point joined against `stations_info`, or `None` when Python
   * raises (the point is not an object, or its identifier is unhashable).
   */
  function PointRow(info: map<Value, StationInfo>, timestamp: Value, point: Value): Option<ProcessedRow> {
    match point
    case Obj(p) =>
      var id := FirstPresent(p, ["stationId", "station_id", "id"], Str("unknown"));
      var rainfall := FirstPresent(p, ["value", "rainfall"], Num(0.0));
      (match HashKey(id)
       case None => None
       case Some(key) =>
         if key in info then
           Some(ProcessedRow(timestamp, id, info[key].name, info[key].latitude, info[key].longitude, rainfall))
         else
           Some(ProcessedRow(timestamp, id, Placeholder(id), Num(0.0), Num(0.0), rainfall)))
    case _ => None
  }

  /**
   * A point raises exactly when it is not an object or its identifier is a
   * list or object; otherwise its row carries the bucket's timestamp, the
   * identifier and rainfall chosen by their alias chains, and the station's
   * entry, or the placeholder name and coordinates 0 for an unknown station.
   */
  lemma PointRowSpec(info: map<Value, StationInfo>, timestamp: Value, point: Value)
    ensures PointRow(info, timestamp, point).Some? <==>
      point.Obj? &&
      var id := FirstPresent(point.fields, ["stationId", "station_id", "id"], Str("unknown"));
      !id.List? && !id.Obj?
    ensures PointRow(info, timestamp, point).Some? ==>
      var r := PointRow(info, timestamp, point).value;
      var p := point.fields;
      var id :=
        if "stationId" in p then p["stationId"]
        else if "station_id" in p then p["station_id"]
        else if "id" in p then p["id"]
        else Str("unknown");
      && HashKey(id).Some?
      && var key := HashKey(id).value;
      && r.timestamp == timestamp
      && r.stationId == id
      && r.rainfallMm == (if "value" in p then p["value"] else if "rainfall" in p then p["rainfall"] else Num(0.0))
      && (key in info ==>
            r.stationName == info[key].name &&
            r.latitude == info[key].latitude && r.longitude == info[key].longitude)
      && (key !in info ==>
            r.stationName == Placeholder(id) && r.latitude == Num(0.0) && r.longitude == Num(0.0))
  {
    if point.Obj? {
      Aliases3(point.fields, "stationId", "station_id", "id", Str("unknown"));
      Aliases2(point.fields, "value", "rainfall", Num(0.0));
    }
  }

  /** The rows of one bucket's points, in order; `None` if any point raises. */
  function PointRows(info: map<Value, StationInfo>, timestamp: Value, points: seq<Value>): Option<seq<ProcessedRow>>
  {
    if points == [] then Some([])
    else
      var n := |points| - 1;
      match PointRows(info, timestamp, points[..n])
      case None => None
      case Some(front) =>
        match PointRow(info, timestamp, points[n])
        case None => None
        case Some(row) => Some(front + [row])
  }

  /** `reading.get('timestamp', reading.get('time', ''))` */
  function BucketTimestamp(bucket: Value): Value {
    if bucket.Obj? then FirstPresent(bucket.fields, ["timestamp", "time"], Str("")) else Str("")
  }

  /** The data points a bucket's loop visits (none when the bucket raises). */
  function BucketPoints(bucket: Value): seq<Value> {
    if bucket.Obj? then
      match Entries(FirstPresent(bucket.fields, ["data"], List([])))
      case Some(points) => points
      case None => []
    else []
  }

  /** The rows of one time bucket; `None` if the bucket or one of its points raises. */
  function BucketRows(info: map<Value, StationInfo>, bucket: Value): Option<seq<ProcessedRow>>
  {
    if !bucket.Obj? then None
    else
      match Entries(FirstPresent(bucket.fields, ["data"], List([])))
      case None => None
      case Some(points) => PointRows(info, BucketTimestamp(bucket), points)
  }

  /** All rows, bucket-major and point-minor; `None` if anything raises. */
  function ReadingRows(info: map<Value, StationInfo>, buckets: seq<Value>): Option<seq<ProcessedRow>>
  {
    if buckets == [] then Some([])
    else
      var n := |buckets| - 1;
      match ReadingRows(info, buckets[..n])
      case None => None
      case Some(front) =>
        match BucketRows(info, buckets[n])
        case None => None
        case Some(rows) => Some(front + rows)
  }

  /** The number of data points over all buckets. */
  function TotalPoints(buckets: seq<Value>): nat {
    if buckets == [] then 0
    else TotalPoints(buckets[..|buckets| - 1]) + |BucketPoints(buckets[|buckets| - 1])|
  }

  /** What `process_readings` returns, given the `stations_info` it reads. */
  function ReadingsResult(info: map<Value, StationInfo>, response: Value): Outcome<seq<ProcessedRow>>
  {
    match Collection(response, "readings")
    case Empty => Done([])
    case ListingRaised => Raised
    case Items(buckets) =>
      match ReadingRows(info, buckets)
      case None => Raised
      case Some(rows) => Done(rows)
  }

  /** The same guards as for stations give an empty table for `readings`. */
  lemma NoReadings(info: map<Value, StationInfo>, response: Value)
    requires
      || !Truthy(response)
      || (response.Obj? && "data" !in response.fields)
      || (response.Obj? && "data" in response.fields && response.fields["data"].Obj? &&
          var d := response.fields["data"].fields;
          "readings" !in d || d["readings"] == List([]))
    ensures ReadingsResult(info, response) == Done([])
  {
    if Truthy(response) && response.Obj? && "data" in response.fields && response.fields["data"].Obj? {
      Aliases1(response.fields["data"].fields, "readings", List([]));
    }
  }

  /** One row per point, in point order. */
  lemma {:induction false} PointRowsLayout(info: map<Value, StationInfo>, timestamp: Value, points: seq<Value>)
    requires PointRows(info, timestamp, points).Some?
    ensures |PointRows(info, timestamp, points).value| == |points|
    ensures forall p :: 0 <= p < |points| ==>
      PointRow(info, timestamp, points[p]).Some? &&
      PointRows(info, timestamp, points).value[p] == PointRow(info, timestamp, points[p]).value
  {
    if points != [] {
      var n := |points| - 1;
      var front := points[..n];
      PointRowsLayout(info, timestamp, front);
      assert forall p :: 0 <= p < n ==> front[p] == points[p];
    }
  }

  /** The reading step's result when the response lists readings. */
  lemma ReadingsItems(info: map<Value, StationInfo>, response: Value)
    requires Collection(response, "readings").Items?
    ensures ReadingsResult(info, response) ==
      match ReadingRows(info, Collection(response, "readings").entries)
      case None => Raised
      case Some(rows) => Done(rows)
  {
  }

  lemma PointRowsSnoc(info: map<Value, StationInfo>, timestamp: Value, points: seq<Value>, j: nat)
    requires j < |points|
    requires PointRows(info, timestamp, points[..j]).Some? && PointRow(info, timestamp, points[j]).Some?
    ensures PointRows(info, timestamp, points[..j + 1]) ==
      Some(PointRows(info, timestamp, points[..j]).value + [PointRow(info, timestamp, points[j]).value])
  {
    assert points[..j + 1][..j] == points[..j];
  }

  lemma ReadingRowsSnoc(info: map<Value, StationInfo>, buckets: seq<Value>, i: nat)
    requires i < |buckets|
    requires ReadingRows(info, buckets[..i]).Some? && BucketRows(info, buckets[i]).Some?
    ensures ReadingRows(info, buckets[..i + 1]) ==
      Some(ReadingRows(info, buckets[..i]).value + BucketRows(info, buckets[i]).value)
  {
    assert buckets[..i + 1][..i] == buckets[..i];
  }

  /** A bucket's points give rows exactly when none of them raises. */
  lemma {:induction false} PointRowsSome(info: map<Value, StationInfo>, timestamp: Value, points: seq<Value>)
    ensures PointRows(info, timestamp, points).Some? <==>
      forall p :: 0 <= p < |points| ==> PointRow(info, timestamp, points[p]).Some?
  {
    if points != [] {
      var n := |points| - 1;
      PointRowsSome(info, timestamp, points[..n]);
      assert forall p :: 0 <= p < n ==> points[..n][p] == points[p];
    }
  }

  /**
   * A bucket raises exactly when it is not an object, its `data` is not
   * iterable, or one of its points raises.
   */
  lemma BucketRowsSome(info: map<Value, StationInfo>, bucket: Value)
    ensures BucketRows(info, bucket).Some? <==>
      && bucket.Obj?
      && Entries(if "data" in bucket.fields then bucket.fields["data"] else List([])).Some?
      && forall p :: 0 <= p < |BucketPoints(bucket)| ==>
           PointRow(info, BucketTimestamp(bucket), BucketPoints(bucket)[p]).Some?
  {
    if bucket.Obj? {
      Aliases1(bucket.fields, "data", List([]));
      PointRowsSome(info, BucketTimestamp(bucket), BucketPoints(bucket));
    }
  }

  /** The reading step gives rows exactly when no bucket raises. */
  lemma {:induction false} ReadingRowsSome(info: map<Value, StationInfo>, buckets: seq<Value>)
    ensures ReadingRows(info, buckets).Some? <==>
      forall b :: 0 <= b < |buckets| ==> BucketRows(info, buckets[b]).Some?
  {
    if buckets != [] {
      var n := |buckets| - 1;
      ReadingRowsSome(info, buckets[..n]);
      assert forall b :: 0 <= b < n ==> buckets[..n][b] == buckets[b];
    }
  }

  /** A point that raises makes the whole bucket raise. */
  lemma {:induction false} PointRowsFail(info: map<Value, StationInfo>, timestamp: Value, points: seq<Value>, j: nat)
    requires j < |points| && PointRow(info, timestamp, points[j]).None?
    ensures PointRows(info, timestamp, points).None?
  {
    var n := |points| - 1;
    if j < n {
      assert points[..n][j] == points[j];
      PointRowsFail(info, timestamp, points[..n], j);
    }
  }

  /** A bucket that raises makes the whole step raise. */
  lemma {:induction false} ReadingRowsFail(info: map<Value, StationInfo>, buckets: seq<Value>, b: nat)
    requires b < |buckets| && BucketRows(info, buckets[b]).None?
    ensures ReadingRows(info, buckets).None?
  {
    var n := |buckets| - 1;
    if b < n {
      assert buckets[..n][b] == buckets[b];
      ReadingRowsFail(info, buckets[..n], b);
    }
  }

  /**
   * Point `p` of bucket `b` sits at row `TotalPoints(buckets[..b]) + p` of
   * `rows`, joined against `info` with that bucket's timestamp.
   */
  predicate RowOfPoint(info: map<Value, StationInfo>, buckets: seq<Value>, rows: seq<ProcessedRow>, b: nat, p: nat)
    requires b < |buckets| && p < |BucketPoints(buckets[b])|
  {
    var k := TotalPoints(buckets[..b]) + p;
    var row := PointRow(info, BucketTimestamp(buckets[b]), BucketPoints(buckets[b])[p]);
    k < |rows| && row.Some? && rows[k] == row.value
  }

  /** Rows of earlier buckets keep their positions when a bucket's rows are appended. */
  lemma LayoutFront(info: map<Value, StationInfo>, buckets: seq<Value>, frontRows: seq<ProcessedRow>,
                    lastRows: seq<ProcessedRow>, b: nat, p: nat)
    requires b < |buckets| - 1 && p < |BucketPoints(buckets[b])|
    requires RowOfPoint(info, buckets[..|buckets| - 1], frontRows, b, p)
    ensures RowOfPoint(info, buckets, frontRows + lastRows, b, p)
  {
    var n := |buckets| - 1;
    assert buckets[..n][b] == buckets[b];
    assert buckets[..n][..b] == buckets[..b];
  }

  /** The last bucket's rows follow all earlier rows, in point order. */
  lemma LayoutLast(info: map<Value, StationInfo>, buckets: seq<Value>, frontRows: seq<ProcessedRow>,
                   lastRows: seq<ProcessedRow>, p: nat)
    requires buckets != []
    requires |frontRows| == TotalPoints(buckets[..|buckets| - 1])
    requires p < |BucketPoints(buckets[|buckets| - 1])| && p < |lastRows|
    requires
      var last := buckets[|buckets| - 1];
      var row := PointRow(info, BucketTimestamp(last), BucketPoints(last)[p]);
      row.Some? && lastRows[p] == row.value
    ensures RowOfPoint(info, buckets, frontRows + lastRows, |buckets| - 1, p)
  {
  }

  /**
   * No point is dropped and none is invented: the table has one row per data
   * point, laid out bucket-major and point-minor in payload order.
   */
  lemma {:induction false} ReadingRowsLayout(info: map<Value, StationInfo>, buckets: seq<Value>)
    requires ReadingRows(info, buckets).Some?
    ensures |ReadingRows(info, buckets).value| == TotalPoints(buckets)
    ensures forall b: nat, p: nat :: b < |buckets| && p < |BucketPoints(buckets[b])| ==>
      RowOfPoint(info, buckets, ReadingRows(info, buckets).value, b, p)
  {
    if buckets != [] {
      var n := |buckets| - 1;
      var front := buckets[..n];
      var last := buckets[n];
      ReadingRowsLayout(info, front);
      var frontRows := ReadingRows(info, front).value;
      var lastRows := BucketRows(info, last).value;
      var rows := ReadingRows(info, buckets).value;
      assert rows == frontRows + lastRows;
      var points := BucketPoints(last);
      assert BucketRows(info, last) == PointRows(info, BucketTimestamp(last), points);
      PointRowsLayout(info, BucketTimestamp(last), points);
      forall b: nat, p: nat | b < |buckets| && p < |BucketPoints(buckets[b])|
        ensures RowOfPoint(info, buckets, rows, b, p)
      {
        if b < n {
          LayoutFront(info, buckets, frontRows, lastRows, b, p);
        } else {
          LayoutLast(info, buckets, frontRows, lastRows, p);
        }
      }
    }
  }

  // ---------------------------------------------------------------------
  // The processor object

  class RainfallDataProcessor {
    /** Resolved station entries by dictionary key. It is never cleared, so it
        accumulates over every payload the object processes. */
    var stationsInfo: map<Value, StationInfo>

    constructor ()
      ensures stationsInfo == map[]
    {
      stationsInfo := map[];
    }

    /** `process_stations`: stores every station's entry, in payload order. */
    method ProcessStations(response: Value) returns (r: Outcome<seq<Value>>)
      modifies this
      ensures r == StationsResult(response)
      ensures stationsInfo == StationsInfoAfter(old(stationsInfo), response)
    {
      var listing := Collection(response, "stations");
      StationsCases(stationsInfo, response);
      if listing.Empty? {
        return Done([]);
      }
      if listing.ListingRaised? {
        return Raised;
      }
      var stations := listing.entries;
      var i := 0;
      while i < |stations|
        invariant i <= FirstBad(stations)
        invariant stationsInfo == Register(old(stationsInfo), Resolved(stations[..i]))
      {
        var entry := StationEntry(stations[i]);
        FirstBadAt(stations, i);
        if entry.None? {
          return Raised;
        }
        ResolvedSnoc(stations, i);
        RegisterSnoc(old(stationsInfo), Resolved(stations[..i]), entry.value);
        stationsInfo := stationsInfo[entry.value.0 := entry.value.1];
        i := i + 1;
      }
      assert FirstBad(stations) == i && stations[..i] == stations;
      return Done(stations);
    }

    /**
     * The body of `process_readings`' outer loop for one bucket: its rows in
     * point order, or `None` where the bucket or one of its points raises.
     */
    method ProcessBucket(reading: Value) returns (rows: Option<seq<ProcessedRow>>)
      ensures rows == BucketRows(stationsInfo, reading)
    {
      if !reading.Obj? {
        return None;
      }
      var timestamp := FirstPresent(reading.fields, ["timestamp", "time"], Str(""));
      var dataPoints := Entries(FirstPresent(reading.fields, ["data"], List([])));
      if dataPoints.None? {
        return None;
      }
      var points := dataPoints.value;
      assert BucketRows(stationsInfo, reading) == PointRows(stationsInfo, timestamp, points);
      var processed: seq<ProcessedRow> := [];
      var j := 0;
      while j < |points|
        invariant j <= |points|
        invariant PointRows(stationsInfo, timestamp, points[..j]) == Some(processed)
      {
        var point := points[j];
        if !point.Obj? {
          PointRowsFail(stationsInfo, timestamp, points, j);
          return None;
        }
        var stationId := FirstPresent(point.fields, ["stationId", "station_id", "id"], Str("unknown"));
        var rainfall := FirstPresent(point.fields, ["value", "rainfall"], Num(0.0));
        var key := HashKey(stationId);
        if key.None? {
          PointRowsFail(stationsInfo, timestamp, points, j);
          return None;
        }
        var row;
        if key.value in stationsInfo {
          var station := stationsInfo[key.value];
          row := ProcessedRow(timestamp, stationId, station.name, station.latitude, station.longitude, rainfall);
        } else {
          row := ProcessedRow(timestamp, stationId, Placeholder(stationId), Num(0.0), Num(0.0), rainfall);
        }
        assert PointRow(stationsInfo, timestamp, point) == Some(row);
        PointRowsSnoc(stationsInfo, timestamp, points, j);
        processed := processed + [row];
        j := j + 1;
      }
      assert points[..j] == points;
      return Some(processed);
    }

    /** `process_readings`: one joined row per data point, in bucket and point order. */
    method ProcessReadings(response: Value) returns (r: Outcome<seq<ProcessedRow>>)
      ensures r == ReadingsResult(stationsInfo, response)
    {
      var listing := Collection(response, "readings");
      if listing.Empty? {
        return Done([]);
      }
      if listing.ListingRaised? {
        return Raised;
      }
      var readings := listing.entries;
      ReadingsItems(stationsInfo, response);
      var processed: seq<ProcessedRow> := [];
      var i := 0;
      while i < |readings|
        invariant i <= |readings|
        invariant ReadingRows(stationsInfo, readings[..i]) == Some(processed)
      {
        var rows := ProcessBucket(readings[i]);
        if rows.None? {
          ReadingRowsFail(stationsInfo, readings, i);
          return Raised;
        }
        ReadingRowsSnoc(stationsInfo, readings, i);
        processed := processed + rows.value;
        i := i + 1;
      }
      assert readings[..i] == readings;
      return Done(processed);
    }

    /**
     * `get_all_data` with the fetch result as input (`None` for a failed
     * fetch): nothing unless the response is truthy and the station frame is
     * non-empty; otherwise exactly what `process_readings` returns, joined
     * against the dictionary the station step has just updated.
     */
    method GetAllData(fetched: Option<Value>) returns (r: Outcome<seq<ProcessedRow>>)
      modifies this
      ensures fetched.None? || !Truthy(fetched.value) ==>
        r == Done([]) && stationsInfo == old(stationsInfo)
      ensures fetched.Some? && Truthy(fetched.value) ==>
        && stationsInfo == StationsInfoAfter(old(stationsInfo), fetched.value)
        && r == match StationsResult(fetched.value)
                case Raised => Raised
                case Done(frame) => if FrameEmpty(frame) then Done([]) else ReadingsResult(stationsInfo, fetched.value)
    {
      if fetched.None? || !Truthy(fetched.value) {
        return Done([]);
      }
      var response := fetched.value;
      var stationsFrame := ProcessStations(response);
      if stationsFrame.Raised? {
        return Raised;
      }
      if FrameEmpty(stationsFrame.value) {
        return Done([]);
      }
      r := ProcessReadings(response);
    }
  }
}
