/** The weather service: the field names it asks the weather API for, the
    parsing of the API's column-wise hourly answer into one record per hour,
    the rule that decides when the local store answers instead, the cut
    down to the requested fields, saving records as `weather_data` rows,
    the query of several cities, and the region label of a place search.
    The API's answers, the store's rows and the cache's content are inputs. */
module WeatherService {
  import opened Wrappers
  import opened Text
  import opened Records
  import opened Cities
  import Database

  // ----- the field catalogue and the API's names -----

  /** A field's entry in the field catalogue: the name the weather API uses
      for it, when that differs from the field's own name. */
  datatype FieldInfo = FieldInfo(apiParam: Option<string>)

  /** The field catalogue: its groups in order, each mapping field names to entries. */
  type Catalogue = seq<map<string, FieldInfo>>

  /** The API's name for an entry: its `api_param`, or the field's own name. */
  function ParamOr(info: FieldInfo, field: string): string
  {
    match info.apiParam
    case Some(p) => p
    case None => field
  }

  /** The API's name for a field: looked up in the first group that has the
      field; a field in no group keeps its own name. */
  function ApiKey(catalogue: Catalogue, field: string): string
  {
    if |catalogue| == 0 then field
    else if field in catalogue[0] then ParamOr(catalogue[0][field], field)
    else ApiKey(catalogue[1..], field)
  }

  /** The first group that has the field decides its API name. */
  lemma {:induction false} ApiKeyFirstGroup(catalogue: Catalogue, field: string, k: int)
    requires 0 <= k < |catalogue| && field in catalogue[k]
    requires forall j :: 0 <= j < k ==> field !in catalogue[j]
    ensures ApiKey(catalogue, field) == ParamOr(catalogue[k][field], field)
  {
    if k > 0 {
      assert field !in catalogue[0];
      ApiKeyFirstGroup(catalogue[1..], field, k - 1);
    }
  }

  /** A field the catalogue does not know passes through unchanged. */
  lemma {:induction false} ApiKeyUnknown(catalogue: Catalogue, field: string)
    requires forall k :: 0 <= k < |catalogue| ==> field !in catalogue[k]
    ensures ApiKey(catalogue, field) == field
  {
    if |catalogue| > 0 {
      assert field !in catalogue[0];
      ApiKeyUnknown(catalogue[1..], field);
    }
  }

  /** The lookup of one field's API name: the groups in order, stopping at
      the first that has the field. */
  method LookupApiName(catalogue: Catalogue, field: string) returns (name: string)
    ensures name == ApiKey(catalogue, field)
  {
    name := field;
    var found := false;
    var g := 0;
    while g < |catalogue| && !found
      invariant 0 <= g <= |catalogue|
      invariant found ==> name == ApiKey(catalogue, field)
      invariant !found ==> ApiKey(catalogue, field) == ApiKey(catalogue[g..], field) && name == field
      decreases |catalogue| - g, if found then 0 else 1
    {
      assert catalogue[g..][1..] == catalogue[g + 1..];
      if field in catalogue[g] {
        name := ParamOr(catalogue[g][field], field);
        found := true;
      } else {
        g := g + 1;
      }
    }
  }

  /** The API names of the fields, one per field, in order. */
  function ApiNames(catalogue: Catalogue, fields: seq<string>): (names: seq<string>)
  {
    seq(|fields|, i requires 0 <= i < |fields| => ApiKey(catalogue, fields[i]))
  }

  /** The `hourly` parameter of the API's URL: the fields' API names,
      comma-separated, in the order the fields were given. */
  method HourlyParameter(catalogue: Catalogue, fields: seq<string>) returns (names: seq<string>, hourly: string)
    ensures names == ApiNames(catalogue, fields)
    ensures hourly == Join(names, ",")
  {
    names := [];
    for i := 0 to |fields|
      invariant names == ApiNames(catalogue, fields[..i])
    {
      var name := LookupApiName(catalogue, fields[i]);
      names := names + [name];
    }
    assert fields[..|fields|] == fields;
    hourly := Join(names, ",");
  }

  /** With no field known to the catalogue, the API is asked for the fields by
      their own names. */
  lemma ApiNamesUnknown(catalogue: Catalogue, fields: seq<string>)
    requires forall i, k :: 0 <= i < |fields| && 0 <= k < |catalogue| ==> fields[i] !in catalogue[k]
    ensures ApiNames(catalogue, fields) == fields
  {
    forall i | 0 <= i < |fields| ensures ApiKey(catalogue, fields[i]) == fields[i] {
      ApiKeyUnknown(catalogue, fields[i]);
    }
  }

  // ----- parsing the API's answer -----

  /** The `hourly` part of an answer: the timestamps, and for each API name
      its column of values, None standing for null. An answer without an
      `hourly` part, or without timestamps, has no timestamps. */
  datatype Hourly = Hourly(time: seq<string>, series: map<string, seq<Option<real>>>)

  /** The value of API column `key` at hour `i`: None when the answer has no
      such column. */
  function ValueAt(h: Hourly, key: string, i: nat): Option<real>
  {
    if key in h.series && i < |h.series[key]| then h.series[key][i] else None
  }

  /** A column the answer has, but shorter than the timestamps: reading it at
      hour `i` fails. */
  predicate TooShort(h: Hourly, key: string, i: int)
  {
    key in h.series && |h.series[key]| <= i
  }

  /** Some requested field's column is shorter than the timestamps, so the
      parse raises an index error. */
  predicate Truncated(catalogue: Catalogue, h: Hourly, fields: seq<string>)
  {
    exists f :: f in fields && TooShort(h, ApiKey(catalogue, f), |h.time| - 1)
  }

  /** The record of hour `i`: its timestamp and every requested field's value. */
  function RecordAt(catalogue: Catalogue, h: Hourly, fields: seq<string>, i: nat): HourlyRecord
    requires i < |h.time|
  {
    HourlyRecord(h.time[i], map f | f in fields :: ValueAt(h, ApiKey(catalogue, f), i))
  }

  /** One record per timestamp, in order. */
  function Parsed(catalogue: Catalogue, h: Hourly, fields: seq<string>): (records: seq<HourlyRecord>)
  {
    seq(|h.time|, i requires 0 <= i < |h.time| => RecordAt(catalogue, h, fields, i))
  }

  /** The record of hour `i`, or None when a requested column ends before it. */
  method BuildRecord(catalogue: Catalogue, h: Hourly, fields: seq<string>, i: nat) returns (r: Option<HourlyRecord>)
    requires i < |h.time|
    ensures r.None? <==> exists f :: f in fields && TooShort(h, ApiKey(catalogue, f), i)
    ensures r.Some? ==> r.value == RecordAt(catalogue, h, fields, i)
  {
    var values: map<string, Option<real>> := map[];
    for j := 0 to |fields|
      invariant forall f :: f in values <==> f in fields[..j]
      invariant forall f :: f in values ==> values[f] == ValueAt(h, ApiKey(catalogue, f), i)
      invariant forall f :: f in fields[..j] ==> !TooShort(h, ApiKey(catalogue, f), i)
    {
      var key := LookupApiName(catalogue, fields[j]);
      if key in h.series {
        if |h.series[key]| <= i {
          assert fields[j] in fields;
          return None;
        }
        values := values[fields[j] := h.series[key][i]];
      } else {
        values := values[fields[j] := None];
      }
      assert fields[..j + 1] == fields[..j] + [fields[j]];
    }
    assert fields[..|fields|] == fields;
    assert values == map f | f in fields :: ValueAt(h, ApiKey(catalogue, f), i);
    r := Some(HourlyRecord(h.time[i], values));
  }

  /** `_parse_response`: one record per timestamp, in order, each with its
      timestamp and every requested field; a column shorter than the
      timestamps makes the parse raise. */
  method ParseResponse(catalogue: Catalogue, h: Hourly, fields: seq<string>) returns (r: Result<seq<HourlyRecord>>)
    ensures r.Failure? <==> Truncated(catalogue, h, fields)
    ensures r.Success? ==> r.value == Parsed(catalogue, h, fields)
  {
    var records: seq<HourlyRecord> := [];
    for i := 0 to |h.time|
      invariant |records| == i
      invariant forall k :: 0 <= k < i ==> records[k] == RecordAt(catalogue, h, fields, k)
      invariant forall f :: f in fields ==> !TooShort(h, ApiKey(catalogue, f), i - 1)
    {
      var record := BuildRecord(catalogue, h, fields, i);
      if record.None? {
        assert Truncated(catalogue, h, fields) by {
          var f :| f in fields && TooShort(h, ApiKey(catalogue, f), i);
          assert TooShort(h, ApiKey(catalogue, f), |h.time| - 1);
        }
        return Failure("IndexError");
      }
      records := records + [record.value];
    }
    r := Success(records);
  }

  /** Every parsed record has exactly the requested fields. */
  lemma ParsedFields(catalogue: Catalogue, h: Hourly, fields: seq<string>, i: nat)
    requires i < |h.time|
    ensures |Parsed(catalogue, h, fields)| == |h.time|
    ensures Parsed(catalogue, h, fields)[i].datetime == h.time[i]
    ensures forall f :: f in Parsed(catalogue, h, fields)[i].values <==> f in fields
  {
  }

  // ----- the cut down to the requested fields -----

  /** A record keeping only the requested fields (its timestamp stays). */
  function Only(r: HourlyRecord, fields: seq<string>): HourlyRecord
  {
    HourlyRecord(r.datetime, map f | f in r.values && f in fields :: r.values[f])
  }

  /** Every record cut down to the requested fields, in order. */
  function OnlyAll(records: seq<HourlyRecord>, fields: seq<string>): (out: seq<HourlyRecord>)
  {
    seq(|records|, i requires 0 <= i < |records| => Only(records[i], fields))
  }

  /** The cut down of cached or fetched records: each record keeps the
      requested fields and its timestamp. */
  method KeepRequested(records: seq<HourlyRecord>, fields: seq<string>) returns (filtered: seq<HourlyRecord>)
    ensures filtered == OnlyAll(records, fields)
  {
    filtered := [];
    for i := 0 to |records|
      invariant filtered == OnlyAll(records[..i], fields)
    {
      filtered := filtered + [Only(records[i], fields)];
    }
    assert records[..|records|] == records;
  }

  /** Parsing with more fields and then cutting down gives what parsing with
      only the requested fields gives, and a parse that succeeds with more
      fields succeeds with fewer. */
  lemma OnlyAfterParse(catalogue: Catalogue, h: Hourly, fields: seq<string>, requested: seq<string>)
    requires forall f :: f in fields ==> f in requested
    ensures OnlyAll(Parsed(catalogue, h, requested), fields) == Parsed(catalogue, h, fields)
    ensures !Truncated(catalogue, h, requested) ==> !Truncated(catalogue, h, fields)
  {
    var wide := Parsed(catalogue, h, requested);
    var narrow := Parsed(catalogue, h, fields);
    forall i | 0 <= i < |h.time| ensures Only(wide[i], fields) == narrow[i] {
      assert Only(wide[i], fields).values == narrow[i].values;
    }
  }

  // ----- the local store and the answer -----

  /** The hours a range of days should hold: 24 for each day from the start
      to the end. */
  function ExpectedHours(startDay: int, endDay: int): int
  {
    (endDay - startDay) * 24 + 24
  }

  /** A city id counts only when it is given and not 0. */
  predicate Truthy(cityId: Option<int>)
  {
    cityId.Some? && cityId.value != 0
  }

  /** Where an answer came from. */
  datatype Source = LocalStore | Cache | Api

  datatype WeatherAnswer = WeatherAnswer(source: Source, records: seq<HourlyRecord>)

  /** The fields asked of the API: the requested ones, and with a city every
      catalogue field as well (in some order). */
  ghost predicate RequestFields(catalogue: Catalogue, cityId: Option<int>, fields: seq<string>, requested: seq<string>)
  {
    if Truthy(cityId) then
      forall f :: f in requested <==> f in fields || exists k :: 0 <= k < |catalogue| && f in catalogue[k]
    else requested == fields
  }

  /** `get_historical_weather`. With a city, the stored rows of the range
      (`local`, or the error the query raised) answer when they hold at least
      the expected hours. Otherwise a cached answer, then the API's answer
      (`fetched`, or the error raised), each cut down to the requested fields
      when more were asked for. A failed or short API answer is raised. */
  function HistoricalWeather(catalogue: Catalogue, fields: seq<string>, requested: seq<string>,
                             cityId: Option<int>, startDay: int, endDay: int,
                             local: Result<seq<HourlyRecord>>, cached: Option<seq<HourlyRecord>>,
                             fetched: Result<Hourly>): (r: Result<WeatherAnswer>)
    requires RequestFields(catalogue, cityId, fields, requested)
    ensures r.Success? && r.value.source == LocalStore <==>
      Truthy(cityId) && local.Success? && |local.value| >= ExpectedHours(startDay, endDay)
    ensures r.Success? && r.value.source == LocalStore ==> r.value.records == local.value
    ensures r.Success? && r.value.source == Cache ==>
      cached.Some? && r.value.records == (if requested == fields then cached.value else OnlyAll(cached.value, fields))
    ensures r.Failure? <==>
      !(Truthy(cityId) && local.Success? && |local.value| >= ExpectedHours(startDay, endDay)) && cached.None? &&
      (fetched.Failure? || Truncated(catalogue, fetched.value, requested))
    ensures r.Success? && r.value.source == Api ==>
      fetched.Success? && r.value.records == Parsed(catalogue, fetched.value, fields)
  {
    if Truthy(cityId) && local.Success? && |local.value| >= ExpectedHours(startDay, endDay) then
      Success(WeatherAnswer(LocalStore, local.value))
    else if cached.Some? then
      Success(WeatherAnswer(Cache, if requested != fields then OnlyAll(cached.value, fields) else cached.value))
    else if fetched.Failure? then Failure(fetched.error)
    else if Truncated(catalogue, fetched.value, requested) then Failure("IndexError")
    else
      var parsed := Parsed(catalogue, fetched.value, requested);
      OnlyAfterParse(catalogue, fetched.value, fields, requested);
      Success(WeatherAnswer(Api, if requested != fields then OnlyAll(parsed, fields) else parsed))
  }

  /** A range of `n` days expects `24 * n` hours; with the end before the
      start nothing is expected, so the stored rows answer, even when there
      are none. */
  lemma ExpectedHoursPerDay(startDay: int, endDay: int)
    ensures startDay <= endDay ==> ExpectedHours(startDay, endDay) == 24 * (endDay - startDay + 1)
    ensures startDay > endDay ==> ExpectedHours(startDay, endDay) <= 0
  {
  }

  // ----- saving to the database -----

  /** A value as a table cell: null stays null. */
  function CellOf(v: Option<real>): Database.Cell
  {
    match v
    case None => Database.Null
    case Some(x) => Database.RealCell(x)
  }

  /** A record's values as cells, its timestamp aside. */
  function Cells(r: HourlyRecord): map<string, Database.Cell>
  {
    map k | k in r.values && k != "datetime" :: CellOf(r.values[k])
  }

  /** The row `save_to_database` makes of a record: the city id, the
      timestamp, then every other key of the record (a field named `city_id`
      would overwrite the id). */
  function DbRecord(cityId: int, r: HourlyRecord): map<string, Database.Cell>
  {
    map["city_id" := Database.IntCell(cityId), "datetime" := Database.TextCell(r.datetime)] + Cells(r)
  }

  function DbRecords(cityId: int, records: seq<HourlyRecord>): (rows: seq<map<string, Database.Cell>>)
  {
    seq(|records|, i requires 0 <= i < |records| => DbRecord(cityId, records[i]))
  }

  /** A record without a `city_id` field becomes the row keyed by the city
      and the record's timestamp, holding exactly the record's values. */
  lemma DbRecordRow(cityId: int, r: HourlyRecord)
    requires "city_id" !in r.values
    ensures Database.ToRow(DbRecord(cityId, r)) == Some(Database.NewRow((cityId, r.datetime), Cells(r)))
  {
    var row := DbRecord(cityId, r);
    assert row["city_id"] == Database.IntCell(cityId);
    assert row["datetime"] == Database.TextCell(r.datetime);
    assert (map c | c in row && c != "city_id" && c != "datetime" :: row[c]) == Cells(r);
  }

  /** `save_to_database`: one row per record, inserted or replaced in one
      batch; 0 when there are no records. */
  method SaveToDatabase(table: Database.WeatherTable, cityId: int, records: seq<HourlyRecord>)
    returns (r: Result<nat>)
    modifies table
    ensures |records| == 0 ==> r == Success(0) && table.rows == old(table.rows)
    ensures r.Failure? ==> table.rows == old(table.rows)
    ensures r.Success? ==> r.value == |records|
    ensures (forall i :: 0 <= i < |records| ==> "city_id" !in records[i].values) &&
            (forall i :: 0 <= i < |records| ==> records[i].values.Keys == records[0].values.Keys)
            ==> r.Success? && table.rows == Database.UpsertAll(old(table.rows), StoredRows(cityId, records))
  {
    var rows := DbRecords(cityId, records);
    if |rows| == 0 {
      return Success(0);
    }
    if (forall i :: 0 <= i < |records| ==> "city_id" !in records[i].values) &&
       (forall i :: 0 <= i < |records| ==> records[i].values.Keys == records[0].values.Keys) {
      SameKeysProject(cityId, records);
    }
    r := table.BulkInsert(rows);
  }

  /** The rows of the records, keyed by city and timestamp. */
  function StoredRows(cityId: int, records: seq<HourlyRecord>): (rows: seq<Database.NewRow>)
  {
    seq(|records|, i requires 0 <= i < |records| => Database.NewRow((cityId, records[i].datetime), Cells(records[i])))
  }

  /** Records with the same fields make rows with the same columns, which
      the batch insert keeps whole and upserts in order. */
  lemma SameKeysProject(cityId: int, records: seq<HourlyRecord>)
    requires |records| > 0
    requires forall i :: 0 <= i < |records| ==> "city_id" !in records[i].values
    requires forall i :: 0 <= i < |records| ==> records[i].values.Keys == records[0].values.Keys
    ensures var rows := DbRecords(cityId, records);
      (forall i :: 0 <= i < |rows| ==> rows[0].Keys <= rows[i].Keys) &&
      Database.Project(rows, rows[0].Keys) == rows &&
      (forall i :: 0 <= i < |rows| ==> Database.ToRow(rows[i]).Some?) &&
      Database.NewRows(rows) == StoredRows(cityId, records)
  {
    var rows := DbRecords(cityId, records);
    forall i | 0 <= i < |rows| ensures rows[i].Keys == rows[0].Keys {
      assert Cells(records[i]).Keys == Cells(records[0]).Keys;
    }
    var p := Database.Project(rows, rows[0].Keys);
    forall i | 0 <= i < |rows| ensures p[i] == rows[i] {
      assert p[i].Keys == rows[i].Keys;
    }
    forall i | 0 <= i < |rows| ensures Database.ToRow(rows[i]) == Some(StoredRows(cityId, records)[i]) {
      DbRecordRow(cityId, records[i]);
    }
  }

  /** After a save, a record's row holds its values unless a later record has
      the same timestamp. */
  lemma SavedRowHolds(t: Database.Table, cityId: int, records: seq<HourlyRecord>, i: int)
    requires 0 <= i < |records|
    requires forall j :: i < j < |records| ==> records[j].datetime != records[i].datetime
    ensures (cityId, records[i].datetime) in Database.UpsertAll(t, StoredRows(cityId, records))
    ensures Database.UpsertAll(t, StoredRows(cityId, records))[(cityId, records[i].datetime)] == Cells(records[i])
  {
    Database.UpsertLastWins(t, StoredRows(cityId, records), i);
  }

  // ----- several cities -----

  /** One city's answer in a batch query, tagged with the city. */
  datatype CityWeather = CityWeather(cityId: int, cityName: string, records: seq<HourlyRecord>)

  /** The batch query's answers: for each id in turn, the city's answer when
      the city exists and its query (`fetched(k)` for the k-th id) succeeded;
      other ids are skipped. */
  function Queried(table: map<int, City>, ids: seq<int>, fetched: nat -> Result<seq<HourlyRecord>>): seq<CityWeather>
  {
    if |ids| == 0 then []
    else
      var k := |ids| - 1;
      Queried(table, ids[..k], fetched) +
        (if ids[k] in table && fetched(k).Success? then [CityWeather(ids[k], table[ids[k]].name, fetched(k).value)] else [])
  }

  /** `batch_query_cities`. */
  method BatchQueryCities(cities: CityManager, ids: seq<int>, fetched: nat -> Result<seq<HourlyRecord>>)
    returns (results: seq<CityWeather>)
    ensures results == Queried(cities.table, ids, fetched)
  {
    results := [];
    for k := 0 to |ids|
      invariant results == Queried(cities.table, ids[..k], fetched)
    {
      assert ids[..k + 1][..k] == ids[..k];
      var coordinates := cities.GetCoordinates(ids[k]);
      if coordinates.None? {
        continue;
      }
      var info := cities.GetCityById(ids[k]);
      var answer := fetched(k);
      if answer.Success? {
        results := results + [CityWeather(ids[k], info.value.name, answer.value)];
      }
    }
    assert ids[..|ids|] == ids;
  }

  /** Every answer is a known city's, under its own name, with its own
      query's records, and there is at most one answer per id. */
  lemma {:induction false} QueriedEntries(table: map<int, City>, ids: seq<int>, fetched: nat -> Result<seq<HourlyRecord>>)
    ensures |Queried(table, ids, fetched)| <= |ids|
    ensures forall e :: e in Queried(table, ids, fetched) ==>
      e.cityId in table && e.cityName == table[e.cityId].name &&
      exists k :: 0 <= k < |ids| && ids[k] == e.cityId && fetched(k) == Success(e.records)
  {
    if |ids| > 0 {
      var k := |ids| - 1;
      QueriedEntries(table, ids[..k], fetched);
      forall e | e in Queried(table, ids, fetched)
        ensures exists j :: 0 <= j < |ids| && ids[j] == e.cityId && fetched(j) == Success(e.records)
      {
        if e in Queried(table, ids[..k], fetched) {
          var j :| 0 <= j < k && ids[..k][j] == e.cityId && fetched(j) == Success(e.records);
          assert ids[j] == e.cityId;
        }
      }
    }
  }

  /** When every city exists and every query succeeds, there is one answer
      per id, in the ids' order. */
  lemma {:induction false} QueriedAll(table: map<int, City>, ids: seq<int>, fetched: nat -> Result<seq<HourlyRecord>>)
    requires forall k :: 0 <= k < |ids| ==> ids[k] in table && fetched(k).Success?
    ensures |Queried(table, ids, fetched)| == |ids|
    ensures forall k :: 0 <= k < |ids| ==> Queried(table, ids, fetched)[k].cityId == ids[k]
  {
    if |ids| > 0 {
      QueriedAll(table, ids[..|ids| - 1], fetched);
    }
  }

  // ----- place search -----

  /** A place the geocoding search found; a missing or null part is "". */
  datatype Place = Place(name: string, country: string, admin1: string, admin2: string, admin3: string)

  /** A search hit: the place's name, its region label and its parts. */
  datatype PlaceHit = PlaceHit(name: string, region: string, country: string, admin1: string, admin2: string, admin3: string)

  /** The non-empty parts, in order. */
  function NonEmpty(parts: seq<string>): (r: seq<string>)
    ensures forall s :: s in r <==> s in parts && s != ""
    ensures |r| <= |parts|
  {
    if |parts| == 0 then []
    else (if parts[0] != "" then [parts[0]] else []) + NonEmpty(parts[1..])
  }

  /** With no empty part, nothing is dropped. */
  lemma {:induction false} NonEmptyKeepsAll(parts: seq<string>)
    requires forall k :: 0 <= k < |parts| ==> parts[k] != ""
    ensures NonEmpty(parts) == parts
  {
    if |parts| > 0 {
      NonEmptyKeepsAll(parts[1..]);
    }
  }

  /** The region label: the country and the three administrative levels that
      are not empty, joined by " > ". */
  function RegionLabel(p: Place): string
  {
    Join(NonEmpty([p.country, p.admin1, p.admin2, p.admin3]), " > ")
  }

  /** The label is empty exactly when every part is, and with every part
      present it lists all four, country first. */
  lemma RegionLabelParts(p: Place)
    ensures RegionLabel(p) == "" <==> p.country == "" && p.admin1 == "" && p.admin2 == "" && p.admin3 == ""
    ensures p.country != "" && p.admin1 != "" && p.admin2 != "" && p.admin3 != "" ==>
      RegionLabel(p) == p.country + " > " + p.admin1 + " > " + p.admin2 + " > " + p.admin3
  {
    RegionLabelEmpty(p);
    if p.country != "" && p.admin1 != "" && p.admin2 != "" && p.admin3 != "" {
      RegionLabelFull(p);
    }
  }

  lemma RegionLabelEmpty(p: Place)
    ensures RegionLabel(p) == "" <==> p.country == "" && p.admin1 == "" && p.admin2 == "" && p.admin3 == ""
  {
    var all := [p.country, p.admin1, p.admin2, p.admin3];
    var parts := NonEmpty(all);
    assert RegionLabel(p) == Join(parts, " > ");
    if |parts| > 0 {
      assert parts[0] in parts;
      assert parts[0] in all && parts[0] != "";
      JoinLength(parts, " > ");
      SumLengthsPositive(parts);
      assert (|parts| - 1) * |" > "| >= 0;
      assert |RegionLabel(p)| > 0;
    } else {
      assert forall k :: 0 <= k < 4 ==> all[k] in all && all[k] !in parts;
      assert p.country == all[0] == "" && p.admin1 == all[1] == "";
      assert p.admin2 == all[2] == "" && p.admin3 == all[3] == "";
    }
  }

  lemma RegionLabelFull(p: Place)
    requires p.country != "" && p.admin1 != "" && p.admin2 != "" && p.admin3 != ""
    ensures RegionLabel(p) == p.country + " > " + p.admin1 + " > " + p.admin2 + " > " + p.admin3
  {
    var all := [p.country, p.admin1, p.admin2, p.admin3];
    NonEmptyKeepsAll(all);
    assert RegionLabel(p) == Join(all, " > ");
    assert Join(all[3..], " > ") == p.admin3;
    assert Join(all[2..], " > ") == p.admin2 + " > " + p.admin3;
    assert Join(all[1..], " > ") == p.admin1 + " > " + (p.admin2 + " > " + p.admin3);
  }

  lemma SumLengthsPositive(parts: seq<string>)
    requires |parts| > 0 && parts[0] != ""
    ensures SumLengths(parts) > 0
  {
  }

  /** `search_city`: one hit per place found, in order; a failed search (the
      error raised) gives no hits. */
  method SearchCity(found: Result<seq<Place>>) returns (hits: seq<PlaceHit>)
    ensures found.Failure? ==> hits == []
    ensures found.Success? ==> |hits| == |found.value|
    ensures found.Success? ==> forall i :: 0 <= i < |hits| ==> hits[i] == HitOf(found.value[i])
  {
    if found.Failure? {
      return [];
    }
    var places := found.value;
    hits := [];
    for i := 0 to |places|
      invariant |hits| == i
      invariant forall k :: 0 <= k < i ==> hits[k] == HitOf(places[k])
    {
      hits := hits + [HitOf(places[i])];
    }
  }

  function HitOf(p: Place): PlaceHit
  {
    PlaceHit(p.name, RegionLabel(p), p.country, p.admin1, p.admin2, p.admin3)
  }
}
