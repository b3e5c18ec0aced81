/** The backend summariser: per-field statistics over a list of hourly
    records, and the per-city comparison built from them. */
module DataAnalyzer {
  import opened Wrappers
  import opened Records
  import App

  /** Average, maximum and minimum of one field. */
  datatype Spread = Spread(avg: real, max: real, min: real)
  datatype PrecipitationSummary = PrecipitationSummary(total: real, avg: real, max: real, rainyHours: nat)
  datatype RadiationSummary = RadiationSummary(total: real, totalKwh: real, avg: real, max: real)

  /** The summary dictionary; a group that is None is a key the dictionary
      does not have, so `{}` is every group None. */
  datatype Summary = Summary(
    temperature: Option<Spread>,
    precipitation: Option<PrecipitationSummary>,
    windSpeed: Option<Spread>,
    solarRadiation: Option<RadiationSummary>,
    humidity: Option<Spread>,
    pressure: Option<Spread>)

  const EmptySummary := Summary(None, None, None, None, None, None)

  /** The table built from the records has a column `key` when some record has that key. */
  predicate HasColumn(records: seq<HourlyRecord>, key: string) {
    exists i :: 0 <= i < |records| && key in records[i].values
  }

  /** The non-null values of column `key`, or None when the column is missing
      or holds only nulls (the group is then left out). */
  function ColumnData(records: seq<HourlyRecord>, key: string): Option<seq<real>>
  {
    if HasColumn(records, key) && |Present(records, key)| > 0 then Some(Present(records, key)) else None
  }

  function SpreadOf(column: Option<seq<real>>): Option<Spread>
  {
    match column
    case None => None
    case Some(xs) => if |xs| > 0 then Some(Spread(Mean(xs), MaxOf(xs), MinOf(xs))) else None
  }

  /** Statistics of the records; the 2-decimal rounding and the temperature
      standard deviation are not part of the model. */
  function CalculateSummary(records: seq<HourlyRecord>): (s: Summary)
    ensures |records| == 0 ==> s == EmptySummary
  {
    if |records| == 0 then EmptySummary
    else
      var precip := ColumnData(records, "precipitation");
      var radiation := ColumnData(records, "shortwave_radiation");
      Summary(
        SpreadOf(ColumnData(records, "temperature_2m")),
        match precip
        case Some(xs) =>
          if |xs| > 0 then Some(PrecipitationSummary(Sum(xs), Mean(xs), MaxOf(xs), CountPositive(xs))) else None
        case None => None,
        SpreadOf(ColumnData(records, "wind_speed_10m")),
        match radiation
        case Some(xs) =>
          if |xs| > 0 then Some(RadiationSummary(Sum(xs), Sum(xs) / 1000.0, Mean(xs), MaxOf(xs))) else None
        case None => None,
        SpreadOf(ColumnData(records, "relative_humidity_2m")),
        SpreadOf(ColumnData(records, "surface_pressure")))
  }

  /** A value that is not null puts its key among the table's columns. */
  lemma {:induction false} PresentHasColumn(records: seq<HourlyRecord>, key: string)
    requires |Present(records, key)| > 0
    ensures HasColumn(records, key)
  {
    PresentEmptyIff(records, key);
    var i :| 0 <= i < |records| && ValueOf(records[i], key) != None;
    assert key in records[i].values;
  }

  /** A group is reported exactly when its column has at least one non-null value. */
  lemma GroupPresentIff(records: seq<HourlyRecord>, key: string)
    ensures ColumnData(records, key).Some? <==> |Present(records, key)| > 0
    ensures ColumnData(records, key).Some? ==> ColumnData(records, key).value == Present(records, key)
  {
    if |Present(records, key)| > 0 { PresentHasColumn(records, key); }
  }

  /** Every group's average lies between its minimum and its maximum. */
  lemma SpreadBounds(column: Option<seq<real>>)
    ensures SpreadOf(column).Some? ==>
      SpreadOf(column).value.min <= SpreadOf(column).value.avg <= SpreadOf(column).value.max
  {
    if column.Some? && |column.value| > 0 {
      MeanAtLeastMin(column.value);
      MeanAtMostMax(column.value);
    }
  }

  /** What the summary guarantees: each group exists iff its field has a
      value, min <= avg <= max, rainy hours count the strictly positive
      precipitation values and never exceed the hours with a value, and the
      kWh total is the Wh total over 1000. */
  lemma SummaryProperties(records: seq<HourlyRecord>)
    requires |records| > 0
    ensures var s := CalculateSummary(records);
      (s.temperature.Some? <==> |Present(records, "temperature_2m")| > 0) &&
      (s.precipitation.Some? <==> |Present(records, "precipitation")| > 0) &&
      (s.windSpeed.Some? <==> |Present(records, "wind_speed_10m")| > 0) &&
      (s.solarRadiation.Some? <==> |Present(records, "shortwave_radiation")| > 0) &&
      (s.humidity.Some? <==> |Present(records, "relative_humidity_2m")| > 0) &&
      (s.pressure.Some? <==> |Present(records, "surface_pressure")| > 0) &&
      (s.temperature.Some? ==> s.temperature.value.min <= s.temperature.value.avg <= s.temperature.value.max) &&
      (s.precipitation.Some? ==>
        s.precipitation.value.rainyHours == CountPositive(Present(records, "precipitation")) &&
        s.precipitation.value.rainyHours <= |Present(records, "precipitation")|) &&
      (s.solarRadiation.Some? ==> s.solarRadiation.value.totalKwh * 1000.0 == s.solarRadiation.value.total)
  {
    GroupPresentIff(records, "temperature_2m");
    GroupPresentIff(records, "precipitation");
    GroupPresentIff(records, "wind_speed_10m");
    GroupPresentIff(records, "shortwave_radiation");
    GroupPresentIff(records, "relative_humidity_2m");
    GroupPresentIff(records, "surface_pressure");
    SpreadBounds(ColumnData(records, "temperature_2m"));
  }

  /** The page's own summariser and this one agree on every statistic they
      both report: temperature average, maximum and minimum, precipitation
      total and rainy hours, radiation total and average, and wind average
      and maximum; and they report the same groups. */
  lemma ClientAgreesWithServer(records: seq<HourlyRecord>)
    requires |records| > 0
    ensures var c, s := App.CalculateSummary(Some(records)), CalculateSummary(records);
      (c.temperature.Some? <==> s.temperature.Some?) &&
      (c.temperature.Some? ==>
        c.temperature.value.avg == s.temperature.value.avg &&
        c.temperature.value.max == s.temperature.value.max &&
        c.temperature.value.min == s.temperature.value.min) &&
      (c.precipitation.Some? <==> s.precipitation.Some?) &&
      (c.precipitation.Some? ==>
        c.precipitation.value.total == s.precipitation.value.total &&
        c.precipitation.value.rainyHours == s.precipitation.value.rainyHours) &&
      (c.solarRadiation.Some? <==> s.solarRadiation.Some?) &&
      (c.solarRadiation.Some? ==>
        c.solarRadiation.value.total == s.solarRadiation.value.total &&
        c.solarRadiation.value.avg == s.solarRadiation.value.avg) &&
      (c.windSpeed.Some? <==> s.windSpeed.Some?) &&
      (c.windSpeed.Some? ==>
        c.windSpeed.value.avg == s.windSpeed.value.avg &&
        c.windSpeed.value.max == s.windSpeed.value.max)
  {
    GroupPresentIff(records, "temperature_2m");
    GroupPresentIff(records, "precipitation");
    GroupPresentIff(records, "wind_speed_10m");
    GroupPresentIff(records, "shortwave_radiation");
  }

  // ----- comparison of several cities -----

  /** One element of the comparison input: `city_name` and `data`, each None
      when the key is missing or null. */
  datatype CityData = CityData(cityName: Option<string>, data: Option<seq<HourlyRecord>>)

  /** Entries with an empty or missing name, or empty or missing data, are skipped. */
  predicate Qualifies(entry: CityData) {
    entry.cityName.Some? && |entry.cityName.value| > 0 && entry.data.Some? && |entry.data.value| > 0
  }

  /** The comparison after the entries of `list`, in order: each qualifying
      entry writes its city's summary, replacing an earlier one of the same name. */
  function Comparison(list: seq<CityData>): map<string, Summary>
  {
    if |list| == 0 then map[]
    else
      var before := Comparison(list[..|list| - 1]);
      var entry := list[|list| - 1];
      if Qualifies(entry) then before[entry.cityName.value := CalculateSummary(entry.data.value)] else before
  }

  /** The comparison dictionary, filled by a loop over the entries. */
  method CompareCities(list: seq<CityData>) returns (comparison: map<string, Summary>)
    ensures comparison == Comparison(list)
  {
    comparison := map[];
    var i := 0;
    while i < |list|
      invariant 0 <= i <= |list|
      invariant comparison == Comparison(list[..i])
    {
      var entry := list[i];
      assert list[..i + 1][..i] == list[..i];
      if Qualifies(entry) {
        comparison := comparison[entry.cityName.value := CalculateSummary(entry.data.value)];
      }
      i := i + 1;
    }
    assert list[..|list|] == list;
  }

  /** A name is a key of the comparison exactly when some qualifying entry carries it. */
  lemma {:induction false} ComparisonKeys(list: seq<CityData>, name: string)
    ensures name in Comparison(list) <==>
      exists i :: 0 <= i < |list| && Qualifies(list[i]) && list[i].cityName.value == name
  {
    if |list| > 0 {
      var init := list[..|list| - 1];
      ComparisonKeys(init, name);
      if name in Comparison(init) {
        var i :| 0 <= i < |init| && Qualifies(init[i]) && init[i].cityName.value == name;
        assert list[i] == init[i];
      }
      if exists i :: 0 <= i < |list| && Qualifies(list[i]) && list[i].cityName.value == name {
        var i :| 0 <= i < |list| && Qualifies(list[i]) && list[i].cityName.value == name;
        if i < |list| - 1 { assert init[i] == list[i]; }
      }
    }
  }

  /** For a name given more than once, the last qualifying entry wins. */
  lemma {:induction false} ComparisonLastWins(list: seq<CityData>, i: nat)
    requires i < |list| && Qualifies(list[i])
    requires forall j :: i < j < |list| && Qualifies(list[j]) ==> list[j].cityName != list[i].cityName
    ensures list[i].cityName.value in Comparison(list)
    ensures Comparison(list)[list[i].cityName.value] == CalculateSummary(list[i].data.value)
  {
    var init := list[..|list| - 1];
    if i < |list| - 1 {
      forall j | i < j < |init| && Qualifies(init[j]) ensures init[j].cityName != init[i].cityName {
        assert init[j] == list[j];
      }
      ComparisonLastWins(init, i);
      assert init[i] == list[i];
      var last := list[|list| - 1];
      assert Qualifies(last) ==> last.cityName != list[i].cityName;
    }
  }
}
