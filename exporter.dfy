/** The data exporter: which columns an export has and in what order, the
    text of a weather code, the column widths of the sheets, the summary
    statistics and the daily sheet's choice between a sum and a mean.
    Parsing a timestamp into a date and an `HH:MM` time is pandas' and is a
    parameter; writing the Excel or CSV bytes is not modelled. */
module Exporter {
  import opened Wrappers
  import opened Text
  import opened Records

  // ----- columns -----

  /** The helper columns, exported first when present. */
  const HelperColumns: seq<string> := ["city", "date", "time"]

  /** The weather columns an export may have, in the order it has them. */
  const CoreOrder: seq<string> := [
    "temperature_2m", "relative_humidity_2m", "dew_point_2m",
    "precipitation", "rain", "snowfall", "surface_pressure", "cloud_cover",
    "wind_speed_10m", "wind_direction_10m", "wind_gusts_10m",
    "wind_speed_100m", "wind_direction_100m",
    "shortwave_radiation", "direct_radiation", "diffuse_radiation", "direct_normal_irradiance",
    "evapotranspiration", "soil_temperature_0_to_7cm", "soil_moisture_0_to_7cm",
    "weather_code"]

  /** A city name counts only when it is given and not empty. */
  predicate Named(cityName: Option<string>)
  {
    cityName.Some? && cityName.value != ""
  }

  /** Every field name some record has. */
  function RecordKeys(records: seq<HourlyRecord>): (keys: set<string>)
    ensures forall k :: k in keys <==> exists i :: 0 <= i < |records| && k in records[i].values
  {
    if |records| == 0 then {}
    else
      var rest := RecordKeys(records[1..]);
      assert forall i :: 1 <= i < |records| ==> records[i] == records[1..][i - 1];
      records[0].values.Keys + rest
  }

  /** The columns of the table before the selection: the records' fields and
      their timestamp, the date and time split from it, and the city when
      one is named. */
  function FrameColumns(records: seq<HourlyRecord>, cityName: Option<string>): set<string>
  {
    RecordKeys(records) + {"datetime", "date", "time"} + (if Named(cityName) then {"city"} else {})
  }

  /** A column is kept when the table has it and the requested fields allow it
      (no list of fields allows all). */
  predicate Allowed(c: string, present: set<string>, fields: Option<seq<string>>)
  {
    c in present && (fields.None? || c in fields.value)
  }

  /** The columns of `cols` that are allowed, in the order of `cols`. */
  function KeepAllowed(cols: seq<string>, present: set<string>, fields: Option<seq<string>>): seq<string>
  {
    if |cols| == 0 then []
    else
      var last := cols[|cols| - 1];
      KeepAllowed(cols[..|cols| - 1], present, fields) + (if Allowed(last, present, fields) then [last] else [])
  }

  /** The exported columns: the helper columns the table has, then the weather
      columns it has that the fields allow, in the fixed order. */
  function ExportColumns(present: set<string>, fields: Option<seq<string>>): seq<string>
  {
    KeepAllowed(HelperColumns, present, None) + KeepAllowed(CoreOrder, present, fields)
  }

  /** The selection of `_format_data`: the helper columns the table has,
      then one pass over the weather columns. */
  method SelectColumns(present: set<string>, fields: Option<seq<string>>) returns (cols: seq<string>)
    ensures cols == ExportColumns(present, fields)
  {
    var helpers := KeepAllowed(HelperColumns, present, None);
    cols := AppendAllowed(helpers, CoreOrder, present, fields);
  }

  /** The pass: each of `cols` in turn is appended when it is allowed. */
  method AppendAllowed(start: seq<string>, cols: seq<string>, present: set<string>, fields: Option<seq<string>>)
    returns (out: seq<string>)
    ensures out == start + KeepAllowed(cols, present, fields)
  {
    out := start;
    for i := 0 to |cols|
      invariant out == start + KeepAllowed(cols[..i], present, fields)
    {
      assert cols[..i + 1][..i] == cols[..i];
      if cols[i] in present {
        if fields.None? || cols[i] in fields.value {
          out := out + [cols[i]];
        }
      }
    }
    assert cols[..|cols|] == cols;
  }

  /** A column is kept exactly when it is one of `cols` and allowed. */
  lemma {:induction false} KeepAllowedMembers(cols: seq<string>, present: set<string>, fields: Option<seq<string>>, c: string)
    ensures c in KeepAllowed(cols, present, fields) <==> c in cols && Allowed(c, present, fields)
  {
    if |cols| > 0 {
      var init := cols[..|cols| - 1];
      KeepAllowedMembers(init, present, fields, c);
      assert cols == init + [cols[|cols| - 1]];
    }
  }

  /** The kept columns keep the order of `cols`: each sits at an increasing
      position of `cols`. */
  lemma {:induction false} KeepAllowedOrder(cols: seq<string>, present: set<string>, fields: Option<seq<string>>)
    returns (at: seq<int>)
    ensures |at| == |KeepAllowed(cols, present, fields)|
    ensures forall i :: 0 <= i < |at| ==> 0 <= at[i] < |cols| && cols[at[i]] == KeepAllowed(cols, present, fields)[i]
    ensures forall i, j :: 0 <= i < j < |at| ==> at[i] < at[j]
  {
    if |cols| == 0 {
      at := [];
    } else {
      var n := |cols| - 1;
      at := KeepAllowedOrder(cols[..n], present, fields);
      if Allowed(cols[n], present, fields) {
        at := at + [n];
      }
    }
  }

  /** An exported column is a helper column the table has, or a weather column
      the table has that the fields allow; nothing else is exported. */
  lemma ExportColumnsMembers(present: set<string>, fields: Option<seq<string>>, c: string)
    ensures c in ExportColumns(present, fields) <==>
      (c in HelperColumns && c in present) ||
      (c in CoreOrder && c in present && (fields.None? || c in fields.value))
  {
    KeepAllowedMembers(HelperColumns, present, None, c);
    KeepAllowedMembers(CoreOrder, present, fields, c);
  }

  /** The raw timestamp is never exported, whatever the fields ask for. */
  lemma DatetimeNeverExported(present: set<string>, fields: Option<seq<string>>)
    ensures "datetime" !in ExportColumns(present, fields)
  {
    ExportColumnsMembers(present, fields, "datetime");
  }

  /** When no record has a `city` field, the export has a city column exactly
      when a city name is given; the date and time columns are always there. */
  lemma CityColumnIff(records: seq<HourlyRecord>, cityName: Option<string>, fields: Option<seq<string>>)
    requires forall i :: 0 <= i < |records| ==> "city" !in records[i].values
    ensures "city" in ExportColumns(FrameColumns(records, cityName), fields) <==> Named(cityName)
    ensures "date" in ExportColumns(FrameColumns(records, cityName), fields)
    ensures "time" in ExportColumns(FrameColumns(records, cityName), fields)
  {
    var present := FrameColumns(records, cityName);
    ExportColumnsMembers(present, fields, "city");
    ExportColumnsMembers(present, fields, "date");
    ExportColumnsMembers(present, fields, "time");
  }

  // ----- headers -----

  /** A column's sheet header; a column without one keeps its own name. */
  function Header(c: string): string
  {
    match c
    case "city" => "城市"
    case "date" => "日期"
    case "time" => "时间"
    case "datetime" => "日期时间"
    case "temperature_2m" => "温度(°C)"
    case "relative_humidity_2m" => "相对湿度(%)"
    case "dew_point_2m" => "露点温度(°C)"
    case "precipitation" => "降水量(mm)"
    case "rain" => "降雨量(mm)"
    case "snowfall" => "降雪量(cm)"
    case "surface_pressure" => "地面气压(hPa)"
    case "cloud_cover" => "云量(%)"
    case "wind_speed_10m" => "10米风速(km/h)"
    case "wind_direction_10m" => "10米风向(°)"
    case "wind_gusts_10m" => "10米阵风(km/h)"
    case "wind_speed_100m" => "100米风速(km/h)"
    case "wind_direction_100m" => "100米风向(°)"
    case "shortwave_radiation" => "短波辐射(W/m²)"
    case "direct_radiation" => "直接辐射(W/m²)"
    case "diffuse_radiation" => "散射辐射(W/m²)"
    case "direct_normal_irradiance" => "直接法向辐照度(W/m²)"
    case "evapotranspiration" => "蒸发蒸腾量(mm)"
    case "soil_temperature_0_to_7cm" => "土壤温度(°C)"
    case "soil_moisture_0_to_7cm" => "土壤湿度(m³/m³)"
    case "weather_code" => "天气代码"
    case _ => c
  }

  function Headers(cols: seq<string>): (hs: seq<string>)
  {
    seq(|cols|, j requires 0 <= j < |cols| => Header(cols[j]))
  }

  // ----- weather codes -----

  /** The WMO weather codes the exporter has a label for. */
  const KnownCodes: set<int> := {0, 1, 2, 3, 45, 48, 51, 53, 55, 61, 63, 65, 71, 73, 75, 80, 81, 82, 95}

  const UnknownLabel: string := "未知"

  /** A weather code's label, "未知" for a code without one. */
  function WeatherLabel(code: int): string
  {
    match code
    case 0 => "晴朗"
    case 1 => "晴到多云"
    case 2 => "多云"
    case 3 => "阴天"
    case 45 => "雾"
    case 48 => "沉积雾"
    case 51 => "小毛毛雨"
    case 53 => "毛毛雨"
    case 55 => "大毛毛雨"
    case 61 => "小雨"
    case 63 => "中雨"
    case 65 => "大雨"
    case 71 => "小雪"
    case 73 => "中雪"
    case 75 => "大雪"
    case 80 => "阵雨"
    case 81 => "中阵雨"
    case 82 => "大阵雨"
    case 95 => "雷阵雨"
    case _ => UnknownLabel
  }

  /** Python's `int()` of a float: the fraction is cut off toward zero. */
  function Truncate(x: real): (n: int)
    ensures 0.0 <= x ==> n as real <= x < n as real + 1.0
    ensures x < 0.0 ==> n as real - 1.0 < x <= n as real
  {
    if x >= 0.0 then x.Floor else -((-x).Floor)
  }

  /** A weather code's text: the truncated code, then its label in parentheses. */
  function CodeText(x: real): string
  {
    IntToDecimal(Truncate(x)) + " (" + WeatherLabel(Truncate(x)) + ")"
  }

  /** A cell of the exported table. */
  datatype Cell = Null | Num(x: real) | Text(s: string)

  /** The weather-code column's cell: the code's text, a null staying null. */
  function CodeCell(v: Option<real>): (c: Cell)
    ensures v.None? <==> c == Null
  {
    match v
    case None => Null
    case Some(x) => Text(CodeText(x))
  }

  /** A code's text starts with the code's digits, which read back as the
      code, and ends with its label in parentheses, "未知" when the code is
      not one of the known ones. */
  lemma CodeTextReadsBack(x: real)
    requires 0.0 <= x
    ensures var n := Truncate(x);
      n >= 0 &&
      CodeText(x) == NatToDecimal(n) + " (" + WeatherLabel(n) + ")" &&
      DecimalValue(NatToDecimal(n)) == n &&
      (n !in KnownCodes ==> WeatherLabel(n) == UnknownLabel)
  {
    DecimalRoundTrip(Truncate(x));
  }

  /** Exactly the 19 known codes have a label of their own, and `3.7` reads
      as code 3, overcast. */
  lemma WeatherLabelsKnown(n: int)
    ensures WeatherLabel(n) == UnknownLabel <==> n !in KnownCodes
    ensures Truncate(3.7) == 3 && WeatherLabel(Truncate(3.7)) == "阴天"
    ensures Truncate(-0.5) == 0
  {
  }

  // ----- the formatted table -----

  /** The date and the `HH:MM` time pandas reads from a timestamp. */
  datatype Stamp = Stamp(date: string, time: string)

  /** The table `_format_data` returns: headers and one row of cells per record. */
  datatype Frame = Frame(headers: seq<string>, rows: seq<seq<Cell>>)

  /** A record's value as a cell. */
  function ValueCell(v: Option<real>): Cell
  {
    match v
    case None => Null
    case Some(x) => Num(x)
  }

  /** The cell of column `c` for a record: the city name, the date or time of
      its timestamp, the weather code's text, or the record's value (null when
      the record lacks the field). */
  function CellFor(r: HourlyRecord, c: string, cityName: Option<string>, stamp: Stamp): Cell
  {
    if c == "city" && Named(cityName) then Text(cityName.value)
    else if c == "date" then Text(stamp.date)
    else if c == "time" then Text(stamp.time)
    else if c == "weather_code" then CodeCell(ValueOf(r, c))
    else ValueCell(ValueOf(r, c))
  }

  function RowOf(r: HourlyRecord, cols: seq<string>, cityName: Option<string>, stamp: Stamp): (row: seq<Cell>)
  {
    seq(|cols|, j requires 0 <= j < |cols| => CellFor(r, cols[j], cityName, stamp))
  }

  /** Some record's timestamp cannot be read, so `pd.to_datetime` raises. */
  predicate Unreadable(records: seq<HourlyRecord>, parse: string -> Option<Stamp>)
  {
    exists i :: 0 <= i < |records| && parse(records[i].datetime).None?
  }

  /** `_format_data`: no records give an empty table; otherwise one row per
      record over the exported columns, under their headers. */
  function FormatData(records: seq<HourlyRecord>, fields: Option<seq<string>>, cityName: Option<string>,
                      parse: string -> Option<Stamp>): (r: Result<Frame>)
    ensures |records| == 0 ==> r == Success(Frame([], []))
    ensures r.Failure? <==> Unreadable(records, parse)
    ensures r.Success? && |records| > 0 ==>
      var cols := ExportColumns(FrameColumns(records, cityName), fields);
      r.value.headers == Headers(cols) && |r.value.rows| == |records| &&
      forall i :: 0 <= i < |records| ==> parse(records[i].datetime).Some? && |r.value.rows[i]| == |cols|
  {
    if |records| == 0 then Success(Frame([], []))
    else if Unreadable(records, parse) then Failure("ValueError")
    else
      var cols := ExportColumns(FrameColumns(records, cityName), fields);
      Success(Frame(Headers(cols), seq(|records|, i requires 0 <= i < |records| =>
        match parse(records[i].datetime)
        case Some(stamp) => RowOf(records[i], cols, cityName, stamp)
        case None => [])))
  }

  /** In an exported weather column other than the weather code, a record's
      cell is its value, null when it has none; the weather code's cell is
      its text, null staying null. */
  lemma FormatDataValues(records: seq<HourlyRecord>, fields: Option<seq<string>>, cityName: Option<string>,
                         parse: string -> Option<Stamp>, i: int, j: int)
    requires FormatData(records, fields, cityName, parse).Success?
    requires 0 <= i < |records|
    requires 0 <= j < |ExportColumns(FrameColumns(records, cityName), fields)|
    ensures var c := ExportColumns(FrameColumns(records, cityName), fields)[j];
      var cell := FormatData(records, fields, cityName, parse).value.rows[i][j];
      c in HelperColumns ||
      (c in CoreOrder &&
       (c != "weather_code" ==> (cell == Null <==> ValueOf(records[i], c).None?) &&
                                (ValueOf(records[i], c).Some? ==> cell == Num(ValueOf(records[i], c).value))) &&
       (c == "weather_code" ==> cell == CodeCell(ValueOf(records[i], c))))
  {
    var cols := ExportColumns(FrameColumns(records, cityName), fields);
    var c := cols[j];
    ExportColumnsMembers(FrameColumns(records, cityName), fields, c);
    assert c in cols;
    FormatDataCell(records, fields, cityName, parse, i, j);
    if c in CoreOrder {
      CoreNotHelper(c);
    }
  }

  /** The cell at row `i` and column `j` is that column's cell for record `i`. */
  lemma FormatDataCell(records: seq<HourlyRecord>, fields: Option<seq<string>>, cityName: Option<string>,
                       parse: string -> Option<Stamp>, i: int, j: int)
    requires FormatData(records, fields, cityName, parse).Success?
    requires 0 <= i < |records|
    requires 0 <= j < |ExportColumns(FrameColumns(records, cityName), fields)|
    ensures parse(records[i].datetime).Some?
    ensures FormatData(records, fields, cityName, parse).value.rows[i][j] ==
      CellFor(records[i], ExportColumns(FrameColumns(records, cityName), fields)[j], cityName, parse(records[i].datetime).value)
  {
  }

  /** No weather column is a helper column. */
  lemma CoreNotHelper(c: string)
    requires c in CoreOrder
    ensures c != "city" && c != "date" && c != "time"
  {
  }

  // ----- column widths -----

  /** The data sheet's widest column. */
  const DataWidthCap: int := 50
  /** The summary sheet's widest column. */
  const SummaryWidthCap: int := 30
  /** Every column of the daily sheet. */
  const DailyWidth: int := 15

  /** The length of the longest text, 0 when there is none. */
  function Longest(texts: seq<string>): nat
  {
    if |texts| == 0 then 0
    else
      var n := |texts| - 1;
      if |texts[n]| > Longest(texts[..n]) then |texts[n]| else Longest(texts[..n])
  }

  /** No text is longer than `Longest`, and some text has that length unless it is 0. */
  lemma {:induction false} LongestBounds(texts: seq<string>)
    ensures forall i :: 0 <= i < |texts| ==> |texts[i]| <= Longest(texts)
    ensures Longest(texts) == 0 || exists i :: 0 <= i < |texts| && Longest(texts) == |texts[i]|
  {
    if |texts| > 0 {
      var n := |texts| - 1;
      LongestBounds(texts[..n]);
      assert forall i :: 0 <= i < n ==> texts[..n][i] == texts[i];
      if Longest(texts[..n]) > 0 && Longest(texts) == Longest(texts[..n]) {
        var i :| 0 <= i < n && Longest(texts[..n]) == |texts[..n][i]|;
        assert Longest(texts) == |texts[i]|;
      }
    }
  }

  /** A column's width: two more than its longest text, at most `cap`. */
  method ColumnWidth(texts: seq<string>, cap: int) returns (width: int)
    ensures width == if Longest(texts) + 2 < cap then Longest(texts) + 2 else cap
    ensures width <= cap
    ensures forall i :: 0 <= i < |texts| ==> |texts[i]| + 2 <= width || width == cap
    ensures width == cap || width == 2 || exists i :: 0 <= i < |texts| && width == |texts[i]| + 2
  {
    var longest := 0;
    var k := 0;
    while k < |texts|
      invariant 0 <= k <= |texts|
      invariant longest == Longest(texts[..k])
    {
      assert texts[..k + 1][..k] == texts[..k];
      if |texts[k]| > longest {
        longest := |texts[k]|;
      }
      k := k + 1;
    }
    assert texts[..|texts|] == texts;
    LongestBounds(texts);
    width := if longest + 2 < cap then longest + 2 else cap;
  }

  // ----- the summary sheet -----

  /** One row of the summary sheet: a column's mean, maximum, minimum and
      sum over its non-null values, all null when it has none. */
  datatype SummaryRow = SummaryRow(item: string, mean: Option<real>, max: Option<real>, min: Option<real>, total: Option<real>)

  /** The non-null values of a column, in order. */
  function NonNull(column: seq<Option<real>>): (xs: seq<real>)
    ensures |xs| <= |column|
    ensures |xs| == 0 <==> forall i :: 0 <= i < |column| ==> column[i].None?
  {
    if |column| == 0 then []
    else
      assert forall i :: 1 <= i < |column| ==> column[i] == column[1..][i - 1];
      (if column[0].Some? then [column[0].value] else []) + NonNull(column[1..])
  }

  function Summarize(header: string, column: seq<Option<real>>): SummaryRow
  {
    var xs := NonNull(column);
    if |xs| == 0 then SummaryRow(header, None, None, None, None)
    else SummaryRow(header, Some(Mean(xs)), Some(MaxOf(xs)), Some(MinOf(xs)), Some(Sum(xs)))
  }

  /** The summary of a column with values has its mean between its minimum
      and its maximum; a column of nulls has only nulls. */
  lemma SummaryOrdered(header: string, column: seq<Option<real>>)
    ensures var s := Summarize(header, column);
      s.item == header &&
      (s.mean.None? <==> forall i :: 0 <= i < |column| ==> column[i].None?) &&
      (s.mean.Some? ==> s.min.Some? && s.max.Some? && s.min.value <= s.mean.value <= s.max.value)
  {
    var xs := NonNull(column);
    if |xs| > 0 {
      MeanAtLeastMin(xs);
      MeanAtMostMax(xs);
    }
  }

  /** The sheets of an Excel export: the data, then the summary and the daily
      sheet when a summary is asked for and there are rows (the daily sheet
      needs the date column). */
  function SheetNames(frame: Frame, includeSummary: bool): seq<string>
  {
    ["天气数据"] +
      (if includeSummary && |frame.rows| > 0 then
        ["数据汇总"] + (if "日期" in frame.headers then ["每日汇总"] else [])
      else [])
  }

  /** A non-empty export asked for a summary has all three sheets. */
  lemma SheetsOfExport(records: seq<HourlyRecord>, fields: Option<seq<string>>, cityName: Option<string>,
                       parse: string -> Option<Stamp>)
    requires |records| > 0 && FormatData(records, fields, cityName, parse).Success?
    ensures SheetNames(FormatData(records, fields, cityName, parse).value, true) == ["天气数据", "数据汇总", "每日汇总"]
    ensures SheetNames(FormatData(records, fields, cityName, parse).value, false) == ["天气数据"]
  {
    var frame := FormatData(records, fields, cityName, parse).value;
    DateColumnExported(records, fields, cityName, parse);
    SheetsOfFrame(frame);
  }

  /** A non-empty export has rows and a date column. */
  lemma DateColumnExported(records: seq<HourlyRecord>, fields: Option<seq<string>>, cityName: Option<string>,
                           parse: string -> Option<Stamp>)
    requires |records| > 0 && FormatData(records, fields, cityName, parse).Success?
    ensures |FormatData(records, fields, cityName, parse).value.rows| > 0
    ensures "日期" in FormatData(records, fields, cityName, parse).value.headers
  {
    var present := FrameColumns(records, cityName);
    var cols := ExportColumns(present, fields);
    ExportColumnsMembers(present, fields, "date");
    var j :| 0 <= j < |cols| && cols[j] == "date";
    DateHeader();
    var frame := FormatData(records, fields, cityName, parse).value;
    assert frame.headers == Headers(cols);
    assert frame.headers[j] == "日期";
  }

  /** A frame with rows and a date column gets the daily sheet when a summary
      is asked for, and only the data sheet otherwise. */
  lemma SheetsOfFrame(frame: Frame)
    requires |frame.rows| > 0 && "日期" in frame.headers
    ensures SheetNames(frame, true) == ["天气数据", "数据汇总", "每日汇总"]
    ensures SheetNames(frame, false) == ["天气数据"]
  {
  }

  /** The date column's header. */
  lemma DateHeader()
    ensures Header("date") == "日期"
  {
  }

  // ----- the daily sheet -----

  /** The headers whose daily value is a sum; every other numeric column's is a mean. */
  predicate SumHeader(header: string)
  {
    match header
    case "降水量(mm)" => true
    case "降雨量(mm)" => true
    case "蒸发蒸腾量(mm)" => true
    case "短波辐射(W/m²)" => true
    case "直接辐射(W/m²)" => true
    case "散射辐射(W/m²)" => true
    case "直接法向辐照度(W/m²)" => true
    case _ => false
  }

  /** The daily sheet sums precipitation, rain, evapotranspiration and the
      four radiation columns ... */
  lemma SummedColumns()
    ensures SumHeader(Header("precipitation")) && SumHeader(Header("rain"))
    ensures SumHeader(Header("evapotranspiration"))
    ensures SumHeader(Header("shortwave_radiation")) && SumHeader(Header("direct_radiation"))
    ensures SumHeader(Header("diffuse_radiation")) && SumHeader(Header("direct_normal_irradiance"))
  {
  }

  /** ... and averages the other numeric weather columns (the weather code is
      text by then, so neither sheet of statistics has it). */
  lemma AveragedColumns()
    ensures !SumHeader(Header("temperature_2m")) && !SumHeader(Header("relative_humidity_2m"))
    ensures !SumHeader(Header("dew_point_2m")) && !SumHeader(Header("snowfall"))
    ensures !SumHeader(Header("surface_pressure")) && !SumHeader(Header("cloud_cover"))
    ensures !SumHeader(Header("soil_temperature_0_to_7cm")) && !SumHeader(Header("soil_moisture_0_to_7cm"))
  {
  }

  /** The wind columns are averaged too. */
  lemma AveragedWindColumns()
    ensures !SumHeader(Header("wind_speed_10m")) && !SumHeader(Header("wind_direction_10m"))
    ensures !SumHeader(Header("wind_gusts_10m")) && !SumHeader(Header("wind_speed_100m"))
    ensures !SumHeader(Header("wind_direction_100m"))
  {
  }

  /** A daily group: the date, and the city when the table has a city column. */
  datatype GroupKey = GroupKey(date: string, city: Option<string>)

  /** The values of one column in the rows of one group, in row order. */
  function GroupValues(keys: seq<GroupKey>, column: seq<Option<real>>, g: GroupKey): (vs: seq<Option<real>>)
    requires |keys| == |column|
    ensures |vs| <= |column|
  {
    if |keys| == 0 then []
    else
      var n := |keys| - 1;
      GroupValues(keys[..n], column[..n], g) + (if keys[n] == g then [column[n]] else [])
  }

  /** A group's values are the column's values on the rows of that group. */
  lemma {:induction false} GroupValuesMembers(keys: seq<GroupKey>, column: seq<Option<real>>, g: GroupKey, v: Option<real>)
    requires |keys| == |column|
    ensures v in GroupValues(keys, column, g) <==> exists i :: 0 <= i < |keys| && keys[i] == g && column[i] == v
  {
    if |keys| > 0 {
      var n := |keys| - 1;
      GroupValuesMembers(keys[..n], column[..n], g, v);
      if exists i :: 0 <= i < |keys| && keys[i] == g && column[i] == v {
        var i :| 0 <= i < |keys| && keys[i] == g && column[i] == v;
        if i < n {
          assert keys[..n][i] == g && column[..n][i] == v;
        }
      }
    }
  }

  /** A column's daily value for one group: the sum of its non-null values for
      the summed columns (0 when all are null), their mean for the others
      (null when all are null). */
  function DailyValue(header: string, values: seq<Option<real>>): Option<real>
  {
    var xs := NonNull(values);
    if SumHeader(header) then Some(Sum(xs))
    else if |xs| == 0 then None
    else Some(Mean(xs))
  }

  /** A mean lies between the group's smallest and largest value, and a sum of
      amounts that are never negative is at least each of them. */
  lemma DailyValueBounds(header: string, values: seq<Option<real>>)
    ensures SumHeader(header) ==> DailyValue(header, values).Some?
    ensures !SumHeader(header) && |NonNull(values)| > 0 ==>
      MinOf(NonNull(values)) <= DailyValue(header, values).value <= MaxOf(NonNull(values))
    ensures SumHeader(header) && (forall i :: 0 <= i < |NonNull(values)| ==> NonNull(values)[i] >= 0.0) ==>
      forall i :: 0 <= i < |NonNull(values)| ==> NonNull(values)[i] <= DailyValue(header, values).value
  {
    var xs := NonNull(values);
    if !SumHeader(header) && |xs| > 0 {
      MeanAtLeastMin(xs);
      MeanAtMostMax(xs);
    }
    if SumHeader(header) && (forall i :: 0 <= i < |xs| ==> xs[i] >= 0.0) {
      forall i | 0 <= i < |xs| ensures xs[i] <= Sum(xs) {
        SumHasPart(xs, i);
      }
    }
  }

  lemma {:induction false} SumHasPart(xs: seq<real>, i: int)
    requires 0 <= i < |xs|
    requires forall k :: 0 <= k < |xs| ==> xs[k] >= 0.0
    ensures xs[i] <= Sum(xs)
  {
    assert forall k :: 0 <= k < |xs[1..]| ==> xs[1..][k] == xs[k + 1];
    if i > 0 {
      SumHasPart(xs[1..], i - 1);
      SumAtLeast(xs[1..], 0.0);
    } else {
      SumAtLeast(xs[1..], 0.0);
    }
  }
}
