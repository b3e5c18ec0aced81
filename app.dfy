/** The query page: the selection state it keeps, the checks it makes before
    asking the backend for data, the down-sampling of records for the charts
    and the small summariser it uses for the comparison table. */
module App {
  import opened Wrappers
  import opened Records
  import opened CommonUtils

  /** The part of the page's global state that the query logic reads and writes. */
  class AppState {
    var selectedCities: seq<int>
    var selectedFields: seq<string>
    var multiCityMode: bool

    /** Comparison mode is on exactly when more than one city is ticked. */
    predicate Valid()
      reads this
    {
      multiCityMode == (|selectedCities| > 1)
    }

    constructor ()
      ensures Valid()
      ensures selectedCities == [] && selectedFields == [] && !multiCityMode
    {
      selectedCities := [];
      selectedFields := [];
      multiCityMode := false;
    }

    /** The ticked city boxes become the selection, in page order. */
    method UpdateSelectedCities(checked: seq<int>)
      modifies this
      ensures Valid()
      ensures selectedCities == checked
      ensures multiCityMode <==> |checked| > 1
      ensures selectedFields == old(selectedFields)
    {
      selectedCities := checked;
      multiCityMode := |selectedCities| > 1;
    }

    /** A field box was ticked (`checked`) or cleared. */
    method HandleFieldChange(fieldKey: string, checked: bool)
      modifies this`selectedFields
      ensures selectedFields == FieldChange(old(selectedFields), fieldKey, checked)
    {
      if checked {
        if fieldKey !in selectedFields {
          selectedFields := selectedFields + [fieldKey];
        }
      } else {
        selectedFields := Remove(selectedFields, fieldKey);
      }
    }

    /** What pressing "query" does with the current selection and the two
        date inputs. */
    function Query(start: DateInput, end: DateInput): (a: QueryAction)
      reads this
      ensures a == Rejected(NoCityMessage) <==> |selectedCities| == 0
      ensures a == Rejected(NoDateMessage) <==> |selectedCities| > 0 && (start.Empty? || end.Empty?)
      ensures a == Rejected(StartAfterEndMessage) <==>
        |selectedCities| > 0 && start.Day? && end.Day? && start.n > end.n
      ensures a == Rejected(NoFieldMessage) <==>
        |selectedCities| > 0 && start.Day? && end.Day? && start.n <= end.n && |selectedFields| == 0
      ensures a.Compare? <==> !a.Rejected? && multiCityMode
      ensures a.Compare? ==> a.cityIds == selectedCities
      ensures a.Single? ==> |selectedCities| > 0 && a.cityId == selectedCities[0]
      ensures !a.Rejected? ==> a.fields == selectedFields && start.Day? && end.Day?
      ensures !a.Rejected? ==> a.startDay == start.n && a.endDay == end.n
    {
      if |selectedCities| == 0 then Rejected(NoCityMessage)
      else if start.Empty? || end.Empty? then Rejected(NoDateMessage)
      else if start.n > end.n then Rejected(StartAfterEndMessage)
      else if |selectedFields| == 0 then Rejected(NoFieldMessage)
      else if multiCityMode then Compare(selectedCities, start.n, end.n, selectedFields)
      else Single(selectedCities[0], start.n, end.n, selectedFields)
    }
  }

  /** The outcome of pressing "query": an error shown with no request made,
      a comparison request for all selected cities, or a query for one city. */
  datatype QueryAction =
    | Rejected(message: string)
    | Compare(cityIds: seq<int>, startDay: int, endDay: int, fields: seq<string>)
    | Single(cityId: int, startDay: int, endDay: int, fields: seq<string>)

  const NoCityMessage: string := "请至少选择一个城市"
  const NoDateMessage: string := "请选择日期范围"
  const NoFieldMessage: string := "请至少选择一个数据字段"

  /** The rejection messages are distinct, so each one identifies its cause. */
  lemma QueryMessagesDistinct()
    ensures NoCityMessage != NoDateMessage && NoCityMessage != StartAfterEndMessage
    ensures NoCityMessage != NoFieldMessage && NoDateMessage != StartAfterEndMessage
    ensures NoDateMessage != NoFieldMessage && StartAfterEndMessage != NoFieldMessage
  {
    assert NoCityMessage[2] != NoDateMessage[2];
    assert NoCityMessage[5] != StartAfterEndMessage[5];
    assert NoCityMessage[7] != NoFieldMessage[7];
    assert NoDateMessage[0] != StartAfterEndMessage[0];
    assert NoDateMessage[2] != NoFieldMessage[2];
    assert StartAfterEndMessage[0] != NoFieldMessage[0];
  }

  /** In a consistent state the query page compares exactly when several
      cities are selected, and its date checks reject exactly the ranges the
      shared date-range helper rejects. */
  lemma QueryDispatch(st: AppState, start: DateInput, end: DateInput)
    requires st.Valid()
    ensures var a := st.Query(start, end);
      (a.Compare? <==> !a.Rejected? && |st.selectedCities| > 1) &&
      (|st.selectedCities| > 0 ==>
        (ValidateDateRange(start, end).valid <==>
          a != Rejected(NoDateMessage) && a != Rejected(StartAfterEndMessage)))
  {
    QueryMessagesDistinct();
  }

  /** `s` without any occurrence of `key`, the rest in their order (JS `filter`). */
  function Remove(s: seq<string>, key: string): (r: seq<string>)
    ensures key !in r
    ensures forall k :: k != key ==> (k in r <==> k in s)
    ensures |r| <= |s|
  {
    if |s| == 0 then []
    else if s[0] == key then Remove(s[1..], key)
    else [s[0]] + Remove(s[1..], key)
  }

  /** The selection after a field box changes. */
  function FieldChange(selected: seq<string>, fieldKey: string, checked: bool): seq<string>
  {
    if checked then (if fieldKey in selected then selected else selected + [fieldKey])
    else Remove(selected, fieldKey)
  }

  predicate NoDuplicates(s: seq<string>) {
    forall i, j :: 0 <= i < j < |s| ==> s[i] != s[j]
  }

  /** Ticking a box selects the field, clearing it deselects it, and no other
      field's membership changes. */
  lemma FieldChangeMembership(selected: seq<string>, fieldKey: string, checked: bool)
    ensures fieldKey in FieldChange(selected, fieldKey, checked) <==> checked
    ensures forall k :: k != fieldKey ==> (k in FieldChange(selected, fieldKey, checked) <==> k in selected)
  {
  }

  /** Ticking keeps the earlier selection as a prefix: a new key goes last. */
  lemma FieldChangeCheckKeepsOrder(selected: seq<string>, fieldKey: string)
    ensures selected <= FieldChange(selected, fieldKey, true)
  {
  }

  /** Removing one key distributes over concatenation, so the other keys keep
      their relative order. */
  lemma {:induction false} RemoveConcat(a: seq<string>, b: seq<string>, key: string)
    ensures Remove(a + b, key) == Remove(a, key) + Remove(b, key)
  {
    if |a| == 0 {
      assert a + b == b;
    } else {
      assert (a + b)[1..] == a[1..] + b;
      RemoveConcat(a[1..], b, key);
    }
  }

  lemma {:induction false} RemoveKeepsDistinct(s: seq<string>, key: string)
    requires NoDuplicates(s)
    ensures NoDuplicates(Remove(s, key))
  {
    if |s| > 0 {
      RemoveKeepsDistinct(s[1..], key);
      assert s[0] !in s[1..] by {
        forall j | 0 <= j < |s[1..]| ensures s[1..][j] != s[0] { assert s[1..][j] == s[j + 1]; }
      }
    }
  }

  /** The selection never holds the same field twice. */
  lemma FieldChangeKeepsDistinct(selected: seq<string>, fieldKey: string, checked: bool)
    requires NoDuplicates(selected)
    ensures NoDuplicates(FieldChange(selected, fieldKey, checked))
  {
    if !checked { RemoveKeepsDistinct(selected, fieldKey); }
  }

  // ----- chart down-sampling -----

  const MaxChartPoints: nat := 500

  /** `Math.ceil(a / b)` for a natural `a` and a positive `b`. */
  function CeilDiv(a: nat, b: nat): nat
    requires b > 0
  {
    (a + b - 1) / b
  }

  /** The records at positions `i..` whose position is a multiple of `step`
      (the filter's `index % step === 0`). */
  function EveryStep<T>(records: seq<T>, step: nat, i: nat): seq<T>
    requires step > 0 && i <= |records|
    decreases |records| - i
  {
    if i == |records| then []
    else (if i % step == 0 then [records[i]] else []) + EveryStep(records, step, i + 1)
  }

  /** The records drawn in the charts: every `ceil(n / 500)`-th record.
      With no records the filter sees no index and keeps nothing. */
  function SampleForCharts<T>(records: seq<T>): seq<T>
  {
    if |records| == 0 then [] else EveryStep(records, CeilDiv(|records|, MaxChartPoints), 0)
  }

  lemma MulMono(x: int, y: int, b: nat)
    requires x <= y
    ensures x * b <= y * b
  {
    var d := y - x;
    assert y * b == x * b + d * b;
    assert d * b >= 0;
  }

  /** Quotient by uniqueness: the one `q` with `q*b <= a < (q+1)*b`. */
  lemma DivIs(a: nat, b: nat, q: nat)
    requires b > 0 && q * b <= a < q * b + b
    ensures a / b == q
  {
    var r := a / b;
    assert a == r * b + a % b;
    assert 0 <= a % b < b;
    if r < q {
      MulMono(r + 1, q, b);
    } else if r > q {
      MulMono(q + 1, r, b);
    }
  }

  /** `ceil((m*b + r) / b)` for a remainder `r < b`. */
  lemma CeilDivAt(m: nat, r: nat, b: nat)
    requires 0 <= r < b
    ensures CeilDiv(m * b + r, b) == if r == 0 then m else m + 1
  {
    assert (m + 1) * b == m * b + b;
    if r == 0 {
      DivIs(m * b + b - 1, b, m);
    } else {
      assert (m + 2) * b == m * b + b + b;
      DivIs(m * b + r + b - 1, b, m + 1);
    }
  }

  lemma CeilDivStepAt(m: nat, r: nat, b: nat)
    requires 0 <= r < b
    ensures CeilDiv(m * b + r + 1, b) == CeilDiv(m * b + r, b) + (if r == 0 then 1 else 0)
  {
    CeilDivAt(m, r, b);
    if r + 1 < b {
      CeilDivAt(m, r + 1, b);
    } else {
      assert m * b + r + 1 == (m + 1) * b + 0;
      CeilDivAt(m + 1, 0, b);
    }
  }

  /** Each further position adds one kept record exactly when it is a multiple of `step`. */
  lemma CeilDivStep(i: nat, step: nat)
    requires step > 0
    ensures CeilDiv(i + 1, step) == CeilDiv(i, step) + (if i % step == 0 then 1 else 0)
  {
    var m, r := i / step, i % step;
    assert i == m * step + r;
    CeilDivStepAt(m, r, step);
  }

  /** `ceil(a / b)` copies of `b` cover `a` with less than one `b` to spare. */
  lemma CeilDivCover(a: nat, b: nat)
    requires b > 0
    ensures a <= CeilDiv(a, b) * b < a + b
  {
    var c := a + b - 1;
    assert c == (c / b) * b + c % b && 0 <= c % b < b;
  }

  /** With step `ceil(n / 500)`, `ceil(n / step)` lies between 1 and 500. */
  lemma SampleCountBound(n: nat)
    requires n > 0
    ensures CeilDiv(n, MaxChartPoints) >= 1
    ensures 1 <= CeilDiv(n, CeilDiv(n, MaxChartPoints)) <= MaxChartPoints
  {
    var step := CeilDiv(n, MaxChartPoints);
    CeilDivCover(n, MaxChartPoints);
    assert step >= 1;
    var kept := CeilDiv(n, step);
    CeilDivCover(n, step);
    if kept > 500 {
      MulMono(501, kept, step);
    }
  }

  /** One record is kept per multiple of `step` in the positions `i..`. */
  lemma {:induction false} EveryStepLength<T>(records: seq<T>, step: nat, i: nat)
    requires step > 0 && i <= |records|
    ensures |EveryStep(records, step, i)| == CeilDiv(|records|, step) - CeilDiv(i, step)
    decreases |records| - i
  {
    if i < |records| {
      EveryStepLength(records, step, i + 1);
      CeilDivStep(i, step);
    }
  }

  /** The k-th kept record from position `i` on is the one at the k-th multiple
      of `step` not below `i`. */
  lemma {:induction false} EveryStepAt<T>(records: seq<T>, step: nat, i: nat, k: nat)
    requires step > 0 && i <= |records| && k < |EveryStep(records, step, i)|
    ensures (CeilDiv(i, step) + k) * step < |records|
    ensures EveryStep(records, step, i)[k] == records[(CeilDiv(i, step) + k) * step]
    decreases |records| - i
  {
    var c := CeilDiv(i, step);
    CeilDivStep(i, step);
    var rest := EveryStep(records, step, i + 1);
    if i % step == 0 {
      var m := i / step;
      assert i == m * step + 0;
      CeilDivAt(m, 0, step);
      if k > 0 {
        EveryStepAt(records, step, i + 1, k - 1);
        assert c + 1 + (k - 1) == c + k;
      }
    } else {
      EveryStepAt(records, step, i + 1, k);
    }
  }

  /** At most 500 points are drawn, the first record is always among them,
      and the kept records are evenly spaced `ceil(n / 500)` apart. */
  lemma SampleForChartsShape<T>(records: seq<T>)
    ensures |SampleForCharts(records)| <= MaxChartPoints
    ensures |records| > 0 ==> |SampleForCharts(records)| > 0 && SampleForCharts(records)[0] == records[0]
    ensures |records| > 0 ==> forall k :: 0 <= k < |SampleForCharts(records)| ==>
      k * CeilDiv(|records|, MaxChartPoints) < |records| &&
      SampleForCharts(records)[k] == records[k * CeilDiv(|records|, MaxChartPoints)]
  {
    var n := |records|;
    if n > 0 {
      SampleLength(records);
      forall k | 0 <= k < |SampleForCharts(records)|
        ensures k * CeilDiv(n, MaxChartPoints) < n
        ensures SampleForCharts(records)[k] == records[k * CeilDiv(n, MaxChartPoints)]
      {
        SampleAt(records, k);
      }
    }
  }

  /** A non-empty listing keeps between 1 and 500 records. */
  lemma SampleLength<T>(records: seq<T>)
    requires |records| > 0
    ensures 1 <= |SampleForCharts(records)| <= MaxChartPoints
  {
    var step := CeilDiv(|records|, MaxChartPoints);
    StepPositive(|records|);
    CeilDivZero(step);
    EveryStepLength(records, step, 0);
    SampleCountBound(|records|);
  }

  /** The k-th kept record is the one at position `k * step`. */
  lemma SampleAt<T>(records: seq<T>, k: nat)
    requires |records| > 0 && k < |SampleForCharts(records)|
    ensures k * CeilDiv(|records|, MaxChartPoints) < |records|
    ensures SampleForCharts(records)[k] == records[k * CeilDiv(|records|, MaxChartPoints)]
  {
    var step := CeilDiv(|records|, MaxChartPoints);
    StepPositive(|records|);
    CeilDivZero(step);
    EveryStepAt(records, step, 0, k);
    assert CeilDiv(0, step) + k == k;
  }

  /** The sampling step is at least one. */
  lemma StepPositive(n: nat)
    requires n > 0
    ensures CeilDiv(n, MaxChartPoints) >= 1
  {
  }

  /** Nothing before position 0 is a multiple of the step. */
  lemma CeilDivZero(step: nat)
    requires step > 0
    ensures CeilDiv(0, step) == 0
  {
  }

  // ----- the comparison table's summariser -----

  datatype TemperatureStats = TemperatureStats(avg: real, max: real, min: real)
  datatype RadiationStats = RadiationStats(avg: real, total: real)
  datatype WindStats = WindStats(avg: real, max: real)
  datatype PrecipitationStats = PrecipitationStats(total: real, rainyHours: nat)

  /** The summary object; an absent group is a key the object does not have,
      so the empty summary `{}` is every group None. */
  datatype ClientSummary = ClientSummary(
    temperature: Option<TemperatureStats>,
    solarRadiation: Option<RadiationStats>,
    windSpeed: Option<WindStats>,
    precipitation: Option<PrecipitationStats>)

  const EmptySummary := ClientSummary(None, None, None, None)

  /** Summary of the records (None when the argument is null or undefined). */
  function CalculateSummary(records: Option<seq<HourlyRecord>>): (s: ClientSummary)
    ensures records.None? || |records.value| == 0 ==> s == EmptySummary
    ensures records.Some? ==>
      (s.temperature.Some? <==> |Present(records.value, "temperature_2m")| > 0) &&
      (s.solarRadiation.Some? <==> |Present(records.value, "shortwave_radiation")| > 0) &&
      (s.windSpeed.Some? <==> |Present(records.value, "wind_speed_10m")| > 0) &&
      (s.precipitation.Some? <==> |Present(records.value, "precipitation")| > 0)
  {
    if records.None? || |records.value| == 0 then EmptySummary
    else
      var rs := records.value;
      var temps := Present(rs, "temperature_2m");
      var radiation := Present(rs, "shortwave_radiation");
      var wind := Present(rs, "wind_speed_10m");
      var precip := Present(rs, "precipitation");
      ClientSummary(
        if |temps| > 0 then Some(TemperatureStats(Mean(temps), MaxOf(temps), MinOf(temps))) else None,
        if |radiation| > 0 then Some(RadiationStats(Mean(radiation), Sum(radiation))) else None,
        if |wind| > 0 then Some(WindStats(Mean(wind), MaxOf(wind))) else None,
        if |precip| > 0 then Some(PrecipitationStats(Sum(precip), CountPositive(precip))) else None)
  }

  /** The average temperature lies between the minimum and the maximum, the
      average wind speed does not exceed the maximum, and rainy hours never
      exceed the hours that have a precipitation value. */
  lemma ClientSummaryBounds(records: seq<HourlyRecord>)
    ensures var s := CalculateSummary(Some(records));
      (s.temperature.Some? ==> s.temperature.value.min <= s.temperature.value.avg <= s.temperature.value.max) &&
      (s.windSpeed.Some? ==> s.windSpeed.value.avg <= s.windSpeed.value.max) &&
      (s.precipitation.Some? ==> s.precipitation.value.rainyHours <= |Present(records, "precipitation")|)
  {
    var s := CalculateSummary(Some(records));
    if s.temperature.Some? {
      var temps := Present(records, "temperature_2m");
      assert s.temperature.value == TemperatureStats(Mean(temps), MaxOf(temps), MinOf(temps));
      MeanAtLeastMin(temps);
      MeanAtMostMax(temps);
    }
    if s.windSpeed.Some? {
      var wind := Present(records, "wind_speed_10m");
      assert s.windSpeed.value == WindStats(Mean(wind), MaxOf(wind));
      MeanAtMostMax(wind);
    }
  }
}
