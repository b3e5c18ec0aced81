/** The backend data manager: the completeness check of one city's stored
    hours over a date range, with the missing days grouped into runs of
    consecutive days, and the download of one city or of every enabled city,
    whose fetch and save outcomes are inputs. Dates are day numbers (days
    since a fixed epoch). */
module DataManager {
  import opened Wrappers
  import opened Text
  import opened Ordering
  import opened Cities
  import Database

  // ----- the stored hours and the range query -----

  /** A stored `weather_data` row as the completeness check reads it: its
      city, the date part of its `datetime` as a day number, and the text
      after the date and its "T" separator (`HH:MM`, as the weather API writes
      its hourly timestamps and the rows are stored). */
  datatype StoredHour = StoredHour(cityId: int, day: int, time: string)

  /** The timestamp text of a row: the date, "T", the time. */
  function Stamp(date: string, time: string): string
  {
    date + "T" + time
  }

  /** What the check appends to the end date for the query's upper bound. */
  const AsWrittenEndSuffix: string := " 23:59:59"

  /** The upper bound's suffix in the stored format, as the weather service's
      own range query writes it: the end day's last minute. */
  const EndSuffix: string := "T23:59"

  /** On the row's own date, the query's text comparison is decided by what
      follows the date. */
  lemma EndDayComparison(date: string, time: string, suffix: string)
    ensures LexLe(Stamp(date, time), date + suffix) == LexLe("T" + time, suffix)
  {
    assert Stamp(date, time) == date + ("T" + time);
    LexLeCommonPrefix(date, "T" + time, suffix);
  }

  /** The lower bound is the bare start date, a prefix of every stamp of that
      date, so the start day's rows are all selected. */
  lemma StartDayComparison(date: string, time: string)
    ensures LexLe(date, Stamp(date, time))
  {
    assert date + [] == date;
    assert Stamp(date, time) == date + ("T" + time);
    LexLeCommonPrefix(date, [], "T" + time);
  }

  /** As written, no row of the end day passes the upper bound, whatever its
      time: after the common date, the stored "T" sorts after the bound's
      space. */
  lemma AsWrittenBoundExcludesEndDay(cityId: int, start: string, date: string, time: string,
                                     columns: map<string, Database.Cell>)
    ensures !LexLe(Stamp(date, time), date + AsWrittenEndSuffix)
    ensures !Database.Matches(Database.Filters(Some(cityId), Some(start), Some(date + AsWrittenEndSuffix)),
                              Database.StoredRow(cityId, Stamp(date, time), columns))
  {
    EndDayComparison(date, time, AsWrittenEndSuffix);
    assert AsWrittenEndSuffix == [' '] + "23:59:59";
    FirstCharDecides(' ', "23:59:59", 'T', time);
  }

  /** With the stored format's bound, an end-day row up to 23:59 is selected. */
  lemma EndSuffixKeepsEndDay(cityId: int, start: string, date: string, time: string,
                             columns: map<string, Database.Cell>)
    requires LexLe(time, "23:59")
    requires LexLe(start, Stamp(date, time))
    ensures Database.Matches(Database.Filters(Some(cityId), Some(start), Some(date + EndSuffix)),
                             Database.StoredRow(cityId, Stamp(date, time), columns))
  {
    EndDayComparison(date, time, EndSuffix);
    LexLeCommonPrefix("T", time, "23:59");
  }

  /** Whether the range query returns the row, in day terms: the city
      matches, the row is not before the start day, and it is before the end
      day, or on it and its time text passes the bound's suffix (the lemmas
      above). ISO dates of one length order their texts as their days. */
  predicate InQuery(h: StoredHour, cityId: int, startDay: int, endDay: int, endSuffix: string)
  {
    h.cityId == cityId && startDay <= h.day &&
    (h.day < endDay || (h.day == endDay && LexLe("T" + h.time, endSuffix)))
  }

  /** The rows the range query returns (the query also orders them by
      timestamp, which the check does not use). */
  function Selected(rows: seq<StoredHour>, cityId: int, startDay: int, endDay: int, endSuffix: string): (r: seq<StoredHour>)
    ensures |r| <= |rows|
    ensures forall h :: h in r <==> h in rows && InQuery(h, cityId, startDay, endDay, endSuffix)
  {
    if |rows| == 0 then []
    else
      var rest := Selected(rows[1..], cityId, startDay, endDay, endSuffix);
      assert forall h :: h in rows <==> h == rows[0] || h in rows[1..];
      if InQuery(rows[0], cityId, startDay, endDay, endSuffix) then [rows[0]] + rest else rest
  }

  /** The days that hold at least one selected row. */
  function StoredDays(rows: seq<StoredHour>, cityId: int, startDay: int, endDay: int, endSuffix: string): set<int>
  {
    set h | h in rows && InQuery(h, cityId, startDay, endDay, endSuffix) :: h.day
  }

  /** As written, the end day is never among the stored days, so it is always
      reported missing, however many rows that day holds. */
  lemma AsWrittenMissesEndDay(rows: seq<StoredHour>, cityId: int, startDay: int, endDay: int)
    ensures endDay !in StoredDays(rows, cityId, startDay, endDay, AsWrittenEndSuffix)
  {
    assert AsWrittenEndSuffix == [' '] + "23:59:59";
    forall h | h in rows && InQuery(h, cityId, startDay, endDay, AsWrittenEndSuffix)
      ensures h.day != endDay
    {
      if h.day == endDay {
        FirstCharDecides(' ', "23:59:59", 'T', h.time);
      }
    }
  }

  /** With the stored format's bound, a day of the range holding a row up to
      23:59 is a stored day, the end day included. */
  lemma EndSuffixCountsEveryDay(rows: seq<StoredHour>, h: StoredHour, startDay: int, endDay: int)
    requires h in rows && startDay <= h.day <= endDay && LexLe(h.time, "23:59")
    ensures h.day in StoredDays(rows, h.cityId, startDay, endDay, EndSuffix)
  {
    LexLeCommonPrefix("T", h.time, "23:59");
    assert InQuery(h, h.cityId, startDay, endDay, EndSuffix);
  }

  // ----- expected, existing and missing days -----

  /** The expected days: every day from the start to the end, inclusive. */
  method ExpectedDays(startDay: int, endDay: int) returns (expected: set<int>)
    ensures forall d :: d in expected <==> startDay <= d <= endDay
    ensures |expected| == if startDay <= endDay then endDay - startDay + 1 else 0
  {
    expected := {};
    var current := startDay;
    while current <= endDay
      invariant startDay <= current && (current <= endDay + 1 || current == startDay)
      invariant forall d :: d in expected <==> startDay <= d < current
      invariant |expected| == current - startDay
      decreases endDay - current
    {
      assert current !in expected;
      expected := expected + {current};
      current := current + 1;
    }
  }

  /** The days of the returned rows, one entry per day. */
  method ExistingDays(selected: seq<StoredHour>) returns (days: set<int>)
    ensures forall d :: d in days <==> exists h :: h in selected && h.day == d
  {
    days := {};
    for i := 0 to |selected|
      invariant forall d :: d in days <==> exists k :: 0 <= k < i && selected[k].day == d
    {
      days := days + {selected[i].day};
    }
    forall d | d in days ensures exists h :: h in selected && h.day == d {
      var k :| 0 <= k < |selected| && selected[k].day == d;
      assert selected[k] in selected;
    }
  }

  // ----- runs of consecutive days -----

  /** One run of missing days, `days` being its length. */
  datatype DayRange = DayRange(start: int, end: int, days: int)

  /** The days from `a` to `b`, in order. */
  function Interval(a: int, b: int): (r: seq<int>)
    ensures |r| == if a <= b then b - a + 1 else 0
    ensures forall k :: 0 <= k < |r| ==> r[k] == a + k
    decreases b - a
  {
    if a > b then [] else [a] + Interval(a + 1, b)
  }

  /** The days the runs cover, run after run. */
  function Expand(ranges: seq<DayRange>): seq<int>
  {
    if |ranges| == 0 then []
    else
      var last := ranges[|ranges| - 1];
      Expand(ranges[..|ranges| - 1]) + Interval(last.start, last.end)
  }

  function SumDays(ranges: seq<DayRange>): int
  {
    if |ranges| == 0 then 0 else SumDays(ranges[..|ranges| - 1]) + ranges[|ranges| - 1].days
  }

  /** Runs that are non-empty, counted right, and separated by at least one
      day that is in none of them. */
  predicate Separated(ranges: seq<DayRange>)
  {
    (forall k :: 0 <= k < |ranges| ==> ranges[k].start <= ranges[k].end) &&
    Counted(ranges) &&
    (forall k :: 1 <= k < |ranges| ==> Gap(ranges, k) > 1)
  }

  /** A run that starts more than one day after the last one keeps the runs separated. */
  lemma SeparatedSnoc(ranges: seq<DayRange>, run: DayRange)
    requires Separated(ranges) && run.start <= run.end && run.days == run.end - run.start + 1
    requires |ranges| > 0 ==> run.start - ranges[|ranges| - 1].end > 1
    ensures Separated(ranges + [run])
  {
    var longer := ranges + [run];
    forall k | 1 <= k < |longer| ensures Gap(longer, k) > 1 {
      if k < |ranges| {
        assert Gap(longer, k) == Gap(ranges, k);
      }
    }
  }

  /** Dropping the last run keeps the others separated. */
  lemma SeparatedFront(ranges: seq<DayRange>)
    requires Separated(ranges) && |ranges| > 0
    ensures Separated(ranges[..|ranges| - 1])
  {
    var front := ranges[..|ranges| - 1];
    forall k | 1 <= k < |front| ensures Gap(front, k) > 1 {
      assert Gap(front, k) == Gap(ranges, k);
    }
  }

  /** How far run `k` starts after the end of run `k - 1`. */
  function Gap(ranges: seq<DayRange>, k: int): int
    requires 1 <= k < |ranges|
  {
    ranges[k].start - ranges[k - 1].end
  }

  /** The scan over `dates[..i]`: the runs closed so far, the first and the
      last day of the open run, and the index where the open run starts. */
  datatype Scan = Scan(closed: seq<DayRange>, start: int, prev: int, first: nat)

  /** The scan's state after the first `i` days. */
  function ScanTo(dates: seq<int>, i: nat): Scan
    requires 1 <= i <= |dates|
  {
    if i == 1 then Scan([], dates[0], dates[0], 0) else Advance(ScanTo(dates, i - 1), dates[i - 1], i - 1)
  }

  /** The scan reads day `d`, at index `i`: a day more than one day after
      the previous one closes the open run and opens a new one at `d`;
      otherwise the open run now ends at `d`. */
  function Advance(s: Scan, d: int, i: nat): Scan
  {
    if d - s.prev > 1 then Scan(s.closed + [DayRange(s.start, s.prev, s.prev - s.start + 1)], d, d, i)
    else s.(prev := d)
  }

  /** The runs of a list of days: the scan's closed runs and its last open run. */
  function Grouped(dates: seq<int>): seq<DayRange>
  {
    if |dates| == 0 then [] else Close(ScanTo(dates, |dates|))
  }

  /** The closed runs and the open one. */
  function Close(s: Scan): seq<DayRange>
  {
    s.closed + [DayRange(s.start, s.prev, s.prev - s.start + 1)]
  }

  /** The runs of a list of days: a new run starts wherever a day is more
      than one day after the previous one. */
  method GroupConsecutive(dates: seq<int>) returns (ranges: seq<DayRange>)
    ensures ranges == Grouped(dates)
  {
    if |dates| == 0 {
      return [];
    }
    ranges := [];
    var start := dates[0];
    var prev := dates[0];
    ghost var r := 0;
    for i := 1 to |dates|
      invariant ScanTo(dates, i) == Scan(ranges, start, prev, r)
    {
      var current := dates[i];
      if current - prev > 1 {
        ranges := ranges + [DayRange(start, prev, prev - start + 1)];
        start := current;
        r := i;
      }
      prev := current;
    }
    ranges := ranges + [DayRange(start, prev, prev - start + 1)];
  }

  /** How far a day is after the previous one. */
  function Rise(dates: seq<int>, j: int): int
    requires 1 <= j < |dates|
  {
    dates[j] - dates[j - 1]
  }

  /** Each day is after the previous one. */
  predicate Rising(dates: seq<int>)
  {
    forall j :: 1 <= j < |dates| ==> Rise(dates, j) > 0
  }

  lemma AscendingRising(dates: seq<int>)
    requires Ascending(dates)
    ensures Rising(dates)
  {
  }

  /** Every run is counted right: its length is the days from start to end. */
  predicate Counted(ranges: seq<DayRange>)
  {
    forall k :: 0 <= k < |ranges| ==> ranges[k].days == ranges[k].end - ranges[k].start + 1
  }

  /** Every run the scan closes is counted right. */
  lemma {:induction false} ScanToCounts(dates: seq<int>, i: nat)
    requires 1 <= i <= |dates|
    ensures Counted(ScanTo(dates, i).closed)
  {
    if i > 1 {
      ScanToCounts(dates, i - 1);
      var s := ScanTo(dates, i - 1);
      assert Advance(s, dates[i - 1], i - 1).closed[..|s.closed|] == s.closed;
    }
  }

  /** The scan's state describes the first `i` days: the open run starts at
      `first` and ends at day `i - 1`, and `RunState` holds. */
  predicate ScanInvariant(dates: seq<int>, s: Scan, i: int)
    requires 1 <= i <= |dates|
  {
    s.first < i && s.start == dates[s.first] && s.prev == dates[i - 1] && RunState(dates, s.closed, s.first, i)
  }

  /** For rising days the scan keeps its invariant. */
  lemma {:induction false} ScanToState(dates: seq<int>, i: nat)
    requires 1 <= i <= |dates|
    requires Rising(dates)
    ensures ScanInvariant(dates, ScanTo(dates, i), i)
  {
    if i > 1 {
      ScanToState(dates, i - 1);
      assert Rise(dates, i - 1) > 0;
      AdvanceKeepsInvariant(dates, ScanTo(dates, i - 1), i - 1);
    }
  }

  /** Reading the next day keeps the invariant: a gap closes the open run
      and opens one at day `i`, a day one after the previous extends it. */
  lemma AdvanceKeepsInvariant(dates: seq<int>, s: Scan, i: nat)
    requires 1 <= i < |dates|
    requires ScanInvariant(dates, s, i) && dates[i] > s.prev
    ensures ScanInvariant(dates, Advance(s, dates[i], i), i + 1)
  {
    if dates[i] - s.prev > 1 {
      CloseRun(dates, s.closed, s.first, i);
      OpenRun(dates, s.closed + [DayRange(s.start, s.prev, s.prev - s.start + 1)], i);
    } else {
      ExtendRun(dates, s.closed, s.first, i);
    }
  }

  /** The runs are counted right, and there are some exactly when there are days. */
  lemma GroupedShape(dates: seq<int>)
    ensures |Grouped(dates)| == 0 <==> |dates| == 0
    ensures Counted(Grouped(dates))
  {
    if |dates| > 0 {
      ScanToCounts(dates, |dates|);
      var s := ScanTo(dates, |dates|);
      assert Close(s)[..|s.closed|] == s.closed;
    }
  }

  /** For rising days the runs are separated and cover exactly the days,
      in order. */
  lemma GroupedRuns(dates: seq<int>)
    requires Rising(dates)
    ensures Separated(Grouped(dates)) && Expand(Grouped(dates)) == dates
  {
    if |dates| > 0 {
      ScanToState(dates, |dates|);
      CloseScan(dates, ScanTo(dates, |dates|));
    }
  }

  /** Closing the open run at the end completes the runs. */
  lemma CloseScan(dates: seq<int>, s: Scan)
    requires 1 <= |dates| && ScanInvariant(dates, s, |dates|)
    ensures Separated(Close(s)) && Expand(Close(s)) == dates
  {
    var n := |dates|;
    assert s.first < n && s.start == dates[s.first] && s.prev == dates[n - 1];
    CloseRun(dates, s.closed, s.first, n);
    var run := DayRange(dates[s.first], dates[n - 1], dates[n - 1] - dates[s.first] + 1);
    assert Close(s) == s.closed + [run];
    assert dates[..n] == dates;
  }

  /** The scan's state at position `i`, the open run starting at `r`: the
      closed runs are separated and cover `dates[..r]`, the open run is
      consecutive, and it starts more than one day after the last closed run. */
  predicate RunState(dates: seq<int>, ranges: seq<DayRange>, r: int, i: int)
    requires 0 <= r < i <= |dates|
  {
    Separated(ranges) && Expand(ranges) == dates[..r] &&
    (forall j :: r <= j < i ==> dates[j] == dates[r] + (j - r)) &&
    (|ranges| > 0 ==> r > 0 && ranges[|ranges| - 1].end == dates[r - 1] && dates[r] - dates[r - 1] > 1)
  }

  /** A day one after the previous one extends the open run. */
  lemma ExtendRun(dates: seq<int>, ranges: seq<DayRange>, r: int, i: int)
    requires 0 <= r < i < |dates|
    requires RunState(dates, ranges, r, i) && dates[i] - dates[i - 1] == 1
    ensures RunState(dates, ranges, r, i + 1)
  {
  }

  /** A consecutive block of days is the interval from its first to its last day. */
  lemma RunIsInterval(dates: seq<int>, r: int, i: int)
    requires 0 <= r < i <= |dates|
    requires forall j :: r <= j < i ==> dates[j] == dates[r] + (j - r)
    ensures dates[r..i] == Interval(dates[r], dates[i - 1])
  {
  }

  /** Adding a run adds its days at the end. */
  lemma ExpandSnoc(ranges: seq<DayRange>, run: DayRange)
    ensures Expand(ranges + [run]) == Expand(ranges) + Interval(run.start, run.end)
  {
    assert (ranges + [run])[..|ranges|] == ranges;
  }

  /** Closing the open run `dates[r..i]` keeps the runs separated and makes
      them cover `dates[..i]`. */
  lemma CloseRun(dates: seq<int>, ranges: seq<DayRange>, r: int, i: int)
    requires 0 <= r < i <= |dates|
    requires RunState(dates, ranges, r, i)
    ensures Separated(ranges + [DayRange(dates[r], dates[i - 1], dates[i - 1] - dates[r] + 1)])
    ensures Expand(ranges + [DayRange(dates[r], dates[i - 1], dates[i - 1] - dates[r] + 1)]) == dates[..i]
  {
    var run := DayRange(dates[r], dates[i - 1], dates[i - 1] - dates[r] + 1);
    RunIsInterval(dates, r, i);
    ExpandSnoc(ranges, run);
    SeparatedSnoc(ranges, run);
    assert dates[..i] == dates[..r] + dates[r..i];
  }

  /** After a gap, the scan opens a run of one day. */
  lemma OpenRun(dates: seq<int>, ranges: seq<DayRange>, i: int)
    requires 0 < i < |dates|
    requires Separated(ranges) && Expand(ranges) == dates[..i]
    requires |ranges| > 0 && ranges[|ranges| - 1].end == dates[i - 1] && dates[i] - dates[i - 1] > 1
    ensures RunState(dates, ranges, i, i + 1)
  {
  }

  /** The runs cover as many days as their counts add up to. */
  lemma {:induction false} ExpandLength(ranges: seq<DayRange>)
    requires Separated(ranges)
    ensures |Expand(ranges)| == SumDays(ranges)
  {
    if |ranges| > 0 {
      var front := ranges[..|ranges| - 1];
      SeparatedFront(ranges);
      ExpandLength(front);
    }
  }

  /** The runs of sorted distinct days cover exactly those days, in order,
      and their counts add up to the number of days. */
  lemma GroupedRunsCover(dates: seq<int>, ranges: seq<DayRange>)
    requires Ascending(dates) && Separated(ranges) && Expand(ranges) == dates
    ensures SumDays(ranges) == |dates|
    ensures forall d :: d in dates <==> exists k :: 0 <= k < |ranges| && ranges[k].start <= d <= ranges[k].end
  {
    ExpandLength(ranges);
    ExpandMembersAll(ranges);
  }

  lemma ExpandMembersAll(ranges: seq<DayRange>)
    ensures forall d :: d in Expand(ranges) <==> exists k :: 0 <= k < |ranges| && ranges[k].start <= d <= ranges[k].end
  {
    forall d ensures d in Expand(ranges) <==> exists k :: 0 <= k < |ranges| && ranges[k].start <= d <= ranges[k].end {
      ExpandMembers(ranges, d);
    }
  }

  lemma {:induction false} ExpandMembers(ranges: seq<DayRange>, d: int)
    ensures d in Expand(ranges) <==> exists k :: 0 <= k < |ranges| && ranges[k].start <= d <= ranges[k].end
  {
    if |ranges| > 0 {
      var front := ranges[..|ranges| - 1];
      var last := ranges[|ranges| - 1];
      ExpandMembers(front, d);
      var block := Interval(last.start, last.end);
      assert d in block <==> last.start <= d <= last.end by {
        if last.start <= d <= last.end {
          assert block[d - last.start] == d;
        }
      }
      if exists k :: 0 <= k < |front| && front[k].start <= d <= front[k].end {
        var k :| 0 <= k < |front| && front[k].start <= d <= front[k].end;
        assert ranges[k] == front[k];
      }
      if exists k :: 0 <= k < |ranges| && ranges[k].start <= d <= ranges[k].end {
        var k :| 0 <= k < |ranges| && ranges[k].start <= d <= ranges[k].end;
        if k < |front| {
          assert front[k] == ranges[k];
        }
      }
    }
  }

  // ----- the completeness report -----

  /** `existing / total * 100`, and 0 when no day is expected (the source also
      rounds it to two decimals). */
  function CompletenessRate(existing: nat, total: nat): real
  {
    if total == 0 then 0.0 else (existing as real) * 100.0 / (total as real)
  }

  /** The rate is a percentage, and 100 exactly when no expected day is missing. */
  lemma RateBounds(existing: nat, total: nat)
    requires existing <= total
    ensures 0.0 <= CompletenessRate(existing, total) <= 100.0
    ensures total > 0 ==> (CompletenessRate(existing, total) == 100.0 <==> existing == total)
  {
    if total > 0 {
      var rate := CompletenessRate(existing, total);
      assert rate * (total as real) == (existing as real) * 100.0;
      if rate == 100.0 {
        assert (existing as real) * 100.0 == (total as real) * 100.0;
      }
    }
  }

  datatype CompletenessReport = CompletenessReport(
    cityName: string, startDay: int, endDay: int,
    totalDays: nat, existingDays: nat, missingDays: nat, completenessRate: real,
    existingDates: seq<int>, missingDates: seq<int>, missingRanges: seq<DayRange>,
    totalRecords: nat)

  /** Why an operation failed: the city is unknown, or a raised error's text. */
  datatype FailureReason = UnknownCity(id: int) | Raised(message: string)

  /** The text of the error: an unknown city raises `城市ID <id> 不存在`. */
  function ReasonText(reason: FailureReason): string
  {
    match reason
    case UnknownCity(id) => "城市ID " + IntToDecimal(id) + " 不存在"
    case Raised(message) => message
  }

  /** A report, or the error the check raises. */
  datatype CheckResult = Report(report: CompletenessReport) | CheckRaised(reason: FailureReason)

  /** What a report over `startDay..endDay`, queried with the upper bound
      `endDay` + `endSuffix`, says of the rows: the city's
      name, the range, the number of days expected, the selected rows, the
      stored days and the missing days in ascending order, the counts and the
      rate, and the missing days as separated runs. */
  ghost predicate Reports(rep: CompletenessReport, name: string, rows: seq<StoredHour>, cityId: int,
                          startDay: int, endDay: int, endSuffix: string)
  {
    CountsReported(rep, name, rows, cityId, startDay, endDay, endSuffix) && RunsReported(rep)
  }

  /** The name, the range, the counts, the days found and missing, and the rate. */
  ghost predicate CountsReported(rep: CompletenessReport, name: string, rows: seq<StoredHour>, cityId: int,
                                 startDay: int, endDay: int, endSuffix: string)
  {
    var stored := StoredDays(rows, cityId, startDay, endDay, endSuffix);
    rep.cityName == name && rep.startDay == startDay && rep.endDay == endDay &&
    rep.totalDays == (if startDay <= endDay then endDay - startDay + 1 else 0) &&
    rep.totalRecords == |Selected(rows, cityId, startDay, endDay, endSuffix)| &&
    (forall d :: d in rep.existingDates <==> d in stored) && Ascending(rep.existingDates) &&
    (forall d :: d in rep.missingDates <==> startDay <= d <= endDay && d !in stored) &&
    Ascending(rep.missingDates) &&
    rep.existingDays == |rep.existingDates| && rep.missingDays == |rep.missingDates| &&
    rep.existingDays + rep.missingDays == rep.totalDays &&
    rep.completenessRate == CompletenessRate(rep.existingDays, rep.totalDays)
  }

  /** The missing days as separated runs, whose day counts sum to the missing count. */
  predicate RunsReported(rep: CompletenessReport)
  {
    Separated(rep.missingRanges) && Expand(rep.missingRanges) == rep.missingDates &&
    SumDays(rep.missingRanges) == rep.missingDays
  }

  /** The completeness check of one city over `startDay..endDay`, against the
      rows of `weather_data`, with the upper bound as written: the end date
      followed by ` 23:59:59`. An unknown city is an error (the check
      re-raises it). Since no stored row of the end day passes that bound, a
      report over a non-empty range always lists the end day as missing and
      is never complete. */
  method CheckDataCompleteness(cities: CityManager, rows: seq<StoredHour>, cityId: int, startDay: int, endDay: int)
    returns (r: CheckResult)
    ensures r.CheckRaised? <==> cityId !in cities.table
    ensures r.CheckRaised? ==> r.reason == UnknownCity(cityId)
    ensures r.Report? ==> Reports(r.report, cities.table[cityId].name, rows, cityId, startDay, endDay, AsWrittenEndSuffix)
    ensures r.Report? && startDay <= endDay ==>
      endDay in r.report.missingDates && r.report.missingDays > 0 && r.report.completenessRate < 100.0
  {
    var city := cities.GetCityById(cityId);
    if city.None? {
      return CheckRaised(UnknownCity(cityId));
    }
    var report := BuildReport(city.value.name, rows, cityId, startDay, endDay, AsWrittenEndSuffix);
    if startDay <= endDay {
      AsWrittenNeverComplete(rows, cityId, startDay, endDay, report.missingDates);
      ReportCompleteIff(report, StoredDays(rows, cityId, startDay, endDay, AsWrittenEndSuffix));
      RateBounds(report.existingDays, report.totalDays);
    }
    r := Report(report);
  }

  /** The same check with the upper bound in the stored format, `T23:59`:
      every stored day of the range counts, and a report over a non-empty
      range is complete exactly when every day of it holds a row. */
  method CorrectedCheckDataCompleteness(cities: CityManager, rows: seq<StoredHour>, cityId: int, startDay: int, endDay: int)
    returns (r: CheckResult)
    ensures r.CheckRaised? <==> cityId !in cities.table
    ensures r.CheckRaised? ==> r.reason == UnknownCity(cityId)
    ensures r.Report? ==> Reports(r.report, cities.table[cityId].name, rows, cityId, startDay, endDay, EndSuffix)
    ensures r.Report? && startDay <= endDay ==>
      (r.report.missingDays == 0 <==>
         forall d :: startDay <= d <= endDay ==> d in StoredDays(rows, cityId, startDay, endDay, EndSuffix))
  {
    var city := cities.GetCityById(cityId);
    if city.None? {
      return CheckRaised(UnknownCity(cityId));
    }
    var report := BuildReport(city.value.name, rows, cityId, startDay, endDay, EndSuffix);
    if startDay <= endDay {
      ReportCompleteIff(report, StoredDays(rows, cityId, startDay, endDay, EndSuffix));
    }
    r := Report(report);
  }

  /** The report itself, once the city is known, for the upper bound
      `endDay` + `endSuffix`. */
  method BuildReport(name: string, rows: seq<StoredHour>, cityId: int, startDay: int, endDay: int, endSuffix: string)
    returns (report: CompletenessReport)
    ensures Reports(report, name, rows, cityId, startDay, endDay, endSuffix)
  {
    var selected := Selected(rows, cityId, startDay, endDay, endSuffix);
    var existing := ExistingDays(selected);
    var expected := ExpectedDays(startDay, endDay);
    var missing := SortedSet(expected - existing);
    var existingList := SortedSet(existing);
    var ranges := GroupConsecutive(missing);
    report := CompletenessReport(
      name, startDay, endDay,
      |expected|, |existing|, |missing|, CompletenessRate(|existing|, |expected|),
      existingList, missing, ranges, |selected|);
    CountsOfReport(report, name, rows, cityId, startDay, endDay, endSuffix, existing, expected);
    RunsOfReport(report);
  }

  /** A report built from the days of the selected rows and the days of the
      range has the counts, days and rate the check promises. */
  lemma CountsOfReport(rep: CompletenessReport, name: string, rows: seq<StoredHour>, cityId: int,
                       startDay: int, endDay: int, endSuffix: string, existing: set<int>, expected: set<int>)
    requires forall d :: d in existing <==> exists h :: h in Selected(rows, cityId, startDay, endDay, endSuffix) && h.day == d
    requires forall d :: d in expected <==> startDay <= d <= endDay
    requires |expected| == if startDay <= endDay then endDay - startDay + 1 else 0
    requires rep.cityName == name && rep.startDay == startDay && rep.endDay == endDay
    requires rep.totalDays == |expected| && rep.existingDays == |existing|
    requires rep.existingDates == SortedSet(existing) && rep.missingDates == SortedSet(expected - existing)
    requires rep.missingDays == |rep.missingDates|
    requires rep.completenessRate == CompletenessRate(|existing|, |expected|)
    requires rep.totalRecords == |Selected(rows, cityId, startDay, endDay, endSuffix)|
    ensures CountsReported(rep, name, rows, cityId, startDay, endDay, endSuffix)
  {
    var selected := Selected(rows, cityId, startDay, endDay, endSuffix);
    var stored := StoredDays(rows, cityId, startDay, endDay, endSuffix);
    ExistingAreStored(rows, selected, existing, cityId, startDay, endDay, endSuffix);
    StoredInRange(rows, cityId, startDay, endDay, endSuffix);
    DatesOfReport(rep, stored, expected, startDay, endDay);
    NumbersOfReport(rep, existing, expected);
  }

  /** The stored days lie in the range. */
  lemma StoredInRange(rows: seq<StoredHour>, cityId: int, startDay: int, endDay: int, endSuffix: string)
    ensures forall d :: d in StoredDays(rows, cityId, startDay, endDay, endSuffix) ==> startDay <= d <= endDay
  {
  }

  /** The listed days are the stored days and the range's other days, each
      list ascending. */
  lemma DatesOfReport(rep: CompletenessReport, stored: set<int>, expected: set<int>, startDay: int, endDay: int)
    requires forall d :: d in expected <==> startDay <= d <= endDay
    requires rep.existingDates == SortedSet(stored) && rep.missingDates == SortedSet(expected - stored)
    ensures (forall d :: d in rep.existingDates <==> d in stored) && Ascending(rep.existingDates)
    ensures (forall d :: d in rep.missingDates <==> startDay <= d <= endDay && d !in stored)
    ensures Ascending(rep.missingDates)
  {
  }

  /** The day counts match the lists and add up to the range's length. */
  lemma NumbersOfReport(rep: CompletenessReport, existing: set<int>, expected: set<int>)
    requires existing <= expected
    requires rep.totalDays == |expected| && rep.existingDays == |existing|
    requires rep.existingDates == SortedSet(existing) && rep.missingDates == SortedSet(expected - existing)
    requires rep.missingDays == |rep.missingDates|
    ensures rep.existingDays == |rep.existingDates| && rep.missingDays == |rep.missingDates|
    ensures rep.existingDays + rep.missingDays == rep.totalDays
  {
    SortedSetLength(expected - existing);
    SortedSetLength(existing);
    SplitCount(expected, existing);
  }

  /** The runs of the missing days, taken in ascending order, are separated
      and add up to the missing count. */
  lemma RunsOfReport(rep: CompletenessReport)
    requires Ascending(rep.missingDates) && rep.missingDays == |rep.missingDates|
    requires rep.missingRanges == Grouped(rep.missingDates)
    ensures RunsReported(rep)
  {
    var missing := rep.missingDates;
    AscendingRising(missing);
    GroupedRuns(missing);
    GroupedRunsCover(missing, rep.missingRanges);
  }

  /** The days of the selected rows are the stored days. */
  lemma ExistingAreStored(rows: seq<StoredHour>, selected: seq<StoredHour>, existing: set<int>,
                          cityId: int, startDay: int, endDay: int, endSuffix: string)
    requires forall h :: h in selected <==> h in rows && InQuery(h, cityId, startDay, endDay, endSuffix)
    requires forall d :: d in existing <==> exists h :: h in selected && h.day == d
    ensures existing == StoredDays(rows, cityId, startDay, endDay, endSuffix)
  {
    var stored := StoredDays(rows, cityId, startDay, endDay, endSuffix);
    forall d ensures d in existing <==> d in stored {
      if d in existing {
        var h :| h in selected && h.day == d;
      }
      if d in stored {
        var h :| h in rows && InQuery(h, cityId, startDay, endDay, endSuffix) && h.day == d;
        assert h in selected;
      }
    }
  }

  /** The stored days of the range and the missing ones add up to the range. */
  lemma SplitCount(expected: set<int>, existing: set<int>)
    requires existing <= expected
    ensures |expected - existing| + |existing| == |expected|
  {
    assert expected == (expected - existing) + existing;
  }

  /** A report says complete (nothing missing, rate 100) exactly when every
      day of a non-empty range holds a stored row. */
  lemma ReportCompleteIff(rep: CompletenessReport, stored: set<int>)
    requires rep.startDay <= rep.endDay
    requires rep.totalDays == rep.endDay - rep.startDay + 1
    requires forall d :: d in rep.missingDates <==> rep.startDay <= d <= rep.endDay && d !in stored
    requires rep.missingDays == |rep.missingDates|
    requires rep.existingDays + rep.missingDays == rep.totalDays
    requires rep.completenessRate == CompletenessRate(rep.existingDays, rep.totalDays)
    ensures rep.missingDays == 0 <==> forall d :: rep.startDay <= d <= rep.endDay ==> d in stored
    ensures rep.completenessRate == 100.0 <==> rep.missingDays == 0
  {
    RateBounds(rep.existingDays, rep.totalDays);
    if rep.missingDays == 0 {
      assert rep.missingDates == [];
    } else {
      var d := rep.missingDates[0];
      assert d in rep.missingDates;
    }
  }

  /** With the bound as written, every report over a non-empty range lists
      the end day as missing, so no city is ever reported complete. */
  lemma AsWrittenNeverComplete(rows: seq<StoredHour>, cityId: int, startDay: int, endDay: int, missingDates: seq<int>)
    requires startDay <= endDay
    requires forall d :: d in missingDates <==>
      startDay <= d <= endDay && d !in StoredDays(rows, cityId, startDay, endDay, AsWrittenEndSuffix)
    ensures endDay in missingDates && |missingDates| > 0
  {
    AsWrittenMissesEndDay(rows, cityId, startDay, endDay);
  }

  // ----- downloads -----

  /** The result of one city's download: on success the city, the range, the
      number of hourly records fetched and the number saved. */
  datatype DownloadResult =
    | Downloaded(cityName: string, startDay: int, endDay: int, totalRecords: nat, savedRecords: nat)
    | DownloadFailed(reason: FailureReason)

  /** The result's `message`. */
  function DownloadMessage(r: DownloadResult): string
  {
    match r
    case Downloaded(_, _, _, _, saved) => "成功下载并保存 " + IntToDecimal(saved) + " 条记录"
    case DownloadFailed(reason) => "下载失败: " + ReasonText(reason)
  }

  /** The message tells the outcome: only a success leads with
      `成功下载并保存 `, and the saved count reads back from it. */
  lemma DownloadMessageReadsBack(r: DownloadResult)
    ensures r.Downloaded? <==> "成功下载并保存 " <= DownloadMessage(r)
    ensures r.Downloaded? ==>
      var m := DownloadMessage(r);
      |m| > 12 && (forall i :: 8 <= i < |m| - 4 ==> '0' <= m[i] <= '9') &&
      DecimalValue(m[8..|m| - 4]) == r.savedRecords
  {
    var m := DownloadMessage(r);
    if r.Downloaded? {
      var d := NatToDecimal(r.savedRecords);
      assert m == "成功下载并保存 " + d + " 条记录";
      assert m[8..|m| - 4] == d;
      DecimalRoundTrip(r.savedRecords);
    } else {
      assert m[0] == '下';
    }
  }

  /** One city's download over the table of cities: look the city up
      (enabled or not), fetch its hours (`fetched`: the number of hourly
      records, or the error raised), save them (`saved`: the count stored, or
      the error raised). Every failure becomes a failed result; nothing is
      raised. */
  function Download(table: map<int, City>, cityId: int, startDay: int, endDay: int,
                    fetched: Result<nat>, saved: Result<nat>): (r: DownloadResult)
    ensures r.DownloadFailed? <==> cityId !in table || fetched.Failure? || saved.Failure?
    ensures cityId !in table ==> r == DownloadFailed(UnknownCity(cityId))
    ensures cityId in table && fetched.Failure? ==> r == DownloadFailed(Raised(fetched.error))
    ensures r.Downloaded? ==>
      r.cityName == table[cityId].name && r.startDay == startDay && r.endDay == endDay &&
      r.totalRecords == fetched.value && r.savedRecords == saved.value
  {
    if cityId !in table then DownloadFailed(UnknownCity(cityId))
    else if fetched.Failure? then DownloadFailed(Raised(fetched.error))
    else if saved.Failure? then DownloadFailed(Raised(saved.error))
    else Downloaded(table[cityId].name, startDay, endDay, fetched.value, saved.value)
  }

  /** `batch_download` on the manager's cities. */
  function BatchDownload(cities: CityManager, cityId: int, startDay: int, endDay: int,
                         fetched: Result<nat>, saved: Result<nat>): (r: DownloadResult)
    reads cities
    ensures r.DownloadFailed? <==> cityId !in cities.table || fetched.Failure? || saved.Failure?
    ensures cityId !in cities.table ==> r == DownloadFailed(UnknownCity(cityId))
    ensures cityId in cities.table && fetched.Failure? ==> r == DownloadFailed(Raised(fetched.error))
    ensures r.Downloaded? ==> r.cityName == cities.table[cityId].name && r.savedRecords == saved.value
  {
    Download(cities.table, cityId, startDay, endDay, fetched, saved)
  }

  /** The all-cities result: how many cities, how many succeeded, the records
      saved by the successful ones, and each city's result in order. */
  datatype AllCitiesResult = AllCitiesResult(totalCities: nat, successCities: nat, totalSavedRecords: nat,
                                             details: seq<DownloadResult>)

  function SuccessCount(details: seq<DownloadResult>): nat
  {
    if |details| == 0 then 0
    else SuccessCount(details[..|details| - 1]) + (if details[|details| - 1].Downloaded? then 1 else 0)
  }

  function SavedTotal(details: seq<DownloadResult>): nat
  {
    if |details| == 0 then 0
    else
      var last := details[|details| - 1];
      SavedTotal(details[..|details| - 1]) + (if last.Downloaded? then last.savedRecords else 0)
  }

  /** The result's `message`. */
  function AllCitiesMessage(r: AllCitiesResult): string
  {
    "完成 " + IntToDecimal(r.successCities) + "/" + IntToDecimal(r.totalCities) + " 个城市的数据下载"
  }

  /** The message reads back the success count and the number of cities:
      two results give the same message exactly when both agree. */
  lemma AllCitiesMessageReadsBack(a: AllCitiesResult, b: AllCitiesResult)
    ensures AllCitiesMessage(a) == AllCitiesMessage(b) <==>
      a.successCities == b.successCities && a.totalCities == b.totalCities
  {
    if AllCitiesMessage(a) == AllCitiesMessage(b) {
      var s1, t1 := NatToDecimal(a.successCities), NatToDecimal(a.totalCities);
      var s2, t2 := NatToDecimal(b.successCities), NatToDecimal(b.totalCities);
      AllCitiesMessageShape(a);
      AllCitiesMessageShape(b);
      StripFrame("完成 ", s1 + ['/'] + t1, s2 + ['/'] + t2, " 个城市的数据下载");
      SplitAtSeparator(s1, t1, s2, t2, '/');
      NatToDecimalInjective(a.successCities, b.successCities);
      NatToDecimalInjective(a.totalCities, b.totalCities);
    }
  }

  lemma AllCitiesMessageShape(r: AllCitiesResult)
    ensures AllCitiesMessage(r) ==
      "完成 " + (NatToDecimal(r.successCities) + ['/'] + NatToDecimal(r.totalCities)) + " 个城市的数据下载"
  {
    assert IntToDecimal(r.successCities) == NatToDecimal(r.successCities);
    assert IntToDecimal(r.totalCities) == NatToDecimal(r.totalCities);
  }

  /** Texts equal under the same prefix and suffix are equal. */
  lemma StripFrame(pre: string, x: string, y: string, post: string)
    requires pre + x + post == pre + y + post
    ensures x == y
  {
    var m := pre + x + post;
    assert x == m[|pre|..|pre| + |x|];
    assert y == (pre + y + post)[|pre|..|pre| + |y|];
  }

  /** Every enabled city, by id, downloaded in turn; `fetched(i)` and
      `saved(i)` are the outcomes for the i-th city. A failure is recorded
      and the loop goes on. */
  method BatchDownloadAllCities(cities: CityManager, startDay: int, endDay: int,
                                fetched: nat -> Result<nat>, saved: nat -> Result<nat>)
    returns (result: AllCitiesResult)
    requires cities.Valid()
    ensures var list := cities.GetAllCities();
      result.totalCities == |list| && |result.details| == |list| &&
      (forall i :: 0 <= i < |list| ==>
        result.details[i] == BatchDownload(cities, list[i].id, startDay, endDay, fetched(i), saved(i))) &&
      result.successCities == SuccessCount(result.details) &&
      result.totalSavedRecords == SavedTotal(result.details)
  {
    var list := cities.GetAllCities();
    var results, totalSaved := DownloadEach(cities.table, list, startDay, endDay, fetched, saved);
    var successCount := CountSuccesses(results);
    result := AllCitiesResult(|list|, successCount, totalSaved, results);
  }

  /** The loop of the all-cities download over the listed cities. */
  method DownloadEach(table: map<int, City>, list: seq<City>, startDay: int, endDay: int,
                      fetched: nat -> Result<nat>, saved: nat -> Result<nat>)
    returns (results: seq<DownloadResult>, totalSaved: nat)
    ensures |results| == |list|
    ensures forall k :: 0 <= k < |list| ==>
      results[k] == Download(table, list[k].id, startDay, endDay, fetched(k), saved(k))
    ensures totalSaved == SavedTotal(results)
  {
    results := [];
    totalSaved := 0;
    for i := 0 to |list|
      invariant |results| == i
      invariant forall k :: 0 <= k < i ==>
        results[k] == Download(table, list[k].id, startDay, endDay, fetched(k), saved(k))
      invariant totalSaved == SavedTotal(results)
    {
      var one := Download(table, list[i].id, startDay, endDay, fetched(i), saved(i));
      SavedTotalSnoc(results, one);
      results := results + [one];
      if one.Downloaded? {
        totalSaved := totalSaved + one.savedRecords;
      }
    }
  }

  lemma SavedTotalSnoc(details: seq<DownloadResult>, one: DownloadResult)
    ensures SavedTotal(details + [one]) == SavedTotal(details) + (if one.Downloaded? then one.savedRecords else 0)
  {
    assert (details + [one])[..|details|] == details;
  }

  /** `sum(1 for r in results if r['success'])`. */
  method CountSuccesses(results: seq<DownloadResult>) returns (count: nat)
    ensures count == SuccessCount(results)
  {
    count := 0;
    for i := 0 to |results|
      invariant count == SuccessCount(results[..i])
    {
      assert results[..i + 1][..i] == results[..i];
      if results[i].Downloaded? {
        count := count + 1;
      }
    }
    assert results[..|results|] == results;
  }

  /** At most every city succeeds, and all do exactly when no result failed. */
  lemma {:induction false} SuccessCountBounds(details: seq<DownloadResult>)
    ensures SuccessCount(details) <= |details|
    ensures SuccessCount(details) == |details| <==> forall k :: 0 <= k < |details| ==> details[k].Downloaded?
  {
    if |details| > 0 {
      var front := details[..|details| - 1];
      SuccessCountBounds(front);
      if forall k :: 0 <= k < |details| ==> details[k].Downloaded? {
        assert forall k :: 0 <= k < |front| ==> front[k].Downloaded? by {
          forall k | 0 <= k < |front| ensures front[k].Downloaded? {
            assert front[k] == details[k];
          }
        }
      }
      if SuccessCount(details) == |details| {
        forall k | 0 <= k < |details| ensures details[k].Downloaded? {
          if k < |front| {
            assert front[k] == details[k];
          }
        }
      }
    }
  }

  /** A listed city is always known, so in the all-cities run a city fails
      only when its own fetch or save raised. */
  lemma AllCitiesFailuresAreRaised(cities: CityManager, startDay: int, endDay: int,
                                   fetched: nat -> Result<nat>, saved: nat -> Result<nat>, i: nat)
    requires cities.Valid()
    requires i < |cities.GetAllCities()|
    ensures var r := BatchDownload(cities, cities.GetAllCities()[i].id, startDay, endDay, fetched(i), saved(i));
      r.Downloaded? <==> fetched(i).Success? && saved(i).Success?
  {
  }
}
