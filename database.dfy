/** The `weather_data` table: one row per (city, timestamp), the filter ->
    WHERE-clause builder used by its query, delete and statistics, and the
    upserting bulk insert. Timestamps are TEXT and compare as SQLite's BINARY
    collation does (`Text.LexLe`). */
module Database {
  import opened Wrappers
  import opened Text

  /** A value bound to a `?` placeholder or held in a column. */
  datatype Cell = Null | IntCell(i: int) | RealCell(r: real) | TextCell(s: string)

  /** The optional `city_id`, `start_date` and `end_date` keys of a filter dictionary. */
  datatype Filters = Filters(cityId: Option<int>, startDate: Option<string>, endDate: Option<string>)

  const NoFilters := Filters(None, None, None)

  /** One condition of the WHERE clause, with the value it binds. */
  datatype Condition = CityIs(id: int) | NotBefore(date: string) | NotAfter(date: string)

  function ConditionSql(c: Condition): string
  {
    match c
    case CityIs(_) => "city_id = ?"
    case NotBefore(_) => "datetime >= ?"
    case NotAfter(_) => "datetime <= ?"
  }

  function ParamOf(c: Condition): Cell
  {
    match c
    case CityIs(id) => IntCell(id)
    case NotBefore(d) => TextCell(d)
    case NotAfter(d) => TextCell(d)
  }

  /** The position of each kind of condition in the clause. */
  function Rank(c: Condition): nat
  {
    match c
    case CityIs(_) => 0
    case NotBefore(_) => 1
    case NotAfter(_) => 2
  }

  /** A row as the query returns it. */
  datatype StoredRow = StoredRow(cityId: int, datetime: string, columns: map<string, Cell>)

  predicate Holds(c: Condition, row: StoredRow)
  {
    match c
    case CityIs(id) => row.cityId == id
    case NotBefore(d) => LexLe(d, row.datetime)
    case NotAfter(d) => LexLe(row.datetime, d)
  }

  /** What a filter means for one row, independently of any SQL text: the
      city matches when given, and both date bounds are inclusive. */
  predicate Matches(f: Filters, row: StoredRow)
  {
    (f.cityId.None? || row.cityId == f.cityId.value) &&
    (f.startDate.None? || LexLe(f.startDate.value, row.datetime)) &&
    (f.endDate.None? || LexLe(row.datetime, f.endDate.value))
  }

  /** The conditions and parameters of the three builders: one condition per
      key present, in the order city, start, end, each with its own value. */
  method BuildConditions(f: Filters) returns (conditions: seq<Condition>, params: seq<Cell>)
    ensures |params| == |conditions|
    ensures forall k :: 0 <= k < |conditions| ==> params[k] == ParamOf(conditions[k])
    ensures forall row :: AllHold(conditions, row) <==> Matches(f, row)
    ensures forall i, j :: 0 <= i < j < |conditions| ==> Rank(conditions[i]) < Rank(conditions[j])
    ensures |conditions| == 0 <==> f == NoFilters
  {
    conditions, params := [], [];
    if f.cityId.Some? {
      conditions := conditions + [CityIs(f.cityId.value)];
      params := params + [IntCell(f.cityId.value)];
    }
    if f.startDate.Some? {
      conditions := conditions + [NotBefore(f.startDate.value)];
      params := params + [TextCell(f.startDate.value)];
    }
    if f.endDate.Some? {
      conditions := conditions + [NotAfter(f.endDate.value)];
      params := params + [TextCell(f.endDate.value)];
    }
    var byCity := if f.cityId.Some? then [CityIs(f.cityId.value)] else [];
    var byStart := if f.startDate.Some? then [NotBefore(f.startDate.value)] else [];
    var byEnd := if f.endDate.Some? then [NotAfter(f.endDate.value)] else [];
    assert conditions == byCity + byStart + byEnd;
    forall row ensures AllHold(conditions, row) <==> Matches(f, row) {
      AllHoldConcat(byCity + byStart, byEnd, row);
      AllHoldConcat(byCity, byStart, row);
      AllHoldAtMostOne(byCity, row);
      AllHoldAtMostOne(byStart, row);
      AllHoldAtMostOne(byEnd, row);
    }
  }

  /** Every condition of the clause holds for the row. */
  predicate AllHold(conditions: seq<Condition>, row: StoredRow)
  {
    forall k :: 0 <= k < |conditions| ==> Holds(conditions[k], row)
  }

  lemma AllHoldAtMostOne(conditions: seq<Condition>, row: StoredRow)
    requires |conditions| <= 1
    ensures AllHold(conditions, row) <==> |conditions| == 0 || Holds(conditions[0], row)
  {
  }

  lemma AllHoldConcat(a: seq<Condition>, b: seq<Condition>, row: StoredRow)
    ensures AllHold(a + b, row) <==> AllHold(a, row) && AllHold(b, row)
  {
    if AllHold(a, row) && AllHold(b, row) {
      forall k | 0 <= k < |a + b| ensures Holds((a + b)[k], row) {
        if k >= |a| { assert (a + b)[k] == b[k - |a|]; }
      }
    }
    if AllHold(a + b, row) {
      forall k | 0 <= k < |a| ensures Holds(a[k], row) {
        assert (a + b)[k] == a[k];
      }
      forall k | 0 <= k < |b| ensures Holds(b[k], row) {
        assert (a + b)[|a| + k] == b[k];
      }
    }
  }

  /** The WHERE clause: the conditions joined with " AND ", or "1=1" (every
      row) when there are none. */
  function WhereClause(conditions: seq<Condition>): (w: string)
    ensures |conditions| == 0 ==> w == "1=1"
    ensures |conditions| == 1 ==> w == ConditionSql(conditions[0])
    ensures |conditions| > 1 ==> w == ConditionSql(conditions[0]) + " AND " + WhereClause(conditions[1..])
  {
    if |conditions| == 0 then "1=1" else Join(SqlTexts(conditions), " AND ")
  }

  function SqlTexts(conditions: seq<Condition>): (texts: seq<string>)
    ensures |texts| == |conditions|
    ensures forall k :: 0 <= k < |conditions| ==> texts[k] == ConditionSql(conditions[k])
  {
    if |conditions| == 0 then [] else [ConditionSql(conditions[0])] + SqlTexts(conditions[1..])
  }

  // ----- the table -----

  /** UNIQUE(city_id, datetime): the table is keyed by that pair. */
  type Key = (int, string)
  type Table = map<Key, map<string, Cell>>

  function RowAt(t: Table, k: Key): StoredRow
    requires k in t
  {
    StoredRow(k.0, k.1, t[k])
  }

  /** The keys of the rows a filter selects. */
  function Matching(t: Table, f: Filters): (keys: set<Key>)
    ensures forall k :: k in keys <==> k in t && Matches(f, RowAt(t, k))
  {
    set k | k in t && Matches(f, RowAt(t, k))
  }

  /** The table after deleting the rows a filter selects. */
  function Remaining(t: Table, f: Filters): (r: Table)
    ensures forall k :: k in r <==> k in t && !Matches(f, RowAt(t, k))
    ensures forall k :: k in r ==> r[k] == t[k]
  {
    map k | k in t && !Matches(f, RowAt(t, k)) :: t[k]
  }

  /** Timestamps never decrease from one row to the next. */
  predicate InTimeOrder(rows: seq<StoredRow>)
  {
    forall i :: 0 <= i < |rows| - 1 ==> LexLe(rows[i].datetime, rows[i + 1].datetime)
  }

  /** `row` placed into time-ordered `rows` before the first later timestamp. */
  function InsertInTimeOrder(row: StoredRow, rows: seq<StoredRow>): (r: seq<StoredRow>)
    requires InTimeOrder(rows)
    ensures InTimeOrder(r)
    ensures multiset(r) == multiset(rows) + multiset{row}
    ensures |r| == |rows| + 1
    ensures forall x :: x in r <==> x in rows || x == row
    ensures r[0] == row || (|rows| > 0 && r[0] == rows[0])
  {
    if |rows| == 0 then [row]
    else if LexLe(row.datetime, rows[0].datetime) then [row] + rows
    else
      var rest := InsertInTimeOrder(row, rows[1..]);
      LexLeTotal(row.datetime, rows[0].datetime);
      assert rows == [rows[0]] + rows[1..];
      [rows[0]] + rest
  }

  /** Ordered neighbours give a fully ordered sequence. */
  lemma {:induction false} TimeOrderAll(rows: seq<StoredRow>, i: int, j: int)
    requires InTimeOrder(rows)
    requires 0 <= i <= j < |rows|
    ensures LexLe(rows[i].datetime, rows[j].datetime)
    decreases j - i
  {
    if i == j {
      LexLeReflexive(rows[i].datetime);
    } else {
      TimeOrderAll(rows, i + 1, j);
      LexLeTransitive(rows[i].datetime, rows[i + 1].datetime, rows[j].datetime);
    }
  }

  /** `rows` holds the stored rows of exactly the keys `keys`, each once. */
  predicate Collected(rows: seq<StoredRow>, t: Table, keys: set<Key>)
  {
    (forall i :: 0 <= i < |rows| ==>
      (rows[i].cityId, rows[i].datetime) in keys && (rows[i].cityId, rows[i].datetime) in t &&
      rows[i] == RowAt(t, (rows[i].cityId, rows[i].datetime))) &&
    (forall k :: k in keys && k in t ==> RowAt(t, k) in rows) &&
    |rows| == |keys|
  }

  /** One step of the query's scan: the row of a newly selected key `k` is
      placed among the rows collected so far. */
  lemma CollectStep(rows: seq<StoredRow>, t: Table, keys: set<Key>, k: Key)
    requires InTimeOrder(rows) && Collected(rows, t, keys)
    requires k in t && k !in keys
    ensures Collected(InsertInTimeOrder(RowAt(t, k), rows), t, keys + {k})
  {
    var r := InsertInTimeOrder(RowAt(t, k), rows);
    assert |keys + {k}| == |keys| + 1;
    forall i | 0 <= i < |r|
      ensures (r[i].cityId, r[i].datetime) in keys + {k} && (r[i].cityId, r[i].datetime) in t
      ensures r[i] == RowAt(t, (r[i].cityId, r[i].datetime))
    {
      assert r[i] in r;
      if r[i] != RowAt(t, k) {
        var j :| 0 <= j < |rows| && rows[j] == r[i];
      }
    }
  }

  /** What a time-ordered collection of the selected rows guarantees, by position. */
  lemma CollectedInOrder(rows: seq<StoredRow>, t: Table, keys: set<Key>)
    requires InTimeOrder(rows) && Collected(rows, t, keys)
    requires keys <= t.Keys
    ensures forall i :: 0 <= i < |rows| ==>
      (rows[i].cityId, rows[i].datetime) in keys && rows[i] == RowAt(t, (rows[i].cityId, rows[i].datetime))
    ensures forall k :: k in keys ==> RowAt(t, k) in rows
    ensures |rows| == |keys|
    ensures forall i, j :: 0 <= i <= j < |rows| ==> LexLe(rows[i].datetime, rows[j].datetime)
  {
    forall i, j | 0 <= i <= j < |rows| ensures LexLe(rows[i].datetime, rows[j].datetime) {
      TimeOrderAll(rows, i, j);
    }
  }

  /** Statistics of the selected rows: how many, and the first and last timestamps. */
  datatype DataStats = DataStats(count: nat, startDate: Option<string>, endDate: Option<string>)

  /** The upsert of one inserted row: it replaces the whole row of its key. */
  datatype NewRow = NewRow(key: Key, columns: map<string, Cell>)

  function UpsertAll(t: Table, rows: seq<NewRow>): Table
  {
    if |rows| == 0 then t
    else UpsertAll(t, rows[..|rows| - 1])[rows[|rows| - 1].key := rows[|rows| - 1].columns]
  }

  lemma UpsertStep(t: Table, rows: seq<NewRow>, i: int)
    requires 0 <= i < |rows|
    ensures UpsertAll(t, rows[..i + 1]) == UpsertAll(t, rows[..i])[rows[i].key := rows[i].columns]
  {
    assert rows[..i + 1][..i] == rows[..i];
  }

  /** After a batch of upserts a key holds the last row given for it ... */
  lemma {:induction false} UpsertLastWins(t: Table, rows: seq<NewRow>, i: int)
    requires 0 <= i < |rows|
    requires forall j :: i < j < |rows| ==> rows[j].key != rows[i].key
    ensures rows[i].key in UpsertAll(t, rows)
    ensures UpsertAll(t, rows)[rows[i].key] == rows[i].columns
  {
    if i < |rows| - 1 {
      UpsertLastWins(t, rows[..|rows| - 1], i);
    }
  }

  /** ... and a key no row mentions keeps its old row, or stays absent. */
  lemma {:induction false} UpsertKeepsOthers(t: Table, rows: seq<NewRow>, k: Key)
    requires forall j :: 0 <= j < |rows| ==> rows[j].key != k
    ensures k in UpsertAll(t, rows) <==> k in t
    ensures k in t ==> UpsertAll(t, rows)[k] == t[k]
  {
    if |rows| > 0 {
      UpsertKeepsOthers(t, rows[..|rows| - 1], k);
    }
  }

  /** The row a record becomes: its `city_id` and `datetime` cells form the key
      and the other columns the row; None when a key cell is missing or of
      the wrong kind (the insert then fails on the table's constraints). */
  function ToRow(record: map<string, Cell>): (r: Option<NewRow>)
    ensures r.Some? ==> "city_id" in record && "datetime" in record
    ensures r.Some? ==> record["city_id"] == IntCell(r.value.key.0) && record["datetime"] == TextCell(r.value.key.1)
    ensures r.Some? ==> forall c :: c in r.value.columns <==> c in record && c != "city_id" && c != "datetime"
  {
    if "city_id" in record && "datetime" in record && record["city_id"].IntCell? && record["datetime"].TextCell? then
      Some(NewRow((record["city_id"].i, record["datetime"].s),
        map c | c in record && c != "city_id" && c != "datetime" :: record[c]))
    else None
  }

  /** Each record cut down to the given columns. */
  function Project(records: seq<map<string, Cell>>, columns: set<string>): (p: seq<map<string, Cell>>)
    requires forall i :: 0 <= i < |records| ==> columns <= records[i].Keys
    ensures |p| == |records|
    ensures forall i :: 0 <= i < |records| ==> p[i].Keys == columns
    ensures forall i, c :: 0 <= i < |records| && c in columns ==> p[i][c] == records[i][c]
  {
    if |records| == 0 then []
    else [map c | c in columns :: records[0][c]] + Project(records[1..], columns)
  }

  class WeatherTable {
    var rows: Table

    constructor(rows: Table)
      ensures this.rows == rows
    {
      this.rows := rows;
    }

    /** The selected rows, each once, in timestamp order. */
    method GetWeatherData(f: Filters) returns (result: seq<StoredRow>)
      ensures forall i :: 0 <= i < |result| ==>
        (result[i].cityId, result[i].datetime) in Matching(rows, f) &&
        result[i] == RowAt(rows, (result[i].cityId, result[i].datetime))
      ensures forall k :: k in Matching(rows, f) ==> RowAt(rows, k) in result
      ensures |result| == |Matching(rows, f)|
      ensures forall i, j :: 0 <= i <= j < |result| ==> LexLe(result[i].datetime, result[j].datetime)
    {
      var conditions, params := BuildConditions(f);
      var t := rows;
      ghost var matching := Matching(t, f);
      result := [];
      var remaining := t.Keys;
      ghost var seen: set<Key> := {};
      ghost var picked: set<Key> := {};
      while remaining != {}
        invariant forall x :: x in t <==> x in remaining || x in seen
        invariant forall x :: x in remaining ==> x !in seen
        invariant forall x :: x in picked <==> x in seen && x in matching
        invariant InTimeOrder(result)
        invariant Collected(result, t, picked)
        decreases |remaining|
      {
        var k :| k in remaining;
        var row := RowAt(t, k);
        var take := AllHold(conditions, row);
        assert take <==> k in matching;
        if take {
          CollectStep(result, t, picked, k);
          result := InsertInTimeOrder(row, result);
          picked := picked + {k};
        }
        remaining := remaining - {k};
        seen := seen + {k};
      }
      assert picked == matching;
      CollectedInOrder(result, t, matching);
    }

    /** Deletes the selected rows and returns how many; with no filter at
        all nothing is deleted, so the table can never be emptied by accident. */
    method DeleteWeatherData(f: Filters) returns (count: nat)
      modifies this
      ensures f == NoFilters ==> count == 0 && rows == old(rows)
      ensures f != NoFilters ==> rows == Remaining(old(rows), f) && count == |Matching(old(rows), f)|
    {
      var conditions, params := BuildConditions(f);
      if |conditions| == 0 {
        return 0;
      }
      count := |Matching(rows, f)|;
      rows := Remaining(rows, f);
    }

    /** Row count and first/last timestamp of the selected rows; no timestamps
        when nothing is selected. */
    method GetWeatherDataStats(f: Filters) returns (stats: DataStats)
      ensures stats.count == |Matching(rows, f)|
      ensures stats.count == 0 <==> stats.startDate.None?
      ensures stats.count == 0 <==> stats.endDate.None?
      ensures stats.startDate.Some? ==>
        (exists k :: k in Matching(rows, f) && k.1 == stats.startDate.value) &&
        forall k :: k in Matching(rows, f) ==> LexLe(stats.startDate.value, k.1)
      ensures stats.endDate.Some? ==>
        (exists k :: k in Matching(rows, f) && k.1 == stats.endDate.value) &&
        forall k :: k in Matching(rows, f) ==> LexLe(k.1, stats.endDate.value)
    {
      var selected := GetWeatherData(f);
      if |selected| == 0 {
        return DataStats(0, None, None);
      }
      var first, last := selected[0], selected[|selected| - 1];
      assert (first.cityId, first.datetime) in Matching(rows, f);
      assert (last.cityId, last.datetime) in Matching(rows, f);
      forall k | k in Matching(rows, f)
        ensures LexLe(first.datetime, k.1) && LexLe(k.1, last.datetime)
      {
        var i :| 0 <= i < |selected| && selected[i] == RowAt(rows, k);
      }
      stats := DataStats(|selected|, Some(first.datetime), Some(last.datetime));
    }

    /** `INSERT OR REPLACE` of a batch. The columns are those of the first
        record; a later record without one of them raises before anything is
        written, and a later record's extra columns are dropped. */
    method BulkInsert(records: seq<map<string, Cell>>) returns (r: Result<nat>)
      modifies this
      ensures |records| == 0 ==> r == Success(0) && rows == old(rows)
      ensures |records| > 0 && (exists i :: 0 <= i < |records| && !(records[0].Keys <= records[i].Keys)) ==>
        r.Failure? && rows == old(rows)
      ensures r.Failure? ==> rows == old(rows)
      ensures r.Success? ==> r.value == |records|
      ensures (|records| > 0 && (forall i :: 0 <= i < |records| ==> records[0].Keys <= records[i].Keys) &&
               (forall i :: 0 <= i < |records| ==> ToRow(Project(records, records[0].Keys)[i]).Some?))
              ==> r.Success?
      ensures r.Success? && |records| > 0 ==>
        (forall i :: 0 <= i < |records| ==> records[0].Keys <= records[i].Keys) &&
        var p := Project(records, records[0].Keys);
        (forall i :: 0 <= i < |p| ==> ToRow(p[i]).Some?) &&
        rows == UpsertAll(old(rows), NewRows(p))
    {
      if |records| == 0 {
        return Success(0);
      }
      var columns := records[0].Keys;
      if exists i :: 0 <= i < |records| && !(columns <= records[i].Keys) {
        return Failure("KeyError");
      }
      var values := Project(records, columns);
      if exists i :: 0 <= i < |values| && ToRow(values[i]).None? {
        return Failure("IntegrityError");
      }
      var newRows := NewRows(values);
      var t := rows;
      var i := 0;
      while i < |newRows|
        invariant 0 <= i <= |newRows|
        invariant t == UpsertAll(old(rows), newRows[..i])
      {
        UpsertStep(old(rows), newRows, i);
        t := t[newRows[i].key := newRows[i].columns];
        i := i + 1;
      }
      assert newRows[..|newRows|] == newRows;
      rows := t;
      r := Success(|records|);
    }
  }

  /** The rows a batch of records becomes, in order. */
  function NewRows(records: seq<map<string, Cell>>): (rows: seq<NewRow>)
    requires forall i :: 0 <= i < |records| ==> ToRow(records[i]).Some?
    ensures |rows| == |records|
    ensures forall i :: 0 <= i < |records| ==> rows[i] == ToRow(records[i]).value
  {
    if |records| == 0 then [] else [ToRow(records[0]).value] + NewRows(records[1..])
  }

  /** After a delete the filter selects nothing, and every other row is as it was. */
  lemma DeleteLeavesNoMatch(t: Table, f: Filters)
    ensures Matching(Remaining(t, f), f) == {}
    ensures forall k :: k in t && !Matches(f, RowAt(t, k)) ==> k in Remaining(t, f) && Remaining(t, f)[k] == t[k]
  {
    var r := Remaining(t, f);
    forall k | k in r ensures RowAt(r, k) == RowAt(t, k) {
    }
    assert Matching(r, f) == {};
  }
}
