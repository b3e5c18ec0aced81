/** The `city_config` table and the manager that reads and changes it. */
module Cities {
  import opened Wrappers
  import opened Ordering

  /** The region a city is added to when none is given. */
  const DefaultRegion: string := "广西"

  /** One row of `city_config`; `active` is `is_active = 1`. */
  datatype City = City(id: int, name: string, longitude: real, latitude: real, region: string, active: bool)

  /** The rows whose ids are `ids`, in that order. */
  function RowsOf(table: map<int, City>, ids: seq<int>): (rows: seq<City>)
    requires forall k :: 0 <= k < |ids| ==> ids[k] in table
    ensures |rows| == |ids|
    ensures forall k :: 0 <= k < |ids| ==> rows[k] == table[ids[k]]
  {
    if |ids| == 0 then [] else [table[ids[0]]] + RowsOf(table, ids[1..])
  }

  /** `SELECT * ... WHERE <keep> ORDER BY id`: every row that `keep`
      accepts, nothing else, by increasing id. */
  function Select(table: map<int, City>, keep: City -> bool): (rows: seq<City>)
    requires forall id :: id in table ==> table[id].id == id
    ensures forall k :: 0 <= k < |rows| ==> rows[k].id in table && table[rows[k].id] == rows[k] && keep(rows[k])
    ensures forall id :: id in table && keep(table[id]) ==> table[id] in rows
    ensures forall i, j :: 0 <= i < j < |rows| ==> rows[i].id < rows[j].id
  {
    var chosen := set id | id in table && keep(table[id]);
    var ids := SortedSet(chosen);
    SelectRows(table, keep, ids);
    RowsOf(table, ids)
  }

  lemma SelectRows(table: map<int, City>, keep: City -> bool, ids: seq<int>)
    requires forall id :: id in table ==> table[id].id == id
    requires forall x :: x in ids <==> x in table && keep(table[x])
    requires Ascending(ids)
    ensures forall k :: 0 <= k < |ids| ==> ids[k] in table
    ensures var rows := RowsOf(table, ids);
      (forall k :: 0 <= k < |rows| ==> rows[k].id in table && table[rows[k].id] == rows[k] && keep(rows[k])) &&
      (forall id :: id in table && keep(table[id]) ==> table[id] in rows) &&
      (forall i, j :: 0 <= i < j < |rows| ==> rows[i].id < rows[j].id)
  {
    forall k | 0 <= k < |ids| ensures ids[k] in table && keep(table[ids[k]]) {
      assert ids[k] in ids;
    }
    var rows := RowsOf(table, ids);
    forall id | id in table && keep(table[id]) ensures table[id] in rows {
      assert id in ids;
      var k :| 0 <= k < |ids| && ids[k] == id;
      assert rows[k] == table[id];
    }
  }

  /** `(MAX(id) or 0) + 1`: 1 for an empty table. */
  function NextId(ids: set<int>): (id: int)
    ensures forall x :: x in ids ==> x < id
  {
    (if ids == {} || SetMax(ids) == 0 then 0 else SetMax(ids)) + 1
  }

  /** The city manager over its table, keyed by id. */
  class CityManager {
    var table: map<int, City>

    /** Each row is stored under its own id, and `city_name` is UNIQUE. */
    predicate Valid()
      reads this
    {
      (forall id :: id in table ==> table[id].id == id) &&
      (forall a, b :: a in table && b in table && table[a].name == table[b].name ==> a == b)
    }

    constructor(rows: map<int, City>)
      requires forall id :: id in rows ==> rows[id].id == id
      requires forall a, b :: a in rows && b in rows && rows[a].name == rows[b].name ==> a == b
      ensures Valid()
      ensures table == rows
    {
      table := rows;
    }

    /** The enabled cities, by increasing id. */
    function GetAllCities(): (rows: seq<City>)
      reads this
      requires Valid()
      ensures forall k :: 0 <= k < |rows| ==> rows[k].id in table && table[rows[k].id] == rows[k] && rows[k].active
      ensures forall id :: id in table && table[id].active ==> table[id] in rows
      ensures forall i, j :: 0 <= i < j < |rows| ==> rows[i].id < rows[j].id
    {
      Select(table, (c: City) => c.active)
    }

    /** The row with this id, enabled or not. */
    function GetCityById(id: int): (c: Option<City>)
      reads this
      ensures c.Some? <==> id in table
      ensures c.Some? ==> c.value == table[id]
    {
      if id in table then Some(table[id]) else None
    }

    /** The row with this name, enabled or not. */
    function GetCityByName(name: string): (c: Option<City>)
      reads this
      requires Valid()
      ensures c.Some? <==> exists id :: id in table && table[id].name == name
      ensures c.Some? ==> c.value.id in table && table[c.value.id] == c.value && c.value.name == name
    {
      var rows := Select(table, (c: City) => c.name == name);
      if |rows| == 0 then None else Some(rows[0])
    }

    /** `(longitude, latitude)` of the city, or None for an unknown id. */
    function GetCoordinates(id: int): (p: Option<(real, real)>)
      reads this
      ensures p.Some? <==> id in table
      ensures p.Some? ==> p.value == (table[id].longitude, table[id].latitude)
    {
      match GetCityById(id)
      case Some(c) => Some((c.longitude, c.latitude))
      case None => None
    }

    /** The enabled cities of one region, by increasing id. */
    function GetCitiesByRegion(region: string): (rows: seq<City>)
      reads this
      requires Valid()
      ensures forall k :: 0 <= k < |rows| ==>
        rows[k].id in table && table[rows[k].id] == rows[k] && rows[k].active && rows[k].region == region
      ensures forall id :: id in table && table[id].active && table[id].region == region ==> table[id] in rows
      ensures forall i, j :: 0 <= i < j < |rows| ==> rows[i].id < rows[j].id
    {
      Select(table, (c: City) => c.active && c.region == region)
    }

    /** A known name gives back its id and changes nothing (even when that
        city is disabled); a new name is inserted, enabled, under the next
        id, in the region given or else in `DefaultRegion`. */
    method AddCity(name: string, longitude: real, latitude: real, region: Option<string>) returns (id: int)
      requires Valid()
      modifies this
      ensures Valid()
      ensures (exists x :: x in old(table) && old(table)[x].name == name) ==>
        id in old(table) && old(table)[id].name == name && table == old(table)
      ensures (forall x :: x in old(table) ==> old(table)[x].name != name) ==>
        id == NextId(old(table).Keys) && id !in old(table) &&
        table == old(table)[id := City(id, name, longitude, latitude,
                                       if region.None? then DefaultRegion else region.value, true)]
    {
      var existing := GetCityByName(name);
      if existing.Some? {
        return existing.value.id;
      }
      id := NextId(table.Keys);
      var r := if region.None? then DefaultRegion else region.value;
      table := table[id := City(id, name, longitude, latitude, r, true)];
    }

    /** Sets one city's enabled flag; false, with nothing changed, when the
        id is unknown. */
    method UpdateCityStatus(id: int, active: bool) returns (updated: bool)
      requires Valid()
      modifies this
      ensures Valid()
      ensures updated <==> id in old(table)
      ensures updated ==> table == old(table)[id := old(table)[id].(active := active)]
      ensures !updated ==> table == old(table)
    {
      if id !in table {
        return false;
      }
      table := table[id := table[id].(active := active)];
      updated := true;
    }
  }

  /** A disabled city is still found by id, but never listed. */
  lemma DisabledFoundButNotListed(m: CityManager, id: int)
    requires m.Valid() && id in m.table && !m.table[id].active
    ensures m.GetCityById(id) == Some(m.table[id])
    ensures m.table[id] !in m.GetAllCities()
  {
  }

  /** A fresh id is larger than every id in use, so it never collides. */
  lemma NextIdIsFresh(ids: set<int>)
    ensures NextId(ids) !in ids
    ensures ids == {} ==> NextId(ids) == 1
  {
  }
}
