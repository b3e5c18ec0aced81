/** The `api_cache` table: responses of the weather API stored under a key
    with an expiry instant. Instants are whole seconds on one clock; the
    caller passes the current instant `now`. */
module Cache {
  import opened Wrappers

  /** One row: the stored response and the instant after which it is stale. */
  datatype CacheEntry<V> = CacheEntry(value: V, expiresAt: int)

  type Store<V> = map<string, CacheEntry<V>>

  /** The manager's expiry when none is given: 720 hours, thirty days. */
  const DefaultExpireHours: int := 720
  const SecondsPerHour: int := 3600

  /** `now + timedelta(hours=hours)`. */
  function ExpiresAt(now: int, hours: int): int
  {
    now + hours * SecondsPerHour
  }

  /** What `get` answers: the value while `now` has not passed the expiry
      (the expiry instant itself still counts as fresh), otherwise nothing. */
  function Lookup<V>(s: Store<V>, key: string, now: int): (r: Option<V>)
    ensures r.Some? <==> key in s && now <= s[key].expiresAt
    ensures r.Some? ==> r.value == s[key].value
  {
    if key in s && now <= s[key].expiresAt then Some(s[key].value) else None
  }

  /** The table after `get`: a stale row it looked at is deleted. */
  function AfterGet<V>(s: Store<V>, key: string, now: int): (t: Store<V>)
    ensures key in s && now > s[key].expiresAt ==> t == s - {key}
    ensures !(key in s && now > s[key].expiresAt) ==> t == s
  {
    if key in s && now > s[key].expiresAt then s - {key} else s
  }

  /** `INSERT OR REPLACE`: the key's value and expiry are both replaced. */
  function Put<V>(s: Store<V>, key: string, value: V, expiresAt: int): (t: Store<V>)
    ensures key in t && t[key] == CacheEntry(value, expiresAt)
    ensures forall k :: k != key ==> (k in t <==> k in s) && (k in s ==> t[k] == s[k])
  {
    s[key := CacheEntry(value, expiresAt)]
  }

  /** The keys `clear_expired` deletes: expiry strictly before `now`. */
  function StaleKeys<V>(s: Store<V>, now: int): (keys: set<string>)
    ensures forall k :: k in keys <==> k in s && s[k].expiresAt < now
  {
    set k | k in s && s[k].expiresAt < now
  }

  /** The rows `clear_expired` keeps. */
  function Unexpired<V>(s: Store<V>, now: int): (t: Store<V>)
    ensures forall k :: k in t <==> k in s && s[k].expiresAt >= now
    ensures forall k :: k in t ==> t[k] == s[k]
  {
    map k | k in s && s[k].expiresAt >= now :: s[k]
  }

  /** `get_cache_stats`' counters; `expired` is `total - valid`. */
  datatype CacheStats = CacheStats(total: nat, valid: nat, expired: int, expireHours: int)

  /** The rows `get_cache_stats` counts as valid: expiry strictly after `now`. */
  function ValidKeys<V>(s: Store<V>, now: int): (keys: set<string>)
    ensures forall k :: k in keys <==> k in s && s[k].expiresAt > now
  {
    set k | k in s && s[k].expiresAt > now
  }

  /** The cache manager over its table. */
  class CacheManager<V> {
    var entries: Store<V>
    const expireHours: int

    /** Over the table's current rows; `hours` is the expiry given, if any,
        and without one the manager keeps rows for `DefaultExpireHours`. */
    constructor(entries: Store<V>, hours: Option<int>)
      ensures this.entries == entries
      ensures hours.None? ==> expireHours == DefaultExpireHours
      ensures hours.Some? ==> expireHours == hours.value
    {
      this.entries := entries;
      this.expireHours := if hours.None? then DefaultExpireHours else hours.value;
    }

    /** The fresh value under `key`; a stale row is deleted on the way. */
    method Get(key: string, now: int) returns (v: Option<V>)
      modifies this
      ensures v == Lookup(old(entries), key, now)
      ensures entries == AfterGet(old(entries), key, now)
    {
      if key !in entries {
        return None;
      }
      var row := entries[key];
      if now > row.expiresAt {
        var _ := DeleteCache(key);
        return None;
      }
      v := Some(row.value);
    }

    /** Stores `value` until `now` plus the given hours, or the manager's
        own hours when none are given. */
    method Set(key: string, value: V, hours: Option<int>, now: int) returns (ok: bool)
      modifies this
      ensures ok
      ensures entries == Put(old(entries), key, value,
        ExpiresAt(now, if hours.None? then expireHours else hours.value))
    {
      var h := if hours.None? then expireHours else hours.value;
      entries := entries[key := CacheEntry(value, ExpiresAt(now, h))];
      ok := true;
    }

    /** A missing key counts as expired; otherwise expired once `now` is past the expiry. */
    function IsExpired(key: string, now: int): (expired: bool)
      reads this
      ensures expired <==> Lookup(entries, key, now).None?
    {
      key !in entries || now > entries[key].expiresAt
    }

    /** True exactly when a row was deleted. */
    method DeleteCache(key: string) returns (deleted: bool)
      modifies this
      ensures deleted <==> key in old(entries)
      ensures entries == old(entries) - {key}
    {
      deleted := key in entries;
      entries := entries - {key};
    }

    /** Deletes every row whose expiry is before `now` and returns how many. */
    method ClearExpired(now: int) returns (count: nat)
      modifies this
      ensures entries == Unexpired(old(entries), now)
      ensures count == |StaleKeys(old(entries), now)|
    {
      count := |StaleKeys(entries, now)|;
      entries := Unexpired(entries, now);
    }

    /** Deletes every row and returns how many there were. */
    method ClearAll() returns (count: nat)
      modifies this
      ensures entries == map[]
      ensures count == |old(entries)|
    {
      count := |entries|;
      entries := map[];
    }

    /** The row counts: all rows, the valid ones, and the rest. */
    function GetCacheStats(now: int): (stats: CacheStats)
      reads this
      ensures stats.total == |entries|
      ensures stats.valid == |ValidKeys(entries, now)| <= stats.total
      ensures stats.valid + stats.expired == stats.total
      ensures stats.expireHours == expireHours
    {
      var valid := ValidKeys(entries, now);
      assert valid <= entries.Keys;
      SubsetCard(valid, entries.Keys);
      CacheStats(|entries|, |valid|, |entries| - |valid|, expireHours)
    }
  }

  lemma {:induction false} SubsetCard<T>(a: set<T>, b: set<T>)
    requires a <= b
    ensures |a| <= |b|
    decreases |b|
  {
    if a != {} {
      var x :| x in a;
      SubsetCard(a - {x}, b - {x});
    }
  }

  /** A value just stored is what `get` returns until its expiry has passed,
      and storing under one key leaves every other key's answer alone. */
  lemma PutThenLookup<V>(s: Store<V>, key: string, value: V, setAt: int, hours: int, now: int, other: string)
    requires setAt <= now <= ExpiresAt(setAt, hours)
    requires other != key
    ensures Lookup(Put(s, key, value, ExpiresAt(setAt, hours)), key, now) == Some(value)
    ensures Lookup(Put(s, key, value, ExpiresAt(setAt, hours)), other, now) == Lookup(s, other, now)
  {
  }

  /** Storing twice under one key keeps only the second value and expiry. */
  lemma PutReplaces<V>(s: Store<V>, key: string, v1: V, e1: int, v2: V, e2: int)
    ensures Put(Put(s, key, v1, e1), key, v2, e2) == Put(s, key, v2, e2)
  {
  }

  /** After `clear_expired` every row that `get` would still return is
      there, unchanged, and the rows removed plus the rows left are all the rows. */
  lemma ClearExpiredKeepsFresh<V>(s: Store<V>, now: int, key: string)
    ensures Lookup(Unexpired(s, now), key, now) == Lookup(s, key, now)
    ensures |StaleKeys(s, now)| + |Unexpired(s, now)| == |s|
  {
    var kept := Unexpired(s, now);
    assert kept.Keys == s.Keys - StaleKeys(s, now);
  }

  /** At the expiry instant itself the three checks disagree: `get` still
      returns the value and `clear_expired` keeps the row, but the
      statistics count it among the expired ones. */
  lemma ExpiryInstant<V>(s: Store<V>, key: string)
    requires key in s
    ensures Lookup(s, key, s[key].expiresAt) == Some(s[key].value)
    ensures key !in StaleKeys(s, s[key].expiresAt)
    ensures key !in ValidKeys(s, s[key].expiresAt)
  {
  }
}
