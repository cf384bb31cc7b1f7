/**
 * `cacheManage`: a module-level key-value store whose entries may carry an expiry time.
 * `setCache(name, value, ttl = null)` stores `value`, expiring `ttl` ms later when `ttl` is a non-zero
 * number; `getCache(name)` returns the value while it has not expired and `undefined` otherwise,
 * deleting an expired entry;
 * `deleteCache(name)` removes the entry. The clock is an explicit parameter.
 */
module CacheManage {
  import opened Wrappers

  /** A JSON value, what the store holds after `JSON.stringify` and hands back after `JSON.parse`. */
  datatype Json =
    | JNull
    | JBool(b: bool)
    | JNumber(text: string)
    | JString(s: string)
    | JArray(items: seq<Json>)
    | JObject(members: seq<(string, Json)>)

  /** `CacheNames`. */
  const Pharmacies: string := "pharmacies"
  const DailyPharmacies: string := "dailyPharmacies"

  /** A stored value and the instant, in ms, from which it no longer reads; `None` never expires. */
  datatype Entry = Entry(value: Json, expires: Option<int>)

  /** A `null` ttl, and a ttl of 0, store an entry without expiry; any other ttl counts from now. */
  function ExpiryOf(now: int, ttl: Option<int>): (e: Option<int>)
    ensures e.None? <==> ttl.None? || ttl == Some(0)
    ensures e.Some? ==> e.value == now + ttl.value
  {
    match ttl
    case None => None
    case Some(t) => if t == 0 then None else Some(now + t)
  }

  /** An entry reads as a hit strictly before its expiry instant. */
  predicate Live(e: Entry, now: int) {
    e.expires.None? || now < e.expires.value
  }

  /** What `getCache(name)` returns at instant `now`; `None` is `undefined`. */
  function Read(store: map<string, Entry>, name: string, now: int): (r: Option<Json>)
    ensures r.Some? <==> name in store && Live(store[name], now)
    ensures r.Some? ==> r.value == store[name].value
  {
    if name in store && Live(store[name], now) then Some(store[name].value) else None
  }

  /** The store after `setCache(name, value, ttl)` at instant `now`. */
  function Written(store: map<string, Entry>, name: string, value: Json, now: int, ttl: Option<int>)
    : (r: map<string, Entry>)
    ensures r.Keys == store.Keys + {name}
    ensures r[name] == Entry(value, ExpiryOf(now, ttl))
    ensures forall k :: k in store && k != name ==> r[k] == store[k]
  {
    store[name := Entry(value, ExpiryOf(now, ttl))]
  }

  /** The store after a read of `name` at `now`: an entry the read finds expired is deleted. */
  function Pruned(store: map<string, Entry>, name: string, now: int): (r: map<string, Entry>)
    ensures r.Keys == if name in store && !Live(store[name], now) then store.Keys - {name} else store.Keys
    ensures forall k :: k in r ==> r[k] == store[k]
  {
    if name in store && !Live(store[name], now) then store - {name} else store
  }

  class Cache {
    var store: map<string, Entry>

    constructor ()
      ensures store == map[]
    {
      store := map[];
    }

    /** Resolves to the live value, deleting the entry when it has expired. */
    method GetCache(cacheName: string, now: int) returns (value: Option<Json>)
      modifies this
      ensures value == Read(old(store), cacheName, now)
      ensures store == Pruned(old(store), cacheName, now)
    {
      if cacheName in store && Live(store[cacheName], now) {
        value := Some(store[cacheName].value);
      } else {
        value := None;
        if cacheName in store {
          store := store - {cacheName};
        }
      }
    }

    /** Stores the entry and resolves to the value it was given. */
    method SetCache(cacheName: string, value: Json, now: int, ttl: Option<int> := None) returns (r: Json)
      modifies this
      ensures r == value
      ensures store == Written(old(store), cacheName, value, now, ttl)
    {
      store := store[cacheName := Entry(value, ExpiryOf(now, ttl))];
      r := value;
    }

    method DeleteCache(cacheName: string)
      modifies this
      ensures store == old(store) - {cacheName}
    {
      store := store - {cacheName};
    }
  }

  /** A value written without a ttl, or with a ttl of 0, reads back at every later instant. */
  lemma ReadAfterWriteNoExpiry(store: map<string, Entry>, name: string, value: Json, now: int, ttl: Option<int>, later: int)
    requires ttl.None? || ttl == Some(0)
    ensures Read(Written(store, name, value, now, ttl), name, later) == Some(value)
  {
  }

  /** A value written with a ttl reads back exactly at the instants before set time plus ttl. */
  lemma ReadAfterWriteWithTtl(store: map<string, Entry>, name: string, value: Json, now: int, ttl: int, later: int)
    requires ttl != 0
    ensures Read(Written(store, name, value, now, Some(ttl)), name, later)
            == if later < now + ttl then Some(value) else None
  {
  }

  /** Writing one name leaves what every other name reads unchanged. */
  lemma WriteFrame(store: map<string, Entry>, name: string, value: Json, now: int, ttl: Option<int>, other: string, t: int)
    requires other != name
    ensures Read(Written(store, name, value, now, ttl), other, t) == Read(store, other, t)
  {
  }

  /** After a delete the name misses, and every other name reads as before. */
  lemma DeleteMisses(store: map<string, Entry>, name: string, other: string, t: int)
    ensures Read(store - {name}, name, t) == None
    ensures other != name ==> Read(store - {name}, other, t) == Read(store, other, t)
  {
  }

  /** Once an entry has expired it stays a miss for as long as the clock moves forward. */
  lemma ExpiredStaysMissing(store: map<string, Entry>, name: string, t: int, later: int)
    requires t <= later && Read(store, name, t) == None
    ensures Read(store, name, later) == None
  {
  }

  /**
   * Deleting what a read found expired changes no later read: the pruned name misses then as it did,
   * and every other entry is kept.
   */
  lemma PruneKeepsReads(store: map<string, Entry>, name: string, now: int, other: string, later: int)
    requires now <= later
    ensures Read(Pruned(store, name, now), other, later) == Read(store, other, later)
  {
  }

  /** The two cache names differ, so writing the daily list never changes the full list, and back. */
  lemma CacheNamesIndependent(store: map<string, Entry>, value: Json, now: int, ttl: Option<int>, t: int)
    ensures Read(Written(store, Pharmacies, value, now, ttl), DailyPharmacies, t) == Read(store, DailyPharmacies, t)
    ensures Read(Written(store, DailyPharmacies, value, now, ttl), Pharmacies, t) == Read(store, Pharmacies, t)
  {
    WriteFrame(store, Pharmacies, value, now, ttl, DailyPharmacies, t);
    WriteFrame(store, DailyPharmacies, value, now, ttl, Pharmacies, t);
  }
}
