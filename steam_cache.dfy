/**
 * The in-memory Workshop item cache (steam/cache.go): items stored by ID with
 * the time they were stored, read back only while younger than the expiration.
 * The clock is a parameter: `now` is the current Unix time in seconds.
 */
module Cache {
  import opened Wrappers
  import opened Items

  /** The expiration of the process-wide cache of steam/items.go: five minutes. */
  const DefaultExpirationSeconds := 5 * 60

  datatype CacheEntry = CacheEntry(item: WorkshopItem, lastUpdated: int)

  /** The item stored under `id`, unless there is none or it is older than `expiration` at `now`. */
  function Fresh(items: map<string, CacheEntry>, expiration: int, id: string, now: int): (r: Option<WorkshopItem>)
    ensures r.Some? <==> id in items && now - items[id].lastUpdated <= expiration
    ensures r.Some? ==> r.value == items[id].item
  {
    if id !in items then None
    else if now - items[id].lastUpdated > expiration then None
    else Some(items[id].item)
  }

  class WorkshopItemCache {
    var expiration: int
    var items: map<string, CacheEntry>

    /** NewWorkshopItemCache: an empty cache with the given expiration in seconds. */
    constructor (expiration: int)
      ensures this.expiration == expiration && items == map[]
    {
      this.expiration := expiration;
      items := map[];
    }

    /** Get: the stored item while it is fresh; a stale entry is reported missing and left in place. */
    method Get(id: string, now: int) returns (item: Option<WorkshopItem>)
      ensures item == Fresh(items, expiration, id, now)
      ensures item.Some? <==> id in items && now - items[id].lastUpdated <= expiration
    {
      if id !in items {
        return None;
      }
      var entry := items[id];
      if now - entry.lastUpdated > expiration {
        return None;
      }
      return Some(entry.item);
    }

    /** Set: store the item under `id`, stamped with `now`, replacing what was there. */
    method Set(id: string, item: WorkshopItem, now: int)
      modifies this
      ensures expiration == old(expiration)
      ensures items == old(items)[id := CacheEntry(item, now)]
    {
      items := items[id := CacheEntry(item, now)];
    }

    /** Delete: forget the entry for `id`. */
    method Delete(id: string)
      modifies this
      ensures expiration == old(expiration)
      ensures items == old(items) - {id}
    {
      items := items - {id};
    }

    /** Clear: forget every entry. */
    method Clear()
      modifies this
      ensures expiration == old(expiration)
      ensures items == map[]
    {
      items := map[];
    }
  }

  /** After a store at time `t`, the item is read back at any time up to `t + expiration`. */
  lemma FreshAfterStore(items: map<string, CacheEntry>, expiration: int, id: string, item: WorkshopItem, t: int, now: int)
    requires now <= t + expiration
    ensures Fresh(items[id := CacheEntry(item, t)], expiration, id, now) == Some(item)
  {
  }

  /** ... and is reported missing afterwards, until it is stored again. */
  lemma StaleAfterExpiration(items: map<string, CacheEntry>, expiration: int, id: string, item: WorkshopItem, t: int, now: int)
    requires now > t + expiration
    ensures Fresh(items[id := CacheEntry(item, t)], expiration, id, now) == None
  {
  }

  /** A store under one ID changes no other ID's reading. */
  lemma StoreKeepsOthers(items: map<string, CacheEntry>, expiration: int, id: string, item: WorkshopItem, t: int, other: string, now: int)
    requires other != id
    ensures Fresh(items[id := CacheEntry(item, t)], expiration, other, now) == Fresh(items, expiration, other, now)
  {
  }

  /** After a delete the ID is missing and every other ID reads as before. */
  lemma DeleteOnlyThat(items: map<string, CacheEntry>, expiration: int, id: string, other: string, now: int)
    ensures Fresh(items - {id}, expiration, id, now) == None
    ensures other != id ==> Fresh(items - {id}, expiration, other, now) == Fresh(items, expiration, other, now)
  {
  }

  /** After a clear every read misses. */
  lemma ClearedMisses(expiration: int, id: string, now: int)
    ensures Fresh(map[], expiration, id, now) == None
  {
  }

  /** An entry read at some time was also read at every earlier time: a stale entry never becomes fresh again. */
  lemma FreshnessMonotone(items: map<string, CacheEntry>, expiration: int, id: string, now: int, later: int)
    requires now <= later
    ensures Fresh(items, expiration, id, later).Some? ==> Fresh(items, expiration, id, now).Some?
  {
  }
}
