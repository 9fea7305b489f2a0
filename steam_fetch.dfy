/**
 * Fetching Workshop items (steam/items.go FetchWorkshopItems and
 * fetchWorkshopItems): IDs are served from the cache while fresh, the rest are
 * requested from the Steam API in chunks of ten, rows the API reports as found
 * are returned and cached, the IDs of the other rows are reported missing.
 *
 * The HTTP request for one chunk is a parameter, `fetch`, a function from the
 * chunk's IDs to the rows of the answer or an error message.
 */
module Fetch {
  import opened Wrappers
  import opened Slices
  import opened Items
  import opened Cache

  /** The number of IDs sent in one request. */
  const ChunkSize: nat := 10

  /** One request to the API: the rows of the answer, or the error that ended it. */
  type ChunkFetch = seq<string> -> Result<seq<WorkshopItem>, string>

  /** The items found and the IDs reported missing. */
  datatype Fetched = Fetched(items: seq<WorkshopItem>, missing: seq<string>)

  /** A row for an item that exists. */
  predicate IsFound(row: WorkshopItem) {
    row.result == 1
  }

  /** The rows of an answer that describe existing items, in order. */
  function Found(rows: seq<WorkshopItem>): seq<WorkshopItem> {
    Filtered(rows, IsFound)
  }

  /** The IDs of the rows of an answer that do not describe an existing item, in order. */
  function MissingIds(rows: seq<WorkshopItem>): seq<string>
    decreases |rows|
  {
    if rows == [] then []
    else
      var last := rows[|rows| - 1];
      MissingIds(rows[..|rows| - 1]) + (if IsFound(last) then [] else [last.publishedFileId])
  }

  lemma {:induction false} MissingIdsConcat(a: seq<WorkshopItem>, b: seq<WorkshopItem>)
    ensures MissingIds(a + b) == MissingIds(a) + MissingIds(b)
    decreases |b|
  {
    if b == [] {
      assert a + b == a;
    } else {
      var b' := b[..|b| - 1];
      MissingIdsConcat(a, b');
      assert (a + b)[..|a + b| - 1] == a + b';
    }
  }

  /** An ID is reported missing exactly when some row with that ID is not found. */
  lemma {:induction false} MissingIdsMembers(rows: seq<WorkshopItem>, id: string)
    ensures id in MissingIds(rows) <==> exists row | row in rows :: !IsFound(row) && row.publishedFileId == id
    decreases |rows|
  {
    if rows != [] {
      var init := rows[..|rows| - 1];
      assert rows == init + [rows[|rows| - 1]];
      MissingIdsMembers(init, id);
    }
  }

  /**
   * The outcome of requesting the chunks in order: the first failing request
   * ends everything with its error; otherwise the found rows and the missing
   * IDs of every answer, in order.
   */
  function ChunksFetched(chunks: seq<seq<string>>, fetch: ChunkFetch): Result<Fetched, string>
  {
    if chunks == [] then Success(Fetched([], []))
    else
      match fetch(chunks[0])
      case Failure(e) => Failure(e)
      case Success(rows) =>
        match ChunksFetched(chunks[1..], fetch)
        case Failure(e) => Failure(e)
        case Success(rest) => Success(Fetched(Found(rows) + rest.items, MissingIds(rows) + rest.missing))
  }

  /** Results gathered so far, put in front of the outcome of the remaining requests. */
  function Prepended(items: seq<WorkshopItem>, missing: seq<string>, r: Result<Fetched, string>): Result<Fetched, string> {
    match r
    case Failure(e) => Failure(e)
    case Success(f) => Success(Fetched(items + f.items, missing + f.missing))
  }

  lemma PrependedNothing(r: Result<Fetched, string>)
    ensures Prepended([], [], r) == r
  {
    if r.Success? {
      assert [] + r.value.items == r.value.items;
      assert [] + r.value.missing == r.value.missing;
    }
  }

  /** The rows of every answer, in order; meaningful when every request succeeds. */
  function Responses(chunks: seq<seq<string>>, fetch: ChunkFetch): seq<WorkshopItem> {
    if chunks == [] then []
    else
      (match fetch(chunks[0]) case Success(rows) => rows case Failure(_) => [])
      + Responses(chunks[1..], fetch)
  }

  /** The requests fail exactly when one of them fails. */
  lemma {:induction false} ChunksFetchedFails(chunks: seq<seq<string>>, fetch: ChunkFetch)
    ensures ChunksFetched(chunks, fetch).Failure? <==> exists k | 0 <= k < |chunks| :: fetch(chunks[k]).Failure?
  {
    if chunks != [] {
      ChunksFetchedFails(chunks[1..], fetch);
      if fetch(chunks[0]).Success? && ChunksFetched(chunks, fetch).Failure? {
        var k :| 0 <= k < |chunks| - 1 && fetch(chunks[1..][k]).Failure?;
        assert chunks[1..][k] == chunks[k + 1];
      }
      if exists k | 0 <= k < |chunks| :: fetch(chunks[k]).Failure? {
        var k :| 0 <= k < |chunks| && fetch(chunks[k]).Failure?;
        if k > 0 {
          assert fetch(chunks[1..][k - 1]).Failure?;
        }
      }
    }
  }

  /** The error reported is the one of the first request that fails; later chunks are not consulted. */
  lemma {:induction false} ChunksFetchedFirstError(chunks: seq<seq<string>>, fetch: ChunkFetch, k: nat)
    requires k < |chunks| && fetch(chunks[k]).Failure?
    requires forall j | 0 <= j < k :: fetch(chunks[j]).Success?
    ensures ChunksFetched(chunks, fetch) == Failure(fetch(chunks[k]).error)
  {
    if k > 0 {
      assert fetch(chunks[0]).Success?;
      forall j | 0 <= j < k - 1
        ensures fetch(chunks[1..][j]).Success?
      {
        assert chunks[1..][j] == chunks[j + 1];
      }
      ChunksFetchedFirstError(chunks[1..], fetch, k - 1);
    }
  }

  /** When every request succeeds, the result is the found rows and missing IDs of all answers together. */
  lemma {:induction false} ChunksFetchedAll(chunks: seq<seq<string>>, fetch: ChunkFetch)
    requires forall k | 0 <= k < |chunks| :: fetch(chunks[k]).Success?
    ensures ChunksFetched(chunks, fetch)
      == Success(Fetched(Found(Responses(chunks, fetch)), MissingIds(Responses(chunks, fetch))))
  {
    if chunks != [] {
      assert fetch(chunks[0]).Success?;
      forall j | 0 <= j < |chunks| - 1
        ensures fetch(chunks[1..][j]).Success?
      {
        assert chunks[1..][j] == chunks[j + 1];
      }
      ChunksFetchedAll(chunks[1..], fetch);
      var rows := fetch(chunks[0]).value;
      FilteredConcat(rows, Responses(chunks[1..], fetch), IsFound);
      MissingIdsConcat(rows, Responses(chunks[1..], fetch));
    }
  }

  /** Every item returned exists, and every ID reported missing belongs to a row that does not. */
  lemma {:induction false} ChunksFetchedRows(chunks: seq<seq<string>>, fetch: ChunkFetch)
    requires ChunksFetched(chunks, fetch).Success?
    ensures forall row | row in ChunksFetched(chunks, fetch).value.items :: IsFound(row)
    ensures forall id | id in ChunksFetched(chunks, fetch).value.missing ::
      exists row | row in Responses(chunks, fetch) :: !IsFound(row) && row.publishedFileId == id
  {
    ChunksFetchedFails(chunks, fetch);
    ChunksFetchedAll(chunks, fetch);
    var rows := Responses(chunks, fetch);
    forall row | row in ChunksFetched(chunks, fetch).value.items
      ensures IsFound(row)
    {
      FilteredMembers(rows, IsFound, row);
    }
    forall id | id in ChunksFetched(chunks, fetch).value.missing
      ensures exists row | row in rows :: !IsFound(row) && row.publishedFileId == id
    {
      MissingIdsMembers(rows, id);
    }
  }

  /** One step of the request loop: the answer to chunk `c` moves into the gathered results. */
  lemma FetchLoopStep(chunks: seq<seq<string>>, fetch: ChunkFetch, c: nat, items: seq<WorkshopItem>, missing: seq<string>)
    requires c < |chunks| && fetch(chunks[c]).Success?
    requires Prepended(items, missing, ChunksFetched(chunks[c..], fetch)) == ChunksFetched(chunks, fetch)
    ensures Prepended(items + Found(fetch(chunks[c]).value), missing + MissingIds(fetch(chunks[c]).value),
      ChunksFetched(chunks[c + 1..], fetch)) == ChunksFetched(chunks, fetch)
  {
    var rows := fetch(chunks[c]).value;
    assert chunks[c..][1..] == chunks[c + 1..];
    match ChunksFetched(chunks[c + 1..], fetch)
    case Failure(e) =>
    case Success(rest) =>
      AppendAssoc(items, Found(rows), rest.items);
      AppendAssoc(missing, MissingIds(rows), rest.missing);
  }

  /** fetchWorkshopItems: request the IDs ten at a time and sort the rows into found and missing. */
  method FetchUncached(ids: seq<string>, fetch: ChunkFetch) returns (r: Result<Fetched, string>)
    ensures r == ChunksFetched(Chunked(ids, ChunkSize), fetch)
  {
    var items: seq<WorkshopItem> := [];
    var missing: seq<string> := [];
    var chunks := Chunk(ids, ChunkSize);
    assert chunks[0..] == chunks;
    PrependedNothing(ChunksFetched(chunks, fetch));
    for c := 0 to |chunks|
      invariant Prepended(items, missing, ChunksFetched(chunks[c..], fetch)) == ChunksFetched(chunks, fetch)
    {
      var response := fetch(chunks[c]);
      if response.Failure? {
        return Failure(response.error);
      }
      var rows := response.value;
      ghost var itemsBefore, missingBefore := items, missing;
      for j := 0 to |rows|
        invariant items == itemsBefore + Found(rows[..j])
        invariant missing == missingBefore + MissingIds(rows[..j])
      {
        assert rows[..j + 1][..j] == rows[..j];
        if rows[j].result != 1 {
          missing := missing + [rows[j].publishedFileId];
          continue;
        }
        items := items + [rows[j]];
      }
      assert rows[..|rows|] == rows;
      FetchLoopStep(chunks, fetch, c, itemsBefore, missingBefore);
    }
    assert chunks[|chunks|..] == [];
    assert items + [] == items && missing + [] == missing;
    return Success(Fetched(items, missing));
  }

  /** The items the cache serves for `ids`, in the order of `ids`. */
  function CachedHits(items: map<string, CacheEntry>, expiration: int, ids: seq<string>, now: int): seq<WorkshopItem>
    decreases |ids|
  {
    if ids == [] then []
    else
      var last := ids[|ids| - 1];
      CachedHits(items, expiration, ids[..|ids| - 1], now)
        + (match Fresh(items, expiration, last, now) case Some(item) => [item] case None => [])
  }

  /** The IDs the cache does not serve, in the order of `ids`. */
  function Uncached(items: map<string, CacheEntry>, expiration: int, ids: seq<string>, now: int): seq<string>
    decreases |ids|
  {
    if ids == [] then []
    else
      var last := ids[|ids| - 1];
      Uncached(items, expiration, ids[..|ids| - 1], now)
        + (if Fresh(items, expiration, last, now).None? then [last] else [])
  }

  /** The cache after storing each row under its own ID, stamped with `now`, in order. */
  function Stored(items: map<string, CacheEntry>, rows: seq<WorkshopItem>, now: int): map<string, CacheEntry>
    decreases |rows|
  {
    if rows == [] then items
    else
      var last := rows[|rows| - 1];
      Stored(items, rows[..|rows| - 1], now)[last.publishedFileId := CacheEntry(last, now)]
  }

  /**
   * FetchWorkshopItems: the cached items first, then the items found by
   * requesting the IDs the cache did not serve; no request and nothing missing
   * when the cache served every ID; the first request error otherwise.
   */
  function FetchResult(items: map<string, CacheEntry>, expiration: int, ids: seq<string>, now: int, fetch: ChunkFetch): Result<Fetched, string> {
    var hits := CachedHits(items, expiration, ids, now);
    var toFetch := Uncached(items, expiration, ids, now);
    if toFetch == [] then Success(Fetched(hits, []))
    else
      match ChunksFetched(Chunked(toFetch, ChunkSize), fetch)
      case Failure(e) => Failure(e)
      case Success(f) => Success(Fetched(hits + f.items, f.missing))
  }

  /** The cache after FetchWorkshopItems: every found item stored; unchanged when nothing was requested or a request failed. */
  function CacheAfter(items: map<string, CacheEntry>, expiration: int, ids: seq<string>, now: int, fetch: ChunkFetch): map<string, CacheEntry> {
    var toFetch := Uncached(items, expiration, ids, now);
    if toFetch == [] then items
    else
      match ChunksFetched(Chunked(toFetch, ChunkSize), fetch)
      case Failure(_) => items
      case Success(f) => Stored(items, f.items, now)
  }

  /** One step of the cache-reading loop. */
  lemma CacheReadStep(items: map<string, CacheEntry>, expiration: int, ids: seq<string>, now: int, i: nat)
    requires i < |ids|
    ensures CachedHits(items, expiration, ids[..i + 1], now) == CachedHits(items, expiration, ids[..i], now)
      + (match Fresh(items, expiration, ids[i], now) case Some(item) => [item] case None => [])
    ensures Uncached(items, expiration, ids[..i + 1], now) == Uncached(items, expiration, ids[..i], now)
      + (if Fresh(items, expiration, ids[i], now).None? then [ids[i]] else [])
  {
    assert ids[..i + 1][..i] == ids[..i];
  }

  /** One step of the cache-filling loop. */
  lemma StoreStep(items: map<string, CacheEntry>, rows: seq<WorkshopItem>, now: int, j: nat)
    requires j < |rows|
    ensures Stored(items, rows[..j + 1], now) == Stored(items, rows[..j], now)[rows[j].publishedFileId := CacheEntry(rows[j], now)]
  {
    assert rows[..j + 1][..j] == rows[..j];
  }

  /** FetchWorkshopItems, reading and filling the given cache at time `now`. */
  method FetchWorkshopItems(cache: WorkshopItemCache, ids: seq<string>, now: int, fetch: ChunkFetch) returns (r: Result<Fetched, string>)
    modifies cache
    ensures cache.expiration == old(cache.expiration)
    ensures r == FetchResult(old(cache.items), cache.expiration, ids, now, fetch)
    ensures cache.items == CacheAfter(old(cache.items), cache.expiration, ids, now, fetch)
  {
    ghost var before, expiration := cache.items, cache.expiration;
    var toFetch: seq<string> := [];
    var items: seq<WorkshopItem> := [];
    for i := 0 to |ids|
      invariant cache.items == before && cache.expiration == expiration
      invariant items == CachedHits(before, expiration, ids[..i], now)
      invariant toFetch == Uncached(before, expiration, ids[..i], now)
    {
      CacheReadStep(before, expiration, ids, now, i);
      var item := cache.Get(ids[i], now);
      if item.Some? {
        items := items + [item.value];
        continue;
      }
      toFetch := toFetch + [ids[i]];
    }
    assert ids[..|ids|] == ids;
    if |toFetch| > 0 {
      var fetched := FetchUncached(toFetch, fetch);
      if fetched.Failure? {
        return Failure(fetched.error);
      }
      var found := fetched.value.items;
      ghost var hits := items;
      for j := 0 to |found|
        invariant cache.expiration == expiration
        invariant items == hits + found[..j]
        invariant cache.items == Stored(before, found[..j], now)
      {
        StoreStep(before, found, now, j);
        assert found[..j + 1] == found[..j] + [found[j]];
        items := items + [found[j]];
        cache.Set(found[j].publishedFileId, found[j], now);
      }
      assert found[..|found|] == found;
      return Success(Fetched(items, fetched.value.missing));
    }
    return Success(Fetched(items, []));
  }

  /** Exactly the IDs the cache does not serve are requested. */
  lemma {:induction false} UncachedMembers(items: map<string, CacheEntry>, expiration: int, ids: seq<string>, now: int, id: string)
    ensures id in Uncached(items, expiration, ids, now) <==> id in ids && Fresh(items, expiration, id, now).None?
    decreases |ids|
  {
    if ids != [] {
      var init := ids[..|ids| - 1];
      assert ids == init + [ids[|ids| - 1]];
      UncachedMembers(items, expiration, init, now, id);
    }
  }

  /** Every ID is either served from the cache or requested, never both, and each served ID yields its cached item. */
  lemma {:induction false} HitsAndMisses(items: map<string, CacheEntry>, expiration: int, ids: seq<string>, now: int)
    ensures |CachedHits(items, expiration, ids, now)| + |Uncached(items, expiration, ids, now)| == |ids|
    ensures forall id | id in ids && Fresh(items, expiration, id, now).Some? ::
      Fresh(items, expiration, id, now).value in CachedHits(items, expiration, ids, now)
    decreases |ids|
  {
    if ids != [] {
      var init := ids[..|ids| - 1];
      assert ids == init + [ids[|ids| - 1]];
      HitsAndMisses(items, expiration, init, now);
    }
  }

  /** The answer FetchWorkshopItems gives an empty ID list: no items and nothing missing. */
  predicate EmptyAnswered(ids: seq<string>, fetched: Result<Fetched, string>) {
    ids == [] ==> fetched == Success(Fetched([], []))
  }

  /** An empty ID list is answered without a request, and the cache is left as it was. */
  lemma EmptyRequest(items: map<string, CacheEntry>, expiration: int, ids: seq<string>, now: int, fetch: ChunkFetch)
    ensures EmptyAnswered(ids, FetchResult(items, expiration, ids, now, fetch))
    ensures ids == [] ==> CacheAfter(items, expiration, ids, now, fetch) == items
  {
  }

  /** When the cache serves every ID, no request is made: the outcome is the cached items, nothing missing, the cache unchanged. */
  lemma AllCachedNoRequest(items: map<string, CacheEntry>, expiration: int, ids: seq<string>, now: int, fetch: ChunkFetch)
    requires forall id | id in ids :: Fresh(items, expiration, id, now).Some?
    ensures FetchResult(items, expiration, ids, now, fetch) == Success(Fetched(CachedHits(items, expiration, ids, now), []))
    ensures CacheAfter(items, expiration, ids, now, fetch) == items
  {
    if Uncached(items, expiration, ids, now) != [] {
      var id := Uncached(items, expiration, ids, now)[0];
      UncachedMembers(items, expiration, ids, now, id);
    }
  }

  /** Each stored row is kept under its ID with time `now`; other IDs keep their entries. */
  lemma {:induction false} StoredEntries(items: map<string, CacheEntry>, rows: seq<WorkshopItem>, now: int, id: string)
    ensures id in ItemIds(rows) ==>
      (id in Stored(items, rows, now) && Stored(items, rows, now)[id].lastUpdated == now
       && Stored(items, rows, now)[id].item in rows && Stored(items, rows, now)[id].item.publishedFileId == id)
    ensures id !in ItemIds(rows) ==>
      ((id in Stored(items, rows, now) <==> id in items) && (id in items ==> Stored(items, rows, now)[id] == items[id]))
    decreases |rows|
  {
    if rows != [] {
      var init := rows[..|rows| - 1];
      assert rows == init + [rows[|rows| - 1]];
      assert ItemIds(rows) == ItemIds(init) + [rows[|rows| - 1].publishedFileId];
      StoredEntries(items, init, now, id);
    }
  }

  /**
   * After a successful call with a non-negative expiration, every item found
   * by a request is served by the cache at the same time, and every ID the
   * cache served before is still served.
   */
  lemma FetchFillsCache(items: map<string, CacheEntry>, expiration: int, ids: seq<string>, now: int, fetch: ChunkFetch, id: string)
    requires expiration >= 0
    requires FetchResult(items, expiration, ids, now, fetch).Success?
    ensures var hits := CachedHits(items, expiration, ids, now);
      forall row | row in FetchResult(items, expiration, ids, now, fetch).value.items[|hits|..] ::
        Fresh(CacheAfter(items, expiration, ids, now, fetch), expiration, row.publishedFileId, now).Some?
    ensures Fresh(items, expiration, id, now).Some? ==> Fresh(CacheAfter(items, expiration, ids, now, fetch), expiration, id, now).Some?
  {
    var hits := CachedHits(items, expiration, ids, now);
    var toFetch := Uncached(items, expiration, ids, now);
    if toFetch != [] {
      var f := ChunksFetched(Chunked(toFetch, ChunkSize), fetch).value;
      assert FetchResult(items, expiration, ids, now, fetch).value.items[|hits|..] == f.items;
      forall row | row in f.items
        ensures Fresh(Stored(items, f.items, now), expiration, row.publishedFileId, now).Some?
      {
        var k :| 0 <= k < |f.items| && f.items[k] == row;
        assert ItemIds(f.items)[k] == row.publishedFileId;
        StoredEntries(items, f.items, now, row.publishedFileId);
      }
      StoredEntries(items, f.items, now, id);
    }
  }
}
