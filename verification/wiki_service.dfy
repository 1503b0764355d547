/** The price-feed client of `backend/src/services/osrsWikiService.js`: two
    cache-then-fetch operations over the shared time-to-live cache, and the
    per-item filter of the price snapshot.

    The HTTP request is not modelled; its outcome is an input (`Fetch`). Each
    operation takes two clock readings: `readAt`, when the cache is first
    consulted, and `doneAt`, when the request has settled and the cache is
    written or consulted again. Nothing else writes the cache in between. */
module WikiService {
  import opened Results
  import opened PriceData
  import opened TtlCache

  /** One entry of the item mapping; the mapping's other fields are not used
      by the core and are not modelled. */
  datatype MappingItem = MappingItem(id: int, name: string)

  /** What the shared cache holds: a price snapshot or an item mapping. */
  datatype Payload = Prices(snapshot: Snapshot) | Mapping(items: seq<MappingItem>)

  /** The settled outcome of an upstream request: its body, or the message of
      the error it raised (timeout, non-2xx status, network failure). */
  datatype Fetch<T> = Fetched(data: T) | Failed(message: string)

  const PricesKey: string := "osrs_prices_latest"
  const MappingKey: string := "osrs_item_mapping"

  /** The item mapping's time-to-live, in seconds (one day). */
  const MappingTtl: nat := 86400

  const PricesError: string := "Failed to fetch OSRS prices: "
  const MappingError: string := "Failed to fetch item mapping: "

  /** Each key holds only what its one writer stores there. */
  predicate WellTyped(c: Cache<Payload>)
  {
    && (PricesKey in c ==> c[PricesKey].value.Prices?)
    && (MappingKey in c ==> c[MappingKey].value.Mapping?)
  }

  /** The process starts with an empty cache, which is well typed. */
  lemma EmptyCacheIsWellTyped()
    ensures WellTyped(map[])
  {
  }

  /** `getLatestPrices()`: a live cached snapshot is returned as is; a read
      that finds the entry expired deletes it. On a miss a fetched snapshot
      is stored for the default time-to-live and returned; a failed fetch
      reads the cache once more and, finding nothing, raises an error naming
      the upstream message. */
  function GetLatestPrices(c: Cache<Payload>, readAt: int, fetch: Fetch<Snapshot>, doneAt: int)
    : (out: (Result<Snapshot>, Cache<Payload>))
    requires WellTyped(c)
    ensures WellTyped(out.1)
    ensures Get(c, PricesKey, readAt).Some? ==>
              out == (Ok(c[PricesKey].value.snapshot), c)
    ensures Get(c, PricesKey, readAt).None? && fetch.Fetched? ==>
              out == (Ok(fetch.data), c[PricesKey := Entry(Prices(fetch.data), doneAt + DefaultTtl * 1000)])
    ensures Get(c, PricesKey, readAt).None? && fetch.Failed? ==>
              out == (Err(PricesError + fetch.message), c - {PricesKey})
  {
    match Read(c, PricesKey, readAt)
    case (Some(cached), c1) => (Ok(SnapshotOf(cached)), c1)
    case (None, c1) =>
      match fetch
      case Fetched(prices) =>
        var stored := Set(c1, PricesKey, Prices(prices), DefaultTtl, doneAt);
        assert stored == c[PricesKey := Entry(Prices(prices), doneAt + DefaultTtl * 1000)];
        (Ok(prices), stored)
      case Failed(message) =>
        match Read(c1, PricesKey, doneAt)
        case (Some(stale), c2) => (Ok(SnapshotOf(stale)), c2)
        case (None, c2) =>
          assert c2 == c - {PricesKey};
          (Err(PricesError + message), c2)
  }

  /** The snapshot a prices payload carries; a mapping carries none. */
  function SnapshotOf(p: Payload): (s: Snapshot)
    ensures p.Prices? ==> s == p.snapshot
  {
    match p
    case Prices(snapshot) => snapshot
    case Mapping(_) => map[]
  }

  /** `getItemMapping()`: like `GetLatestPrices` with a one-day time-to-live,
      but a failed fetch is an error at once, with no second read. */
  function GetItemMapping(c: Cache<Payload>, readAt: int, fetch: Fetch<seq<MappingItem>>, doneAt: int)
    : (out: (Result<seq<MappingItem>>, Cache<Payload>))
    requires WellTyped(c)
    ensures WellTyped(out.1)
    ensures Get(c, MappingKey, readAt).Some? ==>
              out == (Ok(c[MappingKey].value.items), c)
    ensures Get(c, MappingKey, readAt).None? && fetch.Fetched? ==>
              out == (Ok(fetch.data), c[MappingKey := Entry(Mapping(fetch.data), doneAt + MappingTtl * 1000)])
    ensures Get(c, MappingKey, readAt).None? && fetch.Failed? ==>
              out == (Err(MappingError + fetch.message), c - {MappingKey})
  {
    match Read(c, MappingKey, readAt)
    case (Some(cached), c1) => (Ok(cached.items), c1)
    case (None, c1) =>
      match fetch
      case Fetched(mapping) =>
        var stored := Set(c1, MappingKey, Mapping(mapping), MappingTtl, doneAt);
        assert stored == c[MappingKey := Entry(Mapping(mapping), doneAt + MappingTtl * 1000)];
        (Ok(mapping), stored)
      case Failed(message) => (Err(MappingError + message), c1)
  }

  /** Without a concurrent writer the stale-data fallback never serves: the
      first read deletes an expired entry, so a failed fetch after a miss
      raises, whatever the clock reads at either moment, and leaves no
      prices entry behind. */
  lemma FailedFetchAfterMissRaises(c: Cache<Payload>, readAt: int, message: string, doneAt: int)
    requires WellTyped(c)
    requires Get(c, PricesKey, readAt).None?
    ensures GetLatestPrices(c, readAt, Failed(message), doneAt).0 == Err(PricesError + message)
    ensures PricesKey !in GetLatestPrices(c, readAt, Failed(message), doneAt).1
  {
  }

  /** A snapshot fetched at `doneAt` is served from the cache, whatever the
      upstream would do, to every call within the default time-to-live. */
  lemma FetchedSnapshotIsReused(c: Cache<Payload>, readAt: int, snapshot: Snapshot, doneAt: int,
                                later: int, next: Fetch<Snapshot>, laterDone: int)
    requires WellTyped(c)
    requires Get(c, PricesKey, readAt).None?
    requires later <= doneAt + DefaultTtl * 1000
    ensures var c' := GetLatestPrices(c, readAt, Fetched(snapshot), doneAt).1;
            GetLatestPrices(c', later, next, laterDone) == (Ok(snapshot), c')
  {
  }

  /** Neither operation changes the other's cache entry. */
  lemma OperationsUseSeparateEntries(c: Cache<Payload>, readAt: int, doneAt: int,
                                     prices: Fetch<Snapshot>, mapping: Fetch<seq<MappingItem>>)
    requires WellTyped(c)
    ensures MappingKey in GetLatestPrices(c, readAt, prices, doneAt).1 <==> MappingKey in c
    ensures MappingKey in c ==> GetLatestPrices(c, readAt, prices, doneAt).1[MappingKey] == c[MappingKey]
    ensures PricesKey in GetItemMapping(c, readAt, mapping, doneAt).1 <==> PricesKey in c
    ensures PricesKey in c ==> GetItemMapping(c, readAt, mapping, doneAt).1[PricesKey] == c[PricesKey]
  {
  }

  /** The per-item filter: each requested identifier whose snapshot
      entry is truthy is copied, unchanged, under its string key. */
  function FilterPrices(all: Snapshot, ids: seq<int>): (r: Snapshot)
    ensures forall k :: k in r ==> k in all && r[k] == all[k] && all[k].Some?
    ensures forall i :: 0 <= i < |ids| && ItemKey(ids[i]) in all && all[ItemKey(ids[i])].Some? ==>
              ItemKey(ids[i]) in r
    ensures forall k :: k in r ==> exists i :: 0 <= i < |ids| && ItemKey(ids[i]) == k
    decreases |ids|
  {
    if |ids| == 0 then map[]
    else
      var rest := FilterPrices(all, ids[..|ids| - 1]);
      var key := ItemKey(ids[|ids| - 1]);
      assert forall i :: 0 <= i < |ids| - 1 ==> ids[..|ids| - 1][i] == ids[i];
      if key in all && all[key].Some? then rest[key := all[key]] else rest
  }

  /** `getPricesForItems(itemIds)`: the latest snapshot restricted to the
      requested items; a failure to obtain prices propagates unchanged. */
  function GetPricesForItems(ids: seq<int>, c: Cache<Payload>, readAt: int, fetch: Fetch<Snapshot>, doneAt: int)
    : (out: (Result<Snapshot>, Cache<Payload>))
    requires WellTyped(c)
    ensures WellTyped(out.1)
    ensures out.1 == GetLatestPrices(c, readAt, fetch, doneAt).1
    ensures GetLatestPrices(c, readAt, fetch, doneAt).0.Err? ==>
              out.0 == GetLatestPrices(c, readAt, fetch, doneAt).0
    ensures GetLatestPrices(c, readAt, fetch, doneAt).0.Ok? ==>
              out.0 == Ok(FilterPrices(GetLatestPrices(c, readAt, fetch, doneAt).0.value, ids))
  {
    var (all, c') := GetLatestPrices(c, readAt, fetch, doneAt);
    match all
    case Err(message) => (Err(message), c')
    case Ok(snapshot) => (Ok(FilterPrices(snapshot, ids)), c')
  }
}
