/** The Bitpin markets fetcher (bot/bitbin/fetcher.py): a 30-second
    in-memory cache in front of the request, with no quota. An empty cached
    list never counts as a hit. */
module MarketsFetcher {
  import opened Common
  import MarketsFormatter

  const TTL: real := 30.0

  type Markets = seq<MarketsFormatter.MarketRecord>

  /** The decoded response body: its `"results"` entry, when present. */
  datatype Response = Response(results: Option<Markets>)

  /** The module-level `_CACHE` dict. */
  datatype CacheState = CacheState(ts: real, data: Markets)

  const INITIAL_CACHE: CacheState := CacheState(0.0, [])

  /** `now - _CACHE["ts"] <= _TTL and _CACHE["data"]`. */
  predicate IsHit(c: CacheState, now: real) {
    now - c.ts <= TTL && c.data != []
  }

  /** One call of `fetch_markets()` at clock `now`, where the request, if
      made, ends as `upstream`: the result and the cache after it. */
  function FetchStep(c: CacheState, now: real, upstream: Upstream<Response>): (Fetched<Markets>, CacheState) {
    if IsHit(c, now) then (Returned(c.data), c)
    else
      match upstream
      case Failed => (RequestFailed, c)
      case Ok(resp) =>
        var data := resp.results.GetOr([]);
        (Returned(data), CacheState(now, data))
  }

  class Fetcher {
    var ts: real
    var data: Markets

    constructor ()
      ensures ts == 0.0 && data == []
      ensures Cache() == INITIAL_CACHE
    {
      ts := 0.0;
      data := [];
    }

    function Cache(): CacheState
      reads this
    {
      CacheState(ts, data)
    }

    /** `fetch_markets()`. */
    method FetchMarkets(now: real, upstream: Upstream<Response>) returns (r: Fetched<Markets>)
      modifies this
      ensures (r, Cache()) == FetchStep(old(Cache()), now, upstream)
    {
      if now - ts <= TTL && data != [] {
        return Returned(data);
      }
      match upstream
      case Failed =>
        return RequestFailed;
      case Ok(resp) =>
        var results := resp.results.GetOr([]);
        data := results;
        ts := now;
        return Returned(results);
    }
  }

  /** The initial cache `{ts: 0, data: []}` misses at every clock reading. */
  lemma InitialAlwaysMisses(now: real)
    ensures !IsHit(INITIAL_CACHE, now)
  {
  }

  /** A hit returns the cached list without a request: the outcome does not
      depend on `upstream`, and the cache is unchanged. */
  lemma HitServesCache(c: CacheState, now: real, u1: Upstream<Response>, u2: Upstream<Response>)
    requires IsHit(c, now)
    ensures FetchStep(c, now, u1) == (Returned(c.data), c)
    ensures FetchStep(c, now, u1) == FetchStep(c, now, u2)
  {
  }

  /** On a miss, a successful response replaces the cache with its
      `"results"` (`[]` when absent) stamped `now`; a failed one raises and
      leaves the cache unchanged. */
  lemma MissOutcome(c: CacheState, now: real, upstream: Upstream<Response>)
    requires !IsHit(c, now)
    ensures upstream.Failed? ==> FetchStep(c, now, upstream) == (RequestFailed, c)
    ensures upstream.Ok? ==> FetchStep(c, now, upstream).1 == CacheState(now, upstream.body.results.GetOr([]))
    ensures upstream.Ok? ==> FetchStep(c, now, upstream).0 == Returned(upstream.body.results.GetOr([]))
  {
  }

  /** An empty successful result leaves the cache in the state that always
      misses, so the next call requests again. */
  lemma EmptyResultKeepsMissing(c: CacheState, now: real, resp: Response, later: real)
    requires !IsHit(c, now) && resp.results.GetOr([]) == []
    ensures !IsHit(FetchStep(c, now, Ok(resp)).1, later)
  {
  }

  /** A non-empty list fetched at `t` is served from the cache at `t + 10`
      and requested again at `t + 31`. */
  lemma FreshnessWindow(c: CacheState, t: real, resp: Response)
    requires !IsHit(c, t) && resp.results.GetOr([]) != []
    ensures IsHit(FetchStep(c, t, Ok(resp)).1, t + 10.0)
    ensures !IsHit(FetchStep(c, t, Ok(resp)).1, t + 31.0)
  {
  }

  /** With a clock that does not run backwards, the cache stamp never
      decreases. */
  lemma StampMonotone(c: CacheState, now: real, upstream: Upstream<Response>)
    requires c.ts <= now
    ensures c.ts <= FetchStep(c, now, upstream).1.ts <= now
  {
  }
}
