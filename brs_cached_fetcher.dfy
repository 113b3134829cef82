/** The cached BRS fetcher (bot/brs/fetcher.py): a 60-second in-memory cache
    in front of the BRS request, where every real request is first charged
    to the daily ledger. The clock reading, the UTC date key, the API key and
    the request's outcome are parameters. */
module BrsCachedFetcher {
  import opened Common
  import Quota
  import BrsFormatter

  const TTL: real := 60.0

  /** The body a request returns: a payload, or JSON `null` (Python's
      `None`). */
  type Body = Option<BrsFormatter.BrsPayload>

  /** The module-level `_CACHE` dict: when it was filled and the body it
      holds (`None` until the first successful request, and again after a
      request whose body was `null`). */
  datatype CacheState = CacheState(ts: real, data: Body)

  const INITIAL_CACHE: CacheState := CacheState(0.0, None)

  /** `_CACHE["data"] is not None and now - _CACHE["ts"] <= _TTL`. */
  predicate IsHit(c: CacheState, now: real) {
    c.data.Some? && now - c.ts <= TTL
  }

  /** `key` is truthy: set and not empty. */
  predicate HasKey(key: Option<string>) {
    key.Some? && key.value != ""
  }

  /** The end of one `fetch_brs()` call: what it returned or raised, the
      cache after it, and the ledger file after it. */
  datatype Step = Step(result: Fetched<Body>, cache: CacheState, ledger: Quota.UsageFile)

  /** One call of `fetch_brs()` at clock `now` on UTC day `today`, where the
      request, if made, ends as `upstream`. */
  function FetchStep(c: CacheState, ledger: Quota.UsageFile, key: Option<string>, now: real,
                     today: string, upstream: Upstream<Body>): Step
  {
    if !HasKey(key) then Step(Returned(None), c, ledger)
    else if IsHit(c, now) then Step(Returned(c.data), c, ledger)
    else
      match Quota.ChargeFor(Quota.Load(ledger), today)
      case LimitReached => Step(RateLimited, c, ledger)
      case Permitted(counts) =>
        match upstream
        case Failed => Step(RequestFailed, c, Quota.Stored(counts))
        case Ok(body) => Step(Returned(body), CacheState(now, body), Quota.Stored(counts))
  }

  class CachedFetcher {
    var ts: real
    var data: Body
    const ledger: Quota.Ledger

    /** A fresh process: the cache is `{"ts": 0.0, "data": None}`. */
    constructor (ledger: Quota.Ledger)
      ensures ts == 0.0 && data == None && this.ledger == ledger
      ensures Cache() == INITIAL_CACHE
    {
      this.ts := 0.0;
      this.data := None;
      this.ledger := ledger;
    }

    function Cache(): CacheState
      reads this
    {
      CacheState(ts, data)
    }

    /** `fetch_brs()`. */
    method FetchBrs(key: Option<string>, now: real, today: string, upstream: Upstream<Body>)
      returns (r: Fetched<Body>)
      modifies this, ledger
      ensures var s := FetchStep(old(Cache()), old(ledger.file), key, now, today, upstream);
        r == s.result && Cache() == s.cache && ledger.file == s.ledger
    {
      if !HasKey(key) {
        return Returned(None);
      }
      if data.Some? && now - ts <= TTL {
        return Returned(data);
      }
      var permitted := ledger.CheckAndIncrement(today);
      if !permitted {
        return RateLimited;
      }
      match upstream
      case Failed =>
        return RequestFailed;
      case Ok(body) =>
        data := body;
        ts := now;
        return Returned(body);
    }
  }

  // ---- Properties of one call ----

  /** Without an API key the call returns `None` and touches neither the
      cache nor the ledger. */
  lemma NoKeyTouchesNothing(c: CacheState, ledger: Quota.UsageFile, key: Option<string>, now: real,
                            today: string, upstream: Upstream<Body>)
    requires !HasKey(key)
    ensures FetchStep(c, ledger, key, now, today, upstream) == Step(Returned(None), c, ledger)
  {
  }

  /** On a hit the cached body is returned, no request is made (the outcome
      does not depend on `upstream`) and the ledger is untouched. */
  lemma HitServesCache(c: CacheState, ledger: Quota.UsageFile, key: Option<string>, now: real,
                       today: string, u1: Upstream<Body>, u2: Upstream<Body>)
    requires HasKey(key) && IsHit(c, now)
    ensures FetchStep(c, ledger, key, now, today, u1) == Step(Returned(c.data), c, ledger)
    ensures FetchStep(c, ledger, key, now, today, u1) == FetchStep(c, ledger, key, now, today, u2)
  {
  }

  /** On a miss with a key, today's count goes up by exactly one before the
      request, unless it had reached the limit: then the call raises the
      rate-limit error and neither the ledger nor the cache changes. */
  lemma MissChargesOnce(c: CacheState, ledger: Quota.UsageFile, key: Option<string>, now: real,
                        today: string, upstream: Upstream<Body>)
    requires HasKey(key) && !IsHit(c, now)
    ensures var s := FetchStep(c, ledger, key, now, today, upstream);
      var before := Quota.CountOn(Quota.Load(ledger), today);
      if before >= Quota.DAILY_LIMIT then
        s == Step(RateLimited, c, ledger)
      else
        && s.ledger.Stored?
        && Quota.CountOn(s.ledger.counts, today) == before + 1
        && (forall d :: d != today ==> Quota.CountOn(s.ledger.counts, d) == Quota.CountOn(Quota.Load(ledger), d))
  {
  }

  /** When the request fails after the charge, the call raises, the cache is
      unchanged, and the charge stays; when it succeeds, the cache holds the
      new body stamped `now`. */
  lemma RequestOutcome(c: CacheState, ledger: Quota.UsageFile, key: Option<string>, now: real,
                       today: string, upstream: Upstream<Body>)
    requires HasKey(key) && !IsHit(c, now) && Quota.CountOn(Quota.Load(ledger), today) < Quota.DAILY_LIMIT
    ensures var s := FetchStep(c, ledger, key, now, today, upstream);
      && s.ledger == Quota.Stored(Quota.ChargeFor(Quota.Load(ledger), today).counts)
      && (upstream.Failed? ==> s.result == RequestFailed && s.cache == c)
      && (upstream.Ok? ==> s.result == Returned(upstream.body) && s.cache == CacheState(now, upstream.body))
  {
  }

  /** The ledger changes only on a charged miss; today's count never passes
      the limit once at or below it. */
  lemma LedgerBounded(c: CacheState, ledger: Quota.UsageFile, key: Option<string>, now: real,
                      today: string, upstream: Upstream<Body>)
    requires Quota.CountOn(Quota.Load(ledger), today) <= Quota.DAILY_LIMIT
    ensures Quota.CountOn(Quota.Load(FetchStep(c, ledger, key, now, today, upstream).ledger), today) <= Quota.DAILY_LIMIT
    ensures FetchStep(c, ledger, key, now, today, upstream).ledger != ledger ==> HasKey(key) && !IsHit(c, now)
  {
  }

  /** With a clock that does not run backwards, the cache stamp never
      decreases. */
  lemma StampMonotone(c: CacheState, ledger: Quota.UsageFile, key: Option<string>, now: real,
                      today: string, upstream: Upstream<Body>)
    requires c.ts <= now
    ensures c.ts <= FetchStep(c, ledger, key, now, today, upstream).cache.ts <= now
  {
  }

  /** The cache of a fresh process misses, so the first keyed call is
      always charged. */
  lemma FirstCallCharged(ledger: Quota.UsageFile, key: Option<string>, now: real,
                         today: string, upstream: Upstream<Body>)
    requires HasKey(key) && Quota.CountOn(Quota.Load(ledger), today) < Quota.DAILY_LIMIT
    ensures !IsHit(INITIAL_CACHE, now)
    ensures Quota.CountOn(Quota.Load(FetchStep(INITIAL_CACHE, ledger, key, now, today, upstream).ledger), today)
      == Quota.CountOn(Quota.Load(ledger), today) + 1
  {
  }

  /** A body fetched at `t` is served again without a charge at `t + 10`
      and is refreshed (charged again) at `t + 61`; a JSON `null` body is
      never served from the cache. */
  lemma FreshnessWindow(c: CacheState, ledger: Quota.UsageFile, key: Option<string>, t: real,
                        today: string, body: Body)
    requires HasKey(key) && !IsHit(c, t) && Quota.CountOn(Quota.Load(ledger), today) < Quota.DAILY_LIMIT
    ensures var s := FetchStep(c, ledger, key, t, today, Ok(body));
      && (body.Some? ==> IsHit(s.cache, t + 10.0))
      && !IsHit(s.cache, t + 61.0)
      && (body.None? ==> forall later :: !IsHit(s.cache, later))
  {
  }
}
