/** The uncached BRS fetcher (bot/brs_fetcher.py): every call with an API
    key is charged to the daily ledger before the request is made. */
module BrsFetcher {
  import opened Common
  import Quota
  import BrsFormatter

  type Body = Option<BrsFormatter.BrsPayload>

  predicate HasKey(key: Option<string>) {
    key.Some? && key.value != ""
  }

  /** One call of `fetch_brs()`: what it returned or raised, and the ledger
      file after it. */
  function FetchStep(ledger: Quota.UsageFile, key: Option<string>, today: string, upstream: Upstream<Body>)
    : (Fetched<Body>, Quota.UsageFile)
  {
    if !HasKey(key) then (Returned(None), ledger)
    else
      match Quota.ChargeFor(Quota.Load(ledger), today)
      case LimitReached => (RateLimited, ledger)
      case Permitted(counts) =>
        match upstream
        case Failed => (RequestFailed, Quota.Stored(counts))
        case Ok(body) => (Returned(body), Quota.Stored(counts))
  }

  /** `fetch_brs()`. */
  method FetchBrs(ledger: Quota.Ledger, key: Option<string>, today: string, upstream: Upstream<Body>)
    returns (r: Fetched<Body>)
    modifies ledger
    ensures (r, ledger.file) == FetchStep(old(ledger.file), key, today, upstream)
  {
    if !HasKey(key) {
      return Returned(None);
    }
    var permitted := ledger.CheckAndIncrement(today);
    if !permitted {
      return RateLimited;
    }
    match upstream
    case Failed =>
      return RequestFailed;
    case Ok(body) =>
      return Returned(body);
  }

  /** Without an API key the call returns `None` and does not touch the
      ledger. */
  lemma NoKeyNoCharge(ledger: Quota.UsageFile, key: Option<string>, today: string, upstream: Upstream<Body>)
    requires !HasKey(key)
    ensures FetchStep(ledger, key, today, upstream) == (Returned(None), ledger)
  {
  }

  /** With a key, a call at the limit raises the rate-limit error and leaves
      the ledger as it was; any other call raises today's count by exactly
      one and changes no other day, whether the request then succeeds or
      fails, because the charge comes first; a successful request returns
      its body. */
  lemma EveryKeyedCallCharged(ledger: Quota.UsageFile, key: Option<string>, today: string, upstream: Upstream<Body>)
    requires HasKey(key)
    ensures var (r, after) := FetchStep(ledger, key, today, upstream);
      var before := Quota.CountOn(Quota.Load(ledger), today);
      if before >= Quota.DAILY_LIMIT then
        r == RateLimited && after == ledger
      else
        && after.Stored?
        && Quota.CountOn(after.counts, today) == before + 1
        && (forall d :: d != today ==> Quota.CountOn(after.counts, d) == Quota.CountOn(Quota.Load(ledger), d))
        && (r == RequestFailed <==> upstream.Failed?)
        && (upstream.Ok? ==> r == Returned(upstream.body))
  {
  }

  /** Today's count never passes the limit once at or below it. */
  lemma CountStaysBounded(ledger: Quota.UsageFile, key: Option<string>, today: string, upstream: Upstream<Body>)
    requires Quota.CountOn(Quota.Load(ledger), today) <= Quota.DAILY_LIMIT
    ensures Quota.CountOn(Quota.Load(FetchStep(ledger, key, today, upstream).1), today) <= Quota.DAILY_LIMIT
  {
  }

  /** A corrupt ledger file loads as empty: the next keyed call is permitted
      and the day restarts from one, the other days being dropped. */
  lemma CorruptLedgerRestartsDay(key: Option<string>, today: string, upstream: Upstream<Body>)
    requires HasKey(key)
    ensures FetchStep(Quota.Unparseable, key, today, upstream).1 == Quota.Stored(map[today := 1])
  {
  }
}
