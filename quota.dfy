/** The daily BRS call ledger. bot/brs/fetcher.py and bot/brs_fetcher.py
    carry identical copies of `_load_usage` and `_check_and_increment` over
    the same file, so it is modelled once here. */
module Quota {

  const DAILY_LIMIT: int := 1500

  /** The usage file: not there, there but not parseable JSON, or a parsed
      object from day key (`"YYYY-MM-DD"`) to that day's count. */
  datatype UsageFile = Missing | Unparseable | Stored(counts: map<string, int>)

  /** `_load_usage()`: the parsed object, or `{}` when the file is missing
      or does not parse. */
  function Load(f: UsageFile): map<string, int> {
    if f.Stored? then f.counts else map[]
  }

  /** `data.get(today, {"count": 0})["count"]`. */
  function CountOn(counts: map<string, int>, day: string): int {
    if day in counts then counts[day] else 0
  }

  /** How `_check_and_increment` ends: the ledger to be saved, or the
      `BrsRateLimitError` it raises. */
  datatype Charge = Permitted(counts: map<string, int>) | LimitReached

  /** `_check_and_increment()` on the loaded ledger, with `today` the UTC
      date key. */
  function ChargeFor(counts: map<string, int>, today: string): (c: Charge)
    ensures c.LimitReached? <==> CountOn(counts, today) >= DAILY_LIMIT
  {
    var count := CountOn(counts, today);
    if count >= DAILY_LIMIT then LimitReached else Permitted(counts[today := count + 1])
  }

  /** The ledger file as the running bot sees it. */
  class Ledger {
    var file: UsageFile

    constructor (f: UsageFile)
      ensures file == f
    {
      file := f;
    }

    function Counts(): map<string, int>
      reads this
    {
      Load(file)
    }

    /** `_check_and_increment()`: refuses, writing nothing, once today's
        count has reached the limit; otherwise writes the whole ledger back
        with today's count one higher. */
    method CheckAndIncrement(today: string) returns (permitted: bool)
      modifies this
      ensures permitted <==> ChargeFor(old(Counts()), today).Permitted?
      ensures permitted ==> file == Stored(ChargeFor(old(Counts()), today).counts)
      ensures !permitted ==> file == old(file)
    {
      var data := Load(file);
      var dayCount := if today in data then data[today] else 0;
      if dayCount >= DAILY_LIMIT {
        return false;
      }
      dayCount := dayCount + 1;
      data := data[today := dayCount];
      file := Stored(data);
      return true;
    }
  }

  // ---- What a charge does ----

  /** A permitted charge raises today's count by exactly one (so a day
      without an entry starts at one) and changes no other day. */
  lemma ChargeIncrementsToday(counts: map<string, int>, today: string)
    requires CountOn(counts, today) < DAILY_LIMIT
    ensures ChargeFor(counts, today).Permitted?
    ensures CountOn(ChargeFor(counts, today).counts, today) == CountOn(counts, today) + 1
    ensures today !in counts ==> CountOn(ChargeFor(counts, today).counts, today) == 1
    ensures ChargeFor(counts, today).counts.Keys == counts.Keys + {today}
    ensures forall d :: d != today && d in counts ==> ChargeFor(counts, today).counts[d] == counts[d]
  {
  }

  /** A count that starts at or below the limit stays at or below it. */
  lemma ChargeKeepsBound(counts: map<string, int>, today: string)
    requires CountOn(counts, today) <= DAILY_LIMIT
    ensures ChargeFor(counts, today).Permitted? ==> CountOn(ChargeFor(counts, today).counts, today) <= DAILY_LIMIT
  {
  }

  /** A ledger that does not parse loads as empty, so today restarts at one
      and every earlier day is lost when it is written back. */
  lemma UnreadableLedgerRestarts(f: UsageFile, today: string)
    requires !f.Stored?
    ensures ChargeFor(Load(f), today) == Permitted(map[today := 1])
  {
  }

  /** The ledger after `n` attempts on one day (a refused attempt changes
      nothing). */
  function ChargeRepeatedly(counts: map<string, int>, today: string, n: nat): map<string, int>
    decreases n
  {
    if n == 0 then counts
    else
      var prev := ChargeRepeatedly(counts, today, n - 1);
      match ChargeFor(prev, today)
      case Permitted(next) => next
      case LimitReached => prev
  }

  function Min(a: int, b: int): int {
    if a <= b then a else b
  }

  /** Starting from a count `c` at or below the limit, `n` attempts on one
      day leave the count at `min(c + n, DAILY_LIMIT)`: every attempt until
      the limit succeeds, every later one is refused, and no other day
      changes. */
  lemma {:induction false} RepeatedChargesSaturate(counts: map<string, int>, today: string, n: nat)
    requires CountOn(counts, today) <= DAILY_LIMIT
    ensures CountOn(ChargeRepeatedly(counts, today, n), today) == Min(CountOn(counts, today) + n, DAILY_LIMIT)
    ensures forall d :: d != today ==> CountOn(ChargeRepeatedly(counts, today, n), d) == CountOn(counts, d)
    decreases n
  {
    if n > 0 {
      RepeatedChargesSaturate(counts, today, n - 1);
    }
  }

  /** The worked example: a fresh day admits exactly `DAILY_LIMIT` calls;
      the next one is refused and the count stays at the limit. */
  lemma FreshDayAdmitsLimit(counts: map<string, int>, today: string)
    requires today !in counts
    ensures CountOn(ChargeRepeatedly(counts, today, DAILY_LIMIT as nat), today) == DAILY_LIMIT
    ensures ChargeFor(ChargeRepeatedly(counts, today, DAILY_LIMIT as nat), today) == LimitReached
  {
    RepeatedChargesSaturate(counts, today, DAILY_LIMIT as nat);
  }
}
