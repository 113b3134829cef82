# pricingProject2 price bot — a verified model of its core

The bot posts Iranian gold, currency and crypto prices to Telegram. This
project models its core in Dafny and proves properties of that model:

- **Preferences.** A per-chat preference store in a JSON file holds a display
  mode (`"all"`, `"important"` or `"custom"`) and a custom list of symbol keys.
- **Daily quota.** A ledger of BRS API calls per UTC day is capped at 1500.
  Two BRS fetchers share it: one with a 60-second in-memory cache (the one
  main.py imports), and a second one without a cache (the one bot/main.py
  imports).
- **Bitpin fetcher.** It keeps a 30-second cache, and an empty cached list
  never counts as a hit.
- **Formatters.** Two formatters turn the raw JSON into message lines: the
  BRS report with its per-mode filtering, and the Bitpin markets report with
  its allow-list of codes.

Modules:

| module | file | models |
|---|---|---|
| `Common` | common.dfy | `Option`, the outcome of a request (`Upstream`), and what a fetch returned or raised (`Fetched`) |
| `Numerals` | numerals.dfy | `str(int)` and the `{:,}` thousands grouping |
| `Render` | render.dfy | `_sep` and `_arrow`, which both formatters define identically |
| `StringOrder` | string_order.dfy | Python's string order and `sorted()` of a set of strings |
| `BrsFormatter` | brs_formatter.dfy | `BRS_KEYS`, `_want`, `format_brs` |
| `Storage` | storage.dfy | bot/storage.py, as a `PreferenceStore` class over the file's contents |
| `Quota` | quota.dfy | `_load_usage` / `_check_and_increment`, as a `Ledger` class |
| `BrsCachedFetcher` | brs_cached_fetcher.dfy | bot/brs/fetcher.py `fetch_brs` (60 s cache gated by the ledger) |
| `BrsFetcher` | brs_fetcher.dfy | bot/brs_fetcher.py `fetch_brs` (no cache) |
| `MarketsFormatter` | markets_formatter.dfy | bot/bitbin/formatter.py `format_markets` |
| `MarketsFetcher` | markets_fetcher.dfy | bot/bitbin/fetcher.py `fetch_markets` |

### How the model is built

- **State.** The state the source changes is the field of a class: the store
  file (`Storage.PreferenceStore`), the ledger file (`Quota.Ledger`), or a
  module's `_CACHE` dict (`BrsCachedFetcher.CachedFetcher`,
  `MarketsFetcher.Fetcher`). Most stateful operations are methods of those
  classes. The uncached `BrsFetcher.FetchBrs` has no state of its own; it is
  a module-level method that takes the `Quota.Ledger` it charges as an
  argument. Each method's `ensures` ties its result and new state to a
  pure step function (`WithToggle`, `ChargeFor`, `FetchStep`, …). Lemmas
  about those functions state what the source promises.
- **Formatter loops.** The loops of the formatters are methods with loop
  invariants. They are proved equal to a recursive specification function
  (`Rows`, `Blocks`), and the rest of the properties are proved about that
  function.
- **Inputs.** Clock readings, the UTC date key, the environment's API key and
  the outcome of each HTTP request are parameters.
- **Rendered text.** Rendered lines are values (`BrsLine`, `MarketLine`)
  holding the exact strings `_sep` produces and the `Trend` `_arrow` picks.
  The Markdown and emoji text around them is not part of the model.

## Model

| member | source | states |
|---|---|---|
| `Numerals.ParseDecimalOfDecimal` | bot/storage.py:26 | `str(chat_id)` can be parsed back to `chat_id`: the decimal rendering of an int loses nothing |
| `Numerals.Decimal` | bot/storage.py:26 | definition of `str(i)` for an int: an optional minus sign and the digits, without leading zeros; stated by `ParseDecimalOfDecimal` and `DecimalInjective` |
| `Numerals.DecimalInjective` | bot/storage.py:26 | distinct ints have distinct decimal strings |
| `Numerals.SepIntDigits` | bot/brs_formatter.py:3-7 | `f"{i:,}"` with commas deleted is `str(i)`; the digits are in well-formed groups of three after an optional minus sign |
| `Numerals.Grouped` | bot/brs_formatter.py:5 | definition of the `,` format of a natural number: the digits in groups of three, the first group possibly shorter |
| `Numerals.SepInt` | bot/brs_formatter.py:5 | definition of `f"{i:,}"` for an int: a minus sign for a negative one, then `Grouped` of its magnitude; stated by `SepIntDigits` |
| `Render.Trunc` | bot/brs_formatter.py:5 | `int(x)` truncates toward zero: the result lies within one of `x`, on the side of zero |
| `Render.Sep` | bot/brs_formatter.py:3-7 | definition of `_sep`: the grouped digits of `int(float(n))`, or the raw text when `float` fails; its meaning is stated by `SepMeaning` |
| `Render.SepMeaning` | bot/brs_formatter.py:3-7 | `_sep` of a parseable value is the grouped decimal of its truncation; an unparseable value is shown as its raw text |
| `Render.Arrow` | bot/brs_formatter.py:9-18 | up exactly for a positive parsed change, down exactly for a negative one (with its absolute value), neutral for zero or an unparseable value |
| `Render.RenderingExamples` | bot/bitbin/formatter.py:3-18 | `12345.6` renders as `12,345` and `-1234.9` as `-1,234`; `"n/a"` stays; `3.14159` goes up, `-0.5` goes down 0.5, and `0` and text are neutral |
| `StringOrder.LessTransitive` | bot/storage.py:51 | Python's string order is transitive; `LessIrreflexive`, `LessTotal` and `LessAsymmetric` give the rest of a strict total order |
| `StringOrder.Less` | bot/storage.py:51 | definition of Python's `<` on `str`, lexicographic by code point, as `sorted` uses it; a strict total order by the `Less*` lemmas |
| `StringOrder.Sorted` | bot/storage.py:51 | `sorted(cur)` is strictly ascending, holds exactly the elements of the set, and is as long as the set |
| `StringOrder.StrictlySortedUnique` | bot/storage.py:51 | two strictly ascending lists with the same elements are equal, so `sorted` has only one possible result |
| `StringOrder.SortedOfSorted` | bot/storage.py:46-51 | sorting the set of an already strictly ascending list gives that list back |
| `StringOrder.Elements` | bot/storage.py:46 | definition of `set(...)` of a list: its elements |
| `BrsFormatter.BrsKeysInjective` | bot/brs_formatter.py:25-47 | the table has 18 keys (9 gold/coin, 5 currency, 4 crypto), and no two keys map to the same BRS symbol |
| `BrsFormatter.Lookup` | bot/brs_formatter.py:53 | definition of `BRS_KEYS.get(k)`: the symbol of a known key, `None` otherwise |
| `BrsFormatter.Want` | bot/brs_formatter.py:49-53 | definition of `_want`: `default_allow` without filters, otherwise whether some filter key's `BRS_KEYS.get` equals the symbol; characterised by the three `Want*` lemmas |
| `BrsFormatter.WantWithFilters` | bot/brs_formatter.py:49-53 | with filters, `_want` ignores `default_allow` and holds exactly when some filter key maps to the symbol; with no known key in the filters it is false |
| `BrsFormatter.WantByKey` | bot/brs_formatter.py:49-53 | for a symbol from the table, `_want` holds exactly when its key is among the filters |
| `BrsFormatter.WantMissingSymbol` | bot/brs_formatter.py:53 | a record without a symbol is wanted exactly when some filter key is unknown to the table (`BRS_KEYS.get(k)` is `None`, as is the symbol) |
| `BrsFormatter.DisplayName` | bot/brs_formatter.py:78 | definition of `name_en or name or sym` over Python truthiness; characterised by `DisplayNameFallback` |
| `BrsFormatter.DisplayNameFallback` | bot/brs_formatter.py:78 | the name shown is `name_en` if truthy, otherwise `name` if truthy, otherwise the symbol |
| `BrsFormatter.Truthy` | bot/brs_formatter.py:78 | definition of Python truthiness of a field that may be missing: present and not empty |
| `BrsFormatter.PyStr` | bot/brs_formatter.py:78 | definition of how a value that may be `None` prints: the text itself, or `"None"` |
| `BrsFormatter.RowOf` | bot/brs_formatter.py:20-22 | definition of the content of `_fmt_row`: display name, `_sep` of the price, `unit if unit else ""`, `_arrow` of the change |
| `BrsFormatter.RowFields` | bot/brs_formatter.py:20-22 | a row shows the display name; a missing price prints as `None`; a falsy unit prints as nothing and a truthy one as itself; a missing change is neutral |
| `BrsFormatter.ImportantSymbols` | bot/brs_formatter.py:69-112 | definition of the three hard-coded sets of mode `"important"` (lines 74, 89 and 104); stated by `ImportantModeUsesFixedSets` |
| `BrsFormatter.Allowed` | bot/brs_formatter.py:71-77 | definition of the `allow` test in each loop: the fixed set in mode `"important"`, `_want` otherwise; characterised by `ImportantModeUsesFixedSets` and `FiltersDecideOutsideImportant` |
| `BrsFormatter.Rows` | bot/brs_formatter.py:69-80 | definition of the rows one loop collects, in feed order; no more rows than records, and every line is a row |
| `BrsFormatter.LineFor` | bot/brs_formatter.py:77-79 | definition of what one record adds in a loop: its row when allowed, nothing otherwise; stated by `RowsSingle` |
| `BrsFormatter.Section` | bot/brs_formatter.py:80-82 | definition of the `if gold_lines:` test (likewise at lines 95-97 and 110-112): the heading and the rows, or nothing when there are no rows; stated by `ReportSections` |
| `BrsFormatter.WellFormedWithRecordsReports` | bot/brs_formatter.py:56-57 | a payload decoded from JSON that holds at least one record is truthy and gets a report |
| `BrsFormatter.IsTruthy` | bot/brs_formatter.py:56-57 | definition of `not brs` being false: a payload that is present and a non-empty object |
| `BrsFormatter.Report` | bot/brs_formatter.py:55-115 | `None` exactly for a falsy payload; otherwise the title comes first and the source line (with the mode) last |
| `BrsFormatter.CollectRows` | bot/brs_formatter.py:69-80 | the per-category loop collects exactly `Rows` of the records |
| `BrsFormatter.FormatBrs` | bot/brs_formatter.py:55-115 | the imperative `format_brs` builds exactly the lines of `Report` |
| `BrsFormatter.RowsAppend` | bot/brs_formatter.py:70-79 | rows of a concatenated feed are the rows of each part, in order |
| `BrsFormatter.RowsSingle` | bot/brs_formatter.py:71-79 | one record yields its row exactly when it is allowed |
| `BrsFormatter.RowsMembers` | bot/brs_formatter.py:69-80 | no more rows than records; a line is collected exactly when it is the row of an allowed record of the feed |
| `BrsFormatter.AllModeKeepsEverything` | bot/brs_formatter.py:67-76 | mode `"all"` without filters shows every record, one row each, in feed order |
| `BrsFormatter.OtherModeWithoutFiltersKeepsNothing` | bot/brs_formatter.py:67-76 | any mode other than `"all"` and `"important"` without filters shows no row |
| `BrsFormatter.ImportantModeUsesFixedSets` | bot/brs_formatter.py:69-112 | mode `"important"` ignores the filters and keeps exactly the fixed symbols: 5 gold, 4 currency, 4 crypto |
| `BrsFormatter.FiltersDecideOutsideImportant` | bot/brs_formatter.py:67-76 | outside `"important"`, given filters, the mode makes no difference |
| `BrsFormatter.ReportSections` | bot/brs_formatter.py:80-112 | a category's heading appears exactly when it has rows; headings appear at most once each, in the order gold, currency, crypto |
| `BrsFormatter.CallerFilters` | main.py:159 | definition of the caller's choice: the custom set as filters in mode `"custom"`, none otherwise; its effect is `ModeMeaning` |
| `BrsFormatter.ModeMeaning` | main.py:159 | as the bot calls it (filters only in `"custom"` mode), for a record with a symbol: `"all"` shows it, `"important"` exactly when it is in the fixed set, `"custom"` exactly when a chosen key maps to it, any other mode never. A record without a symbol: `"all"` shows it, `"custom"` exactly when some chosen key is not in the table, any other mode never |
| `Storage.ChatKeyInjective` | bot/storage.py:26 | different chats never share a record |
| `Storage.ChatKey` | bot/storage.py:26 | definition of `str(chat_id)` as the decimal rendering; stated by `ChatKeyInjective` |
| `Storage.RecordOf` | bot/storage.py:27 | definition of `data.get(key, {})` |
| `Storage.PrefsOf` | bot/storage.py:28-30 | definition of the returned mode and custom list with their defaults; stated by `GetUserPrefs` |
| `Storage.PreferenceStore.constructor` | bot/storage.py:4 | the store over the file at `data/users.json` as it is found |
| `Storage.Load` | bot/storage.py:12-18 | definition of `_load`: the parsed object, or `{}` for a missing or unparseable file; its effect is `UnreadableStoreGivesDefaults` |
| `Storage.GetUserPrefs` | bot/storage.py:24-30 | a chat without a record gets `"important"` and the default list; in an existing record a stored field wins and a missing one takes its default |
| `Storage.UnreadableStoreGivesDefaults` | bot/storage.py:12-18 | a missing or unparseable file acts as `{}`: every chat gets the defaults |
| `Storage.DefaultCustomKnown` | bot/storage.py:7-10 | every key of `DEFAULT_CUSTOM` is a key of `BRS_KEYS` |
| `Storage.WithMode` | bot/storage.py:33-39 | definition of the users object `set_user_mode` writes; its effect is `SetUserModeEffect` |
| `Storage.PreferenceStore.SetUserMode` | bot/storage.py:32-40 | the file afterwards holds `WithMode` of the users read before |
| `Storage.SetUserModeEffect` | bot/storage.py:32-40 | the chat reads back the new mode and its old custom list, now stored; its other fields and every other entry of the file, whatever its key, are unchanged; the chat gains a record |
| `Storage.WithToggle` | bot/storage.py:43-53 | definition of the users object `toggle_custom` writes; its effect is stated by the `Toggle*` lemmas |
| `Storage.ToggledSelection` | bot/storage.py:46-50 | definition of `cur` after the flip: the chat's selection (stored or default) with the key removed if present and added if not; stated by `ToggleFlipsMembership` |
| `Storage.PreferenceStore.ToggleCustom` | bot/storage.py:42-55 | returns a strictly sorted list holding exactly the toggled selection, and stores `WithToggle` of the users read before |
| `Storage.ToggleFlipsMembership` | bot/storage.py:46-50 | after a toggle the key is selected exactly when it was not; every other key is as before |
| `Storage.ToggleForcesCustomMode` | bot/storage.py:51-52 | after a toggle the chat is in mode `"custom"` and its stored list is sorted with no duplicates |
| `Storage.ToggleFrame` | bot/storage.py:53 | a toggle changes only the chat's own `custom` and `mode`; every other entry of the file, whatever its key, is unchanged |
| `Storage.ToggleTwiceRestores` | bot/storage.py:42-55 | toggling the same key twice gives back the chat's selection as a set, now stored sorted, in mode `"custom"` |
| `Storage.ToggleTwiceRestoresSortedList` | bot/storage.py:42-55 | if the stored list was already sorted, toggling twice gives back exactly that list |
| `Storage.UpdatesKeepRecordsWellFormed` | bot/storage.py:32-55 | `set_user_mode` and `toggle_custom` never put a `"mode"` or `"custom"` entry among a record's other fields |
| `Quota.ChargeFor` | bot/brs/fetcher.py:32-40 | the charge is refused exactly when today's count has reached 1500 |
| `Quota.Load` | bot/brs/fetcher.py:20-26 | definition of `_load_usage`: the parsed object, or `{}` for a missing or unparseable file; its effect is `UnreadableLedgerRestarts` |
| `Quota.CountOn` | bot/brs/fetcher.py:35-36 | definition of `data.get(today, {"count": 0})["count"]`: the stored count, 0 for a day without an entry |
| `Quota.Ledger.constructor` | bot/brs/fetcher.py:10 | the ledger over the file at `data/brs_usage.json` as it is found |
| `Quota.Ledger.CheckAndIncrement` | bot/brs/fetcher.py:32-40 | permitted exactly when `ChargeFor` permits; then the whole ledger with today incremented is written, otherwise the file is untouched |
| `Quota.ChargeIncrementsToday` | bot/brs_fetcher.py:27-35 | a permitted charge raises today's count by one (from 0 for a new day) and changes no other day |
| `Quota.ChargeKeepsBound` | bot/brs/fetcher.py:36-38 | today's count never passes 1500 once at or below it |
| `Quota.UnreadableLedgerRestarts` | bot/brs/fetcher.py:20-26 | a missing or unparseable ledger loads as `{}`, and a charge then writes `{today: 1}` |
| `Quota.RepeatedChargesSaturate` | bot/brs/fetcher.py:32-40 | `n` charges on one day leave its count at `min(count + n, 1500)` |
| `Quota.FreshDayAdmitsLimit` | bot/brs/fetcher.py:32-40 | a day with no entry admits exactly 1500 charges |
| `BrsCachedFetcher.FetchStep` | bot/brs/fetcher.py:42-59 | definition of one `fetch_brs` call: no key, cache hit, refused charge, failed or successful request; stated by the lemmas below |
| `BrsCachedFetcher.HasKey` | bot/brs/fetcher.py:43-45 | definition of the `not key` test: a key that is set and not empty |
| `BrsCachedFetcher.IsHit` | bot/brs/fetcher.py:47-48 | definition of a hit: cached data that is not `None` and at most 60 s old; stated by `HitServesCache` and `FreshnessWindow` |
| `BrsCachedFetcher.INITIAL_CACHE` | bot/brs/fetcher.py:15 | definition of the initial `_CACHE = {"ts": 0.0, "data": None}`; stated by `FirstCallCharged` |
| `BrsCachedFetcher.CachedFetcher.constructor` | bot/brs/fetcher.py:15 | a fresh process starts with the cache `INITIAL_CACHE` over the given ledger |
| `BrsCachedFetcher.CachedFetcher.FetchBrs` | bot/brs/fetcher.py:42-59 | result, cache and ledger afterwards are exactly `FetchStep` of the state before |
| `BrsCachedFetcher.NoKeyTouchesNothing` | bot/brs/fetcher.py:43-45 | with no key or an empty key: returns `None`, cache and ledger unchanged |
| `BrsCachedFetcher.HitServesCache` | bot/brs/fetcher.py:47-49 | a non-`None` body younger than or equal to 60 s is returned with no request and no charge |
| `BrsCachedFetcher.MissChargesOnce` | bot/brs/fetcher.py:51-52 | a miss at the limit raises and changes nothing; otherwise today's count goes up by one and no other day changes |
| `BrsCachedFetcher.RequestOutcome` | bot/brs/fetcher.py:52-59 | a failed request after the charge keeps the charge and the old cache; a successful one caches the body stamped `now` |
| `BrsCachedFetcher.LedgerBounded` | bot/brs/fetcher.py:42-59 | only a keyed miss changes the ledger, and today's count stays at or below 1500 |
| `BrsCachedFetcher.StampMonotone` | bot/brs/fetcher.py:57-58 | with a monotone clock the cache stamp never decreases |
| `BrsCachedFetcher.FirstCallCharged` | bot/brs/fetcher.py:15 | the initial cache `{ts: 0, data: None}` always misses, so the first keyed call is charged |
| `BrsCachedFetcher.FreshnessWindow` | bot/brs/fetcher.py:14-49 | a body fetched at `t` is served at `t + 10` and refetched at `t + 61`; a `null` body is never served from cache |
| `BrsFetcher.FetchStep` | bot/brs_fetcher.py:37-45 | definition of one uncached `fetch_brs` call: no key, refused charge, failed or successful request; stated by the lemmas below |
| `BrsFetcher.HasKey` | bot/brs_fetcher.py:38-40 | definition of the `not key` test: a key that is set and not empty |
| `BrsFetcher.FetchBrs` | bot/brs_fetcher.py:37-45 | result and ledger afterwards are exactly `FetchStep` of the ledger before |
| `BrsFetcher.NoKeyNoCharge` | bot/brs_fetcher.py:38-40 | with no key: returns `None`, ledger unchanged |
| `BrsFetcher.EveryKeyedCallCharged` | bot/brs_fetcher.py:41-45 | every keyed call is charged before the request (or raises at the limit with nothing written), whether or not the request then fails; a failed request raises and a successful one returns its body |
| `BrsFetcher.CountStaysBounded` | bot/brs_fetcher.py:31 | today's count stays at or below 1500 |
| `BrsFetcher.CorruptLedgerRestartsDay` | bot/brs_fetcher.py:15-21 | an unparseable ledger is replaced by `{today: 1}` on the next keyed call |
| `MarketsFormatter.StripIrt` | bot/bitbin/formatter.py:28 | definition of `replace("_IRT", "")` as a left-to-right scan that does not rescan; never lengthens the code; together `StripIrtNoOccurrence` and `StripIrtSplit` fix its value on every string |
| `MarketsFormatter.StripIrtNoOccurrence` | bot/bitbin/formatter.py:28 | a code with no `"_IRT"` is shown unchanged |
| `MarketsFormatter.StripIrtTrailing` | bot/bitbin/formatter.py:28 | a trailing `"_IRT"` is always removed: `replace` of `s + "_IRT"` equals that of `s` |
| `MarketsFormatter.StripIrtSplit` | bot/bitbin/formatter.py:28 | before the leftmost `"_IRT"` the code is kept, that occurrence is removed, and the scan resumes after it: `a + "_IRT" + b` shows as `a` followed by what `b` shows as |
| `MarketsFormatter.StripIrtExample` | bot/bitbin/formatter.py:27-28 | `"BTC_IRT"` shows as `"BTC"` and the default `"N/A"` as itself |
| `MarketsFormatter.StripIrtInnerExample` | bot/bitbin/formatter.py:28 | an inner occurrence is removed: `"A_IRTB"` shows as `"AB"` |
| `MarketsFormatter.StripIrtNoRescanExample` | bot/bitbin/formatter.py:28 | what is left behind is not scanned again: `"__IRTIRT"` shows as `"_IRT"` |
| `MarketsFormatter.DisplayCode` | bot/bitbin/formatter.py:27-28 | definition of the shown code: `code` (or `"N/A"`) with `"_IRT"` removed |
| `MarketsFormatter.Restricts` | bot/bitbin/formatter.py:29 | definition of the truthiness of `keep_codes`: given and not empty; stated by `AllowList` |
| `MarketsFormatter.BlockFor` | bot/bitbin/formatter.py:29-44 | definition of what one record adds: its block when kept, nothing after the `continue`; stated by `BlocksSingle` |
| `MarketsFormatter.Kept` | bot/bitbin/formatter.py:29-30 | definition of the `keep_codes` test; characterised by `AllowList` |
| `MarketsFormatter.MarketName` | bot/bitbin/formatter.py:32-33 | definition of the presence-based name fallback; characterised by `FieldDefaults` |
| `MarketsFormatter.BlockOf` | bot/bitbin/formatter.py:32-43 | definition of one market block with its defaults; characterised by `FieldDefaults` |
| `MarketsFormatter.Blocks` | bot/bitbin/formatter.py:26-44 | definition of the blocks of the kept records, in feed order; no more blocks than records, and every line is a block |
| `MarketsFormatter.Report` | bot/bitbin/formatter.py:20-47 | definition of the whole report: header, blocks, source line; its shape is `ReportShape` |
| `MarketsFormatter.FormatMarkets` | bot/bitbin/formatter.py:20-47 | the loop with its `continue` builds exactly `Report`: header, the kept blocks, source line |
| `MarketsFormatter.ReportShape` | bot/bitbin/formatter.py:24-46 | the header comes first, the source line last, and every line between is a market block |
| `MarketsFormatter.BlocksAppend` | bot/bitbin/formatter.py:26-44 | blocks of a concatenated feed are the blocks of each part, in feed order |
| `MarketsFormatter.BlocksSingle` | bot/bitbin/formatter.py:29-44 | one record yields its block exactly when it is kept |
| `MarketsFormatter.AllowList` | bot/bitbin/formatter.py:29-30 | with a non-empty `keep_codes`, a record is kept exactly when its stripped code is listed; with none or an empty one, every record is shown, in order |
| `MarketsFormatter.FieldDefaults` | bot/bitbin/formatter.py:27-37 | the name falls back from `currency1.title` to `name` to `"N/A"`; a missing code is `"N/A"`; a missing price, min or max shows `"-"`; a missing change is neutral |
| `MarketsFetcher.Fetcher.FetchMarkets` | bot/bitbin/fetcher.py:9-18 | result and cache afterwards are exactly `FetchStep` of the cache before |
| `MarketsFetcher.FetchStep` | bot/bitbin/fetcher.py:9-18 | definition of one `fetch_markets` call: hit, failed or successful request; stated by the lemmas below |
| `MarketsFetcher.IsHit` | bot/bitbin/fetcher.py:11 | definition of a hit: a non-empty cached list at most 30 s old; stated by `HitServesCache`, `EmptyResultKeepsMissing` and `FreshnessWindow` |
| `MarketsFetcher.INITIAL_CACHE` | bot/bitbin/fetcher.py:7 | definition of the initial `_CACHE = {"ts": 0.0, "data": []}`; stated by `InitialAlwaysMisses` |
| `MarketsFetcher.Fetcher.constructor` | bot/bitbin/fetcher.py:7 | a fresh process starts with the cache `INITIAL_CACHE` |
| `MarketsFetcher.InitialAlwaysMisses` | bot/bitbin/fetcher.py:7-11 | the initial cache `{ts: 0, data: []}` misses at every time |
| `MarketsFetcher.HitServesCache` | bot/bitbin/fetcher.py:11-12 | a non-empty list at most 30 s old is returned with no request |
| `MarketsFetcher.MissOutcome` | bot/bitbin/fetcher.py:13-18 | on a miss a failed request raises and keeps the cache; a successful one caches and returns `results` (or `[]`) stamped `now` |
| `MarketsFetcher.EmptyResultKeepsMissing` | bot/bitbin/fetcher.py:11-17 | an empty result is cached, but the next call misses again |
| `MarketsFetcher.FreshnessWindow` | bot/bitbin/fetcher.py:6-11 | a non-empty list fetched at `t` is served at `t + 10` and refetched at `t + 31` |
| `MarketsFetcher.StampMonotone` | bot/bitbin/fetcher.py:17 | with a monotone clock the cache stamp never decreases |

## Left out

- HTTP requests, `raise_for_status`, environment variables, the clock and the UTC date: these are parameters (`Upstream`, `key`, `now`, `today`). `RequestFailed` stands for any requests exception or HTTP error.
- File I/O: each JSON file is a value (`Missing`, `Unparseable`, `Stored`). `_save` and `_save_usage` are assignments to the file field. Interleaving between processes, partial writes and an I/O error while writing are not modelled, and neither is the concurrency among the bot's handlers.
- JSON shapes other than the expected ones are excluded by the model's types. Some of them make the source raise: a null `code`, `currency1` or `price_info`, a file that is not an object, or a null or string count. Others the source accepts and the model does not represent: a float count (compared and incremented as a float), a null Bitpin `name` without `currency1` (shown as `None`), or a stored null `mode` (returned as it is). A JSON `null` body from BRS is modelled as `None`.
- Floating point: `float(x)` is modelled as an exact real, with NaN and infinity excluded. `int()` of a huge float, the `:.2f` rounding in `_arrow` and float rounding in `_sep` are not modelled.
- `Render.Arrow`: the result records the exact change rather than its two-decimal rendering.
- Message text: the Markdown, the emoji and the timestamp in the headers (`datetime.now`) are not modelled. Lines are values, and `"\n".join` is the sequence of lines.
- `Render.Sep` of an unparseable value keeps the text `str(x)` would print, given as the `Unparsed` payload. A missing BRS field is `Unparsed("None")`.
- The tuple results of `FetchStep` functions have no ensures of their own. The lemmas beside them state their properties.
- `BrsFormatter.WantMissingSymbol` states the source as written: an unknown filter key matches a record that has no `symbol`. The model keeps that behaviour.
- The Telegram UI in main.py and bot/main.py (menus, paging, callbacks) is not part of this model. Only the way main.py:159 chooses filters is modelled, as `BrsFormatter.CallerFilters`.
- bot/fetcher.py is not part of this model.
- The store does not check that a custom key is a key of `BRS_KEYS`, and neither does the model. Only the default list is shown to stay within the table.
- User record fields other than `mode` and `custom` are kept opaque, as a map of strings, and shown unchanged.
