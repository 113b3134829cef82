/** The BRS report (bot/brs_formatter.py): which gold, currency and crypto
    records of one BRS payload are shown for a display mode and filter set,
    in which order and under which section headings. */
module BrsFormatter {
  import opened Common
  import opened Render

  /** The menu keys a user can pick, and the BRS symbol each one selects. */
  const BRS_KEYS: map<string, string> := map[
    "gold_18k" := "IR_GOLD_18K",
    "gold_24k" := "IR_GOLD_24K",
    "gold_melted" := "IR_GOLD_MELTED",
    "xauusd" := "XAUUSD",
    "coin_1g" := "IR_COIN_1G",
    "coin_quarter" := "IR_COIN_QUARTER",
    "coin_half" := "IR_COIN_HALF",
    "coin_emami" := "IR_COIN_EMAMI",
    "coin_bahar" := "IR_COIN_BAHAR",
    "usdt_irt" := "USDT_IRT",
    "usd" := "USD",
    "eur" := "EUR",
    "aed" := "AED",
    "gbp" := "GBP",
    "btc" := "BTC",
    "eth" := "ETH",
    "trx" := "TRX",
    "usdt" := "USDT"
  ]

  /** `BRS_KEYS.get(k)`. */
  function Lookup(k: string): Option<string> {
    if k in BRS_KEYS then Some(BRS_KEYS[k]) else None
  }

  /** The table read backwards, from symbol to key. */
  const SYMBOL_KEYS: map<string, string> := map[
    "IR_GOLD_18K" := "gold_18k",
    "IR_GOLD_24K" := "gold_24k",
    "IR_GOLD_MELTED" := "gold_melted",
    "XAUUSD" := "xauusd",
    "IR_COIN_1G" := "coin_1g",
    "IR_COIN_QUARTER" := "coin_quarter",
    "IR_COIN_HALF" := "coin_half",
    "IR_COIN_EMAMI" := "coin_emami",
    "IR_COIN_BAHAR" := "coin_bahar",
    "USDT_IRT" := "usdt_irt",
    "USD" := "usd",
    "EUR" := "eur",
    "AED" := "aed",
    "GBP" := "gbp",
    "BTC" := "btc",
    "ETH" := "eth",
    "TRX" := "trx",
    "USDT" := "usdt"
  ]

  /** The keys of the table, in the three groups its comments name. */
  const GOLD_KEYS: set<string> := {
    "gold_18k", "gold_24k", "gold_melted", "xauusd", "coin_1g",
    "coin_quarter", "coin_half", "coin_emami", "coin_bahar"}
  const CURRENCY_KEYS: set<string> := {"usdt_irt", "usd", "eur", "aed", "gbp"}
  const CRYPTO_KEYS: set<string> := {"btc", "eth", "trx", "usdt"}

  lemma KeyGroups()
    ensures BRS_KEYS.Keys == GOLD_KEYS + CURRENCY_KEYS + CRYPTO_KEYS
  {
  }

  lemma KeyGroupSizes()
    ensures |GOLD_KEYS| == 9 && |CURRENCY_KEYS| == 5 && |CRYPTO_KEYS| == 4
  {
  }

  lemma KeyGroupsDisjoint()
    ensures GOLD_KEYS !! CURRENCY_KEYS && GOLD_KEYS !! CRYPTO_KEYS && CURRENCY_KEYS !! CRYPTO_KEYS
  {
  }

  lemma SymbolKeysInvert()
    ensures forall k :: k in BRS_KEYS ==> BRS_KEYS[k] in SYMBOL_KEYS && SYMBOL_KEYS[BRS_KEYS[k]] == k
  {
  }

  /** The table has 18 keys (nine gold and coin keys, five currency keys,
      four crypto keys) and no two of them select the same symbol, so every
      symbol of the table is selected by exactly one key. */
  lemma BrsKeysInjective()
    ensures BRS_KEYS.Keys == GOLD_KEYS + CURRENCY_KEYS + CRYPTO_KEYS
    ensures |BRS_KEYS| == 18
    ensures forall k1, k2 :: k1 in BRS_KEYS && k2 in BRS_KEYS && BRS_KEYS[k1] == BRS_KEYS[k2] ==> k1 == k2
  {
    KeyGroups();
    KeyGroupSizes();
    KeyGroupsDisjoint();
    assert |GOLD_KEYS + CURRENCY_KEYS| == 14;
    assert |BRS_KEYS.Keys| == 18;
    SymbolKeysInvert();
  }

  /** `_want(symbol, filters, default_allow)`: without filters the verdict
      is `default_allow`; with filters, whether some filter key's symbol is
      `symbol` (compared as Python values, so a key missing from the table
      gives `None`). */
  predicate Want(symbol: Option<string>, filters: Option<set<string>>, defaultAllow: bool) {
    if filters.None? then defaultAllow
    else exists k | k in filters.value :: Lookup(k) == symbol
  }

  /** With filters, a record that has a symbol is kept exactly when one of
      the filter keys maps to that symbol in the table; keys that are not in
      the table never select it. */
  lemma WantWithFilters(symbol: string, filters: set<string>, defaultAllow: bool)
    ensures Want(Some(symbol), Some(filters), defaultAllow)
      <==> exists k :: k in filters && k in BRS_KEYS && BRS_KEYS[k] == symbol
    ensures (forall k :: k in filters ==> k !in BRS_KEYS) ==> !Want(Some(symbol), Some(filters), defaultAllow)
  {
    if Want(Some(symbol), Some(filters), defaultAllow) {
      var k :| k in filters && Lookup(k) == Some(symbol);
      assert k in BRS_KEYS && BRS_KEYS[k] == symbol;
    }
  }

  /** Because the table is injective, a record whose symbol is the one of
      key `key` is kept exactly when `key` itself is among the filters. */
  lemma WantByKey(key: string, filters: set<string>, defaultAllow: bool)
    requires key in BRS_KEYS
    ensures Want(Some(BRS_KEYS[key]), Some(filters), defaultAllow) <==> key in filters
  {
    BrsKeysInjective();
    WantWithFilters(BRS_KEYS[key], filters, defaultAllow);
  }

  /** As written, a filter key that is not in the table matches a record that
      has no `symbol` field: `BRS_KEYS.get(k)` and `g.get("symbol")` are then
      both `None`. */
  lemma WantMissingSymbol(filters: set<string>, defaultAllow: bool)
    ensures Want(None, Some(filters), defaultAllow) <==> exists k :: k in filters && k !in BRS_KEYS
    ensures Want(None, Some({"no_such_key"}), defaultAllow)
  {
    assert Lookup("no_such_key") == None;
  }

  /** One entry of the `gold`, `currency` or `cryptocurrency` list. A field
      the entry lacks is `None`. */
  datatype BrsRecord = BrsRecord(
    symbol: Option<string>,
    nameEn: Option<string>,
    name: Option<string>,
    price: Option<Num>,
    unit: Option<string>,
    changePercent: Option<Num>)

  /** A decoded BRS payload: the keys of the JSON object (its truthiness),
      and the three lists, each `[]` when missing or null
      (`brs.get("gold", []) or []`). A payload decoded from JSON is
      `WellFormed`; `format_brs` does not rely on it, so the functions below
      are defined for every value. */
  datatype BrsPayload = BrsPayload(
    keys: set<string>,
    gold: seq<BrsRecord>,
    currency: seq<BrsRecord>,
    crypto: seq<BrsRecord>)

  /** A non-empty list comes from a key of the object. */
  predicate WellFormed(p: BrsPayload) {
    && (p.gold != [] ==> "gold" in p.keys)
    && (p.currency != [] ==> "currency" in p.keys)
    && (p.crypto != [] ==> "cryptocurrency" in p.keys)
  }

  datatype Category = Gold | Currency | Crypto

  /** The hand-picked symbols that mode `"important"` shows per category. */
  function ImportantSymbols(cat: Category): set<string> {
    match cat
    case Gold => {"IR_GOLD_18K", "IR_GOLD_24K", "IR_COIN_EMAMI", "IR_COIN_1G", "XAUUSD"}
    case Currency => {"USD", "USDT_IRT", "EUR", "AED"}
    case Crypto => {"BTC", "ETH", "TRX", "USDT"}
  }

  /** The loop body's `allow` for one record. */
  predicate Allowed(rec: BrsRecord, cat: Category, mode: string, filters: Option<set<string>>) {
    if mode == "important" then rec.symbol.Some? && rec.symbol.value in ImportantSymbols(cat)
    else Want(rec.symbol, filters, mode == "all")
  }

  /** Python's truthiness of an optional string. */
  predicate Truthy(s: Option<string>) {
    s.Some? && s.value != ""
  }

  /** How Python prints a value that may be `None`. */
  function PyStr(s: Option<string>): string {
    s.GetOr("None")
  }

  /** What `str` and `float` see for a missing numeric field: `None`, which
      prints as `"None"` and does not parse. */
  const MISSING_NUMBER: Num := Unparsed("None")

  /** `g.get("name_en") or g.get("name") or sym`. */
  function DisplayName(rec: BrsRecord): string {
    if Truthy(rec.nameEn) then rec.nameEn.value
    else if Truthy(rec.name) then rec.name.value
    else PyStr(rec.symbol)
  }

  /** The shown name is the first non-empty one of `name_en` and `name`,
      and otherwise the symbol, whatever it is. */
  lemma DisplayNameFallback(rec: BrsRecord)
    ensures Truthy(rec.nameEn) ==> DisplayName(rec) == rec.nameEn.value
    ensures !Truthy(rec.nameEn) && Truthy(rec.name) ==> DisplayName(rec) == rec.name.value
    ensures !Truthy(rec.nameEn) && !Truthy(rec.name) && rec.symbol.Some? ==> DisplayName(rec) == rec.symbol.value
    ensures DisplayName(rec) != "" || (!Truthy(rec.nameEn) && !Truthy(rec.name) && rec.symbol == Some(""))
  {
  }

  /** The content of one `_fmt_row` line. */
  datatype BrsRow = BrsRow(name: string, price: string, unit: string, trend: Trend)

  function RowOf(rec: BrsRecord): BrsRow {
    BrsRow(
      DisplayName(rec),
      Sep(rec.price.GetOr(MISSING_NUMBER)),
      if Truthy(rec.unit) then rec.unit.value else "",
      Arrow(rec.changePercent.GetOr(MISSING_NUMBER)))
  }

  /** The fields of a row: a missing price prints as `None`, a falsy unit
      as nothing, and a missing change is neutral. */
  lemma RowFields(rec: BrsRecord)
    ensures RowOf(rec).name == DisplayName(rec)
    ensures rec.price.None? ==> RowOf(rec).price == "None"
    ensures Truthy(rec.unit) ==> RowOf(rec).unit == rec.unit.value
    ensures !Truthy(rec.unit) ==> RowOf(rec).unit == ""
    ensures rec.changePercent.None? ==> RowOf(rec).trend == Flat
  {
  }

  /** The lines of the report: the title, a heading per non-empty section,
      one row per kept record, and the closing source line naming the mode.
      The timestamp of the title is not modelled. */
  datatype BrsLine = Title | Heading(cat: Category) | Row(row: BrsRow) | SourceLine(mode: string)

  /** The lines `[Row(...)]` that one record contributes. */
  function LineFor(rec: BrsRecord, cat: Category, mode: string, filters: Option<set<string>>): seq<BrsLine> {
    if Allowed(rec, cat, mode, filters) then [Row(RowOf(rec))] else []
  }

  /** The row lines collected for one category, in feed order. */
  function Rows(recs: seq<BrsRecord>, cat: Category, mode: string, filters: Option<set<string>>): (r: seq<BrsLine>)
    ensures |r| <= |recs|
    ensures forall i :: 0 <= i < |r| ==> r[i].Row?
    decreases |recs|
  {
    if recs == [] then []
    else Rows(recs[..|recs| - 1], cat, mode, filters) + LineFor(recs[|recs| - 1], cat, mode, filters)
  }

  /** A heading followed by its rows, or nothing when there are no rows. */
  function Section(cat: Category, rows: seq<BrsLine>): seq<BrsLine> {
    if rows == [] then [] else [Heading(cat)] + rows
  }

  /** `not brs` is false: the payload exists and is a non-empty object. */
  predicate IsTruthy(brs: Option<BrsPayload>) {
    brs.Some? && brs.value.keys != {}
  }

  /** The report `format_brs` builds, or `None` for a falsy payload. */
  function Report(brs: Option<BrsPayload>, filters: Option<set<string>>, mode: string): (r: Option<seq<BrsLine>>)
    ensures r.None? <==> !IsTruthy(brs)
    ensures r.Some? ==> |r.value| >= 2 && r.value[0] == Title && r.value[|r.value| - 1] == SourceLine(mode)
  {
    if !IsTruthy(brs) then None
    else
      var p := brs.value;
      Some([Title]
        + Section(Gold, Rows(p.gold, Gold, mode, filters))
        + Section(Currency, Rows(p.currency, Currency, mode, filters))
        + Section(Crypto, Rows(p.crypto, Crypto, mode, filters))
        + [SourceLine(mode)])
  }

  /** One of the three loops of `format_brs`: the rows of the kept records. */
  method CollectRows(recs: seq<BrsRecord>, cat: Category, mode: string, filters: Option<set<string>>)
    returns (lines: seq<BrsLine>)
    ensures lines == Rows(recs, cat, mode, filters)
  {
    lines := [];
    var i := 0;
    while i < |recs|
      invariant 0 <= i <= |recs|
      invariant lines == Rows(recs[..i], cat, mode, filters)
    {
      var rec := recs[i];
      var allow := false;
      if mode == "important" {
        allow := rec.symbol.Some? && rec.symbol.value in ImportantSymbols(cat);
      } else {
        allow := Want(rec.symbol, filters, mode == "all");
      }
      if allow {
        lines := lines + [Row(RowOf(rec))];
      }
      assert recs[..i + 1][..i] == recs[..i];
      i := i + 1;
    }
    assert recs[..i] == recs;
  }

  /** `format_brs(brs, filters, mode)`. */
  method FormatBrs(brs: Option<BrsPayload>, filters: Option<set<string>>, mode: string)
    returns (r: Option<seq<BrsLine>>)
    ensures r == Report(brs, filters, mode)
  {
    if !IsTruthy(brs) {
      return None;
    }
    var p := brs.value;
    var lines := [Title];
    var goldLines := CollectRows(p.gold, Gold, mode, filters);
    if goldLines != [] {
      lines := lines + ([Heading(Gold)] + goldLines);
    }
    assert lines == [Title] + Section(Gold, goldLines);
    var curLines := CollectRows(p.currency, Currency, mode, filters);
    if curLines != [] {
      lines := lines + ([Heading(Currency)] + curLines);
    }
    assert lines == [Title] + Section(Gold, goldLines) + Section(Currency, curLines);
    var crLines := CollectRows(p.crypto, Crypto, mode, filters);
    if crLines != [] {
      lines := lines + ([Heading(Crypto)] + crLines);
    }
    assert lines == [Title] + Section(Gold, goldLines) + Section(Currency, curLines) + Section(Crypto, crLines);
    lines := lines + [SourceLine(mode)];
    r := Some(lines);
  }

  // ---- What the rows of a category are ----

  /** Collecting rows distributes over concatenation of the feed: the rows
      of a longer feed are those of its first part followed by those of the
      rest, so feed order is kept. */
  lemma {:induction false} RowsAppend(a: seq<BrsRecord>, b: seq<BrsRecord>, cat: Category, mode: string, filters: Option<set<string>>)
    ensures Rows(a + b, cat, mode, filters) == Rows(a, cat, mode, filters) + Rows(b, cat, mode, filters)
    decreases |b|
  {
    if b == [] {
      assert a + b == a;
    } else {
      assert (a + b)[..|a + b| - 1] == a + b[..|b| - 1];
      RowsAppend(a, b[..|b| - 1], cat, mode, filters);
    }
  }

  /** A single record gives its row exactly when it is allowed. */
  lemma RowsSingle(rec: BrsRecord, cat: Category, mode: string, filters: Option<set<string>>)
    ensures Rows([rec], cat, mode, filters) == if Allowed(rec, cat, mode, filters) then [Row(RowOf(rec))] else []
  {
    assert [rec][..0] == [];
  }

  /** Every line collected is the row of an allowed record of the feed, and
      every allowed record's row is among them; there are never more rows
      than records. */
  lemma {:induction false} RowsMembers(recs: seq<BrsRecord>, cat: Category, mode: string, filters: Option<set<string>>)
    ensures |Rows(recs, cat, mode, filters)| <= |recs|
    ensures forall l :: l in Rows(recs, cat, mode, filters) <==>
      exists rec :: rec in recs && Allowed(rec, cat, mode, filters) && l == Row(RowOf(rec))
    decreases |recs|
  {
    if recs != [] {
      var init := recs[..|recs| - 1];
      RowsMembers(init, cat, mode, filters);
      assert recs == init + [recs[|recs| - 1]];
      forall l
        ensures l in Rows(recs, cat, mode, filters) <==>
          exists rec :: rec in recs && Allowed(rec, cat, mode, filters) && l == Row(RowOf(rec))
      {
        if l in Rows(recs, cat, mode, filters) && l !in Rows(init, cat, mode, filters) {
          assert recs[|recs| - 1] in recs;
        }
        if exists rec :: rec in recs && Allowed(rec, cat, mode, filters) && l == Row(RowOf(rec)) {
          var rec :| rec in recs && Allowed(rec, cat, mode, filters) && l == Row(RowOf(rec));
          if rec != recs[|recs| - 1] {
            assert rec in init;
          }
        }
      }
    }
  }

  /** Mode `"all"` without filters keeps every record, in feed order. */
  lemma {:induction false} AllModeKeepsEverything(recs: seq<BrsRecord>, cat: Category)
    ensures |Rows(recs, cat, "all", None)| == |recs|
    ensures forall i :: 0 <= i < |recs| ==> Rows(recs, cat, "all", None)[i] == Row(RowOf(recs[i]))
    decreases |recs|
  {
    if recs != [] {
      AllModeKeepsEverything(recs[..|recs| - 1], cat);
    }
  }

  /** Any mode other than `"all"` and `"important"` without filters keeps
      nothing, because `default_allow` is then false. */
  lemma {:induction false} OtherModeWithoutFiltersKeepsNothing(recs: seq<BrsRecord>, cat: Category, mode: string)
    requires mode != "all" && mode != "important"
    ensures Rows(recs, cat, mode, None) == []
    decreases |recs|
  {
    if recs != [] {
      OtherModeWithoutFiltersKeepsNothing(recs[..|recs| - 1], cat, mode);
    }
  }

  /** Mode `"important"` ignores the filters and keeps a record exactly when
      it has one of the hand-picked symbols of its category: five for gold,
      four for currency, four for crypto. */
  lemma {:induction false} ImportantModeUsesFixedSets(recs: seq<BrsRecord>, cat: Category, filters: Option<set<string>>)
    ensures Rows(recs, cat, "important", filters) == Rows(recs, cat, "important", None)
    ensures forall rec :: Allowed(rec, cat, "important", filters) <==> rec.symbol.Some? && rec.symbol.value in ImportantSymbols(cat)
    ensures ImportantSymbols(Gold) == {"IR_GOLD_18K", "IR_GOLD_24K", "IR_COIN_EMAMI", "IR_COIN_1G", "XAUUSD"}
    ensures ImportantSymbols(Currency) == {"USD", "USDT_IRT", "EUR", "AED"}
    ensures ImportantSymbols(Crypto) == {"BTC", "ETH", "TRX", "USDT"}
    ensures |ImportantSymbols(Gold)| == 5 && |ImportantSymbols(Currency)| == 4 && |ImportantSymbols(Crypto)| == 4
    decreases |recs|
  {
    if recs != [] {
      ImportantModeUsesFixedSets(recs[..|recs| - 1], cat, filters);
    }
  }

  /** With filters given, every mode but `"important"` selects the same
      records: the mode then only names the footer. */
  lemma {:induction false} FiltersDecideOutsideImportant(recs: seq<BrsRecord>, cat: Category, mode1: string, mode2: string, filters: set<string>)
    requires mode1 != "important" && mode2 != "important"
    ensures Rows(recs, cat, mode1, Some(filters)) == Rows(recs, cat, mode2, Some(filters))
    decreases |recs|
  {
    if recs != [] {
      FiltersDecideOutsideImportant(recs[..|recs| - 1], cat, mode1, mode2, filters);
    }
  }

  // ---- The report as a whole ----

  function RecordsOf(p: BrsPayload, cat: Category): seq<BrsRecord> {
    match cat
    case Gold => p.gold
    case Currency => p.currency
    case Crypto => p.crypto
  }

  function Rank(cat: Category): nat {
    match cat
    case Gold => 0
    case Currency => 1
    case Crypto => 2
  }

  /** A section has at most one heading, its first line, and has it
      exactly when there are rows. */
  lemma SectionShape(cat: Category, recs: seq<BrsRecord>, mode: string, filters: Option<set<string>>)
    ensures var sec := Section(cat, Rows(recs, cat, mode, filters));
      && (forall n :: 0 <= n < |sec| && sec[n].Heading? ==> n == 0 && sec[n] == Heading(cat))
      && (Heading(cat) in sec <==> Rows(recs, cat, mode, filters) != [])
  {
    var rows := Rows(recs, cat, mode, filters);
    var sec := Section(cat, rows);
    if rows != [] {
      assert forall n :: 1 <= n < |sec| ==> sec[n] == rows[n - 1];
    }
  }

  /** A well-formed payload holding at least one record is truthy, so
      `format_brs` builds a report for it rather than returning `None`. */
  lemma WellFormedWithRecordsReports(p: BrsPayload, filters: Option<set<string>>, mode: string)
    requires WellFormed(p) && (p.gold != [] || p.currency != [] || p.crypto != [])
    ensures IsTruthy(Some(p))
    ensures Report(Some(p), filters, mode).Some?
  {
  }

  /** In a report of a truthy payload, a category's heading appears exactly
      when that category kept at least one row, and headings appear in the
      order gold, currency, crypto, each at most once. */
  lemma ReportSections(brs: Option<BrsPayload>, filters: Option<set<string>>, mode: string, cat: Category)
    requires IsTruthy(brs)
    ensures Heading(cat) in Report(brs, filters, mode).value <==> Rows(RecordsOf(brs.value, cat), cat, mode, filters) != []
    ensures forall i, j ::
      (0 <= i < j < |Report(brs, filters, mode).value| &&
       Report(brs, filters, mode).value[i].Heading? && Report(brs, filters, mode).value[j].Heading?) ==>
        Rank(Report(brs, filters, mode).value[i].cat) < Rank(Report(brs, filters, mode).value[j].cat)
  {
    var p := brs.value;
    var g := Section(Gold, Rows(p.gold, Gold, mode, filters));
    var c := Section(Currency, Rows(p.currency, Currency, mode, filters));
    var k := Section(Crypto, Rows(p.crypto, Crypto, mode, filters));
    SectionShape(Gold, p.gold, mode, filters);
    SectionShape(Currency, p.currency, mode, filters);
    SectionShape(Crypto, p.crypto, mode, filters);
    AssembledHeadings(g, c, k, mode);
  }

  /** Where the headings of a report built from three sections are. */
  lemma AssembledHeadings(g: seq<BrsLine>, c: seq<BrsLine>, k: seq<BrsLine>, mode: string)
    requires forall n :: 0 <= n < |g| && g[n].Heading? ==> n == 0 && g[n] == Heading(Gold)
    requires forall n :: 0 <= n < |c| && c[n].Heading? ==> n == 0 && c[n] == Heading(Currency)
    requires forall n :: 0 <= n < |k| && k[n].Heading? ==> n == 0 && k[n] == Heading(Crypto)
    ensures var l := [Title] + g + c + k + [SourceLine(mode)];
      && (Heading(Gold) in l <==> Heading(Gold) in g)
      && (Heading(Currency) in l <==> Heading(Currency) in c)
      && (Heading(Crypto) in l <==> Heading(Crypto) in k)
      && forall i, j :: (0 <= i < j < |l| && l[i].Heading? && l[j].Heading?) ==> Rank(l[i].cat) < Rank(l[j].cat)
  {
    var l := [Title] + g + c + k + [SourceLine(mode)];
    forall i | 0 <= i < |l| && l[i].Heading?
      ensures (l[i] == Heading(Gold) && i == 1)
        || (l[i] == Heading(Currency) && i == 1 + |g|)
        || (l[i] == Heading(Crypto) && i == 1 + |g| + |c|)
    {
      if 1 <= i < 1 + |g| {
        assert l[i] == g[i - 1];
      } else if 1 + |g| <= i < 1 + |g| + |c| {
        assert l[i] == c[i - 1 - |g|];
      } else if 1 + |g| + |c| <= i < 1 + |g| + |c| + |k| {
        assert l[i] == k[i - 1 - |g| - |c|];
      }
    }
    assert forall n :: 0 <= n < |g| ==> l[1 + n] == g[n];
    assert forall n :: 0 <= n < |c| ==> l[1 + |g| + n] == c[n];
    assert forall n :: 0 <= n < |k| ==> l[1 + |g| + |c| + n] == k[n];
  }

  // ---- The caller's choice of filters ----

  /** The caller passes the user's custom set as filters only in mode
      `"custom"`, and no filters otherwise. */
  function CallerFilters(mode: string, custom: set<string>): Option<set<string>> {
    if mode == "custom" then Some(custom) else None
  }

  /** With the filters the caller chooses, the three modes mean: `"all"`
      keeps every record, `"important"` the hand-picked symbols, `"custom"`
      the symbols the user's keys select; any other mode keeps nothing. A
      record without a symbol is kept in mode `"all"`, and in mode
      `"custom"` exactly when some chosen key is not in the table. */
  lemma ModeMeaning(rec: BrsRecord, cat: Category, mode: string, custom: set<string>)
    ensures rec.symbol.Some? ==> (Allowed(rec, cat, mode, CallerFilters(mode, custom)) <==>
      if mode == "all" then true
      else if mode == "important" then rec.symbol.value in ImportantSymbols(cat)
      else if mode == "custom" then exists k :: k in custom && k in BRS_KEYS && BRS_KEYS[k] == rec.symbol.value
      else false)
    ensures rec.symbol.None? ==> (Allowed(rec, cat, mode, CallerFilters(mode, custom)) <==>
      if mode == "all" then true
      else if mode == "custom" then exists k :: k in custom && k !in BRS_KEYS
      else false)
  {
    if mode == "custom" {
      if rec.symbol.Some? {
        WantWithFilters(rec.symbol.value, custom, false);
      } else {
        WantMissingSymbol(custom, false);
      }
    }
  }
}
