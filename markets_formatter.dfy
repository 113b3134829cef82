/** The Bitpin markets report (bot/bitbin/formatter.py): one block per
    market pair, in feed order, optionally restricted to an allow-list of
    codes, with defaults for missing fields. */
module MarketsFormatter {
  import opened Common
  import opened Render

  datatype PriceInfo = PriceInfo(price: Option<Num>, change: Option<Num>, min: Option<Num>, max: Option<Num>)

  datatype Currency1 = Currency1(title: Option<string>)

  /** One entry of the `"results"` list. A field the entry lacks is `None`. */
  datatype MarketRecord = MarketRecord(
    code: Option<string>,
    currency1: Option<Currency1>,
    name: Option<string>,
    priceInfo: Option<PriceInfo>)

  const SUFFIX: string := "_IRT"

  predicate OccursAt(s: string, i: nat) {
    i + |SUFFIX| <= |s| && s[i..i + |SUFFIX|] == SUFFIX
  }

  /** `s.replace("_IRT", "")`: occurrences are removed left to right, and
      the text left behind is not scanned again. */
  function StripIrt(s: string): (r: string)
    ensures |r| <= |s|
    decreases |s|
  {
    if |s| < |SUFFIX| then s
    else if s[..|SUFFIX|] == SUFFIX then StripIrt(s[|SUFFIX|..])
    else [s[0]] + StripIrt(s[1..])
  }

  /** A code without any `"_IRT"` is shown unchanged. */
  lemma {:induction false} StripIrtNoOccurrence(s: string)
    requires forall i :: 0 <= i <= |s| - |SUFFIX| ==> !OccursAt(s, i)
    ensures StripIrt(s) == s
    decreases |s|
  {
    if |s| >= |SUFFIX| {
      assert !OccursAt(s, 0);
      NoOccurrenceInTail(s);
      StripIrtNoOccurrence(s[1..]);
    }
  }

  /** A trailing `"_IRT"` is always removed: no occurrence can straddle the
      end of the rest, since no proper suffix of `"_IRT"` is a prefix of it. */
  lemma {:induction false} StripIrtTrailing(s: string)
    ensures StripIrt(s + SUFFIX) == StripIrt(s)
    decreases |s|
  {
    var t := s + SUFFIX;
    if |s| == 0 {
      assert t == SUFFIX;
      assert t[|SUFFIX|..] == [];
    } else if |s| >= |SUFFIX| && s[..|SUFFIX|] == SUFFIX {
      assert t[..|SUFFIX|] == SUFFIX;
      assert t[|SUFFIX|..] == s[|SUFFIX|..] + SUFFIX;
      StripIrtTrailing(s[|SUFFIX|..]);
    } else {
      assert t[..|SUFFIX|] != SUFFIX by {
        if |s| < |SUFFIX| {
          assert t[..|SUFFIX|] == s + SUFFIX[..|SUFFIX| - |s|];
          assert t[..|SUFFIX|][|s|] == '_';
        } else {
          assert t[..|SUFFIX|] == s[..|SUFFIX|];
        }
      }
      assert t[1..] == s[1..] + SUFFIX;
      StripIrtTrailing(s[1..]);
    }
  }

  /** The leftmost occurrence is removed and the scan resumes after it:
      with no `"_IRT"` in `a`, the code `a + "_IRT" + b` is shown as `a`
      followed by what `b` is shown as. With `StripIrtNoOccurrence` this
      determines `StripIrt` on every string. */
  lemma {:induction false} StripIrtSplit(a: string, b: string)
    requires forall i :: 0 <= i <= |a| - |SUFFIX| ==> !OccursAt(a, i)
    ensures StripIrt(a + SUFFIX + b) == a + StripIrt(b)
    decreases |a|
  {
    var t := a + SUFFIX + b;
    if |a| == 0 {
      assert t == SUFFIX + b;
      assert t[..|SUFFIX|] == SUFFIX;
      assert t[|SUFFIX|..] == b;
    } else {
      NoMatchAtFront(a, SUFFIX + b);
      assert t == a + (SUFFIX + b);
      NoOccurrenceInTail(a);
      assert t[1..] == a[1..] + SUFFIX + b;
      StripIrtSplit(a[1..], b);
      assert StripIrt(t) == [t[0]] + StripIrt(t[1..]);
      assert [a[0]] + a[1..] == a;
    }
  }

  /** A string without `"_IRT"` followed by `"_IRT..."` does not start with
      `"_IRT"`: the only `'_'` of `"_IRT"` is its first character. */
  lemma NoMatchAtFront(a: string, rest: string)
    requires 0 < |a|
    requires forall i :: 0 <= i <= |a| - |SUFFIX| ==> !OccursAt(a, i)
    requires |rest| >= |SUFFIX| && rest[..|SUFFIX|] == SUFFIX
    ensures |a + rest| >= |SUFFIX| && (a + rest)[..|SUFFIX|] != SUFFIX
  {
    var t := a + rest;
    if |a| < |SUFFIX| {
      assert t[|a|] == rest[0] == '_';
      assert SUFFIX[|a|] != '_';
    } else {
      assert !OccursAt(a, 0);
      assert t[..|SUFFIX|] == a[..|SUFFIX|];
    }
  }

  /** Dropping the first character keeps a string free of `"_IRT"`. */
  lemma NoOccurrenceInTail(a: string)
    requires 0 < |a|
    requires forall i :: 0 <= i <= |a| - |SUFFIX| ==> !OccursAt(a, i)
    ensures forall i :: 0 <= i <= |a[1..]| - |SUFFIX| ==> !OccursAt(a[1..], i)
  {
    forall i | 0 <= i <= |a[1..]| - |SUFFIX|
      ensures !OccursAt(a[1..], i)
    {
      assert !OccursAt(a, i + 1);
      assert a[1..][i..i + |SUFFIX|] == a[i + 1..i + 1 + |SUFFIX|];
    }
  }

  /** The worked case: `"BTC_IRT"` is shown as `"BTC"`, and `"N/A"` stays. */
  lemma StripIrtExample()
    ensures StripIrt("BTC_IRT") == "BTC"
    ensures StripIrt("N/A") == "N/A"
  {
    StripIrtTrailing("BTC");
    StripIrtNoOccurrence("BTC");
  }

  /** An inner occurrence is removed: `"A_IRTB"` is shown as `"AB"`. */
  lemma StripIrtInnerExample()
    ensures StripIrt("A_IRTB") == "AB"
  {
    StripIrtSplit("A", "B");
    assert "A" + SUFFIX + "B" == "A_IRTB";
  }

  /** What is left behind is not scanned again: `"__IRTIRT"` is shown as
      `"_IRT"`, as `str.replace` does. */
  lemma StripIrtNoRescanExample()
    ensures StripIrt("__IRTIRT") == "_IRT"
  {
    StripIrtSplit("_", "IRT");
    assert "_" + SUFFIX + "IRT" == "__IRTIRT";
  }

  /** `r.get("code", "N/A").replace("_IRT", "")`. */
  function DisplayCode(r: MarketRecord): string {
    StripIrt(r.code.GetOr("N/A"))
  }

  /** `keep_codes` is truthy: given and not empty. */
  predicate Restricts(keepCodes: Option<set<string>>) {
    keepCodes.Some? && keepCodes.value != {}
  }

  /** The record is not skipped by the `continue`. */
  predicate Kept(r: MarketRecord, keepCodes: Option<set<string>>) {
    !Restricts(keepCodes) || DisplayCode(r) in keepCodes.value
  }

  /** What one market block shows. */
  datatype MarketBlock = MarketBlock(name: string, code: string, price: string, trend: Trend, min: string, max: string)

  /** The lines of the report: the header (its timestamp not modelled), one
      block per kept record, and the source line. */
  datatype MarketLine = Header | Block(block: MarketBlock) | SourceLine

  const NO_PRICE_INFO: PriceInfo := PriceInfo(None, None, None, None)

  /** `c1.get("title", r.get("name", "N/A"))`, with `c1` the `currency1`
      object or `{}`. */
  function MarketName(r: MarketRecord): string {
    if r.currency1.Some? && r.currency1.value.title.Some? then r.currency1.value.title.value
    else r.name.GetOr("N/A")
  }

  function BlockOf(r: MarketRecord): MarketBlock {
    var info := r.priceInfo.GetOr(NO_PRICE_INFO);
    MarketBlock(
      MarketName(r),
      DisplayCode(r),
      Sep(info.price.GetOr(Unparsed("-"))),
      Arrow(info.change.GetOr(Parsed(0.0))),
      Sep(info.min.GetOr(Unparsed("-"))),
      Sep(info.max.GetOr(Unparsed("-"))))
  }

  function BlockFor(r: MarketRecord, keepCodes: Option<set<string>>): seq<MarketLine> {
    if Kept(r, keepCodes) then [Block(BlockOf(r))] else []
  }

  /** The blocks of the kept records, in feed order. */
  function Blocks(results: seq<MarketRecord>, keepCodes: Option<set<string>>): (b: seq<MarketLine>)
    ensures |b| <= |results|
    ensures forall i :: 0 <= i < |b| ==> b[i].Block?
    decreases |results|
  {
    if results == [] then []
    else Blocks(results[..|results| - 1], keepCodes) + BlockFor(results[|results| - 1], keepCodes)
  }

  /** The report `format_markets(results, keep_codes)` builds. */
  function Report(results: seq<MarketRecord>, keepCodes: Option<set<string>>): seq<MarketLine> {
    [Header] + Blocks(results, keepCodes) + [SourceLine]
  }

  /** `format_markets(results, keep_codes)`. */
  method FormatMarkets(results: seq<MarketRecord>, keepCodes: Option<set<string>>) returns (lines: seq<MarketLine>)
    ensures lines == Report(results, keepCodes)
  {
    lines := [Header];
    var i := 0;
    while i < |results|
      invariant 0 <= i <= |results|
      invariant lines == [Header] + Blocks(results[..i], keepCodes)
    {
      var r := results[i];
      assert results[..i + 1][..i] == results[..i];
      i := i + 1;
      var code := StripIrt(r.code.GetOr("N/A"));
      if keepCodes.Some? && keepCodes.value != {} && code !in keepCodes.value {
        continue;
      }
      lines := lines + [Block(BlockOf(r))];
    }
    assert results[..i] == results;
    lines := lines + [SourceLine];
  }

  // ---- Properties ----

  /** The report opens with the header, closes with the source line, and
      everything between is a market block. */
  lemma ReportShape(results: seq<MarketRecord>, keepCodes: Option<set<string>>)
    ensures var l := Report(results, keepCodes);
      && l[0] == Header && l[|l| - 1] == SourceLine
      && forall i :: 0 < i < |l| - 1 ==> l[i].Block?
  {
    var l := Report(results, keepCodes);
    var b := Blocks(results, keepCodes);
    assert forall i :: 0 < i < |l| - 1 ==> l[i] == b[i - 1];
  }

  /** Blocks distribute over concatenation of the feed, so feed order is
      kept; a single record gives its block exactly when it is kept. */
  lemma {:induction false} BlocksAppend(a: seq<MarketRecord>, b: seq<MarketRecord>, keepCodes: Option<set<string>>)
    ensures Blocks(a + b, keepCodes) == Blocks(a, keepCodes) + Blocks(b, keepCodes)
    decreases |b|
  {
    if b == [] {
      assert a + b == a;
    } else {
      assert (a + b)[..|a + b| - 1] == a + b[..|b| - 1];
      BlocksAppend(a, b[..|b| - 1], keepCodes);
    }
  }

  lemma BlocksSingle(r: MarketRecord, keepCodes: Option<set<string>>)
    ensures Blocks([r], keepCodes) == if Kept(r, keepCodes) then [Block(BlockOf(r))] else []
  {
    assert [r][..0] == [];
  }

  /** With a non-empty allow-list a record is shown exactly when its
      stripped code is listed; with none, or an empty one, every record is
      shown, in order. */
  lemma {:induction false} AllowList(results: seq<MarketRecord>, keepCodes: Option<set<string>>)
    ensures forall r :: Restricts(keepCodes) ==> (Kept(r, keepCodes) <==> DisplayCode(r) in keepCodes.value)
    ensures !Restricts(keepCodes) ==> |Blocks(results, keepCodes)| == |results|
    ensures !Restricts(keepCodes) ==> forall i :: 0 <= i < |results| ==> Blocks(results, keepCodes)[i] == Block(BlockOf(results[i]))
    decreases |results|
  {
    if results != [] {
      AllowList(results[..|results| - 1], keepCodes);
    }
  }

  /** Missing fields: the name falls back from `currency1.title` to `name`
      to `"N/A"`, the code to `"N/A"`, a missing price, minimum or maximum
      shows as `"-"`, and a missing change is neutral. */
  lemma FieldDefaults(r: MarketRecord)
    ensures r.currency1.Some? && r.currency1.value.title.Some? ==> BlockOf(r).name == r.currency1.value.title.value
    ensures (r.currency1.None? || r.currency1.value.title.None?) && r.name.Some? ==> BlockOf(r).name == r.name.value
    ensures (r.currency1.None? || r.currency1.value.title.None?) && r.name.None? ==> BlockOf(r).name == "N/A"
    ensures r.code.None? ==> BlockOf(r).code == "N/A"
    ensures r.priceInfo.None? ==> BlockOf(r).price == "-" && BlockOf(r).min == "-" && BlockOf(r).max == "-" && BlockOf(r).trend == Flat
    ensures r.priceInfo.Some? && r.priceInfo.value.price.None? ==> BlockOf(r).price == "-"
    ensures r.priceInfo.Some? && r.priceInfo.value.change.None? ==> BlockOf(r).trend == Flat
    ensures r.priceInfo.Some? && r.priceInfo.value.min.None? ==> BlockOf(r).min == "-"
    ensures r.priceInfo.Some? && r.priceInfo.value.max.None? ==> BlockOf(r).max == "-"
  {
    StripIrtExample();
  }
}
