/** The two numeric renderers that both formatters define identically:
    `_sep` (an integer with thousands separators) and `_arrow` (the direction
    of a percentage change). */
module Render {
  import Numerals

  /** What `float(x)` makes of a JSON field: a number, or a raw value it
      cannot parse (kept as the text `str(x)` would print). */
  datatype Num = Parsed(value: real) | Unparsed(raw: string)

  /** `int(x)` on a float: truncation toward zero. */
  function Trunc(x: real): (i: int)
    ensures x >= 0.0 ==> 0 <= i && i as real <= x < i as real + 1.0
    ensures x < 0.0 ==> i <= 0 && i as real - 1.0 < x <= i as real
  {
    if x >= 0.0 then x.Floor else -((-x).Floor)
  }

  /** `_sep(n)`: `f"{int(float(n)):,}"`, or `str(n)` when that raises. */
  function Sep(n: Num): string {
    match n
    case Parsed(x) => Numerals.SepInt(Trunc(x))
    case Unparsed(raw) => raw
  }

  /** What `_arrow` shows: the up glyph with the change, the down glyph with
      its absolute value, or the neutral `"➖ 0%"`. The `:.2f` rounding of the
      magnitude is not modelled. */
  datatype Trend = Up(percent: real) | Down(percent: real) | Flat

  /** `_arrow(change)`: only the sign of the parsed change picks the glyph;
      zero and unparseable input are neutral, and the magnitude shown is
      always positive and equal to the absolute change. */
  function Arrow(change: Num): (t: Trend)
    ensures t.Up? <==> change.Parsed? && change.value > 0.0
    ensures t.Down? <==> change.Parsed? && change.value < 0.0
    ensures t.Flat? <==> change.Unparsed? || change.value == 0.0
    ensures !t.Flat? ==> t.percent > 0.0
    ensures t.Up? ==> t.percent == change.value
    ensures t.Down? ==> t.percent == -change.value
  {
    match change
    case Unparsed(_) => Flat
    case Parsed(c) => if c > 0.0 then Up(c) else if c < 0.0 then Down(-c) else Flat
  }

  /** A parsed value renders as the grouped digits of its truncation:
      deleting the commas gives `str(int(x))`, and the digits after an
      optional minus sign are in groups of three. An unparsed value renders
      as its raw text. */
  lemma SepMeaning(n: Num)
    ensures n.Unparsed? ==> Sep(n) == n.raw
    ensures n.Parsed? ==> Numerals.WithoutCommas(Sep(n)) == Numerals.Decimal(Trunc(n.value))
    ensures n.Parsed? && n.value > -1.0 ==> Numerals.WellGrouped(Sep(n))
    ensures n.Parsed? && n.value <= -1.0 ==> Sep(n)[0] == '-' && Numerals.WellGrouped(Sep(n)[1..])
  {
    if n.Parsed? {
      Numerals.SepIntDigits(Trunc(n.value));
    }
  }

  /** Worked examples of rendering: `12345.6` shows as `12,345`,
      `"n/a"` stays as it is, `+3.14159` points up, `0` is neutral. */
  lemma RenderingExamples()
    ensures Sep(Parsed(12345.6)) == "12,345"
    ensures Sep(Parsed(-1234.9)) == "-1,234"
    ensures Sep(Unparsed("n/a")) == "n/a"
    ensures Arrow(Parsed(3.14159)) == Up(3.14159)
    ensures Arrow(Parsed(-0.5)) == Down(0.5)
    ensures Arrow(Parsed(0.0)) == Flat && Arrow(Unparsed("x")) == Flat
  {
    assert Trunc(12345.6) == 12345;
    assert Numerals.Digits(12) == "12";
    assert Numerals.Group3(345) == "345";
    assert Trunc(-1234.9) == -1234;
    assert Numerals.Digits(1) == "1";
    assert Numerals.Group3(234) == "234";
  }
}
