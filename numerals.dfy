/** Decimal numerals: Python's `str(n)` for an integer `n`, its inverse, and
    the comma grouping of `f"{n:,}"`. */
module Numerals {

  predicate IsDigit(c: char) {
    '0' <= c <= '9'
  }

  predicate AllDigits(s: string) {
    forall i :: 0 <= i < |s| ==> IsDigit(s[i])
  }

  function DigitChar(d: nat): (c: char)
    requires d < 10
    ensures IsDigit(c)
  {
    ('0' as int + d) as char
  }

  function DigitValue(c: char): (d: nat)
    requires IsDigit(c)
    ensures d < 10
  {
    c as int - '0' as int
  }

  /** The decimal digits of `n`, most significant first, without leading zeros. */
  function Digits(n: nat): (s: string)
    ensures 1 <= |s| && AllDigits(s)
    ensures s[0] == '0' ==> n == 0
    decreases n
  {
    if n < 10 then [DigitChar(n)] else Digits(n / 10) + [DigitChar(n % 10)]
  }

  /** Python's `str(n)` for an integer. */
  function Decimal(i: int): (s: string)
    ensures |s| >= 1
  {
    if i < 0 then "-" + Digits(-i) else Digits(i)
  }

  function ParseDigits(s: string): nat
    requires AllDigits(s)
    decreases |s|
  {
    if s == [] then 0 else ParseDigits(s[..|s| - 1]) * 10 + DigitValue(s[|s| - 1])
  }

  /** Python's `int(s)` on a string `str` produced. */
  function ParseDecimal(s: string): int
    requires |s| >= 1
    requires s[0] == '-' ==> AllDigits(s[1..])
    requires s[0] != '-' ==> AllDigits(s)
  {
    if s[0] == '-' then -(ParseDigits(s[1..]) as int) else ParseDigits(s)
  }

  lemma {:induction false} ParseDigitsOfDigits(n: nat)
    ensures ParseDigits(Digits(n)) == n
    decreases n
  {
    if n >= 10 {
      var s := Digits(n);
      assert s[..|s| - 1] == Digits(n / 10);
      ParseDigitsOfDigits(n / 10);
    }
  }

  /** Reading back what `str` wrote gives the integer again. */
  lemma ParseDecimalOfDecimal(i: int)
    ensures Decimal(i)[0] == '-' <==> i < 0
    ensures ParseDecimal(Decimal(i)) == i
  {
    if i < 0 {
      assert Decimal(i)[1..] == Digits(-i);
      ParseDigitsOfDigits(-i);
    } else {
      ParseDigitsOfDigits(i);
    }
  }

  /** Distinct integers have distinct decimal renderings. */
  lemma DecimalInjective(a: int, b: int)
    ensures Decimal(a) == Decimal(b) ==> a == b
  {
    ParseDecimalOfDecimal(a);
    ParseDecimalOfDecimal(b);
  }

  /** `r` as exactly three digits, zero-padded (`r < 1000`). */
  function Group3(r: nat): (s: string)
    requires r < 1000
    ensures |s| == 3 && AllDigits(s)
  {
    [DigitChar(r / 100), DigitChar(r / 10 % 10), DigitChar(r % 10)]
  }

  /** The digits of `n` with a comma before every group of three, counted
      from the right: the `,` format specifier on a non-negative integer. */
  function Grouped(n: nat): string
    decreases n
  {
    if n < 1000 then Digits(n) else Grouped(n / 1000) + "," + Group3(n % 1000)
  }

  /** `f"{i:,}"` for an integer `i`. */
  function SepInt(i: int): string {
    if i < 0 then "-" + Grouped(-i) else Grouped(i)
  }

  /** `s` with every comma deleted. */
  function WithoutCommas(s: string): (r: string)
    ensures |r| <= |s|
    ensures forall i :: 0 <= i < |r| ==> r[i] != ','
    decreases |s|
  {
    if s == [] then []
    else WithoutCommas(s[..|s| - 1]) + (if s[|s| - 1] == ',' then [] else [s[|s| - 1]])
  }

  /** A grouped numeral: one to three digits, then any number of
      comma-and-three-digit groups. */
  predicate WellGrouped(s: string)
    decreases |s|
  {
    if |s| <= 3 then 1 <= |s| && AllDigits(s)
    else |s| >= 5 && s[|s| - 4] == ',' && AllDigits(s[|s| - 3..]) && WellGrouped(s[..|s| - 4])
  }

  lemma {:induction false} WithoutCommasAppend(a: string, b: string)
    ensures WithoutCommas(a + b) == WithoutCommas(a) + WithoutCommas(b)
    decreases |b|
  {
    if b == [] {
      assert a + b == a;
    } else {
      assert (a + b)[..|a + b| - 1] == a + b[..|b| - 1];
      WithoutCommasAppend(a, b[..|b| - 1]);
    }
  }

  lemma {:induction false} WithoutCommasOfDigits(s: string)
    requires AllDigits(s)
    ensures WithoutCommas(s) == s
    decreases |s|
  {
    if s != [] {
      WithoutCommasOfDigits(s[..|s| - 1]);
    }
  }

  /** For `n >= 1000`, the digits of `n` are the digits of `n / 1000`
      followed by the three digits of `n % 1000`. */
  lemma DigitsSplitThousands(n: nat)
    requires n >= 1000
    ensures Digits(n) == Digits(n / 1000) + Group3(n % 1000)
  {
    var q, r := n / 1000, n % 1000;
    assert n / 10 == 100 * q + r / 10;
    assert n / 100 == 10 * q + r / 100;
    assert (n / 10) / 10 == n / 100;
    assert (n / 100) / 10 == q;
    assert n % 10 == r % 10;
    assert (n / 10) % 10 == r / 10 % 10;
    assert (n / 100) % 10 == r / 100;
    assert Digits(n / 100) == Digits(q) + [DigitChar(r / 100)];
    assert Digits(n / 10) == Digits(n / 100) + [DigitChar(r / 10 % 10)];
    assert Digits(n) == Digits(n / 10) + [DigitChar(r % 10)];
  }

  lemma {:induction false} GroupedDigits(n: nat)
    ensures WithoutCommas(Grouped(n)) == Digits(n)
    decreases n
  {
    if n < 1000 {
      WithoutCommasOfDigits(Digits(n));
    } else {
      var high, low := Grouped(n / 1000), Group3(n % 1000);
      assert Grouped(n) == high + "," + low;
      GroupedDigits(n / 1000);
      WithoutCommasAppend(high + ",", low);
      WithoutCommasAppend(high, ",");
      assert WithoutCommas(",") == [];
      WithoutCommasOfDigits(low);
      DigitsSplitThousands(n);
    }
  }

  lemma DigitsBelowThousand(n: nat)
    requires n < 1000
    ensures |Digits(n)| <= 3
  {
    if n >= 10 {
      assert |Digits(n / 10)| <= 2 by {
        if n / 10 >= 10 { assert |Digits(n / 100)| == 1; }
      }
    }
  }

  lemma {:induction false} GroupedShape(n: nat)
    ensures WellGrouped(Grouped(n))
    decreases n
  {
    if n < 1000 {
      DigitsBelowThousand(n);
    } else {
      GroupedShape(n / 1000);
      var s := Grouped(n);
      assert s[..|s| - 4] == Grouped(n / 1000);
      assert s[|s| - 3..] == Group3(n % 1000);
    }
  }

  /** Deleting the commas from `f"{i:,}"` gives back `str(i)`, and the
      digits are grouped in threes from the right. */
  lemma SepIntDigits(i: int)
    ensures WithoutCommas(SepInt(i)) == Decimal(i)
    ensures i >= 0 ==> WellGrouped(SepInt(i))
    ensures i < 0 ==> SepInt(i)[0] == '-' && WellGrouped(SepInt(i)[1..])
  {
    if i < 0 {
      var n: nat := -i;
      GroupedDigits(n);
      GroupedShape(n);
      WithoutCommasAppend("-", Grouped(n));
      assert WithoutCommas("-") == "-";
      assert SepInt(i)[1..] == Grouped(n);
    } else {
      GroupedDigits(i);
      GroupedShape(i);
    }
  }
}
