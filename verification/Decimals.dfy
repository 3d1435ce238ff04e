/** Powers of ten, and what printing a number with six significant digits leaves of it. */
module Decimals {

  function Pow10(e: int): real
    decreases if e < 0 then -e else e
  {
    if e == 0 then 1.0 else if e > 0 then 10.0 * Pow10(e - 1) else Pow10(e + 1) / 10.0
  }

  lemma {:induction false} PowersGrow(a: int, b: int)
    requires a <= b
    ensures 0.0 < Pow10(a) <= Pow10(b)
    ensures a < b ==> 10.0 * Pow10(a) <= Pow10(b)
    decreases b - a
  {
    Positive(a);
    if a < b {
      PowersGrow(a, b - 1);
      assert Pow10(b) == 10.0 * Pow10(b - 1);
    }
  }

  lemma {:induction false} Positive(e: int)
    ensures Pow10(e) > 0.0
    decreases if e < 0 then -e else e
  {
    if e > 0 {
      Positive(e - 1);
    } else if e < 0 {
      Positive(e + 1);
    }
  }

  // ----- Six significant digits -----

  /** The exponent of the leading digit. */
  function Exponent(x: real): (e: int)
    requires x > 0.0
    ensures Pow10(e) <= x < Pow10(e + 1)
    decreases x < 1.0, if x < 1.0 then (1.0 / x).Floor else x.Floor
  {
    if x < 1.0 then
      LargerInverse(x);
      Exponent(10.0 * x) - 1
    else if x < 10.0 then 0
    else Exponent(x / 10.0) + 1
  }

  lemma LargerInverse(x: real)
    requires 0.0 < x < 1.0
    ensures 10.0 * x < 1.0 ==> (1.0 / (10.0 * x)).Floor < (1.0 / x).Floor
  {
  }

  /** The nearest integer, and the even one of two. */
  function Nearest(x: real): int {
    var low := x.Floor;
    var rest := x - low as real;
    if rest < 0.5 || (rest == 0.5 && low % 2 == 0) then low else low + 1
  }

  /** What the sixth significant digit counts. */
  function SixthDigit(x: real): (unit: real)
    requires x > 0.0
    ensures unit > 0.0
  {
    Positive(Exponent(x) - 5);
    Pow10(Exponent(x) - 5)
  }

  function Times(n: int, unit: real): real { n as real * unit }

  /** What `%g` prints, read back. */
  function SixDigits(x: real): real {
    if x == 0.0 then 0.0
    else if x > 0.0 then Times(Nearest(x / SixthDigit(x)), SixthDigit(x))
    else -Times(Nearest(-x / SixthDigit(-x)), SixthDigit(-x))
  }

  function Abs(x: real): real {
    if x < 0.0 then -x else x
  }

  predicate IsWhole(x: real) {
    x.Floor as real == x
  }

  /** A number survives printing exactly if it is zero or a whole number of its sixth digits. */
  lemma SurvivesPrinting(x: real)
    ensures SixDigits(x) == x <==> x == 0.0 || IsWhole(Abs(x) / SixthDigit(Abs(x)))
  {
    hide SixthDigit, Times;
    if x != 0.0 {
      TimesIs(Nearest(Abs(x) / SixthDigit(Abs(x))), Abs(x), SixthDigit(Abs(x)));
    }
  }

  /** Printing changes a number by at most half of its sixth digit. */
  lemma PrintingIsNear(x: real)
    requires x != 0.0
    ensures Abs(SixDigits(x) - x) <= SixthDigit(Abs(x)) / 2.0
  {
    hide SixthDigit;
    NearestIsNear(Abs(x), SixthDigit(Abs(x)));
    hide Times, Nearest;
  }

  /** Of two integers that are equally near, the even one is taken. */
  lemma TiesGoToEven(n: int)
    ensures Nearest(n as real + 0.5) == if n % 2 == 0 then n else n + 1
  {
    assert (n as real + 0.5).Floor == n;
  }

  lemma NearestIsNear(x: real, unit: real)
    requires unit > 0.0
    ensures Abs(Times(Nearest(x / unit), unit) - x) <= unit / 2.0
  {
    var y := x / unit;
    var n := Nearest(y) as real;
    assert -0.5 <= n - y <= 0.5;
    hide Nearest;
    Undivided(x, unit);
    NotNegative(0.5 - (n - y), unit);
    NotNegative(0.5 + (n - y), unit);
    Distributes(n, y, unit);
  }

  lemma Undivided(x: real, unit: real)
    requires unit > 0.0
    ensures x / unit * unit == x
  {
  }

  lemma NotNegative(a: real, b: real)
    requires a >= 0.0 && b >= 0.0
    ensures a * b >= 0.0
  {
  }

  lemma Distributes(n: real, y: real, unit: real)
    ensures (0.5 - (n - y)) * unit == unit / 2.0 - (n * unit - y * unit)
    ensures (0.5 + (n - y)) * unit == unit / 2.0 + (n * unit - y * unit)
  {
  }

  lemma TimesIs(n: int, x: real, unit: real)
    requires unit > 0.0
    ensures Times(n, unit) == x <==> n as real == x / unit
  {
    if n as real * unit == x {
      assert x / unit == n as real;
    }
    if n as real == x / unit {
      assert x / unit * unit == x;
    }
  }

  lemma ExponentIs(x: real, e: int)
    requires x > 0.0 && Pow10(e) <= x < Pow10(e + 1)
    ensures Exponent(x) == e
  {
    if Exponent(x) < e {
      PowersGrow(Exponent(x) + 1, e);
    } else if e < Exponent(x) {
      PowersGrow(e + 1, Exponent(x));
    }
  }

  /** A unit that goes into one a whole number of times. */
  ghost predicate DividesOne(unit: real) {
    exists m: nat :: Times(m, unit) == 1.0
  }

  lemma {:induction false} PowersDivideOne(e: int)
    requires e <= 0
    ensures DividesOne(Pow10(e))
    decreases -e
  {
    if e == 0 {
      assert Times(1, Pow10(0)) == 1.0;
    } else {
      PowersDivideOne(e + 1);
      var m: nat :| Times(m, Pow10(e + 1)) == 1.0;
      TenTimes(m, Pow10(e));
      assert Times(10 * m, Pow10(e)) == 1.0;
    }
  }

  /** The sixth digit of a number from one up to a million. */
  lemma SixthDigitOfWhole(x: real)
    requires 1.0 <= x < 1000000.0
    ensures DividesOne(SixthDigit(x))
  {
    hide DividesOne;
    var e := Exponent(x);
    assert Pow10(1) == 10.0 && Pow10(3) == 1000.0 && Pow10(5) == 100000.0 && Pow10(6) == 1000000.0;
    if e < 0 {
      PowersGrow(e + 1, 0);
    } else if e > 5 {
      PowersGrow(6, e);
    }
    PowersDivideOne(e - 5);
  }

  lemma TenTimes(m: nat, unit: real)
    ensures Times(10 * m, unit) == Times(m, 10.0 * unit)
  {
  }

  /** Integers up to a million, of either sign, are printed exactly. */
  lemma IntegerSurvives(n: int)
    requires -1000000 <= n <= 1000000
    ensures SixDigits(n as real) == n as real
  {
    SurvivesPrinting(n as real);
    hide SixDigits, SixthDigit;
    if n != 0 {
      WholeDigits(if n < 0 then -n else n);
    }
  }

  lemma WholeDigits(n: nat)
    requires 0 < n <= 1000000
    ensures IsWhole(n as real / SixthDigit(n as real))
  {
    hide SixthDigit;
    if n == 1000000 {
      SeventhDigit();
      assert 1000000.0 / 10.0 == 100000.0;
    } else {
      SixthDigitOfWhole(n as real);
      var m: nat :| Times(m, SixthDigit(n as real)) == 1.0;
      WholeQuotient(n, m, SixthDigit(n as real));
    }
  }

  lemma SeventhDigit()
    ensures SixthDigit(1000000.0) == SixthDigit(1000001.0) == 10.0
  {
    assert Pow10(3) == 1000.0 && Pow10(5) == 100000.0 && Pow10(7) == 10000000.0;
    ExponentIs(1000000.0, 6);
    ExponentIs(1000001.0, 6);
  }

  /** The next integer is not. */
  lemma MillionAndOneIsRounded()
    ensures SixDigits(1000001.0) == 1000000.0
  {
    SeventhDigit();
    assert 1000001.0 / 10.0 == 100000.1;
  }

  lemma WholeQuotient(n: nat, m: nat, unit: real)
    requires unit > 0.0 && Times(m, unit) == 1.0
    ensures IsWhole(n as real / unit)
  {
    var k := n * m;
    assert k as real == n as real * m as real;
    assert k as real * unit == n as real * (m as real * unit);
    assert n as real / unit == k as real;
  }

  /** A gauge of some hundred million bytes loses its last digits. */
  lemma LargeGaugeIsRounded()
    ensures SixDigits(123456789.0) == 123457000.0
  {
    assert Pow10(3) == 1000.0;
    assert Pow10(5) == 100000.0;
    assert Pow10(7) == 10000000.0;
    assert Pow10(9) == 1000000000.0;
    ExponentIs(123456789.0, 8);
  }
}
