/**
 The buckets of a log-linear histogram: two decimal digits and an exponent, zero, or a marker
 for what is not a number. Floating point numbers are modelled as reals.
 */
module HistogramBuckets {
  import opened Decimals

  datatype Bucket = Bucket(val: int, exp: int)

  const NOT_A_NUMBER := 0xff

  predicate IsNaN(b: Bucket) { b.val < -99 || b.val > 99 }

  /** The buckets that stand for something: each value has only one of them. */
  predicate Canonical(b: Bucket) {
    || (b.exp == 0 && (b.val == 0 || b.val == NOT_A_NUMBER))
    || (-128 <= b.exp <= 127 && (10 <= b.val <= 99 || -99 <= b.val <= -10))
  }

  /** One if the first bucket comes before the second, minus one if it comes after it. */
  function Compare(a: Bucket, b: Bucket): int {
    if a.val == b.val && a.exp == b.exp then 0
    else if a.val == NOT_A_NUMBER then 1
    else if b.val == NOT_A_NUMBER then -1
    else if a.val == 0 then (if b.val > 0 then 1 else -1)
    else if b.val == 0 then (if a.val < 0 then 1 else -1)
    else if a.val < 0 && b.val > 0 then 1
    else if a.val > 0 && b.val < 0 then -1
    else if a.exp == b.exp then (if a.val < b.val then 1 else -1)
    else if a.exp > b.exp then (if a.val < 0 then 1 else -1)
    else (if a.val < 0 then -1 else 1)
  }

  predicate Less(a: Bucket, b: Bucket) { Compare(a, b) == 1 }

  // ----- Powers of ten -----

  /** The table holds the powers from 0 to 127, and then those from -128 to -1. */
  function TableEntry(i: int): real
    requires 0 <= i < 256
  {
    if i < 128 then Pow10(i) else Pow10(i - 256)
  }

  /** Masking with 0xff is taking the remainder, also for negative exponents. */
  function PowerOfTen(exp: int): real {
    TableEntry(exp % 256)
  }

  lemma PowerOfTenIsExact(e: int)
    requires -128 <= e <= 127
    ensures PowerOfTen(e) == Pow10(e)
  {
    assert e % 256 == if e < 0 then e + 256 else e;
  }

  // ----- Edges -----

  datatype Double = NaN | Real(x: real)

  function Tenths(n: int, unit: real): real {
    n as real / 10.0 * unit
  }

  function ToDouble(b: Bucket): Double {
    if IsNaN(b) then NaN
    else if -10 < b.val < 10 then Real(0.0)
    else Real(Tenths(b.val, PowerOfTen(b.exp)))
  }

  function BinWidth(b: Bucket): Double {
    if IsNaN(b) then NaN
    else if -10 < b.val < 10 then Real(0.0)
    else Real(PowerOfTen(b.exp) / 10.0)
  }

  /** The side of the bucket closest to minus infinity. */
  function BucketLeft(b: Bucket): Double {
    if IsNaN(b) then NaN
    else
      var out := ToDouble(b).x;
      if out == 0.0 then Real(0.0) else if out > 0.0 then Real(out) else Real(out - BinWidth(b).x)
  }

  function Left(b: Bucket): real
    requires !IsNaN(b)
  {
    BucketLeft(b).x
  }

  function Right(b: Bucket): real
    requires !IsNaN(b)
  {
    Left(b) + BinWidth(b).x
  }

  lemma Scaled(x: real, y: real, unit: real)
    requires x < y && unit > 0.0
    ensures x * unit < y * unit
  {
  }

  lemma TenthsGrow(m: int, n: int, unit: real)
    requires unit > 0.0
    ensures m <= n ==> Tenths(m, unit) <= Tenths(n, unit)
    ensures m < n ==> Tenths(m, unit) < Tenths(n, unit)
  {
    if m < n {
      Scaled(m as real / 10.0, n as real / 10.0, unit);
    }
  }

  lemma TenthsAre(n: int, unit: real)
    ensures Tenths(n + 1, unit) == Tenths(n, unit) + unit / 10.0 && Tenths(n - 1, unit) == Tenths(n, unit) - unit / 10.0
    ensures Tenths(10, unit) == unit && Tenths(100, unit) == 10.0 * unit
    ensures Tenths(-10, unit) == -unit && Tenths(-100, unit) == -10.0 * unit
  {
    assert (n + 1) as real / 10.0 == n as real / 10.0 + 1.0 / 10.0;
    assert (n - 1) as real / 10.0 == n as real / 10.0 - 1.0 / 10.0;
  }

  /** A bucket covers one step of its second digit, away from zero. */
  lemma Edges(b: Bucket)
    requires Canonical(b) && !IsNaN(b)
    ensures b.val == 0 ==> Left(b) == 0.0 && Right(b) == 0.0
    ensures b.val > 0 ==> Left(b) == Tenths(b.val, Pow10(b.exp)) && Right(b) == Tenths(b.val + 1, Pow10(b.exp))
    ensures b.val < 0 ==> Left(b) == Tenths(b.val - 1, Pow10(b.exp)) && Right(b) == Tenths(b.val, Pow10(b.exp))
    ensures b.val > 0 ==> Pow10(b.exp) <= Left(b) < Right(b) <= 10.0 * Pow10(b.exp)
    ensures b.val < 0 ==> -10.0 * Pow10(b.exp) <= Left(b) < Right(b) <= -Pow10(b.exp)
  {
    hide Tenths, PowerOfTen, Pow10;
    var unit := Pow10(b.exp);
    Positive(b.exp);
    if b.val != 0 {
      PowerOfTenIsExact(b.exp);
      TenthsAre(b.val, unit);
      if b.val > 0 {
        TenthsGrow(10, b.val, unit);
        TenthsGrow(b.val + 1, 100, unit);
      } else {
        TenthsGrow(b.val, -10, unit);
        TenthsGrow(-100, b.val - 1, unit);
      }
    }
  }

  /** Buckets do not overlap on the real line, and are compared by where they are. */
  lemma OrderIsRealOrder(a: Bucket, b: Bucket)
    requires Canonical(a) && Canonical(b) && !IsNaN(a) && !IsNaN(b)
    ensures Less(a, b) <==> Left(a) < Left(b)
    ensures Less(a, b) ==> Right(a) <= Left(b)
  {
    if Less(a, b) {
      LessIsBelow(a, b);
    } else if a != b {
      LessIsBelow(b, a);
    }
  }

  lemma LessIsBelow(a: Bucket, b: Bucket)
    requires Canonical(a) && Canonical(b) && !IsNaN(a) && !IsNaN(b) && Less(a, b)
    ensures Left(a) < Left(b) && Right(a) <= Left(b)
  {
    Edges(a);
    Edges(b);
    hide Left, Right, Tenths, Pow10;
    Positive(a.exp);
    Positive(b.exp);
    if a.exp == b.exp && a.val != 0 && b.val != 0 {
      TenthsGrow(a.val, b.val, Pow10(a.exp));
      TenthsGrow(a.val + 1, b.val, Pow10(a.exp));
      TenthsGrow(a.val, b.val - 1, Pow10(a.exp));
      TenthsGrow(a.val - 1, b.val - 1, Pow10(a.exp));
    } else if a.val > 0 && b.val > 0 {
      PowersGrow(a.exp, b.exp);
    } else if a.val < 0 && b.val < 0 {
      PowersGrow(b.exp, a.exp);
    }
  }

  /** The comparison is a strict total order in which what is not a number comes first. */
  lemma StrictTotalOrder(a: Bucket, b: Bucket, c: Bucket)
    requires Canonical(a) && Canonical(b) && Canonical(c)
    ensures Compare(a, b) in {-1, 0, 1} && Compare(b, a) == -Compare(a, b)
    ensures Compare(a, b) == 0 <==> a == b
    ensures Less(a, b) && Less(b, c) ==> Less(a, c)
    ensures IsNaN(a) && !IsNaN(b) ==> Less(a, b)
  {
  }

  // ----- The bucket of a value -----

  /** Among the buckets in use, only the marker is not a number. */
  lemma MarkerIsNaN(b: Bucket)
    requires Canonical(b)
    ensures IsNaN(b) <==> b.val == 255
  {
  }

  /** Values just below the edge of a bucket go into it, so that rounding errors do no harm. */
  const MARGIN := 0.0000000000001

  /** The two leading digits of a positive number. */
  function Digits(x: real, e: int): int
    requires -128 <= e <= 127
  {
    PowerOfTenIsExact(e);
    Positive(e);
    (x / PowerOfTen(e) * 10.0 + MARGIN).Floor
  }

  /** The bucket with these digits, and the sign of `d`. */
  function BucketWith(d: real, e: int, digits: int): Bucket {
    var sign := if d < 0.0 then -1 else 1;
    if digits != 100 then Bucket(sign * digits, e)
    else if e < 127 then Bucket(sign * 10, e + 1)
    else Bucket(NOT_A_NUMBER, 0)
  }

  /** Too small a number counts as zero, and too large a one has no bucket. */
  function BucketOf(d: real): Bucket {
    if d == 0.0 then Bucket(0, 0)
    else
      var x := Abs(d);
      var e := Exponent(x);
      if e < -128 then Bucket(0, 0)
      else if e > 127 then Bucket(NOT_A_NUMBER, 0)
      else
        BucketWith(d, e, Digits(x, e))
  }

  lemma DigitsAre(x: real, e: int)
    requires x > 0.0 && -128 <= e <= 127 && Pow10(e) <= x < Pow10(e + 1)
    ensures 10 <= Digits(x, e) <= 100
    ensures Tenths(Digits(x, e), Pow10(e)) <= x + Pow10(e) * (MARGIN / 10.0) && x < Tenths(Digits(x, e) + 1, Pow10(e))
  {
    PowerOfTenIsExact(e);
    Positive(e);
    assert Pow10(e + 1) == 10.0 * Pow10(e);
    LeadingDigits(x, Pow10(e), Digits(x, e));
    hide Digits, Pow10, PowerOfTen;
  }

  lemma LeadingDigits(x: real, unit: real, digits: int)
    requires unit > 0.0 && unit <= x < 10.0 * unit && digits == (x / unit * 10.0 + MARGIN).Floor
    ensures 10 <= digits <= 100
    ensures Tenths(digits, unit) <= x + unit * (MARGIN / 10.0) && x < Tenths(digits + 1, unit)
  {
    var y := x / unit;
    assert y * unit == x;
    Between(x, y, unit);
    assert digits as real <= y * 10.0 + MARGIN < digits as real + 1.0;
    hide Tenths;
    TenthsUpTo(digits, y + MARGIN / 10.0, unit);
    TenthsFrom(digits + 1, y, unit);
    assert (y + MARGIN / 10.0) * unit == x + unit * (MARGIN / 10.0);
  }

  lemma Between(x: real, y: real, unit: real)
    requires unit > 0.0 && x == y * unit && unit <= x < 10.0 * unit
    ensures 1.0 <= y < 10.0
  {
    if y < 1.0 {
      Scaled(y, 1.0, unit);
    } else if y > 10.0 {
      Scaled(10.0, y, unit);
    }
  }

  lemma TenthsUpTo(n: int, y: real, unit: real)
    requires unit > 0.0 && n as real <= y * 10.0
    ensures Tenths(n, unit) <= y * unit
  {
    if n as real / 10.0 < y {
      Scaled(n as real / 10.0, y, unit);
    }
  }

  lemma TenthsFrom(n: int, y: real, unit: real)
    requires unit > 0.0 && y * 10.0 < n as real
    ensures y * unit < Tenths(n, unit)
  {
    Scaled(y, n as real / 10.0, unit);
  }

  /** A number that is neither too small nor too large has the bucket of its digits. */
  lemma BucketIs(d: real)
    ensures Abs(d) < Pow10(-128) ==> BucketOf(d) == Bucket(0, 0)
    ensures Abs(d) >= Pow10(128) ==> BucketOf(d) == Bucket(NOT_A_NUMBER, 0)
    ensures Pow10(-128) <= Abs(d) < Pow10(128) ==>
              && d != 0.0 && -128 <= Exponent(Abs(d)) <= 127
              && BucketOf(d) == BucketWith(d, Exponent(Abs(d)), Digits(Abs(d), Exponent(Abs(d))))
  {
    Positive(-128);
    PowersGrow(-128, 128);
    if d != 0.0 {
      var e := Exponent(Abs(d));
      if e < -128 {
        PowersGrow(e + 1, -128);
      } else if e > 127 {
        PowersGrow(128, e);
      } else {
        PowersGrow(-128, e);
        PowersGrow(e + 1, 128);
      }
    }
    hide Digits, Pow10, Exponent;
  }

  /** The value lies in the bucket, or less than the margin below it. */
  predicate LiesIn(d: real, b: Bucket)
    requires !IsNaN(b)
  {
    if d > 0.0 then Left(b) <= d + Pow10(b.exp) * (MARGIN / 10.0) && d < Right(b)
    else Left(b) < d && d - Pow10(b.exp) * (MARGIN / 10.0) <= Right(b)
  }

  /**
   Every number goes into a bucket that is in use: zero if it is closer to zero than 10^-128, the
   marker from 10^128 on (or just below), and otherwise the one it lies in, but for the margin.
   */
  lemma BucketHolds(d: real)
    ensures Canonical(BucketOf(d))
    ensures Abs(d) < Pow10(-128) ==> BucketOf(d) == Bucket(0, 0)
    ensures Abs(d) >= Pow10(128) ==> IsNaN(BucketOf(d))
    ensures Pow10(-128) <= Abs(d) && Abs(d) + Pow10(127) * (MARGIN / 10.0) < Pow10(128) ==> !IsNaN(BucketOf(d))
    ensures Pow10(-128) <= Abs(d) && !IsNaN(BucketOf(d)) ==> BucketOf(d).val != 0 && LiesIn(d, BucketOf(d))
  {
    BucketIs(d);
    Positive(127);
    if Pow10(-128) <= Abs(d) < Pow10(128) {
      var e := Exponent(Abs(d));
      DigitsAre(Abs(d), e);
      BucketHoldsDigits(d, e, Digits(Abs(d), e));
    }
    hide Digits, Pow10, Exponent, BucketOf, LiesIn;
  }

  lemma BucketHoldsDigits(d: real, e: int, digits: int)
    requires d != 0.0 && -128 <= e <= 127 && Pow10(e) <= Abs(d) < Pow10(e + 1) && 10 <= digits <= 100
    requires Tenths(digits, Pow10(e)) <= Abs(d) + Pow10(e) * (MARGIN / 10.0) && Abs(d) < Tenths(digits + 1, Pow10(e))
    ensures var b := BucketWith(d, e, digits); Canonical(b) && (!IsNaN(b) ==> b.val != 0 && LiesIn(d, b))
    ensures IsNaN(BucketWith(d, e, digits)) ==> e == 127 && Pow10(128) <= Abs(d) + Pow10(127) * (MARGIN / 10.0)
  {
    if digits != 100 {
      OwnBucket(d, e, digits);
    } else {
      assert Pow10(e + 1) == 10.0 * Pow10(e);
      TenthsAre(10, Pow10(e));
      if e < 127 {
        NextBucket(d, e);
      }
    }
    hide LiesIn, Pow10, Tenths;
  }

  lemma OwnBucket(d: real, e: int, digits: int)
    requires d != 0.0 && -128 <= e <= 127 && 10 <= digits < 100
    requires Tenths(digits, Pow10(e)) <= Abs(d) + Pow10(e) * (MARGIN / 10.0) && Abs(d) < Tenths(digits + 1, Pow10(e))
    ensures var b := Bucket(if d < 0.0 then -digits else digits, e); Canonical(b) && !IsNaN(b) && LiesIn(d, b)
  {
    TenthsOfNegative(digits, Pow10(e));
    TenthsOfNegative(digits + 1, Pow10(e));
    hide Tenths, Pow10, Left, Right;
    Edges(Bucket(if d < 0.0 then -digits else digits, e));
  }

  /** Just below a power of ten, the margin leads to the next exponent. */
  lemma NextBucket(d: real, e: int)
    requires d != 0.0 && -128 <= e < 127 && Pow10(e + 1) <= Abs(d) + Pow10(e) * (MARGIN / 10.0) && Abs(d) < Pow10(e + 1)
    ensures var b := Bucket(if d < 0.0 then -10 else 10, e + 1); Canonical(b) && !IsNaN(b) && LiesIn(d, b)
  {
    Positive(e);
    assert Pow10(e + 1) == 10.0 * Pow10(e);
    TenthsAre(10, Pow10(e + 1));
    TenthsAre(-10, Pow10(e + 1));
    hide Tenths, Pow10, Left, Right;
    Edges(Bucket(if d < 0.0 then -10 else 10, e + 1));
  }

  lemma TenthsOfNegative(n: int, unit: real)
    ensures Tenths(-n, unit) == -Tenths(n, unit)
  {
    assert (-n) as real == -(n as real);
  }
}
