/**
 Approximate quantiles of a histogram: one walk over bins and requested quantiles together.
 Counts and quantiles are reals, and bins for what is not a number are left out.
 */
module Quantile {
  import opened Decimals
  import opened HistogramBuckets
  import opened Histogram

  function Width(b: Bucket): real
    requires !IsNaN(b)
  {
    BinWidth(b).x
  }

  /** In a sorted histogram only the first entry can be for what is not a number. */
  function Numbers(es: seq<Entry>): seq<Entry> {
    if es != [] && IsNaN(es[0].bucket) then es[1..] else es
  }

  ghost predicate Plain(ns: seq<Entry>) {
    Sorted(ns) && forall e | e in ns :: !IsNaN(e.bucket)
  }

  lemma NumbersArePlain(es: seq<Entry>)
    requires Sorted(es)
    ensures Plain(Numbers(es)) && forall e | e in es :: !IsNaN(e.bucket) ==> e in Numbers(es)
  {
    hide Canonical, Compare;
    forall i | 1 <= i < |es|
      ensures !IsNaN(es[i].bucket)
    {
      StrictTotalOrder(es[i].bucket, es[0].bucket, es[0].bucket);
      NaNIsUnique(es[i].bucket, es[0].bucket);
    }
  }

  lemma NaNIsUnique(a: Bucket, b: Bucket)
    requires Canonical(a) && Canonical(b) && Less(b, a)
    ensures !IsNaN(a)
  {
  }

  /** How many samples are in the first `j` bins. */
  function Cumulated(ns: seq<Entry>, j: nat): (c: real)
    requires j <= |ns|
    ensures c >= 0.0
  {
    if j == 0 then 0.0 else Cumulated(ns, j - 1) + ns[j - 1].count as real
  }

  function Total(ns: seq<Entry>): real {
    Cumulated(ns, |ns|)
  }

  function Product(x: real, y: real): real { x * y }

  /** How far `x` is between the two, as a part of one. */
  function Fraction(lower: real, upper: real, x: real): real
    requires lower < x < upper
  {
    (x - lower) / (upper - lower)
  }

  /** The value at `x` samples in a bin that has those from `lower` to `upper`. */
  function ValueIn(b: Bucket, lower: real, upper: real, x: real): real
    requires !IsNaN(b) && lower <= x <= upper
  {
    if lower == x then Left(b)
    else if upper == x then Left(b) + Width(b)
    else if Width(b) == 0.0 then Left(b)
    else Left(b) + Product(Fraction(lower, upper, x), Width(b))
  }

  /** The value at `x` samples: the one in the first bin, from the `j`-th on, that gets that far. */
  function ValueAt(ns: seq<Entry>, j: nat, x: real): real
    requires j < |ns| && Cumulated(ns, j) <= x <= Total(ns) && forall e | e in ns :: !IsNaN(e.bucket)
    decreases |ns| - j
  {
    if j + 1 < |ns| && Cumulated(ns, j + 1) < x then ValueAt(ns, j + 1, x)
    else ValueIn(ns[j].bucket, Cumulated(ns, j), Cumulated(ns, j + 1), x)
  }

  lemma Share(total: real, q: real)
    requires total >= 0.0 && 0.0 <= q <= 1.0
    ensures 0.0 <= Product(total, q) <= total
  {
    assert total - total * q == total * (1.0 - q);
  }

  ghost function QuantileOf(es: seq<Entry>, q: real): real
    requires Sorted(es) && 0.0 <= q <= 1.0
  {
    var ns := Numbers(es);
    NumbersArePlain(es);
    Share(Total(ns), q);
    if ns == [] then 0.0 else ValueAt(ns, 0, Product(Total(ns), q))
  }

  // ----- Where quantiles are -----

  lemma FractionIsPart(lower: real, upper: real, x: real)
    requires lower < x < upper
    ensures 0.0 <= Fraction(lower, upper, x) <= 1.0
  {
    var f := Fraction(lower, upper, x);
    assert f * (upper - lower) == x - lower;
  }

  lemma WidthIsDistance(b: Bucket)
    requires Canonical(b) && !IsNaN(b)
    ensures Right(b) == Left(b) + Width(b) && Width(b) >= 0.0
  {
    Edges(b);
    hide Left, Pow10, Tenths;
  }

  lemma ValueInBucket(b: Bucket, lower: real, upper: real, x: real)
    requires Canonical(b) && !IsNaN(b) && lower <= x <= upper
    ensures Left(b) <= ValueIn(b, lower, upper, x) <= Right(b)
  {
    hide Left, Right, Width, Product, Fraction;
    WidthIsDistance(b);
    if lower < x < upper {
      FractionIsPart(lower, upper, x);
      Share(Width(b), Fraction(lower, upper, x));
      ProductCommutes(Width(b), Fraction(lower, upper, x));
    }
  }

  lemma ProductCommutes(x: real, y: real)
    ensures Product(x, y) == Product(y, x)
  {
  }

  /**
   A quantile lies in the first bucket whose range of samples has q times the total in it.
   */
  lemma {:induction false} ValueAtIsInBucket(ns: seq<Entry>, j: nat, x: real) returns (k: nat)
    requires j < |ns| && Plain(ns) && Cumulated(ns, j) <= x <= Total(ns)
    ensures j <= k < |ns| && Cumulated(ns, k) <= x <= Cumulated(ns, k + 1)
    ensures forall i | j < i <= k :: Cumulated(ns, i) < x
    ensures Left(ns[k].bucket) <= ValueAt(ns, j, x) <= Right(ns[k].bucket)
    decreases |ns| - j
  {
    hide Less, ValueIn, Left, Right;
    if j + 1 < |ns| && Cumulated(ns, j + 1) < x {
      k := ValueAtIsInBucket(ns, j + 1, x);
    } else {
      k := j;
      ValueInBucket(ns[j].bucket, Cumulated(ns, j), Cumulated(ns, j + 1), x);
    }
  }

  lemma QuantileIsInBucket(es: seq<Entry>, q: real) returns (k: nat)
    requires Sorted(es) && 0.0 <= q <= 1.0 && Numbers(es) != []
    ensures var ns := Numbers(es);
            && k < |ns| && !IsNaN(ns[k].bucket) && Cumulated(ns, k) <= Product(Total(ns), q) <= Cumulated(ns, k + 1)
            && (forall i | 0 < i <= k :: Cumulated(ns, i) < Product(Total(ns), q))
            && Left(ns[k].bucket) <= QuantileOf(es, q) <= Right(ns[k].bucket)
  {
    NumbersArePlain(es);
    Share(Total(Numbers(es)), q);
    k := ValueAtIsInBucket(Numbers(es), 0, Product(Total(Numbers(es)), q));
  }

  /** The value divides the bucket as `x` divides the samples that are in it. */
  predicate Divides(value: real, b: Bucket, lower: real, upper: real, x: real)
    requires !IsNaN(b)
  {
    (value - Left(b)) * (upper - lower) == (x - lower) * (Right(b) - Left(b))
  }

  /** Within a bin, values are spread evenly. */
  lemma ValueIsProportional(b: Bucket, lower: real, upper: real, x: real)
    requires Canonical(b) && !IsNaN(b) && lower <= x <= upper
    ensures Divides(ValueIn(b, lower, upper, x), b, lower, upper, x)
  {
    hide Left, Right, Width;
    WidthIsDistance(b);
    if lower < x < upper {
      var f, w := Fraction(lower, upper, x), Width(b);
      assert f * (upper - lower) == x - lower;
      assert f * w * (upper - lower) == f * (upper - lower) * w;
    }
  }

  lemma {:induction false} ValueAtIsProportional(ns: seq<Entry>, j: nat, x: real) returns (k: nat)
    requires j < |ns| && Plain(ns) && Cumulated(ns, j) <= x <= Total(ns)
    ensures j <= k < |ns| && Cumulated(ns, k) <= x <= Cumulated(ns, k + 1) && (k == j || Cumulated(ns, k) < x)
    ensures Divides(ValueAt(ns, j, x), ns[k].bucket, Cumulated(ns, k), Cumulated(ns, k + 1), x)
    decreases |ns| - j
  {
    hide Less, ValueIn, Left, Right, Divides;
    if j + 1 < |ns| && Cumulated(ns, j + 1) < x {
      k := ValueAtIsProportional(ns, j + 1, x);
    } else {
      k := j;
      ValueIsProportional(ns[j].bucket, Cumulated(ns, j), Cumulated(ns, j + 1), x);
    }
  }

  /** The samples before a bin are those of the bins before it. */
  lemma {:induction false} CumulatedIsPopulation(ns: seq<Entry>, j: nat)
    requires j <= |ns|
    ensures Cumulated(ns, j) == PopulationOf(ns[..j]) as real
  {
    if j > 0 {
      CumulatedIsPopulation(ns, j - 1);
      assert ns[..j] == ns[..j - 1] + [ns[j - 1]];
      CountsAdd(ns[..j - 1], [ns[j - 1]], ns[j - 1].bucket);
    } else {
      assert ns[..0] == [];
    }
  }

  /**
   The quantile divides its bin as the samples that are still to be passed divide those of the
   bin, which is the first one that gets to q times all samples.
   */
  lemma QuantileIsProportional(es: seq<Entry>, q: real) returns (k: nat)
    requires Sorted(es) && 0.0 <= q <= 1.0 && Numbers(es) != []
    ensures var ns := Numbers(es);
            k < |ns| && !IsNaN(ns[k].bucket) && SplitsAt(ns, k, QuantileOf(es, q), Product(PopulationOf(ns) as real, q))
  {
    var ns := Numbers(es);
    NumbersArePlain(es);
    Share(Total(ns), q);
    TotalIsPopulation(ns);
    hide ValueAt, SplitsAt, Plain, Cumulated, Product, Sorted, PopulationOf;
    k := SampleSplits(ns, Product(Total(ns), q));
  }

  lemma ProductIs(x: real, y: real)
    ensures Product(x, y) == x * y
  {
  }

  /** The `x`-th sample is in the `k`-th bin and in none before it, and the value is where it is in there. */
  ghost predicate SplitsAt(ns: seq<Entry>, k: nat, value: real, x: real)
    requires k < |ns| && !IsNaN(ns[k].bucket)
  {
    var before, upTo := PopulationOf(ns[..k]) as real, PopulationOf(ns[..k + 1]) as real;
    before <= x <= upTo && (k == 0 || before < x) && Divides(value, ns[k].bucket, before, upTo, x)
  }

  lemma SampleSplits(ns: seq<Entry>, x: real) returns (k: nat)
    requires Plain(ns) && ns != [] && 0.0 <= x <= Total(ns)
    ensures k < |ns| && !IsNaN(ns[k].bucket) && SplitsAt(ns, k, ValueAt(ns, 0, x), x)
  {
    k := ValueAtIsProportional(ns, 0, x);
    hide ValueAt, Divides, PopulationOf, Sorted;
    CumulatedIsPopulation(ns, k);
    CumulatedIsPopulation(ns, k + 1);
  }

  lemma TotalIsPopulation(ns: seq<Entry>)
    ensures Total(ns) == PopulationOf(ns) as real
  {
    CumulatedIsPopulation(ns, |ns|);
    assert ns[..|ns|] == ns;
  }

  // ----- Quantiles are ordered -----

  lemma FractionGrows(lower: real, upper: real, x: real, y: real)
    requires lower < x <= y < upper
    ensures Fraction(lower, upper, x) <= Fraction(lower, upper, y)
  {
  }

  lemma ProductGrows(x: real, y: real, factor: real)
    requires x <= y && factor >= 0.0
    ensures Product(factor, x) <= Product(factor, y)
  {
  }

  lemma ValueInGrows(b: Bucket, lower: real, upper: real, x: real, y: real)
    requires Canonical(b) && !IsNaN(b) && lower <= x <= y <= upper
    ensures ValueIn(b, lower, upper, x) <= ValueIn(b, lower, upper, y)
  {
    hide Left, Right, Width, Product, Fraction;
    WidthIsDistance(b);
    ValueInBucket(b, lower, upper, x);
    ValueInBucket(b, lower, upper, y);
    if lower < x && y < upper {
      var f, g := Fraction(lower, upper, x), Fraction(lower, upper, y);
      FractionGrows(lower, upper, x, y);
      ProductGrows(f, g, Width(b));
      ProductCommutes(Width(b), f);
      ProductCommutes(Width(b), g);
    }
  }

  lemma {:induction false} ValueAtGrows(ns: seq<Entry>, j: nat, x: real, y: real)
    requires j < |ns| && Plain(ns) && Cumulated(ns, j) <= x <= y <= Total(ns)
    ensures ValueAt(ns, j, x) <= ValueAt(ns, j, y)
    decreases |ns| - j
  {
    hide ValueIn, Less, Left, Right;
    if j + 1 < |ns| && Cumulated(ns, j + 1) < x {
      ValueAtGrows(ns, j + 1, x, y);
    } else if j + 1 < |ns| && Cumulated(ns, j + 1) < y {
      ValueInBucket(ns[j].bucket, Cumulated(ns, j), Cumulated(ns, j + 1), x);
      var k := ValueAtIsInBucket(ns, j + 1, y);
      assert Less(ns[j].bucket, ns[k].bucket);
      OrderIsRealOrder(ns[j].bucket, ns[k].bucket);
    } else {
      ValueInGrows(ns[j].bucket, Cumulated(ns, j), Cumulated(ns, j + 1), x, y);
    }
  }

  /** A larger quantile is never a smaller value. */
  lemma QuantilesAreOrdered(es: seq<Entry>, p: real, q: real)
    requires Sorted(es) && 0.0 <= p <= q <= 1.0
    ensures QuantileOf(es, p) <= QuantileOf(es, q)
  {
    var ns := Numbers(es);
    NumbersArePlain(es);
    Share(Total(ns), p);
    Share(Total(ns), q);
    ProductGrows(p, q, Total(ns));
    hide Product, ValueAt;
    if ns != [] {
      ValueAtGrows(ns, 0, Product(Total(ns), p), Product(Total(ns), q));
    }
  }

  // ----- The walk -----

  /** The list that the caller passes in for the results. */
  class Reals {
    var items: seq<real>
  }

  predicate InRange(q: real) { 0.0 <= q <= 1.0 }

  ghost predicate InOrder(qs: seq<real>) {
    forall k | 1 <= k < |qs| :: qs[k - 1] <= qs[k]
  }

  /** The quantiles before the first one out of range, as numbers of samples. */
  function Targets(total: real, qs: seq<real>): seq<real> {
    if qs == [] || !InRange(qs[0]) then [] else [Product(total, qs[0])] + Targets(total, qs[1..])
  }

  lemma {:induction false} TargetsOf(total: real, qs: seq<real>)
    requires forall k | 0 <= k < |qs| :: InRange(qs[k])
    ensures |Targets(total, qs)| == |qs| && forall k | 0 <= k < |qs| :: Targets(total, qs)[k] == Product(total, qs[k])
  {
    hide Product, InRange;
    if qs != [] {
      TargetsOf(total, qs[1..]);
    }
  }

  lemma {:induction false} TargetsSplit(total: real, qs: seq<real>, k: nat)
    requires k <= |qs| && forall i | 0 <= i < k :: InRange(qs[i])
    ensures Targets(total, qs) == Targets(total, qs[..k]) + Targets(total, qs[k..])
  {
    hide Product, InRange;
    if k == 0 {
      assert qs[..0] == [] && qs[0..] == qs;
    } else {
      var rest := qs[1..];
      FirstTarget(total, qs, k);
      FirstTarget(total, qs, |qs|);
      hide Targets;
      TargetsSplit(total, rest, k - 1);
      assert rest[k - 1..] == qs[k..];
      assert qs[..|qs|] == qs && rest[..|rest|] == rest;
      Regroup([Product(total, qs[0])], Targets(total, rest[..k - 1]), Targets(total, qs[k..]));
    }
  }

  lemma Regroup(a: seq<real>, b: seq<real>, c: seq<real>)
    ensures a + (b + c) == a + b + c
  {
  }

  lemma FirstTarget(total: real, qs: seq<real>, k: nat)
    requires 0 < k <= |qs| && InRange(qs[0])
    ensures Targets(total, qs[..k]) == [Product(total, qs[0])] + Targets(total, qs[1..][..k - 1])
  {
    hide Product, InRange;
    assert qs[..k][1..] == qs[1..][..k - 1];
  }

  /** The quantile that follows `k` good ones ends the list, or adds its target. */
  lemma NextTarget(total: real, qs: seq<real>, k: nat)
    requires k < |qs| && forall i | 0 <= i < k :: InRange(qs[i])
    ensures !InRange(qs[k]) ==> Targets(total, qs) == Targets(total, qs[..k])
    ensures InRange(qs[k]) ==> Targets(total, qs[..k + 1]) == Targets(total, qs[..k]) + [Product(total, qs[k])]
  {
    hide Product, InRange;
    if InRange(qs[k]) {
      TargetsSplit(total, qs[..k + 1], k);
      assert qs[..k + 1][..k] == qs[..k] && qs[..k + 1][k..] == [qs[k]] && [qs[k]][1..] == [];
    } else {
      TargetsSplit(total, qs, k);
    }
  }

  lemma {:induction false} OrderedThroughout(qs: seq<real>, i: nat, k: nat)
    requires InOrder(qs) && i <= k < |qs|
    ensures qs[i] <= qs[k]
  {
    if i < k {
      OrderedThroughout(qs, i, k - 1);
    }
  }

  /** Whichever bin the walk is at, starting from there gives what starting from the first bin would. */
  ghost predicate Ahead(ns: seq<Entry>, j: nat, xs: seq<real>, from: nat) {
    && j < |ns| && Plain(ns)
    && forall k | from <= k < |xs| ::
         Cumulated(ns, j) <= xs[k] <= Total(ns) && ValueAt(ns, 0, xs[k]) == ValueAt(ns, j, xs[k])
  }

  ghost predicate Ascending(xs: seq<real>) {
    forall i, k | 0 <= i <= k < |xs| :: xs[i] <= xs[k]
  }

  lemma NextBin(ns: seq<Entry>, j: nat, xs: seq<real>, from: nat)
    requires Ahead(ns, j, xs, from) && from < |xs| && Ascending(xs) && j + 1 < |ns| && Cumulated(ns, j + 1) < xs[from]
    ensures Ahead(ns, j + 1, xs, from)
  {
    hide Sorted, ValueIn;
    forall k | from <= k < |xs|
      ensures Cumulated(ns, j + 1) <= xs[k] <= Total(ns) && ValueAt(ns, 0, xs[k]) == ValueAt(ns, j + 1, xs[k])
    {
      assert xs[from] <= xs[k];
    }
  }

  /** The walk stands at the bin of `ns[j]`, or there are no bins to stand at. */
  ghost predicate Standing(ns: seq<Entry>, j: nat, left: real, width: real, lower: real, upper: real) {
    if ns == [] then left == width == lower == upper == 0.0
    else
      && j < |ns| && !IsNaN(ns[j].bucket)
      && left == Left(ns[j].bucket) && width == Width(ns[j].bucket)
      && lower == Cumulated(ns, j) && upper == Cumulated(ns, j + 1)
  }

  method SumUp(hist: Histogram) returns (total: real)
    requires hist.Valid()
    ensures total == Total(Numbers(hist.Contents()))
  {
    hide Compare, Canonical, Less, Sorted, SortedBins, EntriesOf;
    ghost var es := hist.Contents();
    ghost var ns := Numbers(es);
    ghost var skipped := |es| - |ns|;
    SortedEntries(hist.bvs);
    NumbersArePlain(es);
    total := 0.0;
    for i := 0 to |hist.bvs|
      invariant total == Cumulated(ns, if i < skipped then 0 else i - skipped)
    {
      var bucket := hist.bvs[i].bucket;
      assert i >= skipped ==> es[i] == ns[i - skipped];
      if bucket.val < -99 || bucket.val > 99 {
        continue;
      }
      total := total + hist.bvs[i].count as real;
    }
  }

  /** The first bin that is not for what is not a number. */
  method LeastBin(hist: Histogram) returns (i: nat, left: real, width: real, lower: real, upper: real)
    requires hist.Valid()
    ensures var es := hist.Contents();
            i == |es| - |Numbers(es)| && Standing(Numbers(es), 0, left, width, lower, upper)
  {
    hide Compare, Canonical, Less, Tenths, PowerOfTen;
    ghost var es := hist.Contents();
    SortedEntries(hist.bvs);
    NumbersArePlain(es);
    i, left, width, lower, upper := 0, 0.0, 0.0, 0.0, 0.0;
    while i < |hist.bvs|
      invariant i <= |es| - |Numbers(es)| && left == width == lower == upper == 0.0
    {
      var bucket := hist.bvs[i].bucket;
      if bucket.val < -99 || bucket.val > 99 {
        i := i + 1;
        continue;
      }
      width, left := BinWidth(bucket).x, BucketLeft(bucket).x;
      lower := upper;
      upper := lower + hist.bvs[i].count as real;
      assert Cumulated(Numbers(es), 1) == Cumulated(Numbers(es), 0) + Numbers(es)[0].count as real;
      return;
    }
  }

  /** The value at `x` samples in the bin where the walk stands. */
  method Interpolate(left: real, width: real, lower: real, upper: real, x: real, ghost b: Bucket) returns (y: real)
    requires !IsNaN(b) && left == Left(b) && width == Width(b) && lower <= x <= upper
    ensures y == ValueIn(b, lower, upper, x)
  {
    hide Left, Width;
    if lower == x {
      y := left;
    } else if upper == x {
      y := left + width;
    } else if width == 0.0 {
      y := left;
    } else {
      y := left + (x - lower) / (upper - lower) * width;
    }
  }

  /** Move on to the first bin that has `x` samples up to its end. */
  method Advance(hist: Histogram, from: nat, before: (real, real, real, real), x: real,
                 ghost ns: seq<Entry>, ghost at: nat, ghost xs: seq<real>, ghost q: nat)
    returns (i: nat, left: real, width: real, lower: real, upper: real, ghost j: nat)
    requires hist.Valid() && ns == Numbers(hist.Contents()) && from == |hist.bvs| - |ns| + at
    requires Standing(ns, at, before.0, before.1, before.2, before.3)
    requires q < |xs| && x == xs[q] && Ascending(xs) && (ns != [] ==> Ahead(ns, at, xs, q))
    ensures i == |hist.bvs| - |ns| + j && Standing(ns, j, left, width, lower, upper)
    ensures ns != [] ==> Ahead(ns, j, xs, q) && (j + 1 < |ns| ==> x <= upper)
  {
    hide Compare, Canonical, Less, Sorted, Tenths, PowerOfTen, ValueIn, ValueAt, Ascending, SortedBins, EntriesOf;
    i, j := from, at;
    left, width, lower, upper := before.0, before.1, before.2, before.3;
    while i < |hist.bvs| - 1 && upper < x
      invariant i == |hist.bvs| - |ns| + j && Standing(ns, j, left, width, lower, upper)
      invariant ns != [] ==> Ahead(ns, j, xs, q)
    {
      assert ns != [];
      NextBin(ns, j, xs, q);
      i, j := i + 1, j + 1;
      assert hist.Contents()[i] == ns[j];
      assert ns[j] in ns;
      width, left := BinWidth(hist.bvs[i].bucket).x, BucketLeft(hist.bvs[i].bucket).x;
      lower := upper;
      upper := lower + hist.bvs[i].count as real;
    }
  }

  lemma Here(ns: seq<Entry>, j: nat, xs: seq<real>, q: nat)
    requires Ahead(ns, j, xs, q) && q < |xs| && (j + 1 < |ns| ==> xs[q] <= Cumulated(ns, j + 1))
    ensures Cumulated(ns, j) <= xs[q] <= Cumulated(ns, j + 1) && 0.0 <= xs[q] <= Total(ns)
    ensures ValueAt(ns, 0, xs[q]) == ValueIn(ns[j].bucket, Cumulated(ns, j), Cumulated(ns, j + 1), xs[q])
  {
    hide Sorted, ValueIn;
  }

  lemma NoBins()
    ensures Total([]) == 0.0
    ensures Left(Bucket(0, 0)) == 0.0 && Width(Bucket(0, 0)) == 0.0 && ValueIn(Bucket(0, 0), 0.0, 0.0, 0.0) == 0.0
  {
  }

  /** Replace the numbers of samples in `qOut` by values, walking bins and quantiles together. */
  method Walk(hist: Histogram, qOut: Reals, ghost xs: seq<real>)
    requires hist.Valid() && qOut.items == xs && Ascending(xs)
    requires forall k | 0 <= k < |xs| :: 0.0 <= xs[k] <= Total(Numbers(hist.Contents()))
    modifies qOut
    ensures Plain(Numbers(hist.Contents())) && |qOut.items| == |xs|
    ensures var ns := Numbers(hist.Contents());
            forall k | 0 <= k < |xs| :: qOut.items[k] == if ns == [] then 0.0 else ValueAt(ns, 0, xs[k])
  {
    hide Compare, Canonical, Less, Sorted, ValueIn, ValueAt, Left, Width, Ascending, Numbers, EntriesOf, SortedBins;
    ghost var ns := Numbers(hist.Contents());
    SortedEntries(hist.bvs);
    NumbersArePlain(hist.Contents());
    ghost var j: nat := 0;
    NoBins();
    var i, left, width, lower, upper := LeastBin(hist);
    for q := 0 to |qOut.items|
      invariant hist.Valid() && hist.Contents() == old(hist.Contents()) && i == |hist.bvs| - |ns| + j
      invariant |qOut.items| == |xs| && (forall k | q <= k < |xs| :: qOut.items[k] == xs[k])
      invariant Standing(ns, j, left, width, lower, upper) && (ns != [] ==> Ahead(ns, j, xs, q))
      invariant forall k | 0 <= k < q :: qOut.items[k] == if ns == [] then 0.0 else ValueAt(ns, 0, xs[k])
    {
      i, left, width, lower, upper, j := Advance(hist, i, (left, width, lower, upper), qOut.items[q], ns, j, xs, q);
      if ns != [] {
        Here(ns, j, xs, q);
      }
      var y := Interpolate(left, width, lower, upper, qOut.items[q], if ns == [] then Bucket(0, 0) else ns[j].bucket);
      qOut.items := qOut.items[q := y];
    }
  }

  ghost predicate AllInRange(qs: seq<real>) {
    forall k | 0 <= k < |qs| :: InRange(qs[k])
  }

  /** What is promised when there is nothing wrong with the request. */
  ghost predicate Answers(es: seq<Entry>, qs: seq<real>, values: seq<real>) {
    && Sorted(es) && AllInRange(qs) && |values| == |qs|
    && forall k | 0 <= k < |qs| :: values[k] == QuantileOf(es, qs[k])
  }

  lemma TargetsAscend(total: real, qs: seq<real>)
    requires InOrder(qs) && AllInRange(qs) && total >= 0.0
    ensures |Targets(total, qs)| == |qs| && Ascending(Targets(total, qs))
    ensures forall k | 0 <= k < |qs| :: Targets(total, qs)[k] == Product(total, qs[k]) && 0.0 <= Targets(total, qs)[k] <= total
  {
    hide Product, Targets;
    TargetsOf(total, qs);
    forall i, k | 0 <= i <= k < |qs|
      ensures Product(total, qs[i]) <= Product(total, qs[k]) && 0.0 <= Product(total, qs[k]) <= total
    {
      OrderedThroughout(qs, i, k);
      assert InRange(qs[k]);
      ProductGrows(qs[i], qs[k], total);
      Share(total, qs[k]);
    }
  }

  /**
   Returns 0 on success, -2 if the quantiles are not in order, -3 if one is out of range, in which
   case those before it have been left as numbers of samples, and -4 if `qOut` was not empty.
   */
  method ApproxQuantile(hist: Histogram, qIn: seq<real>, qOut: Reals) returns (code: int)
    requires hist.Valid()
    modifies qOut
    ensures code == if old(qOut.items) != [] then -4 else if qIn == [] then 0
                    else if !InOrder(qIn) then -2 else if !AllInRange(qIn) then -3 else 0
    ensures code == -4 || code == -2 || qIn == [] ==> qOut.items == old(qOut.items)
    ensures code == -3 ==> qOut.items == Targets(Total(Numbers(hist.Contents())), qIn)
    ensures code == 0 && qIn != [] ==> Answers(hist.Contents(), qIn, qOut.items)
  {
    hide Product, Numbers, Targets, Sorted, SortedBins, EntriesOf, ValueAt;
    if |qOut.items| != 0 {
      return -4;
    }
    if |qIn| < 1 {
      return 0;
    }
    var total := SumUp(hist);
    assert Targets(total, []) == [] by { TargetsOf(total, []); }
    for q := 1 to |qIn|
      invariant forall k | 1 <= k < q :: qIn[k - 1] <= qIn[k]
    {
      if qIn[q - 1] > qIn[q] {
        return -2;
      }
    }
    for q := 0 to |qIn|
      invariant (forall k | 0 <= k < q :: InRange(qIn[k])) && qOut.items == Targets(total, qIn[..q])
      invariant hist.Valid() && hist.Contents() == old(hist.Contents())
    {
      NextTarget(total, qIn, q);
      if qIn[q] < 0.0 || qIn[q] > 1.0 {
        return -3;
      }
      qOut.items := qOut.items + [Product(total, qIn[q])];
    }
    assert qIn[..|qIn|] == qIn;
    TargetsAscend(total, qIn);
    Walk(hist, qOut, qOut.items);
    SortedEntries(hist.bvs);
    code := 0;
  }
}
