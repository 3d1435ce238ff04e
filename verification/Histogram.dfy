/**
 A sparse histogram: the bins that have been used, in the order of their buckets. Insertion
 finds its place by binary search, and merging walks two histograms in step.
 */
module Histogram {
  import opened HistogramBuckets

  // ----- Contents -----

  datatype Entry = Entry(bucket: Bucket, count: nat)

  ghost predicate Sorted(es: seq<Entry>) {
    && (forall i | 0 <= i < |es| :: Canonical(es[i].bucket))
    && (forall i, j | 0 <= i < j < |es| :: Less(es[i].bucket, es[j].bucket))
  }

  function CountOf(es: seq<Entry>, b: Bucket): nat {
    if es == [] then 0 else (if es[0].bucket == b then es[0].count else 0) + CountOf(es[1..], b)
  }

  function PopulationOf(es: seq<Entry>): nat {
    if es == [] then 0 else es[0].count + PopulationOf(es[1..])
  }

  lemma {:induction false} CountsAdd(a: seq<Entry>, c: seq<Entry>, b: Bucket)
    ensures CountOf(a + c, b) == CountOf(a, b) + CountOf(c, b)
    ensures PopulationOf(a + c) == PopulationOf(a) + PopulationOf(c)
  {
    if a == [] {
      assert a + c == c;
    } else {
      CountsAdd(a[1..], c, b);
      assert (a + c)[1..] == a[1..] + c;
    }
  }

  lemma {:induction false} CountOfAbsent(es: seq<Entry>, b: Bucket)
    requires forall e | e in es :: e.bucket != b
    ensures CountOf(es, b) == 0
  {
    if es != [] {
      CountOfAbsent(es[1..], b);
    }
  }

  // ----- Merging -----

  /** The entries of both, in order; equal buckets are added up. */
  function Merged(t: seq<Entry>, s: seq<Entry>): seq<Entry> {
    if s == [] then t
    else if t == [] then s
    else
      var cmp := Compare(t[0].bucket, s[0].bucket);
      if cmp > 0 then [t[0]] + Merged(t[1..], s)
      else if cmp < 0 then [s[0]] + Merged(t, s[1..])
      else [Entry(t[0].bucket, t[0].count + s[0].count)] + Merged(t[1..], s[1..])
  }

  /** Every bucket's count in the merged histogram is the sum of its counts, and so is the population. */
  lemma {:induction false} MergedAdds(t: seq<Entry>, s: seq<Entry>, b: Bucket)
    requires Sorted(t) && Sorted(s)
    ensures CountOf(Merged(t, s), b) == CountOf(t, b) + CountOf(s, b)
    ensures PopulationOf(Merged(t, s)) == PopulationOf(t) + PopulationOf(s)
  {
    hide Less, Canonical, Compare;
    if s != [] && t != [] {
      var cmp := Compare(t[0].bucket, s[0].bucket);
      StrictTotalOrder(t[0].bucket, s[0].bucket, s[0].bucket);
      if cmp > 0 {
        MergedAdds(t[1..], s, b);
      } else if cmp < 0 {
        MergedAdds(t, s[1..], b);
      } else {
        MergedAdds(t[1..], s[1..], b);
      }
    }
  }

  lemma {:induction false} MergedAbove(b: Bucket, t: seq<Entry>, s: seq<Entry>)
    requires forall e | e in t :: Less(b, e.bucket)
    requires forall e | e in s :: Less(b, e.bucket)
    ensures forall e | e in Merged(t, s) :: Less(b, e.bucket)
  {
    hide Less, Compare;
    if s != [] && t != [] {
      var cmp := Compare(t[0].bucket, s[0].bucket);
      if cmp > 0 {
        MergedAbove(b, t[1..], s);
      } else if cmp < 0 {
        MergedAbove(b, t, s[1..]);
      } else {
        MergedAbove(b, t[1..], s[1..]);
      }
    }
  }

  lemma {:induction false} MergedSorted(t: seq<Entry>, s: seq<Entry>)
    requires Sorted(t) && Sorted(s)
    ensures Sorted(Merged(t, s))
  {
    hide Less, Canonical, Compare;
    if s != [] && t != [] {
      var cmp := Compare(t[0].bucket, s[0].bucket);
      StrictTotalOrder(t[0].bucket, s[0].bucket, s[0].bucket);
      if cmp > 0 {
        MergedSorted(t[1..], s);
        FirstIsLess(t, s);
        MergedAbove(t[0].bucket, t[1..], s);
        SortedFrom(t[0], Merged(t[1..], s));
      } else if cmp < 0 {
        MergedSorted(t, s[1..]);
        FirstIsLess(s, t);
        MergedAbove(s[0].bucket, t, s[1..]);
        SortedFrom(s[0], Merged(t, s[1..]));
      } else {
        MergedSorted(t[1..], s[1..]);
        MergedAbove(t[0].bucket, t[1..], s[1..]);
        SortedFrom(Entry(t[0].bucket, t[0].count + s[0].count), Merged(t[1..], s[1..]));
      }
    }
  }

  lemma SortedFrom(e: Entry, es: seq<Entry>)
    requires Canonical(e.bucket) && Sorted(es) && forall x | x in es :: Less(e.bucket, x.bucket)
    ensures Sorted([e] + es)
  {
    hide Less, Canonical;
  }

  lemma FirstIsLess(t: seq<Entry>, s: seq<Entry>)
    requires Sorted(t) && Sorted(s) && t != [] && s != [] && Compare(t[0].bucket, s[0].bucket) == 1
    ensures forall e | e in s :: Less(t[0].bucket, e.bucket)
  {
    hide Canonical, Compare;
    forall i | 0 < i < |s|
      ensures Less(t[0].bucket, s[i].bucket)
    {
      StrictTotalOrder(t[0].bucket, s[0].bucket, s[i].bucket);
    }
  }

  lemma {:induction false} MergedCommutes(t: seq<Entry>, s: seq<Entry>)
    requires Sorted(t) && Sorted(s)
    ensures Merged(t, s) == Merged(s, t)
  {
    hide Less, Canonical, Compare;
    if s != [] && t != [] {
      var cmp := Compare(t[0].bucket, s[0].bucket);
      StrictTotalOrder(t[0].bucket, s[0].bucket, s[0].bucket);
      if cmp > 0 {
        MergedCommutes(t[1..], s);
      } else if cmp < 0 {
        MergedCommutes(t, s[1..]);
      } else {
        MergedCommutes(t[1..], s[1..]);
      }
    }
  }

  lemma MergedPasses(es: seq<Entry>, e: Entry)
    requires es != [] && Less(es[0].bucket, e.bucket)
    ensures Merged(es, [e]) == [es[0]] + Merged(es[1..], [e])
  {
    LessIsOne(es[0].bucket, e.bucket);
    hide Compare, Less;
  }

  lemma MergedStops(es: seq<Entry>, e: Entry)
    requires es != [] && Canonical(es[0].bucket) && Canonical(e.bucket)
    ensures Less(e.bucket, es[0].bucket) ==> Merged(es, [e]) == [e] + es
    ensures es[0].bucket == e.bucket ==> Merged(es, [e]) == [Entry(e.bucket, es[0].count + e.count)] + es[1..]
  {
    StrictTotalOrder(e.bucket, es[0].bucket, e.bucket);
    LessIsOne(e.bucket, es[0].bucket);
    assert Merged(es, []) == es && Merged(es[1..], []) == es[1..];
    hide Compare, Less;
  }

  lemma {:induction false} MergedPlaces(es: seq<Entry>, i: nat, e: Entry)
    requires i <= |es| && Sorted(es) && Canonical(e.bucket)
    requires forall j | 0 <= j < i :: Less(es[j].bucket, e.bucket)
    requires forall j | i <= j < |es| :: Less(e.bucket, es[j].bucket)
    ensures Merged(es, [e]) == es[..i] + [e] + es[i..]
  {
    hide Less, Canonical, Compare;
    if i > 0 {
      MergedPlaces(es[1..], i - 1, e);
      MergedPasses(es, e);
      AfterFirst(es, i, e);
      hide Merged;
    } else if es != [] {
      MergedStops(es, e);
      assert es[..0] + [e] + es[0..] == [e] + es;
      hide Merged;
    }
  }

  lemma {:induction false} MergedCounts(es: seq<Entry>, i: nat, e: Entry)
    requires i < |es| && Sorted(es) && Canonical(e.bucket) && es[i].bucket == e.bucket
    requires forall j | 0 <= j < i :: Less(es[j].bucket, e.bucket)
    ensures Merged(es, [e]) == es[i := Entry(e.bucket, es[i].count + e.count)]
  {
    hide Less, Canonical, Compare;
    if i > 0 {
      MergedCounts(es[1..], i - 1, e);
      MergedPasses(es, e);
      UpdateAfterFirst(es, i, Entry(e.bucket, es[i].count + e.count));
      hide Merged;
    } else {
      MergedStops(es, e);
      hide Merged;
    }
  }

  /** Adding one entry is merging with a histogram that has nothing else. */
  lemma MergedOne(es: seq<Entry>, i: nat, e: Entry)
    requires i <= |es| && Sorted(es) && Canonical(e.bucket)
    requires forall j | 0 <= j < i :: Less(es[j].bucket, e.bucket)
    ensures (forall j | i <= j < |es| :: Less(e.bucket, es[j].bucket)) ==>
            Merged(es, [e]) == es[..i] + [e] + es[i..]
    ensures i < |es| && es[i].bucket == e.bucket ==>
            Merged(es, [e]) == es[i := Entry(e.bucket, es[i].count + e.count)]
  {
    hide Less, Canonical, Merged, Sorted;
    if forall j | i <= j < |es| :: Less(e.bucket, es[j].bucket) {
      MergedPlaces(es, i, e);
    }
    if i < |es| && es[i].bucket == e.bucket {
      MergedCounts(es, i, e);
    }
  }

  lemma AfterFirst(es: seq<Entry>, i: nat, e: Entry)
    requires 0 < i <= |es|
    ensures [es[0]] + (es[1..][..i - 1] + [e] + es[1..][i - 1..]) == es[..i] + [e] + es[i..]
  {
  }

  lemma UpdateAfterFirst(es: seq<Entry>, i: nat, e: Entry)
    requires 0 < i < |es|
    ensures es[1..][i - 1] == es[i] && [es[0]] + es[1..][i - 1 := e] == es[i := e]
  {
  }

  lemma LessIsOne(a: Bucket, b: Bucket)
    ensures Less(a, b) <==> Compare(a, b) == 1
  {
  }

  // ----- Counting -----

  /** The counts of these buckets, added up. */
  function CountsOf(es: seq<Entry>, buckets: seq<Bucket>): nat {
    if buckets == [] then 0 else CountOf(es, buckets[0]) + CountsOf(es, buckets[1..])
  }

  function BucketsOf(es: seq<Entry>): (buckets: seq<Bucket>)
    ensures |buckets| == |es| && forall i | 0 <= i < |es| :: buckets[i] == es[i].bucket
  {
    if es == [] then [] else [es[0].bucket] + BucketsOf(es[1..])
  }

  lemma {:induction false} CountsOfOthers(e: Entry, es: seq<Entry>, buckets: seq<Bucket>)
    requires forall b | b in buckets :: b != e.bucket
    ensures CountsOf([e] + es, buckets) == CountsOf(es, buckets)
  {
    if buckets != [] {
      assert ([e] + es)[1..] == es && buckets[0] in buckets;
      assert forall b | b in buckets[1..] :: b in buckets;
      CountsOfOthers(e, es, buckets[1..]);
    }
  }

  /** The population is what the buckets in use count together, each bucket being there once. */
  lemma {:induction false} PopulationIsAllCounts(es: seq<Entry>)
    requires Sorted(es)
    ensures PopulationOf(es) == CountsOf(es, BucketsOf(es))
    ensures forall i, j | 0 <= i < j < |es| :: BucketsOf(es)[i] != BucketsOf(es)[j]
  {
    hide Canonical, Compare;
    forall i, j | 0 <= i < j < |es|
      ensures es[i].bucket != es[j].bucket
    {
      StrictTotalOrder(es[i].bucket, es[j].bucket, es[j].bucket);
    }
    if es != [] {
      PopulationIsAllCounts(es[1..]);
      CountAt(es, 0);
      var rest := BucketsOf(es[1..]);
      assert BucketsOf(es)[1..] == rest;
      assert [es[0]] + es[1..] == es;
      forall b | b in rest
        ensures b != es[0].bucket
      {
        var i :| 0 <= i < |rest| && rest[i] == b;
        assert es[1..][i] == es[i + 1];
      }
      CountsOfOthers(es[0], es[1..], rest);
    }
  }

  // ----- Removing -----

  function Reduced(es: seq<Entry>, b: Bucket, n: nat): (r: seq<Entry>)
    ensures |r| == |es| && forall i | 0 <= i < |es| :: r[i] == LessOf(es[i], b, n)
  {
    if es == [] then [] else [LessOf(es[0], b, n)] + Reduced(es[1..], b, n)
  }

  function LessOf(e: Entry, b: Bucket, n: nat): Entry {
    if e.bucket != b then e else Entry(b, if e.count < n then 0 else e.count - n)
  }

  lemma ReducedOne(es: seq<Entry>, i: nat, b: Bucket, n: nat)
    requires i <= |es| && forall j | 0 <= j < |es| && j != i :: es[j].bucket != b
    requires i < |es| ==> es[i].bucket == b
    ensures Reduced(es, b, n) == if i < |es| then es[i := LessOf(es[i], b, n)] else es
  {
  }

  /** As long as no more is removed than was added, removing undoes adding. */
  lemma RemovedUndoesAdded(es: seq<Entry>, b: Bucket, n: nat, at: Bucket)
    requires Sorted(es) && Canonical(b) && n > 0
    ensures CountOf(Reduced(Merged(es, [Entry(b, n)]), b, n), at) == CountOf(es, at)
  {
    MergedSorted(es, [Entry(b, n)]);
    MergedAdds(es, [Entry(b, n)], at);
    ReducedCount(Merged(es, [Entry(b, n)]), b, n, at);
  }

  lemma {:induction false} ReducedCount(es: seq<Entry>, b: Bucket, n: nat, at: Bucket)
    requires Sorted(es)
    ensures CountOf(Reduced(es, b, n), at) ==
            if at != b then CountOf(es, at) else if CountOf(es, b) < n then 0 else CountOf(es, b) - n
  {
    hide Canonical, Compare;
    if es != [] {
      ReducedCount(es[1..], b, n, at);
      if es[0].bucket == b {
        CountAt(es, 0);
        CountAt(Reduced(es, b, n), 0);
        forall e | e in es[1..]
          ensures e.bucket != b
        {
          StrictTotalOrder(b, e.bucket, e.bucket);
        }
      }
    }
  }

  // ----- The histogram -----

  class Bin {
    const bucket: Bucket
    var count: nat

    constructor (bucket: Bucket, count: nat)
      ensures this.bucket == bucket && this.count == count
    {
      this.bucket := bucket;
      this.count := count;
    }
  }

  ghost predicate SortedBins(bins: seq<Bin>) {
    && (forall i | 0 <= i < |bins| :: Canonical(bins[i].bucket))
    && (forall i, j | 0 <= i < j < |bins| :: Less(bins[i].bucket, bins[j].bucket))
  }

  ghost function EntriesOf(bins: seq<Bin>): (es: seq<Entry>)
    reads bins
    ensures |es| == |bins| && forall i | 0 <= i < |es| :: es[i] == Entry(bins[i].bucket, bins[i].count)
  {
    seq(|bins|, i requires 0 <= i < |bins| reads bins => Entry(bins[i].bucket, bins[i].count))
  }

  lemma BelowAll(bins: seq<Bin>, k: nat, b: Bucket)
    requires SortedBins(bins) && Canonical(b) && k < |bins|
    ensures Less(bins[k].bucket, b) ==> forall j | 0 <= j <= k :: Less(bins[j].bucket, b)
    ensures Less(b, bins[k].bucket) ==> forall j | k <= j < |bins| :: Less(b, bins[j].bucket)
  {
    hide Canonical, Compare;
    forall j | 0 <= j < |bins|
      ensures Less(bins[k].bucket, b) && j <= k ==> Less(bins[j].bucket, b)
      ensures Less(b, bins[k].bucket) && j >= k ==> Less(b, bins[j].bucket)
    {
      StrictTotalOrder(bins[j].bucket, bins[k].bucket, b);
      StrictTotalOrder(b, bins[k].bucket, bins[j].bucket);
    }
  }

  lemma SortedEntries(bins: seq<Bin>)
    requires SortedBins(bins)
    ensures Sorted(EntriesOf(bins))
  {
    hide Canonical, Less;
  }

  lemma InsertedSorted(bins: seq<Bin>, i: nat, bin: Bin)
    requires SortedBins(bins) && i <= |bins| && Canonical(bin.bucket)
    requires forall j | 0 <= j < i :: Less(bins[j].bucket, bin.bucket)
    requires forall j | i <= j < |bins| :: Less(bin.bucket, bins[j].bucket)
    ensures SortedBins(bins[..i] + [bin] + bins[i..])
  {
    hide Canonical, Less;
  }

  lemma InsertedEntries(bins: seq<Bin>, i: nat, bin: Bin)
    requires i <= |bins|
    ensures EntriesOf(bins[..i] + [bin] + bins[i..]) ==
            EntriesOf(bins)[..i] + [Entry(bin.bucket, bin.count)] + EntriesOf(bins)[i..]
  {
    var all := bins[..i] + [bin] + bins[i..];
    forall j | 0 <= j < |all|
      ensures EntriesOf(all)[j] == (EntriesOf(bins)[..i] + [Entry(bin.bucket, bin.count)] + EntriesOf(bins)[i..])[j]
    {
    }
  }

  /** A bucket has at most one bin. */
  lemma BinAlone(bins: seq<Bin>)
    requires SortedBins(bins)
    ensures forall i, j | 0 <= i < |bins| && 0 <= j < |bins| && bins[i].bucket == bins[j].bucket :: i == j
  {
    forall i, j | 0 <= i < j < |bins|
      ensures bins[i].bucket != bins[j].bucket
    {
      assert Less(bins[i].bucket, bins[j].bucket);
    }
  }

  class Histogram {
    var bvs: seq<Bin>

    ghost predicate Valid()
      reads this
    {
      SortedBins(bvs)
    }

    ghost function Contents(): (es: seq<Entry>)
      reads this, bvs
      ensures |es| == |bvs| && forall i | 0 <= i < |es| :: es[i] == Entry(bvs[i].bucket, bvs[i].count)
    {
      EntriesOf(bvs)
    }

    /** Binary search for the place of a bucket: where it is, or where it would have to be inserted. */
    method InternalFind(hb: Bucket) returns (found: bool, idx: nat)
      requires Valid() && Canonical(hb)
      ensures idx <= |bvs| && forall j | 0 <= j < idx :: Less(bvs[j].bucket, hb)
      ensures found ==> idx < |bvs| && bvs[idx].bucket == hb
      ensures !found ==> forall j | idx <= j < |bvs| :: Less(hb, bvs[j].bucket)
      ensures !found ==> forall b | b in bvs :: b.bucket != hb
    {
      hide Compare, Canonical;
      var rv, l, r := -1, 0, |bvs| - 1;
      if |bvs| == 0 {
        return false, 0;
      }
      while l < r
        invariant 0 <= l < |bvs| && -1 <= r < |bvs| && l <= r + 1
        invariant rv == 0 ==> l == r && bvs[l].bucket == hb
        invariant forall j | 0 <= j < l :: Less(bvs[j].bucket, hb)
        invariant forall j | r < j < |bvs| :: Less(hb, bvs[j].bucket)
        decreases r - l
      {
        var check := (r + l) / 2;
        rv := Compare(bvs[check].bucket, hb);
        StrictTotalOrder(bvs[check].bucket, hb, hb);
        BelowAll(bvs, check, hb);
        if rv == 0 {
          l, r := check, check;
        } else if rv > 0 {
          l := check + 1;
        } else {
          r := check - 1;
        }
      }
      if rv != 0 {
        rv := Compare(bvs[l].bucket, hb);
        StrictTotalOrder(bvs[l].bucket, hb, hb);
        BelowAll(bvs, l, hb);
      }
      idx := l;
      if rv == 0 {
        found := true;
      } else if rv < 0 {
        found := false;
      } else {
        found, idx := false, idx + 1;
      }
      StrictTotalOrder(hb, hb, hb);
    }

    method AddToBin(i: nat, count: nat) returns (r: nat)
      requires Valid() && i < |bvs|
      modifies bvs[i]
      ensures bvs == old(bvs) && r == bvs[i].count == old(bvs[i].count) + count
      ensures Contents() == old(Contents())[i := Entry(bvs[i].bucket, old(bvs[i].count) + count)]
    {
      BinAlone(bvs);
      bvs[i].count := bvs[i].count + count;
      r := bvs[i].count;
    }

    method Splice(i: nat, bin: Bin)
      requires i <= |bvs|
      modifies this
      ensures bvs == old(bvs[..i] + [bin] + bvs[i..])
      ensures Contents() == old(Contents()[..i] + [Entry(bin.bucket, bin.count)] + Contents()[i..])
    {
      InsertedEntries(bvs, i, bin);
      bvs := bvs[..i] + [bin] + bvs[i..];
    }

    /** Add to the count of one bucket, and to nothing else. */
    method InsertRaw(hb: Bucket, count: nat) returns (r: nat)
      requires Valid() && Canonical(hb)
      modifies this, bvs
      ensures Valid()
      ensures Contents() == if count == 0 then old(Contents()) else Merged(old(Contents()), [Entry(hb, count)])
      ensures count > 0 ==> r == CountOf(Contents(), hb)
      ensures forall b: Bin | b in old(bvs) && (b.bucket != hb || count == 0) :: b.count == old(b.count)
      ensures forall b: Bin | b in old(bvs) && b.bucket == hb :: b.count == old(b.count) + count
      ensures forall b | b in bvs :: b in old(bvs) || fresh(b)
      ensures forall b | b in old(bvs) :: b in bvs
    {
      hide Compare, Canonical, CountOf, Merged, SortedBins, Less, Sorted;
      if count == 0 {
        return 0;
      }
      var found, idx := InternalFind(hb);
      r := count;
      ghost var was, before := bvs, Contents();
      SortedEntries(was);
      assert before == old(Contents());
      MergedOne(before, idx, Entry(hb, count));
      BinAlone(was);
      if !found {
        var bin := new Bin(hb, count);
        InsertedSorted(bvs, idx, bin);
        Splice(idx, bin);
      } else {
        r := AddToBin(idx, count);
      }
      SortedEntries(bvs);
      CountAt(Contents(), idx);
    }

    /** Take from the count of one bucket, which does not go below zero and keeps its bin. */
    method RemoveRaw(hb: Bucket, count: nat)
      requires Valid() && Canonical(hb)
      modifies bvs
      ensures Valid() && Contents() == Reduced(old(Contents()), hb, count)
    {
      hide Compare, Canonical, SortedBins, Less, Reduced;
      var found, idx := InternalFind(hb);
      BinAlone(bvs);
      ReducedOne(Contents(), if found then idx else |bvs|, hb, count);
      if found {
        bvs[idx].count := if bvs[idx].count < count then 0 else bvs[idx].count - count;
        assert Contents() == old(Contents())[idx := LessOf(old(Contents())[idx], hb, count)];
      }
    }

    /** Count a value in its bucket. */
    method Insert(val: real, count: nat) returns (r: nat)
      requires Valid()
      modifies this, bvs
      ensures Valid()
      ensures Contents() == if count == 0 then old(Contents()) else Merged(old(Contents()), [Entry(BucketOf(val), count)])
      ensures r == if count == 0 then 0 else CountOf(Contents(), BucketOf(val))
    {
      hide Canonical, BucketOf, Merged, CountOf, SortedBins;
      if count == 0 {
        return 0;
      }
      BucketHolds(val);
      r := InsertRaw(BucketOf(val), count);
    }

    /** Take a value out of its bucket again. */
    method Remove(val: real, count: nat)
      requires Valid()
      modifies bvs
      ensures Valid() && Contents() == Reduced(old(Contents()), BucketOf(val), count)
    {
      hide Canonical, BucketOf, Reduced, SortedBins;
      BucketHolds(val);
      RemoveRaw(BucketOf(val), count);
    }

    method Population() returns (n: nat)
      requires Valid()
      ensures n == PopulationOf(Contents())
    {
      n := 0;
      ghost var es := Contents();
      for i := 0 to |bvs|
        invariant n == PopulationOf(es[..i])
      {
        n := n + bvs[i].count;
        assert es[..i + 1] == es[..i] + [es[i]];
        CountsAdd(es[..i], [es[i]], es[i].bucket);
      }
      assert es[..|bvs|] == es;
    }

    /**
     The walk of a merge: `was` and `theirs` are the bins at the start, `wasEntries` and `entries`
     their contents then, and `done` what the bins before `t` have come to hold.
     */
    ghost predicate Merging(src: Histogram, was: seq<Bin>, theirs: seq<Bin>, wasEntries: seq<Entry>, entries: seq<Entry>,
                            t: nat, i: nat, s: nat, done: seq<Entry>)
      reads this, bvs, src, theirs
    {
      && src.bvs == theirs && Walking(bvs, was, theirs, t, i, s, this == src)
      && t == |done| <= |bvs| && MergedSoFar(Contents(), wasEntries, i, entries, s, done)
      && |wasEntries| == |was| && (forall j | 0 <= j < |was| :: was[j].bucket == wasEntries[j].bucket)
      && |entries| == |theirs| && (forall j | 0 <= j < |theirs| :: theirs[j].bucket == entries[j].bucket)
      && s <= |theirs| && (forall j | s <= j < |theirs| :: theirs[j].count == entries[j].count)
    }

    /** Merge another histogram into this one. The bins that were missing are shared from then on. */
    method Merge(src: Histogram)
      requires Valid() && src.Valid()
      modifies this, bvs
      ensures Valid()
      ensures Contents() == Merged(old(Contents()), old(src.Contents()))
      ensures (forall b | b in bvs :: b in old(bvs) || b in old(src.bvs)) && (forall b | b in old(bvs) :: b in bvs)
      ensures forall b: Bin | b in old(src.bvs) && forall a | a in old(bvs) :: a.bucket != b.bucket :: b in bvs
    {
      hide Compare, Canonical, Merged, SortedBins, Less, EntriesOf, Merging;
      ghost var was, theirs, wasEntries, entries := bvs, src.bvs, Contents(), src.Contents();
      ghost var i, done := 0, [];
      var t, s := 0, 0;
      MergeStarts(src);
      while s < |src.bvs| && t < |bvs|
        invariant src.bvs == theirs && Merging(src, was, theirs, wasEntries, entries, t, i, s, done)
      {
        var cmp := Compare(bvs[t].bucket, src.bvs[s].bucket);
        MergingFacts(src, was, theirs, wasEntries, entries, t, i, s, done);
        if cmp > 0 {
          done := Keep(src, t, s, was, theirs, wasEntries, entries, i, done);
          t, i := t + 1, i + 1;
        } else if cmp < 0 {
          done := Take(src, t, s, was, theirs, wasEntries, entries, i, done);
          t, s := t + 1, s + 1;
        } else {
          done := AddUp(src, t, s, was, theirs, wasEntries, entries, i, done);
          t, s, i := t + 1, s + 1, i + 1;
        }
      }
      MergingFacts(src, was, theirs, wasEntries, entries, t, i, s, done);
      while s < |src.bvs|
        invariant src.bvs == theirs && Merging(src, was, theirs, wasEntries, entries, t, i, s, done)
        invariant s < |theirs| ==> t == |bvs|
      {
        done := Take(src, t, s, was, theirs, wasEntries, entries, i, done);
        t, s := t + 1, s + 1;
      }
      MergingFacts(src, was, theirs, wasEntries, entries, t, i, s, done);
    }

    lemma MergeStarts(src: Histogram)
      requires Valid() && src.Valid()
      ensures Merging(src, bvs, src.bvs, Contents(), src.Contents(), 0, 0, 0, [])
    {
      hide SortedBins, MergedSoFar, Walking, EntriesOf;
      WalkStart(bvs, src.bvs, this == src);
      NothingMerged(Contents(), src.Contents());
    }

    lemma MergingFacts(src: Histogram, was: seq<Bin>, theirs: seq<Bin>, wasEntries: seq<Entry>, entries: seq<Entry>,
                       t: nat, i: nat, s: nat, done: seq<Entry>)
      requires Merging(src, was, theirs, wasEntries, entries, t, i, s, done)
      ensures Valid() && t <= |bvs| && s <= |theirs| && (t < |bvs| ==> bvs[t] in was)
      ensures s == |theirs| ==> Contents() == Merged(wasEntries, entries)
      ensures (forall b | b in bvs :: b in was || b in theirs) && (forall b | b in was :: b in bvs)
      ensures s == |theirs| ==> forall b: Bin | b in theirs && forall a | a in was :: a.bucket != b.bucket :: b in bvs
    {
      hide MergedSoFar, Walking, SortedBins, EntriesOf, Merged;
      WalkFacts(bvs, was, theirs, t, i, s, this == src);
      if s == |theirs| {
        AllMerged(Contents(), wasEntries, i, entries, s, done);
      }
    }

    /** A bin that the other histogram does not have is left alone. */
    ghost method Keep(src: Histogram, t: nat, s: nat, was: seq<Bin>, theirs: seq<Bin>, wasEntries: seq<Entry>, entries: seq<Entry>,
                      i: nat, done: seq<Entry>)
      returns (more: seq<Entry>)
      requires Merging(src, was, theirs, wasEntries, entries, t, i, s, done) && t < |bvs| && s < |theirs|
      requires Compare(bvs[t].bucket, theirs[s].bucket) > 0
      ensures Merging(src, was, theirs, wasEntries, entries, t + 1, i + 1, s, more)
    {
      hide Compare, Walking, MergedSoFar, EntriesOf;
      WalkFacts(bvs, was, theirs, t, i, s, this == src);
      WalkKeep(bvs, was, theirs, t, i, s, this == src);
      KeepOne(Contents(), wasEntries, i, entries, s, done);
      more := done + [wasEntries[i]];
    }

    /** A bin that is missing here is put in its place. */
    method Take(src: Histogram, t: nat, s: nat, ghost was: seq<Bin>, ghost theirs: seq<Bin>,
                ghost wasEntries: seq<Entry>, ghost entries: seq<Entry>, ghost i: nat, ghost done: seq<Entry>)
      returns (ghost more: seq<Entry>)
      requires Merging(src, was, theirs, wasEntries, entries, t, i, s, done) && s < |theirs|
      requires t < |bvs| ==> Compare(bvs[t].bucket, theirs[s].bucket) < 0
      modifies this
      ensures Merging(src, was, theirs, wasEntries, entries, t + 1, i, s + 1, more) && src.bvs == theirs
      ensures bvs == old(bvs[..t] + [theirs[s]] + bvs[t..])
    {
      hide Compare, Walking, MergedSoFar, EntriesOf;
      WalkFacts(bvs, was, theirs, t, i, s, this == src);
      WalkTake(bvs, was, theirs, t, i, s, this == src);
      TakeOne(Contents(), wasEntries, i, entries, s, done);
      Splice(t, src.bvs[s]);
      more := done + [entries[s]];
    }

    /** The counts of a bucket that both have are added up. */
    method AddUp(src: Histogram, t: nat, s: nat, ghost was: seq<Bin>, ghost theirs: seq<Bin>,
                 ghost wasEntries: seq<Entry>, ghost entries: seq<Entry>, ghost i: nat, ghost done: seq<Entry>)
      returns (ghost more: seq<Entry>)
      requires Merging(src, was, theirs, wasEntries, entries, t, i, s, done) && t < |bvs| && s < |theirs|
      requires Compare(bvs[t].bucket, theirs[s].bucket) == 0
      modifies bvs[t]
      ensures Merging(src, was, theirs, wasEntries, entries, t + 1, i + 1, s + 1, more) && bvs == old(bvs) && src.bvs == theirs
    {
      hide Compare, Walking, MergedSoFar, EntriesOf;
      WalkFacts(bvs, was, theirs, t, i, s, this == src);
      WalkAdd(bvs, was, theirs, t, i, s, this == src);
      AddOne(Contents(), wasEntries, i, entries, s, done);
      more := done + [Entry(wasEntries[i].bucket, wasEntries[i].count + entries[s].count)];
      var r := AddToBin(t, src.bvs[s].count);
    }
  }

  /**
   The walk has passed `bins[..t]`, which stand for `was[..i]` and `theirs[..s]`, and everything
   passed comes before what is left. If a histogram is merged with itself nothing is spliced in.
   */
  ghost predicate Walking(bins: seq<Bin>, was: seq<Bin>, theirs: seq<Bin>, t: nat, i: nat, s: nat, self: bool) {
    && i <= |was| && s <= |theirs| && t <= |bins| && |bins| - t == |was| - i && bins[t..] == was[i..]
    && SortedBins(bins) && SortedBins(theirs)
    && (forall p, j | 0 <= p < t && s <= j < |theirs| :: Less(bins[p].bucket, theirs[j].bucket))
    && (forall b | b in bins :: b in was || b in theirs) && (forall b | b in was :: b in bins)
    && (forall j | 0 <= j < s :: theirs[j] in bins || exists a :: a in was && a.bucket == theirs[j].bucket)
    && (self ==> bins == was == theirs && t == i == s)
  }

  lemma WalkKeep(bins: seq<Bin>, was: seq<Bin>, theirs: seq<Bin>, t: nat, i: nat, s: nat, self: bool)
    requires Walking(bins, was, theirs, t, i, s, self) && t < |bins| && s < |theirs|
    requires Compare(bins[t].bucket, theirs[s].bucket) > 0
    ensures Walking(bins, was, theirs, t + 1, i + 1, s, self)
  {
    hide Compare, Canonical;
    StrictTotalOrder(bins[t].bucket, theirs[s].bucket, theirs[s].bucket);
    forall j | s <= j < |theirs|
      ensures Less(bins[t].bucket, theirs[j].bucket)
    {
      StrictTotalOrder(bins[t].bucket, theirs[s].bucket, theirs[j].bucket);
    }
  }

  lemma WalkTake(bins: seq<Bin>, was: seq<Bin>, theirs: seq<Bin>, t: nat, i: nat, s: nat, self: bool)
    requires Walking(bins, was, theirs, t, i, s, self) && s < |theirs|
    requires t < |bins| ==> Compare(bins[t].bucket, theirs[s].bucket) < 0
    ensures Walking(bins[..t] + [theirs[s]] + bins[t..], was, theirs, t + 1, i, s + 1, self) && !self
  {
    hide Compare, Canonical;
    StrictTotalOrder(theirs[s].bucket, theirs[s].bucket, theirs[s].bucket);
    if t < |bins| {
      StrictTotalOrder(bins[t].bucket, theirs[s].bucket, theirs[s].bucket);
      BelowAll(bins, t, theirs[s].bucket);
    }
    InsertedSorted(bins, t, theirs[s]);
  }

  lemma WalkAdd(bins: seq<Bin>, was: seq<Bin>, theirs: seq<Bin>, t: nat, i: nat, s: nat, self: bool)
    requires Walking(bins, was, theirs, t, i, s, self) && t < |bins| && s < |theirs|
    requires Compare(bins[t].bucket, theirs[s].bucket) == 0
    ensures Walking(bins, was, theirs, t + 1, i + 1, s + 1, self)
    ensures bins[t] !in theirs[s + 1..]
  {
    hide Compare, Canonical;
    StrictTotalOrder(bins[t].bucket, theirs[s].bucket, theirs[s].bucket);
    BinAlone(theirs);
    assert bins[t] == was[i];
  }

  lemma WalkFacts(bins: seq<Bin>, was: seq<Bin>, theirs: seq<Bin>, t: nat, i: nat, s: nat, self: bool)
    requires Walking(bins, was, theirs, t, i, s, self)
    ensures s <= |theirs| && t <= |bins| && |bins| - t == |was| - i && SortedBins(bins)
    ensures t < |bins| ==> i < |was| && bins[t] == was[i]
    ensures (forall b | b in bins :: b in was || b in theirs) && (forall b | b in was :: b in bins)
    ensures s == |theirs| ==> forall b: Bin | b in theirs && forall a | a in was :: a.bucket != b.bucket :: b in bins
  {
    hide Canonical, Less, SortedBins;
    assert t < |bins| ==> bins[t..][0] == was[i..][0];
  }

  lemma WalkStart(was: seq<Bin>, theirs: seq<Bin>, self: bool)
    requires SortedBins(was) && SortedBins(theirs) && (self ==> was == theirs)
    ensures Walking(was, was, theirs, 0, 0, 0, self)
  {
  }

  /** What has been merged so far, and what remains to be merged. */
  ghost predicate MergedSoFar(now: seq<Entry>, t: seq<Entry>, i: nat, s: seq<Entry>, j: nat, done: seq<Entry>) {
    && i <= |t| && j <= |s| && now == done + t[i..]
    && done + Merged(t[i..], s[j..]) == Merged(t, s)
  }

  lemma NothingMerged(t: seq<Entry>, s: seq<Entry>)
    ensures MergedSoFar(t, t, 0, s, 0, [])
  {
    assert t[0..] == t && s[0..] == s;
    assert [] + Merged(t, s) == Merged(t, s);
  }

  lemma AllMerged(now: seq<Entry>, t: seq<Entry>, i: nat, s: seq<Entry>, j: nat, done: seq<Entry>)
    requires MergedSoFar(now, t, i, s, j, done) && j == |s|
    ensures now == Merged(t, s)
  {
  }

  lemma KeepOne(now: seq<Entry>, t: seq<Entry>, i: nat, s: seq<Entry>, j: nat, done: seq<Entry>)
    requires MergedSoFar(now, t, i, s, j, done) && i < |t| && j < |s| && Compare(t[i].bucket, s[j].bucket) > 0
    ensures MergedSoFar(now, t, i + 1, s, j, done + [t[i]])
  {
    hide Compare;
    assert t[i..][1..] == t[i + 1..];
  }

  lemma TakeOne(now: seq<Entry>, t: seq<Entry>, i: nat, s: seq<Entry>, j: nat, done: seq<Entry>)
    requires MergedSoFar(now, t, i, s, j, done) && j < |s|
    requires i < |t| ==> Compare(t[i].bucket, s[j].bucket) < 0
    ensures MergedSoFar(now[..|done|] + [s[j]] + now[|done|..], t, i, s, j + 1, done + [s[j]])
  {
    hide Compare;
    assert s[j..][1..] == s[j + 1..];
    assert i == |t| ==> Merged(t[i..], s[j + 1..]) == s[j + 1..];
  }

  lemma AddOne(now: seq<Entry>, t: seq<Entry>, i: nat, s: seq<Entry>, j: nat, done: seq<Entry>)
    requires MergedSoFar(now, t, i, s, j, done) && i < |t| && j < |s| && Compare(t[i].bucket, s[j].bucket) == 0
    ensures var e := Entry(t[i].bucket, t[i].count + s[j].count);
            now[|done|] == t[i] && MergedSoFar(now[|done| := e], t, i + 1, s, j + 1, done + [e])
  {
    hide Compare;
    assert t[i..][1..] == t[i + 1..] && s[j..][1..] == s[j + 1..];
  }

  lemma {:induction false} CountAt(es: seq<Entry>, i: nat)
    requires Sorted(es) && i < |es|
    ensures CountOf(es, es[i].bucket) == es[i].count
  {
    hide Canonical, Compare;
    if i == 0 {
      forall e | e in es[1..]
        ensures e.bucket != es[0].bucket
      {
        StrictTotalOrder(es[0].bucket, e.bucket, e.bucket);
      }
      CountOfAbsent(es[1..], es[0].bucket);
    } else {
      StrictTotalOrder(es[0].bucket, es[i].bucket, es[i].bucket);
      CountAt(es[1..], i - 1);
    }
  }

  // ----- Sharing -----

  datatype Change = Insertion(bucket: Bucket, count: nat) | Removal(bucket: Bucket, count: nat)

  function Changed(es: seq<Entry>, c: Change): seq<Entry> {
    match c
    case Insertion(b, n) => if n == 0 then es else Merged(es, [Entry(b, n)])
    case Removal(b, n) => Reduced(es, b, n)
  }

  function ChangedAll(es: seq<Entry>, changes: seq<Change>): seq<Entry> {
    if changes == [] then es else Changed(ChangedAll(es, changes[..|changes| - 1]), changes[|changes| - 1])
  }

  method Apply(h: Histogram, c: Change)
    requires h.Valid() && Canonical(c.bucket)
    modifies h, h.bvs
    ensures h.Valid() && h.Contents() == Changed(old(h.Contents()), c)
    ensures (forall b | b in h.bvs :: b in old(h.bvs) || fresh(b)) && (forall b | b in old(h.bvs) :: b in h.bvs)
  {
    hide Canonical, Merged, Reduced, SortedBins, CountOf;
    match c {
      case Insertion(b, n) => var r := h.InsertRaw(b, n);
      case Removal(b, n) => h.RemoveRaw(b, n);
    }
  }

  /** A bin of the source that is in the target after a merge: it was there, or its bucket was missing. */
  predicate Shares(was: seq<Bin>, b: Bin) {
    b in was || forall a | a in was :: a.bucket != b.bucket
  }

  lemma SharedBins(now: seq<Bin>, was: seq<Bin>, theirs: seq<Bin>)
    requires SortedBins(now) && (forall b | b in was :: b in now) && (forall b | b in now :: b in was || b in theirs)
    requires forall b: Bin | b in theirs && forall a | a in was :: a.bucket != b.bucket :: b in now
    ensures forall b | b in theirs :: b in now <==> Shares(was, b)
  {
    BinAlone(now);
    hide SortedBins;
  }

  /** The count of a bin is that of its bucket in the contents. */
  lemma CountsOfBins(h: Histogram)
    requires h.Valid()
    ensures forall b: Bin | b in h.bvs :: b.count == CountOf(h.Contents(), b.bucket)
  {
    SortedEntries(h.bvs);
    hide SortedBins, Sorted, CountOf;
    forall i | 0 <= i < |h.bvs|
      ensures h.bvs[i].count == CountOf(h.Contents(), h.bvs[i].bucket)
    {
      CountAt(h.Contents(), i);
    }
  }

  method ApplyAll(h: Histogram, changes: seq<Change>)
    requires h.Valid() && forall c | c in changes :: Canonical(c.bucket)
    modifies h, h.bvs
    ensures h.Valid() && h.Contents() == ChangedAll(old(h.Contents()), changes)
    ensures (forall b | b in h.bvs :: b in old(h.bvs) || fresh(b)) && (forall b | b in old(h.bvs) :: b in h.bvs)
  {
    hide Canonical, SortedBins, EntriesOf, Changed;
    ghost var was := h.bvs;
    for i := 0 to |changes|
      invariant h.Valid() && h.Contents() == ChangedAll(old(h.Contents()), changes[..i])
      invariant (forall b | b in h.bvs :: b in was || fresh(b)) && (forall b | b in was :: b in h.bvs)
    {
      assert changes[..i + 1][..i] == changes[..i];
      assert forall j | 0 <= j < |h.bvs| :: h.bvs[j] in was || fresh(h.bvs[j]);
      Apply(h, changes[i]);
    }
    assert changes[..|changes|] == changes;
  }

  /**
   Merging does not copy bins. Whatever is later added to the target or removed from it also
   shows up in those bins of the source that it shares, and in no others.
   */
  method ChangeAfterMerge(tgt: Histogram, src: Histogram, changes: seq<Change>)
    requires tgt != src && tgt.Valid() && src.Valid() && forall c | c in changes :: Canonical(c.bucket)
    modifies tgt, tgt.bvs, src.bvs
    ensures tgt.Contents() == ChangedAll(Merged(old(tgt.Contents()), old(src.Contents())), changes)
    ensures src.bvs == old(src.bvs)
    ensures forall b: Bin | b in src.bvs ::
              b.count == if Shares(old(tgt.bvs), b) then CountOf(tgt.Contents(), b.bucket) else old(b.count)
  {
    hide Canonical, Merged, SortedBins, EntriesOf, CountOf, ChangedAll, Shares;
    ghost var was := tgt.bvs;
    tgt.Merge(src);
    SharedBins(tgt.bvs, was, src.bvs);
    ApplyAll(tgt, changes);
    CountsOfBins(tgt);
  }
}
