/**
 What the aggregation comes to, read off the calls themselves: which samples, numbers and counters
 were handed in, what the owner then holds, and what its journal shows.
 */
module Calls {
  import opened MetricTable
  import opened Aggregation
  import opened AggregationRuns
  import opened Averages
  import opened Decimals
  import opened Retirement

  /** A caller hands something in for the metric, to be aggregated. */
  predicate IsCall(e: Event, id: Id) {
    e.Update? && e.name == id.name && e.timestamp == id.timestamp && e.aggregate
  }

  function CounterSum(events: seq<Event>, id: Id): nat {
    if events == [] then 0
    else
      var e := Last(events);
      CounterSum(Front(events), id) + if IsCall(e, id) && e.delta.Counter? then e.delta.n else 0
  }

  function NumberSum(events: seq<Event>, id: Id): real {
    if events == [] then 0.0
    else
      var e := Last(events);
      NumberSum(Front(events), id) +
      if IsCall(e, id) && e.delta.Average? then e.delta.x else if IsCall(e, id) && e.delta.Numeric? then e.delta.y else 0.0
  }

  function NumberCalls(events: seq<Event>, id: Id): nat {
    if events == [] then 0
    else
      var e := Last(events);
      NumberCalls(Front(events), id) + if IsCall(e, id) && (e.delta.Average? || e.delta.Numeric?) then 1 else 0
  }

  /** How often the metric was given a sample of this bucket. */
  function SampleCalls(events: seq<Event>, id: Id, bucket: Bucket): nat {
    if events == [] then 0
    else
      var e := Last(events);
      SampleCalls(Front(events), id, bucket) + if IsCall(e, id) && e.delta == Sample(bucket) then 1 else 0
  }

  /** The total of a run, counted call by call. */
  predicate IsTotal(a: Amount, events: seq<Event>, id: Id) {
    && (a.integer - CounterSum(events, id)) % 0x1_0000_0000_0000_0000 == 0
    && a.sum == NumberSum(events, id) && a.count == NumberCalls(events, id)
    && a.samples == SampleCalls(events, id, id.bucket)
  }

  lemma CallsAdd(e: Event, id: Id)
    ensures IsCall(e, id) <==> AddsTo(e, id)
    ensures IsCall(e, id) ==>
              var a := AmountOf(MetricOf(e.delta), 1, id);
              match e.delta
              case Counter(n) => (a.integer - n) % 0x1_0000_0000_0000_0000 == 0 && a.sum == 0.0 && a.count == 0 && a.samples == 0
              case Average(x) => a == Amount(0, x, 1, 0)
              case Numeric(y) => a == Amount(0, y, 1, 0)
              case Sample(b) => a == Amount(0, 0.0, 0, if b == id.bucket then 1 else 0)
  {
  }

  lemma {:induction false} TotalOfCalls(events: seq<Event>, id: Id)
    ensures IsTotal(TrueTotal(events, id), events, id)
  {
    if events != [] {
      TotalOfCalls(Front(events), id);
      var e := Last(events);
      CallsAdd(e, id);
      hide IsCall, AddsTo, AmountOf, MetricOf;
      if IsCall(e, id) && e.delta.Counter? {
        MultiplesAdd(TrueTotal(Front(events), id).integer - CounterSum(Front(events), id),
                     AmountOf(MetricOf(e.delta), 1, id).integer - e.delta.n);
      }
    }
  }

  /** The owner's entry, if there is one, holds exactly what the calls handed in; a missing entry means there was nothing. */
  predicate HoldsCalls(t: Table, events: seq<Event>, id: Id, rounded: real) {
    var k := Key(id.timestamp, id.name, false, false);
    && (k in t && t[k].metric.Integer? ==> (t[k].metric.integer - CounterSum(events, id)) % 0x1_0000_0000_0000_0000 == 0)
    && (k in t && t[k].metric.Number? ==> t[k].metric.number == NumberSum(events, id) + rounded && t[k].count == NumberCalls(events, id))
    && (k in t && t[k].metric.Histogram? ==> t[k].metric.bins[id.bucket] == SampleCalls(events, id, id.bucket))
    && (NumberCalls(events, id) > 0 ==> k in t && t[k].metric.Number?)
    && (SampleCalls(events, id, id.bucket) > 0 ==> k in t && t[k].metric.Histogram?)
    && (CounterSum(events, id) % 0x1_0000_0000_0000_0000 != 0 ==> k in t && t[k].metric.Integer?)
  }

  lemma AmountHoldsCalls(t: Table, events: seq<Event>, id: Id, total: Amount, rounded: real)
    requires IsTotal(total, events, id) && SameAmount(Plus(total, Amount(0, rounded, 0, 0)), AmountAt(t, HeldKey(id), id))
    ensures HoldsCalls(t, events, id, rounded)
  {
    hide CounterSum, NumberSum, NumberCalls, SampleCalls;
    var at := AmountAt(t, HeldKey(id), id).integer;
    MultiplesAdd(total.integer - CounterSum(events, id), -(total.integer - at));
  }

  /** Once all is quiet, the owner holds what callers handed in, for each kind of metric and however it was batched. */
  lemma OwnerHoldsCalls(n: nat, events: seq<Event>, id: Id, owner: nat)
    requires Possible(n, events, id) && SmoothRun(n, events, id, owner) && Counted(events, id) && owner < n
    requires Quiescent(After(n, events, id), id)
    ensures HoldsCalls(After(n, events, id).sites[owner], events, id, After(n, events, id).books.rounded)
  {
    hide *;
    TotalOfCalls(events, id);
    OwnerHoldsTrueTotal(n, events, id, owner);
    var s := After(n, events, id);
    AmountHoldsCalls(s.sites[owner], events, id, TrueTotal(events, id), s.books.rounded);
  }

  // ----- What the journal shows -----

  /** The pass gets to the entry ten seconds after its last update, and its chunk is written if it is in one. */
  ghost predicate WorkingPass(t: Table, e: Event, k: Key)
    requires e.Flush? && k in t
  {
    && k in e.order && e.now > t[k].lastSeen + 10000 && e.now > k.timestamp + 1000
    && (DueForJournal(k, t[k], e.now) ==> k in e.stamps)
  }

  lemma WorkingPassShows(t: Table, e: Event, k: Key, shown: Shown, printed: real -> real)
    requires e.Flush? && k in t && !k.aggregate && WorkingPass(t, e, k)
    requires Settled(t, shown) && NumbersPrinted(shown, printed) && forall x :: e.printed(x) == printed(x)
    ensures var after := ShownBy(t, e, shown);
            && k in after && after[k].value.metric == t[k].metric && after[k].value.count == t[k].count
            && (t[k].metric.Number? ==> after[k].number == printed(Resolved(t[k])))
  {
    FateIs(k, t[k], e.now);
    if !IsClean(t[k]) {
      assert FateIn(t, e, k) == Journal;
    } else {
      assert PassedOn(k, t[k], shown) && FateIn(t, e, k) != Journal;
    }
  }

  /** What the journal accepted is what callers handed in; of numbers it has the mean, as printed. */
  predicate ShowsCalls(w: Showing, events: seq<Event>, id: Id, rounded: real, printed: real -> real) {
    match w.value.metric
    case Integer(i) => (i - CounterSum(events, id)) % 0x1_0000_0000_0000_0000 == 0
    case Histogram(bins) => bins[id.bucket] == SampleCalls(events, id, id.bucket)
    case Number(_) =>
      NumberCalls(events, id) > 0 ==> w.number == printed((NumberSum(events, id) + rounded) / NumberCalls(events, id) as real)
  }

  lemma QuietEntryIsShown(t: Table, events: seq<Event>, id: Id, e: Event, shown: Shown, rounded: real, printed: real -> real)
    requires HoldsCalls(t, events, id, rounded) && Settled(t, shown) && NumbersPrinted(shown, printed)
    requires e.Flush? && forall x :: e.printed(x) == printed(x)
    ensures var k := Key(id.timestamp, id.name, false, false);
            k in t && WorkingPass(t, e, k) ==>
              k in ShownBy(t, e, shown) && ShowsCalls(ShownBy(t, e, shown)[k], events, id, rounded, printed)
  {
    hide ShownBy, NumberSum, NumberCalls, SampleCalls, CounterSum, Settled, NumbersPrinted, Resolved, WorkingPass;
    var k := Key(id.timestamp, id.name, false, false);
    if k in t && WorkingPass(t, e, k) {
      WorkingPassShows(t, e, k, shown, printed);
      if t[k].metric.Number? && t[k].count > 0 {
        ResolvedIs(t[k]);
      }
    }
  }

  /**
   Once the metric is quiet and has been idle for ten seconds, the owner's next pass, unless its
   write to the journal fails, leaves the journal showing what callers handed in: the counter,
   the samples of the bucket, or the mean.
   */
  lemma OwnerShowsCalls(n: nat, events: seq<Event>, id: Id, owner: nat, e: Event, printed: real -> real)
    requires Possible(n, events, id) && SmoothRun(n, events, id, owner) && Counted(events, id) && owner < n
    requires Quiescent(After(n, events, id), id) && PunctualRun(n, events, id)
    requires PrintedBy(events, printed) && e.Flush? && e.site == owner && forall x :: e.printed(x) == printed(x)
    ensures var t, k := After(n, events, id).sites[owner], Key(id.timestamp, id.name, false, false);
            var shown, rounded := ShownBy(t, e, ShownAfter(n, events, id, owner)), After(n, events, id).books.rounded;
            && (NumberCalls(events, id) > 0 ==> k in t && t[k].metric.Number?)
            && (SampleCalls(events, id, id.bucket) > 0 ==> k in t && t[k].metric.Histogram?)
            && (CounterSum(events, id) % 0x1_0000_0000_0000_0000 != 0 ==> k in t && t[k].metric.Integer?)
            && (k in t && WorkingPass(t, e, k) ==>
                  k in shown && ShowsCalls(shown[k], events, id, rounded, printed) && shown[k].value.metric == t[k].metric)
  {
    hide *;
    OwnerHoldsCalls(n, events, id, owner);
    EverythingSettled(n, events, id, owner);
    ShownIsPrinted(n, events, id, owner, printed);
    var s := After(n, events, id);
    QuietEntryIsShown(s.sites[owner], events, id, e, ShownAfter(n, events, id, owner), s.books.rounded, printed);
    EntryOfCalls(s.sites[owner], events, id, s.books.rounded);
    if HeldKey(id) in s.sites[owner] && WorkingPass(s.sites[owner], e, HeldKey(id)) {
      HeldIs(id);
      WorkingPassShows(s.sites[owner], e, HeldKey(id), ShownAfter(n, events, id, owner), printed);
    }
    HeldIs(id);
  }

  lemma HeldIs(id: Id)
    ensures HeldKey(id) == Key(id.timestamp, id.name, false, false)
  {
  }

  lemma EntryOfCalls(t: Table, events: seq<Event>, id: Id, rounded: real)
    requires HoldsCalls(t, events, id, rounded)
    ensures var k := Key(id.timestamp, id.name, false, false);
            && (NumberCalls(events, id) > 0 ==> k in t && t[k].metric.Number?)
            && (SampleCalls(events, id, id.bucket) > 0 ==> k in t && t[k].metric.Histogram?)
            && (CounterSum(events, id) % 0x1_0000_0000_0000_0000 != 0 ==> k in t && t[k].metric.Integer?)
  {
  }

  /** If callers only handed in integers of up to a million in all, the mean is the true one, printed once. */
  lemma OwnerShowsTrueMean(n: nat, events: seq<Event>, id: Id, owner: nat, e: Event)
    requires Possible(n, events, id) && SmoothRun(n, events, id, owner) && Counted(events, id) && owner < n
    requires Quiescent(After(n, events, id), id) && PunctualRun(n, events, id) && NumberCalls(events, id) > 0
    requires PrintedBy(events, SixDigits) && e.Flush? && e.site == owner && forall x :: e.printed(x) == SixDigits(x)
    requires WholeUpdates(events, id) && Volume(events, id) <= 1000000.0
    ensures var t, k := After(n, events, id).sites[owner], Key(id.timestamp, id.name, false, false);
            k in t && (WorkingPass(t, e, k) ==>
              var shown := ShownBy(t, e, ShownAfter(n, events, id, owner));
              k in shown && shown[k].number == SixDigits(NumberSum(events, id) / NumberCalls(events, id) as real))
  {
    hide *;
    WholeSumsSurvive(n, events, id);
    NothingRounded(n, events, id, owner);
    OwnerShowsCalls(n, events, id, owner, e, SixDigits);
    var t, k := After(n, events, id).sites[owner], Key(id.timestamp, id.name, false, false);
    if WorkingPass(t, e, k) {
      ShownNumber(ShownBy(t, e, ShownAfter(n, events, id, owner))[k], events, id, SixDigits);
    }
  }

  lemma ShownNumber(w: Showing, events: seq<Event>, id: Id, printed: real -> real)
    requires w.value.metric.Number? && ShowsCalls(w, events, id, 0.0, printed) && NumberCalls(events, id) > 0
    ensures w.number == printed(NumberSum(events, id) / NumberCalls(events, id) as real)
  {
  }
}
