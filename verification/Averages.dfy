/**
 What an owner publishes for numbers in runs without failures: the mean of all updates, if they
 are counted and their sums survive printing, and the sum divided by the number of messages for
 numbers that are not counted.
 */
module Averages {
  import opened MetricTable
  import opened Aggregation
  import opened AggregationRuns
  import opened Decimals

  // ----- Counted metrics -----

  /** The metric is not set as a plain number. */
  ghost predicate Counted(events: seq<Event>, id: Id) {
    forall e | e in events && AddsTo(e, id) :: !e.delta.Numeric?
  }

  /** An entry without a count has been flushed. */
  ghost predicate CountKept(t: Table, id: Id) {
    MakesUpCount(t, SenderKey(id)) == 1 ==> IsClean(t[SenderKey(id)])
  }

  ghost predicate CountedTrue(s: System, id: Id, total: Amount) {
    s.books.added == total && s.books.madeUp == 0 && forall i | 0 <= i < |s.sites| :: CountKept(s.sites[i], id)
  }

  lemma CountedUpdate(t: Table, k: Key, delta: Delta, now: nat, id: Id)
    requires (k in t ==> SameKind(t[k].metric, MetricOf(delta))) && CountKept(t, id)
    requires k == SenderKey(id) ==> !delta.Numeric? && (k in t ==> now > t[k].flushedMs)
    ensures CountKept(Updated(t, k, delta, now), id)
    ensures k == SenderKey(id) ==> Added(t, k, delta, id) == AmountOf(MetricOf(delta), 1, id)
  {
  }

  lemma CountedFlush(t: Table, e: Event, id: Id)
    requires e.Flush? && (forall k | k in e.order :: k in t) && CountKept(t, id) && e.produce(SenderKey(id))
    ensures CountKept(FlushedTable(t, e), id)
    ensures FateIn(t, e, SenderKey(id)) == Publish ==> MakesUpCount(t, SenderKey(id)) == 0
  {
  }

  lemma CountedDelivery(t: Table, m: Message, now: nat, id: Id)
    requires (OwnerKey(m) in t ==> SameKind(t[OwnerKey(m)].metric, m.metric)) && CountKept(t, id)
    ensures CountKept(Delivered(t, m, now), id)
  {
    hide Accumulated;
  }

  lemma StepKeepsCounted(s: System, e: Event, id: Id, owner: nat, total: Amount)
    requires Legal(s, e) && Smooth(s, e, id, owner) && NothingGone(s, id, owner)
    requires CountedTrue(s, id, total) && (AddsTo(e, id) ==> !e.delta.Numeric?)
    ensures CountedTrue(Step(s, e, id), id, if AddsTo(e, id) then Plus(total, AmountOf(MetricOf(e.delta), 1, id)) else total)
  {
    hide CountKept, SenderOk, FlushedTable, BooksAfterFlush, Added, Updated, Delivered, FateIn, AmountOf, Plus, Rounding, MakesUpCount;
    var t := s.sites[e.site];
    match e
    case Update(_, name, aggregate, delta, timestamp, now) =>
      CountedUpdate(t, UpdateKey(name, aggregate, timestamp, delta), delta, now, id);
    case Flush(_, _, _, _, _, _) =>
      CountedFlush(t, e, id);
      SmoothBooks(t, e, s.books, id);
    case Deliver(_, index, now) => CountedDelivery(t, s.topic[index], now, id);
  }

  lemma {:induction false} AllCounted(n: nat, events: seq<Event>, id: Id, owner: nat)
    requires Possible(n, events, id) && SmoothRun(n, events, id, owner) && Counted(events, id)
    ensures CountedTrue(After(n, events, id), id, TrueTotal(events, id))
  {
    if events != [] {
      assert forall e | e in Front(events) :: e in events;
      assert Last(events) in events;
      hide CountedTrue, NothingGone, Step, Legal, Smooth, AmountOf, Plus, AddsTo;
      AllCounted(n, Front(events), id, owner);
      NothingIsLost(n, Front(events), id, owner);
      StepKeepsCounted(After(n, Front(events), id), Last(events), id, owner, TrueTotal(Front(events), id));
    } else {
      assert After(n, events, id) == Start(n);
    }
  }

  /**
   However the updates of a metric were spread over instances and batched, once all is quiet the
   owner holds exactly what callers added: counters modulo 2^64, counts, and buckets; and the sum
   but for what printing changed it by.
   */
  lemma OwnerHoldsTrueTotal(n: nat, events: seq<Event>, id: Id, owner: nat)
    requires Possible(n, events, id) && SmoothRun(n, events, id, owner) && Counted(events, id) && owner < n
    requires Quiescent(After(n, events, id), id)
    ensures var s := After(n, events, id);
            SameAmount(Plus(TrueTotal(events, id), Amount(0, s.books.rounded, 0, 0)), AmountAt(s.sites[owner], HeldKey(id), id))
  {
    OwnerHoldsIncome(n, events, id, owner);
    AllCounted(n, events, id, owner);
    hide Possible, SmoothRun, Counted, TrueTotal, Quiescent, After, AmountAt, SameAmount, Plus;
  }

  /** The published number of a quiescent average, and exactly when it is the mean of its updates. */
  lemma QuiescentAverage(n: nat, events: seq<Event>, id: Id, owner: nat)
    requires Possible(n, events, id) && SmoothRun(n, events, id, owner) && Counted(events, id) && owner < n
    requires Quiescent(After(n, events, id), id) && TrueTotal(events, id).count > 0
    ensures var s, total := After(n, events, id), TrueTotal(events, id);
            && HeldKey(id) in s.sites[owner] && s.sites[owner][HeldKey(id)].metric.Number?
            && Resolved(s.sites[owner][HeldKey(id)]) == (total.sum + s.books.rounded) / total.count as real
            && (Resolved(s.sites[owner][HeldKey(id)]) == total.sum / total.count as real <==> s.books.rounded == 0.0)
  {
    hide *;
    var s, total := After(n, events, id), TrueTotal(events, id);
    OwnerHoldsTrueTotal(n, events, id, owner);
    CountedMean(s.sites[owner], HeldKey(id), id, total, s.books.rounded);
    SameQuotient(total.sum + s.books.rounded, total.sum, total.count as real);
  }

  lemma CountedMean(t: Table, k: Key, id: Id, total: Amount, rounded: real)
    requires SameAmount(Plus(total, Amount(0, rounded, 0, 0)), AmountAt(t, k, id)) && total.count > 0
    ensures k in t && t[k].metric.Number? && Resolved(t[k]) == (total.sum + rounded) / total.count as real
  {
  }

  lemma SameQuotient(x: real, y: real, divisor: real)
    requires divisor > 0.0
    ensures x / divisor == y / divisor <==> x == y
  {
    assert x / divisor * divisor == x && y / divisor * divisor == y;
  }

  // ----- Sums that survive printing -----

  /** A partial sum that is published reads back as it was. */
  ghost predicate Survives(s: System, e: Event, id: Id)
    requires Legal(s, e)
  {
    e.Flush? && FateIn(s.sites[e.site], e, SenderKey(id)) == Publish ==>
      Rounding(s.sites[e.site], SenderKey(id), e.printed) == 0.0
  }

  ghost predicate AllSurvive(n: nat, events: seq<Event>, id: Id)
    requires Possible(n, events, id)
  {
    events != [] ==> AllSurvive(n, Front(events), id) && Survives(After(n, Front(events), id), Last(events), id)
  }

  lemma SurvivingStep(s: System, e: Event, id: Id, owner: nat)
    requires Legal(s, e) && Smooth(s, e, id, owner) && NothingGone(s, id, owner) && Survives(s, e, id)
    ensures Step(s, e, id).books.rounded == s.books.rounded
  {
    hide FlushedTable, BooksAfterFlush, Added, Updated, Delivered, FateIn, AmountOf, Plus, Rounding, MakesUpCount, SenderOk;
    if e.Flush? {
      SmoothBooks(s.sites[e.site], e, s.books, id);
    }
  }

  lemma {:induction false} NothingRounded(n: nat, events: seq<Event>, id: Id, owner: nat)
    requires Possible(n, events, id) && SmoothRun(n, events, id, owner) && AllSurvive(n, events, id)
    ensures After(n, events, id).books.rounded == 0.0
  {
    if events != [] {
      hide NothingGone, Step, Legal, Smooth, Survives;
      NothingRounded(n, Front(events), id, owner);
      NothingIsLost(n, Front(events), id, owner);
      SurvivingStep(After(n, Front(events), id), Last(events), id, owner);
    }
  }

  /** If every published partial sum survives printing, a quiescent average is the mean of all its updates. */
  lemma QuiescentAverageIsTrueMean(n: nat, events: seq<Event>, id: Id, owner: nat)
    requires Possible(n, events, id) && SmoothRun(n, events, id, owner) && Counted(events, id) && owner < n
    requires Quiescent(After(n, events, id), id) && TrueTotal(events, id).count > 0 && AllSurvive(n, events, id)
    ensures var t := After(n, events, id).sites[owner];
            && HeldKey(id) in t && t[HeldKey(id)].metric.Number?
            && Resolved(t[HeldKey(id)]) == TrueTotal(events, id).sum / TrueTotal(events, id).count as real
  {
    hide *;
    QuiescentAverage(n, events, id, owner);
    NothingRounded(n, events, id, owner);
  }

  // ----- Whole numbers -----

  /** What an update adds to the sum. */
  function Summand(e: Event, id: Id): real
    requires e.Update?
  {
    AmountOf(MetricOf(e.delta), 1, id).sum
  }

  /** All updates of the metric taken together, signs aside. */
  function Volume(events: seq<Event>, id: Id): (v: real)
    ensures v >= 0.0
  {
    if events == [] then 0.0
    else Volume(Front(events), id) + if AddsTo(Last(events), id) then Abs(Summand(Last(events), id)) else 0.0
  }

  ghost predicate WholeUpdates(events: seq<Event>, id: Id) {
    forall e | e in events && AddsTo(e, id) :: IsWhole(Summand(e, id))
  }

  /** What is pending at a sender is an integer that is not too large. */
  ghost predicate PendingWithin(t: Table, id: Id, bound: real) {
    var x := AmountAt(t, SenderKey(id), id).sum;
    IsWhole(x) && Abs(x) <= bound
  }

  lemma WholeSum(x: real, y: real, bound: real)
    requires IsWhole(x) && IsWhole(y) && Abs(x) <= bound
    ensures IsWhole(x + y) && Abs(x + y) <= bound + Abs(y)
  {
    IntegersAreWhole(x.Floor + y.Floor, x + y);
    hide IsWhole;
  }

  lemma IntegersAreWhole(n: int, x: real)
    requires n as real == x
    ensures IsWhole(x)
  {
  }

  lemma WithinStep(s: System, e: Event, id: Id, bound: real)
    requires Legal(s, e) && bound >= 0.0 && (AddsTo(e, id) ==> IsWhole(Summand(e, id)))
    requires PendingWithin(s.sites[e.site], id, bound)
    ensures PendingWithin(Step(s, e, id).sites[e.site], id, bound + if AddsTo(e, id) then Abs(Summand(e, id)) else 0.0)
  {
    hide AmountAt, BooksAfterFlush, FlushedTable, Updated, Delivered, FateIn, IsWhole, Abs, ArrivingFor;
    var t := s.sites[e.site];
    match e
    case Update(_, name, aggregate, delta, timestamp, now) =>
      var k := UpdateKey(name, aggregate, timestamp, delta);
      UpdatedAmount(t, k, delta, now, id);
      if k == SenderKey(id) {
        WholeSum(AmountAt(t, k, id).sum, Summand(e, id), bound);
      }
    case Flush(_, _, _, _, _, _) =>
      KeyAfterFlush(t, e, SenderKey(id), id);
      ZeroIsWhole();
    case Deliver(_, index, now) =>
      DeliveredAmount(t, s.topic[index], now, id);
  }

  lemma ZeroIsWhole()
    ensures IsWhole(0.0) && Abs(0.0) == 0.0
  {
  }

  ghost predicate AllWithin(s: System, id: Id, bound: real) {
    forall i | 0 <= i < |s.sites| :: PendingWithin(s.sites[i], id, bound)
  }

  lemma AllWithinStep(s: System, e: Event, id: Id, bound: real, more: real)
    requires Legal(s, e) && bound >= 0.0 && (AddsTo(e, id) ==> IsWhole(Summand(e, id))) && AllWithin(s, id, bound)
    requires more == bound + if AddsTo(e, id) then Abs(Summand(e, id)) else 0.0
    ensures AllWithin(Step(s, e, id), id, more)
  {
    WithinStep(s, e, id, bound);
    hide AmountAt, BooksAfterFlush, FlushedTable, Updated, Delivered, FateIn, IsWhole, Added, Plus;
  }

  lemma WithinSurvives(s: System, e: Event, id: Id)
    requires Legal(s, e) && AllWithin(s, id, 1000000.0)
    requires e.Flush? ==> forall x :: e.printed(x) == SixDigits(x)
    ensures Survives(s, e, id)
  {
    hide FateIn, SixDigits;
    var k := SenderKey(id);
    if e.Flush? && k in s.sites[e.site] && s.sites[e.site][k].metric.Number? {
      var x := s.sites[e.site][k].metric.number;
      assert PendingWithin(s.sites[e.site], id, 1000000.0);
      IntegerSurvives(x.Floor);
    }
  }

  /**
   If callers only add integers whose absolute values sum up to at most a million, six digits are
   enough for every partial sum, whichever way the updates are batched.
   */
  lemma {:induction false} WholeSumsSurvive(n: nat, events: seq<Event>, id: Id)
    requires Possible(n, events, id) && PrintedBy(events, SixDigits)
    requires WholeUpdates(events, id) && Volume(events, id) <= 1000000.0
    ensures AllSurvive(n, events, id) && AllWithin(After(n, events, id), id, Volume(events, id))
  {
    if events != [] {
      assert forall e | e in Front(events) :: e in events;
      assert Last(events) in events;
      hide AllWithin, Survives, Step, Legal, AddsTo, Summand, IsWhole, SixDigits, Abs;
      var s := After(n, Front(events), id);
      WholeSumsSurvive(n, Front(events), id);
      AllWithinMore(s, id, Volume(Front(events), id), 1000000.0);
      WithinSurvives(s, Last(events), id);
      AllWithinStep(s, Last(events), id, Volume(Front(events), id), Volume(events, id));
    } else {
      ZeroIsWhole();
    }
  }

  lemma AllWithinMore(s: System, id: Id, bound: real, more: real)
    requires AllWithin(s, id, bound) && bound <= more
    ensures AllWithin(s, id, more)
  {
    hide AmountAt;
  }

  /** So their average is published exactly, by a condition on the calls alone. */
  lemma WholeAverageIsTrueMean(n: nat, events: seq<Event>, id: Id, owner: nat)
    requires Possible(n, events, id) && SmoothRun(n, events, id, owner) && Counted(events, id) && owner < n
    requires Quiescent(After(n, events, id), id) && TrueTotal(events, id).count > 0
    requires PrintedBy(events, SixDigits) && WholeUpdates(events, id) && Volume(events, id) <= 1000000.0
    ensures var t := After(n, events, id).sites[owner];
            && HeldKey(id) in t && t[HeldKey(id)].metric.Number?
            && Resolved(t[HeldKey(id)]) == TrueTotal(events, id).sum / TrueTotal(events, id).count as real
  {
    hide *;
    WholeSumsSurvive(n, events, id);
    QuiescentAverageIsTrueMean(n, events, id, owner);
  }

  // ----- Plain numbers -----

  /** The metric is only ever set as a plain number. */
  ghost predicate Plain(events: seq<Event>, id: Id) {
    forall e | e in events && AddsTo(e, id) :: e.delta.Numeric?
  }

  /** An entry of the metric has its count from its creation, or none once it has been flushed. */
  ghost predicate PlainEntry(t: Table, id: Id) {
    SenderKey(id) in t ==> t[SenderKey(id)].metric.Number? && t[SenderKey(id)].count <= 1
  }

  function PendingCount(s: System, id: Id): int {
    SumAt(s.sites, SenderKey(id), id).count
  }

  /** Every publication accounts for one: the count of the entry, or one made up for it. */
  ghost predicate PlainTrue(s: System, id: Id, total: Amount) {
    && s.books.added.sum == total.sum
    && s.books.added.count + s.books.madeUp == s.books.published + PendingCount(s, id)
    && s.books.added.count >= 0 && s.books.madeUp >= 0
    && (total.count > 0 ==> s.books.added.count > 0)
    && (forall i | 0 <= i < |s.sites| :: PlainEntry(s.sites[i], id) && (SenderKey(id) in s.sites[i] ==> s.books.added.count > 0))
  }

  lemma PlainUpdate(t: Table, k: Key, delta: Delta, now: nat, id: Id)
    requires (k in t ==> SameKind(t[k].metric, MetricOf(delta))) && PlainEntry(t, id)
    requires k == SenderKey(id) ==> delta.Numeric?
    ensures var u := Updated(t, k, delta, now);
            && PlainEntry(u, id) && (SenderKey(id) in u ==> SenderKey(id) in t || k == SenderKey(id))
            && (k == SenderKey(id) ==>
                  && Added(t, k, delta, id).count == (if k in t then 0 else 1)
                  && Added(t, k, delta, id).sum == AmountOf(MetricOf(delta), 1, id).sum && AmountOf(MetricOf(delta), 1, id).count == 1
                  && AmountAt(u, k, id).count == AmountAt(t, k, id).count + Added(t, k, delta, id).count)
            && (k != SenderKey(id) ==> AmountAt(u, SenderKey(id), id) == AmountAt(t, SenderKey(id), id))
  {
  }

  lemma PlainFlush(t: Table, e: Event, id: Id)
    requires e.Flush? && (forall k | k in e.order :: k in t) && PlainEntry(t, id) && SenderOk(t, id) && e.produce(SenderKey(id))
    ensures var k, u := SenderKey(id), FlushedTable(t, e);
            && PlainEntry(u, id) && (k in u ==> k in t)
            && AmountAt(u, k, id).count ==
               (if FateIn(t, e, k) == Publish then AmountAt(t, k, id).count - (1 - MakesUpCount(t, k)) else AmountAt(t, k, id).count)
  {
  }

  lemma PlainDelivery(t: Table, m: Message, now: nat, id: Id)
    requires (OwnerKey(m) in t ==> SameKind(t[OwnerKey(m)].metric, m.metric)) && PlainEntry(t, id)
    ensures var u := Delivered(t, m, now);
            && PlainEntry(u, id) && (SenderKey(id) in u <==> SenderKey(id) in t)
            && AmountAt(u, SenderKey(id), id) == AmountAt(t, SenderKey(id), id)
  {
    hide Accumulated;
  }

  /** What a change at one table does to what is pending. */
  lemma PendingChange(s: System, next: System, site: nat, t: Table, id: Id)
    requires site < |s.sites| && next.sites == s.sites[site := t]
    ensures PendingCount(next, id) ==
            PendingCount(s, id) + AmountAt(t, SenderKey(id), id).count - AmountAt(s.sites[site], SenderKey(id), id).count
  {
    SumUpdate(s.sites, site, t, SenderKey(id), id);
    hide SumAt, AmountAt;
  }

  lemma StepKeepsPlain(s: System, e: Event, id: Id, owner: nat, total: Amount)
    requires Legal(s, e) && Smooth(s, e, id, owner) && NothingGone(s, id, owner)
    requires PlainTrue(s, id, total) && (AddsTo(e, id) ==> e.delta.Numeric?)
    ensures PlainTrue(Step(s, e, id), id, if AddsTo(e, id) then Plus(total, AmountOf(MetricOf(e.delta), 1, id)) else total)
  {
    hide PlainEntry, SenderOk, FlushedTable, BooksAfterFlush, Added, Updated, Delivered, FateIn, AmountOf, AmountAt, Rounding, MakesUpCount,
         PendingCount;
    var t := s.sites[e.site];
    match e
    case Update(site, name, aggregate, delta, timestamp, now) =>
      var k := UpdateKey(name, aggregate, timestamp, delta);
      PlainUpdate(t, k, delta, now, id);
      PendingChange(s, Step(s, e, id), site, Updated(t, k, delta, now), id);
    case Flush(site, _, _, _, _, _) =>
      PlainFlush(t, e, id);
      SmoothBooks(t, e, s.books, id);
      PendingChange(s, Step(s, e, id), site, FlushedTable(t, e), id);
      MakesUpAtMostOne(t, SenderKey(id));
    case Deliver(site, index, now) =>
      PlainDelivery(t, s.topic[index], now, id);
      PendingChange(s, Step(s, e, id), site, Delivered(t, s.topic[index], now), id);
  }

  lemma MakesUpAtMostOne(t: Table, k: Key)
    ensures 0 <= MakesUpCount(t, k) <= 1
  {
  }

  lemma PlainStart(n: nat, id: Id)
    ensures PlainTrue(Start(n), id, ZERO)
  {
    NothingThere(n, id);
    hide SumAt;
  }

  lemma NothingThere(n: nat, id: Id)
    ensures PendingCount(Start(n), id) == 0 && Start(n).books == NoBooks()
  {
    NoneThere(Start(n).sites, n, SenderKey(id), id);
  }

  lemma {:induction false} AllPlain(n: nat, events: seq<Event>, id: Id, owner: nat)
    requires Possible(n, events, id) && SmoothRun(n, events, id, owner) && Plain(events, id)
    ensures PlainTrue(After(n, events, id), id, TrueTotal(events, id))
  {
    if events != [] {
      assert forall e | e in Front(events) :: e in events;
      assert Last(events) in events;
      hide PlainTrue, NothingGone, Step, Legal, Smooth, AmountOf, Plus, AddsTo;
      AllPlain(n, Front(events), id, owner);
      NothingIsLost(n, Front(events), id, owner);
      StepKeepsPlain(After(n, Front(events), id), Last(events), id, owner, TrueTotal(Front(events), id));
    } else {
      hide PlainTrue, Start;
      PlainStart(n, id);
    }
  }

  lemma QuietPlain(s: System, id: Id, owner: nat, total: Amount)
    requires NothingGone(s, id, owner) && Quiescent(s, id) && PlainTrue(s, id, total) && owner < |s.sites| && total.count > 0
    requires SameAmount(In(s.books), AmountAt(s.sites[owner], HeldKey(id), id))
    ensures var t := s.sites[owner];
            && HeldKey(id) in t && t[HeldKey(id)].metric.Number? && s.books.published > 0
            && t[HeldKey(id)].metric.number == total.sum + s.books.rounded && t[HeldKey(id)].count == s.books.published
  {
    hide *;
    var t := s.sites[owner];
    NothingPending(s, id, owner);
    PlainBooks(s, id, total);
    OnlyNumbersAreCounted(t, HeldKey(id), id);
    SameCountAndSum(In(s.books), AmountAt(t, HeldKey(id), id));
  }

  lemma SameCountAndSum(a: Amount, b: Amount)
    requires SameAmount(a, b)
    ensures a.count == b.count && a.sum == b.sum
  {
  }

  lemma OnlyNumbersAreCounted(t: Table, k: Key, id: Id)
    ensures var a := AmountAt(t, k, id);
            a.count > 0 ==> k in t && t[k].metric.Number? && t[k].metric.number == a.sum && t[k].count == a.count
  {
  }

  lemma PlainBooks(s: System, id: Id, total: Amount)
    requires PlainTrue(s, id, total) && SumAt(s.sites, SenderKey(id), id) == ZERO && total.count > 0
    ensures s.books.published > 0 && In(s.books).count == s.books.published && In(s.books).sum == total.sum + s.books.rounded
  {
    hide SumAt, PlainEntry;
  }

  /**
   What is published for a quiescent metric that is set as a plain number: the sum of its updates,
   but for what printing changed, divided by the number of messages it took.
   */
  lemma QuiescentPlainNumber(n: nat, events: seq<Event>, id: Id, owner: nat)
    requires Possible(n, events, id) && SmoothRun(n, events, id, owner) && Plain(events, id) && owner < n
    requires Quiescent(After(n, events, id), id) && TrueTotal(events, id).count > 0
    ensures var s := After(n, events, id);
            && HeldKey(id) in s.sites[owner] && s.sites[owner][HeldKey(id)].metric.Number? && s.books.published > 0
            && Resolved(s.sites[owner][HeldKey(id)]) == (TrueTotal(events, id).sum + s.books.rounded) / s.books.published as real
  {
    hide *;
    OwnerHoldsIncome(n, events, id, owner);
    AllPlain(n, events, id, owner);
    NothingIsLost(n, events, id, owner);
    QuietPlain(After(n, events, id), id, owner, TrueTotal(events, id));
    ResolvedIs(After(n, events, id).sites[owner][HeldKey(id)]);
  }

  lemma ResolvedIs(v: Value)
    requires v.metric.Number? && v.count > 0
    ensures Resolved(v) == v.metric.number / v.count as real
  {
  }

  lemma QuotientsAgree(sum: real, a: nat, b: nat)
    requires a > 0 && b > 0
    ensures sum / a as real == sum / b as real <==> a == b || sum == 0.0
  {
    var x, y := sum / a as real, sum / b as real;
    assert x * a as real == sum && y * b as real == sum;
    if x == y && a != b {
      assert x * (a as real - b as real) == 0.0;
    }
  }

  /** It is the mean of the updates exactly if each update took a message of its own, or they sum up to nothing. */
  lemma PlainNumberIsMeanExactly(n: nat, events: seq<Event>, id: Id, owner: nat)
    requires Possible(n, events, id) && SmoothRun(n, events, id, owner) && Plain(events, id) && owner < n
    requires Quiescent(After(n, events, id), id) && TrueTotal(events, id).count > 0 && AllSurvive(n, events, id)
    ensures var s, total := After(n, events, id), TrueTotal(events, id);
            && HeldKey(id) in s.sites[owner] && s.sites[owner][HeldKey(id)].metric.Number?
            && (Resolved(s.sites[owner][HeldKey(id)]) == total.sum / total.count as real <==>
                s.books.published == total.count || total.sum == 0.0)
  {
    hide *;
    QuiescentPlainNumber(n, events, id, owner);
    NothingRounded(n, events, id, owner);
    QuotientsAgree(TrueTotal(events, id).sum, After(n, events, id).books.published, TrueTotal(events, id).count);
  }

  /** Two ways of batching the same updates publish the same exactly if they take equally many messages, or sum up to nothing. */
  lemma BatchingsAgreeExactly(n: nat, events: seq<Event>, n': nat, events': seq<Event>, id: Id, owner: nat)
    requires Possible(n, events, id) && SmoothRun(n, events, id, owner) && Plain(events, id) && owner < n
    requires Possible(n', events', id) && SmoothRun(n', events', id, owner) && Plain(events', id) && owner < n'
    requires Quiescent(After(n, events, id), id) && AllSurvive(n, events, id)
    requires Quiescent(After(n', events', id), id) && AllSurvive(n', events', id)
    requires TrueTotal(events, id) == TrueTotal(events', id) && TrueTotal(events, id).count > 0
    ensures var t, t' := After(n, events, id).sites[owner], After(n', events', id).sites[owner];
            && HeldKey(id) in t && t[HeldKey(id)].metric.Number? && HeldKey(id) in t' && t'[HeldKey(id)].metric.Number?
            && (Resolved(t[HeldKey(id)]) == Resolved(t'[HeldKey(id)]) <==>
                After(n, events, id).books.published == After(n', events', id).books.published || TrueTotal(events, id).sum == 0.0)
  {
    hide *;
    QuiescentPlainNumber(n, events, id, owner);
    QuiescentPlainNumber(n', events', id, owner);
    NothingRounded(n, events, id, owner);
    NothingRounded(n', events', id, owner);
    QuotientsAgree(TrueTotal(events, id).sum, After(n, events, id).books.published, After(n', events', id).books.published);
  }
}
