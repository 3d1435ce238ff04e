/**
 Runs of the aggregation protocol that show what the general results leave open: a large gauge
 that printing changes, two batchings of plain numbers, and an update that is deleted unsent.
 Instance 0 updates and publishes one metric, and instance 1 owns it.
 */
module ExampleRuns {
  import opened Decimals
  import opened MetricTable
  import opened Aggregation
  import opened AggregationRuns
  import opened Averages
  import opened Retirement

  function Example(): Id { Id("m", 0, 0) }

  function SenderEntry(): Key { SenderKey(Example()) }

  function SetEvent(delta: Delta, now: nat): Event { Update(0, "m", true, delta, 0, now) }

  function PassEvent(now: nat, printed: real -> real): Event { Flush(0, now, [SenderEntry()], _ => true, printed, map[]) }

  function AtOwner(now: nat): Event { Deliver(1, 0, now) }

  /** The events lead to these tables and messages; if asked for, smoothly, and without printing changing a sum. */
  ghost predicate Reached(events: seq<Event>, t0: Table, t1: Table, topic: seq<Message>, smooth: bool, exact: bool) {
    && Possible(2, events, Example())
    && After(2, events, Example()).sites == [t0, t1] && After(2, events, Example()).topic == topic
    && (smooth ==> SmoothRun(2, events, Example(), 1)) && (exact ==> AllSurvive(2, events, Example()))
  }

  lemma NothingYet(exact: bool)
    ensures Reached([], map[], map[], [], true, exact)
  {
  }

  lemma OneMore(events: seq<Event>, e: Event, id: Id)
    requires Possible(2, events, id) && Legal(After(2, events, id), e)
    ensures Possible(2, events + [e], id) && After(2, events + [e], id) == Step(After(2, events, id), e, id)
    ensures SmoothRun(2, events + [e], id, 1) <==> SmoothRun(2, events, id, 1) && Smooth(After(2, events, id), e, id, 1)
    ensures AllSurvive(2, events + [e], id) <==> AllSurvive(2, events, id) && Survives(After(2, events, id), e, id)
    ensures PunctualRun(2, events + [e], id) <==> PunctualRun(2, events, id) && Punctual(After(2, events, id), e)
  {
    hide Legal, Smooth, Step, Survives, Punctual;
    assert Front(events + [e]) == events && Last(events + [e]) == e;
  }

  lemma SumOneMore(events: seq<Event>, e: Event)
    ensures AddsTo(e, Example()) && !e.delta.Sample? && !e.delta.Counter? ==>
              var x := MetricOf(e.delta).number;
              && TrueTotal(events + [e], Example()).sum == TrueTotal(events, Example()).sum + x
              && TrueTotal(events + [e], Example()).count == TrueTotal(events, Example()).count + 1
    ensures !AddsTo(e, Example()) ==> TrueTotal(events + [e], Example()) == TrueTotal(events, Example())
  {
    assert AddsTo(e, Example()) ==> e.Update?;
    hide AddsTo;
    assert Front(events + [e]) == events && Last(events + [e]) == e;
    if AddsTo(e, Example()) && !e.delta.Sample? && !e.delta.Counter? {
      var more := AmountOf(MetricOf(e.delta), 1, Example());
      assert more.count == 1 && more.sum == MetricOf(e.delta).number;
      hide AmountOf, MetricOf;
      assert TrueTotal(events + [e], Example()) == Plus(TrueTotal(events, Example()), more);
    }
  }

  lemma WhichAdd(delta: Delta, now: nat, printed: real -> real)
    ensures !delta.Sample? ==> AddsTo(SetEvent(delta, now), Example())
    ensures !AddsTo(PassEvent(now, printed), Example()) && !AddsTo(AtOwner(now), Example())
  {
  }

  lemma UpdateStep(s: System, t0: Table, t1: Table, delta: Delta, now: nat)
    requires s.sites == [t0, t1] && !delta.Sample? && (SenderEntry() in t0 ==> SameKind(t0[SenderEntry()].metric, MetricOf(delta)))
    ensures var e, id, k := SetEvent(delta, now), Example(), SenderEntry();
            && Legal(s, e) && Step(s, e, id).sites == [Updated(t0, k, delta, now), t1] && Step(s, e, id).topic == s.topic
            && ((k in t0 ==> now > t0[k].flushedMs) ==> Smooth(s, e, id, 1)) && Survives(s, e, id)
            && (Punctual(s, e) <==> !Late(t0, k, now)) && AddsTo(e, id)
  {
    hide Updated;
  }

  lemma ThenUpdate(events: seq<Event>, t0: Table, t1: Table, topic: seq<Message>, smooth: bool, exact: bool, delta: Delta, now: nat)
    requires Reached(events, t0, t1, topic, smooth, exact) && !delta.Sample?
    requires SenderEntry() in t0 ==> SameKind(t0[SenderEntry()].metric, MetricOf(delta))
    requires smooth && SenderEntry() in t0 ==> now > t0[SenderEntry()].flushedMs
    ensures Reached(events + [SetEvent(delta, now)], Updated(t0, SenderEntry(), delta, now), t1, topic, smooth, exact)
  {
    hide Possible, After, Step, Legal, Smooth, SmoothRun, AllSurvive, Survives, Updated, TrueTotal, SetEvent, SenderEntry, Example;
    UpdateStep(After(2, events, Example()), t0, t1, delta, now);
    OneMore(events, SetEvent(delta, now), Example());
  }

  /** A pass over the sender's entry alone that publishes it. */
  lemma Published(t: Table, now: nat, printed: real -> real)
    requires SenderEntry() in t && FateOf(SenderEntry(), t[SenderEntry()], now) == Publish
    ensures var e, k := PassEvent(now, printed), SenderEntry();
            && (forall j | j in e.order :: j in t) && Sent(t, e) == [k] && MessagesOf(t, [k], printed) == [MessageOf(k, t[k], printed)]
  {
    var e, k := PassEvent(now, printed), SenderEntry();
    assert e.order == [k] && e.order[..0] == [] && e.produce(k);
    hide FateOf, SenderEntry;
    assert Having(t, now, [k], Publish) == [] + [k];
    assert Chosen([k], e.produce) == [] + [k];
  }

  lemma Cleared(t: Table, now: nat, printed: real -> real)
    requires SenderEntry() in t && FateOf(SenderEntry(), t[SenderEntry()], now) == Publish
    ensures var e, k := PassEvent(now, printed), SenderEntry();
            (forall j | j in e.order :: j in t) && FlushedTable(t, e) == t[k := Reset(t[k], now, true)]
  {
    var e, k := PassEvent(now, printed), SenderEntry();
    assert e.order == [k] && e.produce(k);
    hide FateOf, Reset, SenderEntry;
    assert k in SentKeys(t, now, e.order, e.produce);
  }

  lemma FlushStep(s: System, e: Event, id: Id)
    requires Legal(s, e) && e.Flush?
    ensures var t := s.sites[e.site];
            && Step(s, e, id).sites == s.sites[e.site := FlushedTable(t, e)]
            && Step(s, e, id).topic == s.topic + MessagesOf(t, Sent(t, e), e.printed)
  {
    hide FlushedTable, Sent, MessagesOf, BooksAfterFlush;
  }

  lemma PassIsLegal(s: System, t0: Table, t1: Table, now: nat, printed: real -> real)
    requires s.sites == [t0, t1] && SenderEntry() in t0
    ensures var e, id := PassEvent(now, printed), Example();
            && e.Flush? && e.site == 0 && Legal(s, e) && Smooth(s, e, id, 1) && Punctual(s, e) && !AddsTo(e, id)
            && (Survives(s, e, id) <== Rounding(t0, SenderEntry(), printed) == 0.0)
  {
    hide FateOf, Rounding;
  }

  lemma ThenPublish(events: seq<Event>, t0: Table, t1: Table, smooth: bool, exact: bool, now: nat, printed: real -> real)
    requires Reached(events, t0, t1, [], smooth, exact)
    requires SenderEntry() in t0 && FateOf(SenderEntry(), t0[SenderEntry()], now) == Publish
    requires exact ==> Rounding(t0, SenderEntry(), printed) == 0.0
    ensures Reached(events + [PassEvent(now, printed)], t0[SenderEntry() := Reset(t0[SenderEntry()], now, true)], t1,
                    [MessageOf(SenderEntry(), t0[SenderEntry()], printed)], smooth, exact)
  {
    hide Possible, After, Step, Legal, Smooth, SmoothRun, AllSurvive, Survives, Reset, FateOf, TrueTotal, SenderEntry, Example,
         MessageOf, Rounding, FlushedTable, Sent, MessagesOf;
    PassIsLegal(After(2, events, Example()), t0, t1, now, printed);
    FlushStep(After(2, events, Example()), PassEvent(now, printed), Example());
    Published(t0, now, printed);
    Cleared(t0, now, printed);
    OneMore(events, PassEvent(now, printed), Example());
  }

  lemma DeliverStep(s: System, t0: Table, t1: Table, m: Message, now: nat)
    requires s.sites == [t0, t1] && s.topic == [m] && (OwnerKey(m) in t1 ==> SameKind(t1[OwnerKey(m)].metric, m.metric))
    ensures var e, id := AtOwner(now), Example();
            && Legal(s, e) && Step(s, e, id).sites == [t0, Delivered(t1, m, now)] && Step(s, e, id).topic == []
            && Smooth(s, e, id, 1) && Survives(s, e, id) && !AddsTo(e, id)
  {
    hide Delivered;
  }

  lemma ThenDeliver(events: seq<Event>, t0: Table, t1: Table, m: Message, smooth: bool, exact: bool, now: nat)
    requires Reached(events, t0, t1, [m], smooth, exact) && (OwnerKey(m) in t1 ==> SameKind(t1[OwnerKey(m)].metric, m.metric))
    ensures Reached(events + [AtOwner(now)], t0, Delivered(t1, m, now), [], smooth, exact)
  {
    hide Possible, After, Step, Legal, Smooth, SmoothRun, AllSurvive, Survives, Delivered, TrueTotal, AtOwner, Example, OwnerKey;
    DeliverStep(After(2, events, Example()), t0, t1, m, now);
    OneMore(events, AtOwner(now), Example());
  }

  // ----- Entries of one metric -----

  function Exactly(): real -> real { x => x }

  lemma ExactlyIs(x: real)
    ensures Exactly()(x) == x
  {
  }

  /** A smooth run that ends with `shown` at the owner and nothing pending. */
  ghost predicate Ends(events: seq<Event>, shown: real, exact: bool) {
    var id := Example();
    && Possible(2, events, id) && SmoothRun(2, events, id, 1) && (exact ==> AllSurvive(2, events, id))
    && Quiescent(After(2, events, id), id)
    && var t := After(2, events, id).sites[1];
       HeldKey(id) in t && t[HeldKey(id)].metric.Number? && Resolved(t[HeldKey(id)]) == shown
  }

  lemma EndsWith(events: seq<Event>, t0: Table, t1: Table, v: Value, exact: bool)
    requires Reached(events, t0, t1, [], true, exact) && SenderEntry() in t0 && IsClean(t0[SenderEntry()])
    requires HeldKey(Example()) in t1 && t1[HeldKey(Example())] == v && v.metric.Number? && SenderEntry() !in t1
    ensures Ends(events, Resolved(v), exact)
  {
    hide Possible, After, SmoothRun, AllSurvive, Resolved, IsClean;
  }

  function Pending(x: real, count: nat, lastSeen: nat, flushedMs: nat): Table {
    map[SenderEntry() := Value(Number(x), count, lastSeen, flushedMs)]
  }

  function Holding(x: real, count: nat, lastSeen: nat): Table {
    map[HeldKey(Example()) := Value(Number(x), count, lastSeen, 0)]
  }

  function Sum(x: real, count: nat): Message { Message("m", 0, Number(x), count) }

  /** The steps of the two batchings, as changes of single entries. */
  lemma PlainUpdates(x: real, y: real, c: nat, seen: nat, flushedMs: nat, now: nat)
    ensures Updated(map[], SenderEntry(), Numeric(x), now) == Pending(x, 1, now, 0)
    ensures SenderEntry() in Pending(x, c, seen, flushedMs)
    ensures SameKind(Pending(x, c, seen, flushedMs)[SenderEntry()].metric, MetricOf(Numeric(y)))
    ensures Updated(Pending(x, c, seen, flushedMs), SenderEntry(), Numeric(y), now) == Pending(x + y, c, now, flushedMs)
  {
  }

  lemma PlainPublication(x: real, c: nat, seen: nat, flushedMs: nat, now: nat, printed: real -> real)
    requires seen > flushedMs && now > seen + 10000
    ensures var t, k := Pending(x, c, seen, flushedMs), SenderEntry();
            && k in t && FateOf(k, t[k], now) == Publish && Rounding(t, k, printed) == printed(x) - x
            && MessageOf(k, t[k], printed) == Sum(printed(x), c) && t[k := Reset(t[k], now, true)] == Pending(0.0, 0, seen, now)
  {
  }

  lemma PlainDeliveries(x: real, y: real, c: nat, d: nat, seen: nat, now: nat)
    requires c <= 1
    ensures Delivered(map[], Sum(x, c), now) == Holding(x, 1, now)
    ensures OwnerKey(Sum(y, c)) in Holding(x, d, seen) && SameKind(Holding(x, d, seen)[OwnerKey(Sum(y, c))].metric, Sum(y, c).metric)
    ensures Delivered(Holding(x, d, seen), Sum(y, c), now) == Holding(x + y, d + 1, now)
  {
  }

  /** Publish what is pending and deliver it. */
  lemma ThenSend(events: seq<Event>, t1: Table, x: real, c: nat, seen: nat, flushedMs: nat, now: nat, printed: real -> real, exact: bool)
    requires Reached(events, Pending(x, c, seen, flushedMs), t1, [], true, exact) && (exact ==> printed(x) == x)
    requires seen > flushedMs && now > seen + 10000
    requires var m := Sum(printed(x), c); OwnerKey(m) in t1 ==> SameKind(t1[OwnerKey(m)].metric, m.metric)
    ensures Reached(events + [PassEvent(now, printed)] + [AtOwner(now + 1)],
                    Pending(0.0, 0, seen, now), Delivered(t1, Sum(printed(x), c), now + 1), [], true, exact)
  {
    hide *;
    PlainPublication(x, c, seen, flushedMs, now, printed);
    ThenPublish(events, Pending(x, c, seen, flushedMs), t1, true, exact, now, printed);
    ThenDeliver(events + [PassEvent(now, printed)], Pending(0.0, 0, seen, now), t1, Sum(printed(x), c), true, exact, now + 1);
  }

  lemma Entries(x: real, c: nat, seen: nat, flushedMs: nat)
    ensures SenderEntry() in Pending(x, c, seen, flushedMs)
    ensures Pending(x, c, seen, flushedMs)[SenderEntry()] == Value(Number(x), c, seen, flushedMs)
    ensures HeldKey(Example()) in Holding(x, c, seen) && SenderEntry() !in Holding(x, c, seen)
    ensures Holding(x, c, seen)[HeldKey(Example())] == Value(Number(x), c, seen, 0)
  {
  }

  lemma Shown(x: real, c: nat, seen: nat, flushedMs: nat)
    requires c > 0 && flushedMs >= seen && flushedMs > 0
    ensures c <= 2 ==> Resolved(Value(Number(x), c, seen, 0)) == if c == 1 then x else x / 2.0
    ensures IsClean(Value(Number(0.0), 0, seen, flushedMs))
  {
  }

  // ----- A large gauge -----

  function GaugeEvents(x: real, printed: real -> real): seq<Event> {
    [] + [SetEvent(Average(x), 1)] + [PassEvent(20000, printed)] + [AtOwner(20001)]
  }

  /** One average is set, published and delivered: the owner shows what printing leaves of it. */
  lemma GaugeIsShown(x: real, printed: real -> real)
    ensures Ends(GaugeEvents(x, printed), printed(x), printed(x) == x)
  {
    hide *;
    var z := printed(x);
    GaugeSteps(x, printed);
    PlainDeliveries(z, z, 1, 1, 0, 20001);
    Entries(0.0, 0, 1, 20000);
    Entries(z, 1, 20001, 0);
    Shown(z, 1, 20001, 20001);
    Shown(z, 1, 1, 20000);
    NothingYet(z == x);
    ThenUpdate([], map[], map[], [], true, z == x, Average(x), 1);
    ThenSend([] + [SetEvent(Average(x), 1)], map[], x, 1, 1, 0, 20000, printed, z == x);
    EndsWith(GaugeEvents(x, printed), Pending(0.0, 0, 1, 20000), Holding(z, 1, 20001), Value(Number(z), 1, 20001, 0), z == x);
  }

  lemma GaugeSteps(x: real, printed: real -> real)
    ensures Updated(map[], SenderEntry(), Average(x), 1) == Pending(x, 1, 1, 0)
    ensures GaugeEvents(x, printed) == [] + [SetEvent(Average(x), 1)] + [PassEvent(20000, printed)] + [AtOwner(20001)]
  {
  }

  lemma GaugeTotal(x: real, printed: real -> real)
    ensures var events := GaugeEvents(x, printed);
            TrueTotal(events, Example()).sum == x && TrueTotal(events, Example()).count == 1 && Counted(events, Example())
  {
    WhichAdd(Average(x), 1, printed);
    WhichAdd(Average(x), 20000, printed);
    WhichAdd(Average(x), 20001, printed);
    assert TrueTotal([], Example()).sum == 0.0 && TrueTotal([], Example()).count == 0;
    hide TrueTotal, AddsTo, PassEvent, AtOwner, Example;
    SumOneMore([], SetEvent(Average(x), 1));
    SumOneMore([] + [SetEvent(Average(x), 1)], PassEvent(20000, printed));
    SumOneMore([] + [SetEvent(Average(x), 1)] + [PassEvent(20000, printed)], AtOwner(20001));
  }

  lemma NotExact(events: seq<Event>, shown: real)
    ensures forall exact :: Ends(events, shown, exact) ==> Ends(events, shown, false)
  {
  }

  /** With six significant digits, a gauge of 123456789 is published as 123457000. */
  lemma LargeGaugeIsNotItsMean()
    ensures var events := GaugeEvents(123456789.0, SixDigits);
            && Ends(events, 123457000.0, false) && Counted(events, Example())
            && TrueTotal(events, Example()).sum == 123456789.0 && TrueTotal(events, Example()).count == 1
  {
    hide *;
    GaugeIsShown(123456789.0, SixDigits);
    GaugeTotal(123456789.0, SixDigits);
    LargeGaugeIsRounded();
    NotExact(GaugeEvents(123456789.0, SixDigits), 123457000.0);
  }

  /** A gauge of a million and one is the first whole number that is not published exactly. */
  lemma MillionIsTheBound()
    ensures var events := GaugeEvents(1000001.0, SixDigits);
            && Ends(events, 1000000.0, false) && Counted(events, Example())
            && TrueTotal(events, Example()).sum == 1000001.0 && TrueTotal(events, Example()).count == 1
  {
    hide *;
    GaugeIsShown(1000001.0, SixDigits);
    GaugeTotal(1000001.0, SixDigits);
    MillionAndOneIsRounded();
    NotExact(GaugeEvents(1000001.0, SixDigits), 1000000.0);
  }

  // ----- Two batchings -----

  function Together(x: real, y: real): seq<Event> {
    [] + [SetEvent(Numeric(x), 1)] + [SetEvent(Numeric(y), 2)] + [PassEvent(20000, Exactly())] + [AtOwner(20001)]
  }

  function Apart(x: real, y: real): seq<Event> {
    [] + [SetEvent(Numeric(x), 1)] + [PassEvent(20000, Exactly())] + [AtOwner(20001)]
       + [SetEvent(Numeric(y), 30000)] + [PassEvent(50000, Exactly())] + [AtOwner(50001)]
  }

  /** Two updates that are sent together are shown as their sum. */
  lemma TogetherIsSum(x: real, y: real)
    ensures Ends(Together(x, y), x + y, true)
  {
    hide *;
    var first := [] + [SetEvent(Numeric(x), 1)];
    PlainUpdates(x, y, 1, 0, 0, 1);
    PlainUpdates(x, y, 1, 1, 0, 2);
    PlainDeliveries(x + y, y, 1, 1, 0, 20001);
    Entries(x, 1, 1, 0);
    Entries(x + y, 1, 20001, 0);
    Entries(0.0, 0, 2, 20000);
    Shown(x + y, 1, 20001, 20001);
    Shown(x + y, 1, 2, 20000);
    NothingYet(true);
    ThenUpdate([], map[], map[], [], true, true, Numeric(x), 1);
    ThenUpdate(first, Pending(x, 1, 1, 0), map[], [], true, true, Numeric(y), 2);
    ExactlyIs(x + y);
    ThenSend(first + [SetEvent(Numeric(y), 2)], map[], x + y, 1, 2, 0, 20000, Exactly(), true);
    TogetherIs(x, y);
    EndsWith(Together(x, y), Pending(0.0, 0, 2, 20000), Holding(x + y, 1, 20001), Value(Number(x + y), 1, 20001, 0), true);
  }

  lemma TogetherIs(x: real, y: real)
    ensures Together(x, y) ==
            [] + [SetEvent(Numeric(x), 1)] + [SetEvent(Numeric(y), 2)] + [PassEvent(20000, Exactly())] + [AtOwner(20001)]
  {
  }

  /** The same updates sent one by one are shown as their mean. */
  lemma ApartIsMean(x: real, y: real)
    ensures Ends(Apart(x, y), (x + y) / 2.0, true)
  {
    hide *;
    var first := [] + [SetEvent(Numeric(x), 1)];
    var second := first + [PassEvent(20000, Exactly())] + [AtOwner(20001)];
    PlainUpdates(x, y, 1, 0, 0, 1);
    PlainUpdates(0.0, y, 0, 1, 20000, 30000);
    PlainDeliveries(x, y, 1, 1, 0, 20001);
    PlainDeliveries(x, y, 0, 1, 20001, 50001);
    Entries(0.0, 0, 1, 20000);
    Entries(x + y, 2, 50001, 0);
    Entries(0.0, 0, 30000, 50000);
    Shown(x + y, 2, 50001, 50001);
    Shown(x + y, 2, 30000, 50000);
    NothingYet(true);
    ThenUpdate([], map[], map[], [], true, true, Numeric(x), 1);
    ExactlyIs(x);
    ThenSend(first, map[], x, 1, 1, 0, 20000, Exactly(), true);
    ThenUpdate(second, Pending(0.0, 0, 1, 20000), Holding(x, 1, 20001), [], true, true, Numeric(y), 30000);
    assert 0.0 + y == y;
    ExactlyIs(y);
    ThenSend(second + [SetEvent(Numeric(y), 30000)], Holding(x, 1, 20001), y, 0, 30000, 20000, 50000, Exactly(), true);
    ApartIs(x, y);
    EndsWith(Apart(x, y), Pending(0.0, 0, 30000, 50000), Holding(x + y, 2, 50001), Value(Number(x + y), 2, 50001, 0), true);
  }

  lemma ApartIs(x: real, y: real)
    ensures Apart(x, y) ==
            [] + [SetEvent(Numeric(x), 1)] + [PassEvent(20000, Exactly())] + [AtOwner(20001)]
               + [SetEvent(Numeric(y), 30000)] + [PassEvent(50000, Exactly())] + [AtOwner(50001)]
  {
  }

  lemma PlainTotals(x: real, y: real)
    ensures forall events | events == Together(x, y) || events == Apart(x, y) ::
              TrueTotal(events, Example()).sum == x + y && TrueTotal(events, Example()).count == 2 && Plain(events, Example())
  {
    var one, two, pass, deliver, pass', deliver' := SetEvent(Numeric(x), 1), SetEvent(Numeric(y), 2), PassEvent(20000, Exactly()),
      AtOwner(20001), PassEvent(50000, Exactly()), AtOwner(50001);
    var again := SetEvent(Numeric(y), 30000);
    WhichAdd(Numeric(x), 1, Exactly());
    WhichAdd(Numeric(y), 2, Exactly());
    WhichAdd(Numeric(y), 20000, Exactly());
    WhichAdd(Numeric(y), 20001, Exactly());
    WhichAdd(Numeric(y), 30000, Exactly());
    WhichAdd(Numeric(y), 50000, Exactly());
    WhichAdd(Numeric(y), 50001, Exactly());
    NothingAdded();
    hide TrueTotal, AddsTo, PassEvent, AtOwner, Example;
    SumOneMore([], one);
    SumOneMore([] + [one], two);
    SumOneMore([] + [one] + [two], pass);
    SumOneMore([] + [one] + [two] + [pass], deliver);
    SumOneMore([] + [one], pass);
    SumOneMore([] + [one] + [pass], deliver);
    SumOneMore([] + [one] + [pass] + [deliver], again);
    SumOneMore([] + [one] + [pass] + [deliver] + [again], pass');
    SumOneMore([] + [one] + [pass] + [deliver] + [again] + [pass'], deliver');
  }

  lemma NothingAdded()
    ensures TrueTotal([], Example()).sum == 0.0 && TrueTotal([], Example()).count == 0
  {
  }

  /** The same two updates of a plain number, as two runs: which value is shown depends on the batching. */
  lemma NumericsDependOnBatching(x: real, y: real)
    ensures Ends(Together(x, y), x + y, true) && Ends(Apart(x, y), (x + y) / 2.0, true)
    ensures forall events | events == Together(x, y) || events == Apart(x, y) ::
              TrueTotal(events, Example()).sum == x + y && TrueTotal(events, Example()).count == 2 && Plain(events, Example())
  {
    hide *;
    TogetherIsSum(x, y);
    ApartIsMean(x, y);
    PlainTotals(x, y);
  }

  // ----- A late update -----

  /** A set average is published, and then set again in the millisecond of that pass. */
  function LateEvents(x: real, y: real): seq<Event> {
    [] + [SetEvent(Average(x), 1)] + [PassEvent(20000, Exactly())] + [AtOwner(20001)] + [SetEvent(Average(y), 20000)]
  }

  lemma LateSteps(x: real, y: real)
    ensures Updated(map[], SenderEntry(), Average(x), 1) == Pending(x, 1, 1, 0)
    ensures SenderEntry() in Pending(0.0, 0, 1, 20000)
    ensures SameKind(Pending(0.0, 0, 1, 20000)[SenderEntry()].metric, MetricOf(Average(y)))
    ensures Updated(Pending(0.0, 0, 1, 20000), SenderEntry(), Average(y), 20000) == Pending(y, 1, 20000, 20000)
  {
    assert 0.0 + y == y;
  }

  /** The next pass after ten idle minutes deletes the second update, which was never sent. */
  lemma LateUpdateIsDeleted(x: real, y: real)
    ensures var events, id, k, e := LateEvents(x, y), Example(), SenderEntry(), PassEvent(700000, Exactly());
            && Possible(2, events, id) && Legal(After(2, events, id), e)
            && var t := After(2, events, id).sites[0];
               && k in t && AmountAt(t, k, id) == Amount(0, y, 1, 0) && !PassedOn(k, t[k], map[])
               && k !in FlushedTable(t, e) && Sent(t, e) == []
  {
    LateReached(x, y);
    LateExpires(y);
    hide Possible, After, FlushedTable, Sent, LateEvents, PassedOn, AmountAt, Pending;
  }

  lemma LateReached(x: real, y: real)
    ensures Reached(LateEvents(x, y), Pending(y, 1, 20000, 20000), Holding(x, 1, 20001), [], false, false)
  {
    hide *;
    var first := [] + [SetEvent(Average(x), 1)];
    LateSteps(x, y);
    PlainDeliveries(x, y, 1, 1, 0, 20001);
    NothingYet(true);
    ThenUpdate([], map[], map[], [], true, true, Average(x), 1);
    ExactlyIs(x);
    ThenSend(first, map[], x, 1, 1, 0, 20000, Exactly(), true);
    LessIsReached(first + [PassEvent(20000, Exactly())] + [AtOwner(20001)], Pending(0.0, 0, 1, 20000), Holding(x, 1, 20001));
    ThenUpdate(first + [PassEvent(20000, Exactly())] + [AtOwner(20001)], Pending(0.0, 0, 1, 20000), Holding(x, 1, 20001), [],
               false, false, Average(y), 20000);
    LateIs(x, y);
  }

  lemma LateIs(x: real, y: real)
    ensures LateEvents(x, y) ==
            [] + [SetEvent(Average(x), 1)] + [PassEvent(20000, Exactly())] + [AtOwner(20001)] + [SetEvent(Average(y), 20000)]
  {
  }

  lemma LessIsReached(events: seq<Event>, t0: Table, t1: Table)
    requires Reached(events, t0, t1, [], true, true)
    ensures Reached(events, t0, t1, [], false, false)
  {
  }

  lemma LateExpires(y: real)
    ensures var t, k, e := Pending(y, 1, 20000, 20000), SenderEntry(), PassEvent(700000, Exactly());
            && k in t && AmountAt(t, k, Example()) == Amount(0, y, 1, 0) && !PassedOn(k, t[k], map[])
            && (forall j | j in e.order :: j in t) && k !in FlushedTable(t, e) && Sent(t, e) == []
  {
    var t, k, e := Pending(y, 1, 20000, 20000), SenderEntry(), PassEvent(700000, Exactly());
    assert FateOf(k, t[k], e.now) == Expire;
    assert e.order[..0] == [];
    assert Having(t, e.now, e.order, Publish) == [] + [];
  }
}
