/**
 When entries are deleted: a pass removes an entry only if everything in it has been passed on,
 provided that updates come strictly after the last flush of their entry.
 */
module Retirement {
  import opened MetricTable
  import opened Words
  import opened Aggregation
  import opened AggregationRuns

  /** An entry as the journal accepted it, and the number that was printed for it. */
  datatype Showing = Showing(value: Value, number: real)

  /** What the journal last accepted for each key of one table. */
  type Shown = map<Key, Showing>

  /** A number is journalled as the mean of its updates, printed. */
  function ShowingOf(v: Value, printed: real -> real): Showing {
    Showing(v, if v.metric.Number? then printed(Resolved(v)) else 0.0)
  }

  /** Nothing is left of an aggregated entry; any other has been journalled as it is now. */
  predicate PassedOn(k: Key, v: Value, shown: Shown) {
    if k.aggregate then v.metric == Cleared(v.metric) && v.count == 0
    else k in shown && shown[k].value.metric == v.metric && shown[k].value.count == v.count
  }

  ghost predicate Settled(t: Table, shown: Shown) {
    forall k | k in t :: IsClean(t[k]) ==> PassedOn(k, t[k], shown)
  }

  /** A pass shows the entries it stamps, which are those in the chunks that were written. */
  function ShownBy(t: Table, e: Event, shown: Shown): Shown
    requires e.Flush?
  {
    shown + map k | k in e.stamps && k in t && FateIn(t, e, k) == Journal :: ShowingOf(t[k], e.printed)
  }

  ghost function ShownAfter(n: nat, events: seq<Event>, id: Id, site: nat): Shown
    requires Possible(n, events, id) && site < n
  {
    if events == [] then map[]
    else
      var before := ShownAfter(n, Front(events), id, site);
      var e := Last(events);
      if e.Flush? && e.site == site then ShownBy(After(n, Front(events), id).sites[site], e, before) else before
  }

  predicate Late(t: Table, k: Key, now: nat) {
    k in t && t[k].flushedMs > 0 && now <= t[k].flushedMs
  }

  /** Nothing is added to an entry at or before the time of its last flush. */
  ghost predicate Punctual(s: System, e: Event)
    requires Legal(s, e)
  {
    match e
    case Update(site, name, aggregate, delta, timestamp, now) =>
      !Late(s.sites[site], UpdateKey(name, aggregate, timestamp, delta), now)
    case Flush(_, _, _, _, _, _) => true
    case Deliver(site, index, now) => !Late(s.sites[site], OwnerKey(s.topic[index]), now)
  }

  ghost predicate PunctualRun(n: nat, events: seq<Event>, id: Id)
    requires Possible(n, events, id)
  {
    events != [] ==> PunctualRun(n, Front(events), id) && Punctual(After(n, Front(events), id), Last(events))
  }

  lemma UpdateKeepsSettled(t: Table, k: Key, delta: Delta, now: nat, shown: Shown)
    requires k in t ==> SameKind(t[k].metric, MetricOf(delta))
    requires Settled(t, shown) && !Late(t, k, now)
    ensures Settled(Updated(t, k, delta, now), shown)
  {
    hide Accumulated;
  }

  lemma DeliveryKeepsSettled(t: Table, m: Message, now: nat, shown: Shown)
    requires OwnerKey(m) in t ==> SameKind(t[OwnerKey(m)].metric, m.metric)
    requires Settled(t, shown) && !Late(t, OwnerKey(m), now)
    ensures Settled(Delivered(t, m, now), shown)
  {
    hide Accumulated;
  }

  lemma FlushKeepsSettled(t: Table, e: Event, shown: Shown)
    requires e.Flush? && (forall k | k in e.order :: k in t) && Settled(t, shown)
    ensures Settled(FlushedTable(t, e), ShownBy(t, e, shown))
  {
  }

  /** The delta changes the entry it is added to. */
  predicate Moves(delta: Delta) {
    match delta
    case Counter(n) => n % TWO_64 != 0
    case Average(_) => true
    case Numeric(y) => y != 0.0
    case Sample(_) => true
  }

  /** If a clean entry is updated, it stays settled exactly if the update comes after its flush. */
  lemma SettledExactlyIfPunctual(t: Table, k: Key, delta: Delta, now: nat, shown: Shown)
    requires k in t && SameKind(t[k].metric, MetricOf(delta)) && IsClean(t[k]) && Moves(delta)
    requires Settled(t, shown) && (match t[k].metric case Integer(n) => n < TWO_64 case _ => true)
    ensures Settled(Updated(t, k, delta, now), shown) <==> now > t[k].flushedMs
  {
    if now > t[k].flushedMs {
      UpdateKeepsSettled(t, k, delta, now, shown);
    } else {
      MovedIsDifferent(t[k], delta);
      hide Accumulated;
      assert PassedOn(k, t[k], shown);
      var u := Updated(t, k, delta, now);
      assert k in u && IsClean(u[k]) && !PassedOn(k, u[k], shown);
    }
  }

  lemma MovedIsDifferent(v: Value, delta: Delta)
    requires SameKind(v.metric, MetricOf(delta)) && Moves(delta)
    requires match v.metric case Integer(n) => n < TWO_64 case _ => true
    ensures Accumulated(v.metric, MetricOf(delta)) != v.metric || CountOf(delta) > 0
    ensures Cleared(Accumulated(v.metric, MetricOf(delta))) == Cleared(v.metric)
  {
    if delta.Sample? {
      assert (v.metric.bins + multiset{delta.bucket})[delta.bucket] == v.metric.bins[delta.bucket] + 1;
    }
  }

  lemma {:induction false} EverythingSettled(n: nat, events: seq<Event>, id: Id, site: nat)
    requires Possible(n, events, id) && PunctualRun(n, events, id) && site < n
    ensures Settled(After(n, events, id).sites[site], ShownAfter(n, events, id, site))
  {
    if events != [] {
      EverythingSettled(n, Front(events), id, site);
      StepKeepsSettled(After(n, Front(events), id), Last(events), id, site, ShownAfter(n, Front(events), id, site));
    }
  }

  lemma StepKeepsSettled(s: System, e: Event, id: Id, site: nat, shown: Shown)
    requires Legal(s, e) && Punctual(s, e) && site < |s.sites| && Settled(s.sites[site], shown)
    ensures Settled(Step(s, e, id).sites[site],
                    if e.Flush? && e.site == site then ShownBy(s.sites[site], e, shown) else shown)
  {
    hide Settled, FlushedTable, BooksAfterFlush, Added, Updated, Delivered, ShownBy, MessagesOf, Sent, Late;
    if e.site == site {
      match e
      case Update(_, name, aggregate, delta, timestamp, now) =>
        UpdateKeepsSettled(s.sites[site], UpdateKey(name, aggregate, timestamp, delta), delta, now, shown);
      case Flush(_, _, _, _, _, _) => FlushKeepsSettled(s.sites[site], e, shown);
      case Deliver(_, index, now) => DeliveryKeepsSettled(s.sites[site], s.topic[index], now, shown);
    }
  }

  /**
   In every punctual run, whatever publications and writes fail: an entry that a pass deletes is
   empty if it was to be aggregated, and otherwise the journal has accepted exactly its value.
   */
  lemma DeletedIsPassedOn(n: nat, events: seq<Event>, id: Id, e: Event, k: Key)
    requires Possible(n, events, id) && PunctualRun(n, events, id)
    requires Legal(After(n, events, id), e) && e.Flush?
    requires var t := After(n, events, id).sites[e.site]; k in t && k !in FlushedTable(t, e)
    ensures PassedOn(k, After(n, events, id).sites[e.site][k], ShownAfter(n, events, id, e.site))
  {
    EverythingSettled(n, events, id, e.site);
    hide Possible, After, ShownAfter, PunctualRun;
  }

  /** A pass that has gone through `keys` is one flush of the protocol, and shows what was in written chunks. */
  lemma PassIsFlush(t: Table, now: nat, keys: seq<Key>, world: World,
                    chunks: seq<Chunk>, messages: seq<Message>, stamps: map<Key, nat>, site: nat, shown: Shown)
    requires PassDone(t, now, keys, world, chunks, messages, stamps)
    ensures var e := Flush(site, now, keys, world.produce, world.printed, stamps);
            && messages == MessagesOf(t, Sent(t, e), e.printed)
            && forall k :: k in ShownBy(t, e, shown) <==> k in shown || k in WrittenKeys(chunks)
  {
    hide FateOf, WellFormedChunk;
    forall k | k in WrittenKeys(chunks)
      ensures k in Having(t, now, keys, Journal)
    {
      var c :| c in chunks && c.written && k in c.keys;
      KeysOfHas(chunks, c, k);
    }
  }

  // ----- What an owner has published when it deletes an entry -----

  /** What has come in for the metric at one owner since its entry was last created. */
  ghost function ReceivedAfter(n: nat, events: seq<Event>, id: Id, site: nat): Amount
    requires Possible(n, events, id) && site < n
  {
    if events == [] then ZERO
    else
      var before := ReceivedAfter(n, Front(events), id, site);
      var s, e := After(n, Front(events), id), Last(events);
      if e.site != site then before else ReceivedBy(s, e, id, before)
  }

  ghost function ReceivedBy(s: System, e: Event, id: Id, before: Amount): Amount
    requires Legal(s, e)
  {
    match e
    case Update(site, name, aggregate, delta, timestamp, _) =>
      var k := UpdateKey(name, aggregate, timestamp, delta);
      if k == HeldKey(id) then Plus(before, Added(s.sites[site], k, delta, id)) else before
    case Flush(site, _, _, _, _, _) => if FateIn(s.sites[site], e, HeldKey(id)) == Expire then ZERO else before
    case Deliver(_, index, _) => Plus(before, ArrivingFor(s.topic[index], id))
  }

  lemma SameAmountPlus(a: Amount, b: Amount, c: Amount, x: Amount)
    requires SameAmount(a, b) && SameAmount(c, Plus(b, x))
    ensures SameAmount(Plus(a, x), c)
  {
    MultiplesAdd(a.integer - b.integer, -(c.integer - (b.integer + x.integer)));
  }

  lemma StepKeepsReceived(s: System, e: Event, id: Id, before: Amount)
    requires Legal(s, e) && SameAmount(before, AmountAt(s.sites[e.site], HeldKey(id), id))
    ensures SameAmount(ReceivedBy(s, e, id, before), AmountAt(Step(s, e, id).sites[e.site], HeldKey(id), id))
  {
    hide AmountAt, SameAmount, Plus, BooksAfterFlush, FlushedTable, Updated, Delivered, Added, ArrivingFor, FateIn;
    var t, held := s.sites[e.site], HeldKey(id);
    match e
    case Update(_, name, aggregate, delta, timestamp, now) =>
      var k := UpdateKey(name, aggregate, timestamp, delta);
      UpdatedAmount(t, k, delta, now, id);
      if k == held {
        SameAmountPlus(before, AmountAt(t, held, id), AmountAt(Updated(t, k, delta, now), held, id), Added(t, k, delta, id));
      }
    case Flush(_, _, _, _, _, _) =>
      KeyAfterFlush(t, e, held, id);
      HeldIsNotPublished(t, e, id);
      SameAmountItself(ZERO);
    case Deliver(_, index, now) =>
      DeliveredAmount(t, s.topic[index], now, id);
      SameAmountPlus(before, AmountAt(t, held, id), AmountAt(Delivered(t, s.topic[index], now), held, id),
                     ArrivingFor(s.topic[index], id));
  }

  lemma StepElsewhere(s: System, e: Event, id: Id, site: nat)
    requires Legal(s, e) && e.site != site && site < |s.sites|
    ensures Step(s, e, id).sites[site] == s.sites[site]
  {
    hide BooksAfterFlush, FlushedTable, Updated, Delivered, Added;
  }

  lemma {:induction false} OwnerHoldsReceived(n: nat, events: seq<Event>, id: Id, site: nat)
    requires Possible(n, events, id) && site < n
    ensures SameAmount(ReceivedAfter(n, events, id, site), AmountAt(After(n, events, id).sites[site], HeldKey(id), id))
  {
    if events == [] {
      assert After(n, events, id).sites[site] == map[];
      SameAmountItself(ZERO);
    } else {
      hide SameAmount, AmountAt, Step, Legal, ReceivedBy;
      OwnerHoldsReceived(n, Front(events), id, site);
      var s, e := After(n, Front(events), id), Last(events);
      if e.site == site {
        StepKeepsReceived(s, e, id, ReceivedAfter(n, Front(events), id, site));
      } else {
        StepElsewhere(s, e, id, site);
      }
    }
  }

  /** What is shown of a number: its sum divided by its count. */
  function MeanOf(a: Amount): real {
    a.sum / (if a.count > 1 then a.count as real else 1.0)
  }

  lemma ShownIsMean(v: Value, received: Amount, id: Id)
    requires v.metric.Number? && SameAmount(received, AmountOf(v.metric, v.count, id))
    ensures Resolved(v) == MeanOf(received)
  {
  }

  ghost predicate NumbersPrinted(shown: Shown, printed: real -> real) {
    forall k | k in shown && shown[k].value.metric.Number? :: shown[k].number == printed(Resolved(shown[k].value))
  }

  lemma {:induction false} ShownIsPrinted(n: nat, events: seq<Event>, id: Id, site: nat, printed: real -> real)
    requires Possible(n, events, id) && site < n && PrintedBy(events, printed)
    ensures NumbersPrinted(ShownAfter(n, events, id, site), printed)
  {
    if events != [] {
      assert forall e | e in Front(events) :: e in events;
      assert Last(events) in events;
      hide Step, Legal, FateIn, Resolved;
      ShownIsPrinted(n, Front(events), id, site, printed);
    }
  }

  /**
   What an owner last published of an entry it deletes is everything that came in for it: counters
   modulo 2^64, buckets, and for numbers the sum of what came in divided by its count, as printed.
   */
  lemma OwnerDeletesOnlyWhatItPublished(n: nat, events: seq<Event>, id: Id, e: Event, printed: real -> real)
    requires Possible(n, events, id) && PunctualRun(n, events, id) && PrintedBy(events, printed)
    requires Legal(After(n, events, id), e) && e.Flush?
    requires var t := After(n, events, id).sites[e.site]; HeldKey(id) in t && HeldKey(id) !in FlushedTable(t, e)
    ensures HeldKey(id) in ShownAfter(n, events, id, e.site)
    ensures var (received, shown) := (ReceivedAfter(n, events, id, e.site), ShownAfter(n, events, id, e.site)[HeldKey(id)]);
            && SameAmount(received, AmountOf(shown.value.metric, shown.value.count, id))
            && (shown.value.metric.Number? ==> shown.number == printed(MeanOf(received)))
  {
    DeletedIsPassedOn(n, events, id, e, HeldKey(id));
    OwnerHoldsReceived(n, events, id, e.site);
    ShownIsPrinted(n, events, id, e.site, printed);
    hide Possible, After, ShownAfter, PunctualRun, FlushedTable, Legal, ReceivedAfter, SameAmount, AmountOf, PrintedBy;
    var v := ShownAfter(n, events, id, e.site)[HeldKey(id)].value;
    if v.metric.Number? {
      ShownIsMean(v, ReceivedAfter(n, events, id, e.site), id);
    }
  }
}
