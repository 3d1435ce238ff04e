/**
 Whole runs of the aggregation protocol: nothing is lost or counted twice however updates are
 batched, and an entry is only ever deleted when everything in it has been passed on.
 */
module AggregationRuns {
  import opened MetricTable
  import opened Aggregation

  function NoBooks(): Books { Books(ZERO, ZERO, ZERO, 0, 0.0, 0) }

  function Start(n: nat): System {
    System(seq(n, _ => map[]), [], NoBooks())
  }

  function Front(events: seq<Event>): seq<Event>
    requires events != []
  {
    events[..|events| - 1]
  }

  function Last(events: seq<Event>): Event
    requires events != []
  {
    events[|events| - 1]
  }

  /** The events can happen one after the other, starting with `n` empty tables. */
  ghost predicate Possible(n: nat, events: seq<Event>, id: Id)
    decreases |events|, 0
  {
    events != [] ==> Possible(n, Front(events), id) && Legal(After(n, Front(events), id), Last(events))
  }

  ghost function After(n: nat, events: seq<Event>, id: Id): (s: System)
    requires Possible(n, events, id)
    ensures |s.sites| == n
    decreases |events|, 1
  {
    if events == [] then Start(n) else Step(After(n, Front(events), id), Last(events), id)
  }

  /** All passes print numbers in the same way. */
  ghost predicate PrintedBy(events: seq<Event>, printed: real -> real) {
    forall e | e in events && e.Flush? :: forall x :: e.printed(x) == printed(x)
  }

  // ----- Conservation -----

  ghost predicate AllKeysOk(s: System) {
    forall i | 0 <= i < |s.sites| :: KeysOk(s.sites[i])
  }

  lemma StepKeepsKeysOk(s: System, e: Event, id: Id)
    requires Legal(s, e) && AllKeysOk(s)
    ensures AllKeysOk(Step(s, e, id))
  {
    var next := Step(s, e, id);
    assert KeysOk(s.sites[e.site]);
    assert KeysOk(next.sites[e.site]) by {
      hide FateOf, Marked, Accumulated, BooksAfterFlush, Added, MessagesOf, Sent;
    }
  }

  lemma StepKeepsBalance(s: System, e: Event, id: Id)
    requires Legal(s, e) && AllKeysOk(s) && Balanced(s, id)
    ensures Balanced(Step(s, e, id), id)
  {
    hide Balanced, Step, Legal, KeysOk;
    match e
    case Update(_, _, _, _, _, _) => UpdateKeepsBalance(s, e, id);
    case Flush(_, _, _, _, _, _) =>
      assert e.site < |s.sites| by { LegalSite(s, e); }
      FlushKeepsBalance(s, e, id);
    case Deliver(_, _, _) => DeliverKeepsBalance(s, e, id);
  }

  lemma LegalSite(s: System, e: Event)
    requires Legal(s, e)
    ensures e.site < |s.sites|
  {
  }

  lemma {:induction false} SumOfNothing(sites: seq<Table>, k: Key, id: Id)
    requires forall i | 0 <= i < |sites| :: AmountAt(sites[i], k, id) == ZERO
    ensures SumAt(sites, k, id) == ZERO
  {
    hide AmountAt;
    if sites != [] {
      SumOfNothing(sites[..|sites| - 1], k, id);
    }
  }

  /** Nothing but what is at one of the tables. */
  lemma OnlyAt(sites: seq<Table>, at: nat, k: Key, id: Id)
    requires at < |sites| && forall i | 0 <= i < |sites| && i != at :: AmountAt(sites[i], k, id) == ZERO
    ensures Plus(SumAt(sites, k, id), ZERO) == Plus(ZERO, AmountAt(sites[at], k, id))
  {
    var none: Table := map[];
    NoneThere(sites[at := none], at, k, id);
    SumUpdate(sites, at, none, k, id);
  }

  lemma NoneThere(sites: seq<Table>, at: nat, k: Key, id: Id)
    requires forall i | 0 <= i < |sites| :: i != at ==> AmountAt(sites[i], k, id) == ZERO
    requires at < |sites| ==> k !in sites[at]
    ensures SumAt(sites, k, id) == ZERO
  {
    SumOfNothing(sites, k, id);
  }

  lemma NothingAtStart(n: nat, id: Id)
    ensures Balanced(Start(n), id) && AllKeysOk(Start(n))
  {
    hide SumAt, Balanced, InFlight;
    NothingFor(n, SenderKey(id), id);
    NothingFor(n, HeldKey(id), id);
    NothingIsBalanced(Start(n), id);
  }

  lemma NothingFor(n: nat, k: Key, id: Id)
    ensures SumAt(Start(n).sites, k, id) == ZERO
  {
    NoneThere(Start(n).sites, n, k, id);
  }

  lemma NothingIsBalanced(s: System, id: Id)
    requires SumAt(s.sites, SenderKey(id), id) == ZERO && SumAt(s.sites, HeldKey(id), id) == ZERO
    requires s.topic == [] && s.books == NoBooks()
    ensures Balanced(s, id)
  {
    hide Balanced, SumAt;
    ExactIsBalanced(s, id);
  }

  lemma ExactIsBalanced(s: System, id: Id)
    requires In(s.books) == Accounted(s, id)
    ensures Balanced(s, id)
  {
    hide Plus, Accounted, SameAmount, In;
    SameAmountItself(Accounted(s, id));
  }

  lemma LastStep(n: nat, events: seq<Event>, id: Id)
    requires Possible(n, events, id) && events != []
    ensures Possible(n, Front(events), id) && Legal(After(n, Front(events), id), Last(events))
    ensures After(n, events, id) == Step(After(n, Front(events), id), Last(events), id)
  {
    hide Step, Legal;
  }

  /**
   In every run, whatever fails and however updates, passes and deliveries interleave, what was
   added to a metric, counted for messages without a count, and changed by printing sums, is what
   is pending at senders, in flight, held at owners, retired, or was cleared by a failed publication.
   */
  lemma {:induction false} Conservation(n: nat, events: seq<Event>, id: Id)
    requires Possible(n, events, id)
    ensures Balanced(After(n, events, id), id) && AllKeysOk(After(n, events, id))
  {
    hide Balanced, AllKeysOk, Step, Legal, Start;
    if events == [] {
      NothingAtStart(n, id);
    } else {
      hide Possible, After;
      LastStep(n, events, id);
      Conservation(n, Front(events), id);
      StepKeepsKeysOk(After(n, Front(events), id), Last(events), id);
      StepKeepsBalance(After(n, Front(events), id), Last(events), id);
    }
  }

  // ----- Runs without failures -----

  predicate AddsTo(e: Event, id: Id) {
    e.Update? && UpdateKey(e.name, e.aggregate, e.timestamp, e.delta) == SenderKey(id)
  }

  /** What callers added to the metric, and how often, from the calls alone. */
  function TrueTotal(events: seq<Event>, id: Id): Amount {
    if events == [] then ZERO
    else
      var e := Last(events);
      var before := TrueTotal(Front(events), id);
      if AddsTo(e, id) then Plus(before, AmountOf(MetricOf(e.delta), 1, id)) else before
  }

  /**
   The metric is aggregated; updates come strictly after the last flush of their entry;
   publications of it succeed; all its messages go to one owner, which does not retire it.
   */
  ghost predicate Smooth(s: System, e: Event, id: Id, owner: nat)
    requires Legal(s, e)
  {
    match e
    case Update(site, name, aggregate, delta, timestamp, now) =>
      var k := UpdateKey(name, aggregate, timestamp, delta);
      k != HeldKey(id) && (k == SenderKey(id) && k in s.sites[site] ==> now > s.sites[site][k].flushedMs)
    case Flush(site, _, _, produce, _, _) =>
      produce(SenderKey(id)) && FateIn(s.sites[site], e, HeldKey(id)) != Expire
    case Deliver(site, index, _) => IsFor(s.topic[index], id) ==> site == owner
  }

  ghost predicate SmoothRun(n: nat, events: seq<Event>, id: Id, owner: nat)
    requires Possible(n, events, id)
  {
    events != [] ==>
      SmoothRun(n, Front(events), id, owner) && Smooth(After(n, Front(events), id), Last(events), id, owner)
  }

  /** A clean entry at a sender has nothing left in it. */
  ghost predicate SenderOk(t: Table, id: Id) {
    SenderKey(id) in t && IsClean(t[SenderKey(id)]) ==> AmountAt(t, SenderKey(id), id) == ZERO
  }

  ghost predicate NothingGone(s: System, id: Id, owner: nat) {
    && s.books.retired == ZERO && s.books.lost == ZERO
    && (forall i | 0 <= i < |s.sites| :: SenderOk(s.sites[i], id) && (HeldKey(id) in s.sites[i] ==> i == owner))
  }

  lemma SmoothFlush(t: Table, e: Event, id: Id)
    requires e.Flush? && (forall k | k in e.order :: k in t) && SenderOk(t, id)
    requires e.produce(SenderKey(id)) && FateIn(t, e, HeldKey(id)) != Expire
    ensures SenderOk(FlushedTable(t, e), id)
    ensures HeldKey(id) in FlushedTable(t, e) ==> HeldKey(id) in t
  {
  }

  /** A smooth pass that publishes the metric is booked with what its message has beyond the entry. */
  lemma SmoothBooks(t: Table, e: Event, b: Books, id: Id)
    requires e.Flush? && (forall k | k in e.order :: k in t) && SenderOk(t, id)
    requires e.produce(SenderKey(id)) && FateIn(t, e, HeldKey(id)) != Expire
    ensures BooksAfterFlush(b, t, e, id) ==
            if FateIn(t, e, SenderKey(id)) != Publish then b
            else b.(madeUp := b.madeUp + MakesUpCount(t, SenderKey(id)), rounded := b.rounded + Rounding(t, SenderKey(id), e.printed),
                    published := b.published + 1)
  {
    if FateIn(t, e, SenderKey(id)) == Expire {
      ExpiredIsClean(t, e, SenderKey(id));
      assert IsZero(AmountAt(t, SenderKey(id), id));
    }
    hide Rounding, MakesUpCount, FateIn, SenderOk, AmountAt, Plus, IsZero;
    NothingMore(b.retired, AmountAt(t, SenderKey(id), id));
  }

  lemma NothingMore(a: Amount, none: Amount)
    ensures IsZero(none) ==> Plus(a, none) == a && Plus(none, a) == a
  {
  }

  lemma ExpiredIsClean(t: Table, e: Event, k: Key)
    requires e.Flush? && FateIn(t, e, k) == Expire
    ensures k in t && IsClean(t[k])
  {
  }

  lemma SmoothUpdate(t: Table, k: Key, delta: Delta, now: nat, id: Id)
    requires k in t ==> SameKind(t[k].metric, MetricOf(delta))
    requires SenderOk(t, id) && k != HeldKey(id)
    requires k == SenderKey(id) && k in t ==> now > t[k].flushedMs
    ensures SenderOk(Updated(t, k, delta, now), id)
    ensures HeldKey(id) in Updated(t, k, delta, now) ==> HeldKey(id) in t
  {
    hide Accumulated;
  }

  lemma SmoothDelivery(t: Table, m: Message, now: nat, id: Id)
    requires OwnerKey(m) in t ==> SameKind(t[OwnerKey(m)].metric, m.metric)
    requires SenderOk(t, id)
    ensures SenderOk(Delivered(t, m, now), id)
    ensures HeldKey(id) in Delivered(t, m, now) ==> HeldKey(id) in t || IsFor(m, id)
  {
    hide Accumulated;
  }

  lemma StepKeepsAll(s: System, e: Event, id: Id, owner: nat)
    requires Legal(s, e) && Smooth(s, e, id, owner) && NothingGone(s, id, owner)
    ensures NothingGone(Step(s, e, id), id, owner)
  {
    hide SenderOk, FlushedTable, BooksAfterFlush, Added, Updated, Delivered, FateIn, AmountOf, Plus, MakesUpCount, Rounding;
    var t := s.sites[e.site];
    match e
    case Update(_, name, aggregate, delta, timestamp, now) =>
      SmoothUpdate(t, UpdateKey(name, aggregate, timestamp, delta), delta, now, id);
    case Flush(_, _, _, _, _, _) =>
      SmoothFlush(t, e, id);
      SmoothBooks(t, e, s.books, id);
    case Deliver(_, index, now) => SmoothDelivery(t, s.topic[index], now, id);
  }

  lemma {:induction false} NothingIsLost(n: nat, events: seq<Event>, id: Id, owner: nat)
    requires Possible(n, events, id) && SmoothRun(n, events, id, owner)
    ensures NothingGone(After(n, events, id), id, owner)
  {
    if events != [] {
      hide NothingGone, Step, Legal, Smooth;
      NothingIsLost(n, Front(events), id, owner);
      StepKeepsAll(After(n, Front(events), id), Last(events), id, owner);
    }
  }

  // ----- What a quiescent metric shows -----

  /** Everything has been flushed by the senders and delivered. */
  ghost predicate Quiescent(s: System, id: Id) {
    && (forall i | 0 <= i < |s.sites| :: SenderKey(id) in s.sites[i] ==> IsClean(s.sites[i][SenderKey(id)]))
    && (forall m | m in s.topic :: !IsFor(m, id))
  }

  lemma {:induction false} NothingInFlight(topic: seq<Message>, id: Id)
    requires forall m | m in topic :: !IsFor(m, id)
    ensures InFlight(topic, id) == ZERO
  {
    if topic != [] {
      NothingInFlight(topic[..|topic| - 1], id);
    }
  }

  lemma NothingPending(s: System, id: Id, owner: nat)
    requires NothingGone(s, id, owner) && Quiescent(s, id)
    ensures SumAt(s.sites, SenderKey(id), id) == s.books.retired == s.books.lost == ZERO && (forall m | m in s.topic :: !IsFor(m, id))
    ensures forall i | 0 <= i < |s.sites| && i != owner :: AmountAt(s.sites[i], HeldKey(id), id) == ZERO
  {
    forall i | 0 <= i < |s.sites|
      ensures AmountAt(s.sites[i], SenderKey(id), id) == ZERO
    {
      assert SenderOk(s.sites[i], id);
    }
    hide AmountAt, SenderOk;
    SumOfNothing(s.sites, SenderKey(id), id);
  }

  lemma QuietOwner(s: System, id: Id, owner: nat)
    requires Balanced(s, id) && NothingGone(s, id, owner) && Quiescent(s, id) && owner < |s.sites|
    ensures SameAmount(In(s.books), AmountAt(s.sites[owner], HeldKey(id), id))
  {
    hide *;
    NothingPending(s, id, owner);
    NothingInFlight(s.topic, id);
    ZeroIsZero();
    OnlyAt(s.sites, owner, HeldKey(id), id);
    HeldIsAll(SumAt(s.sites, SenderKey(id), id), InFlight(s.topic, id), SumAt(s.sites, HeldKey(id), id), s.books.retired, s.books.lost,
              ZERO, AmountAt(s.sites[owner], HeldKey(id), id));
    BalanceIs(s, id);
  }

  lemma BalanceIs(s: System, id: Id)
    requires Balanced(s, id)
    ensures SameAmount(In(s.books), Plus(Plus(SumAt(s.sites, SenderKey(id), id), InFlight(s.topic, id)),
                                         Plus(SumAt(s.sites, HeldKey(id), id), Plus(s.books.retired, s.books.lost))))
  {
    hide Plus, SumAt, InFlight, In;
  }

  predicate IsZero(a: Amount) {
    a.integer == 0 && a.sum == 0.0 && a.count == 0 && a.samples == 0
  }

  lemma ZeroIsZero()
    ensures IsZero(ZERO)
  {
  }

  lemma HeldIsAll(pending: Amount, flying: Amount, held: Amount, retired: Amount, lost: Amount, none: Amount, at: Amount)
    requires IsZero(pending) && IsZero(flying) && IsZero(retired) && IsZero(lost) && IsZero(none)
    requires Plus(held, none) == Plus(none, at)
    ensures Plus(Plus(pending, flying), Plus(held, Plus(retired, lost))) == at
  {
    hide Plus, IsZero;
    NothingMore(held, none);
    NothingMore(at, none);
    NothingMore(retired, lost);
    NothingMore(held, retired);
    NothingMore(flying, pending);
    NothingMore(held, flying);
  }

  /** Once all is quiet, the owner holds what came in, with what was made up and what printing changed. */
  lemma OwnerHoldsIncome(n: nat, events: seq<Event>, id: Id, owner: nat)
    requires Possible(n, events, id) && SmoothRun(n, events, id, owner) && owner < n
    requires Quiescent(After(n, events, id), id)
    ensures SameAmount(In(After(n, events, id).books), AmountAt(After(n, events, id).sites[owner], HeldKey(id), id))
  {
    hide *;
    Conservation(n, events, id);
    NothingIsLost(n, events, id, owner);
    QuietOwner(After(n, events, id), id, owner);
  }
}
