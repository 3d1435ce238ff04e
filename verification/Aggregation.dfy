/**
 The two-stage aggregation protocol. Every instance accumulates updates and, in flush passes,
 moves what it has into a topic; what arrives there is added up again by the owner of the key.
 A run is any sequence of updates, flush passes and deliveries at any of the tables.
 */
module Aggregation {
  import opened MetricTable
  import opened Words

  /** The metric whose amounts are followed, and one bucket of it in case it is a histogram. */
  datatype Id = Id(name: string, timestamp: nat, bucket: Bucket)

  /** What a metric has seen: the counter, the sum, the count, and the samples in the bucket. */
  datatype Amount = Amount(integer: int, sum: real, count: int, samples: int)

  const ZERO := Amount(0, 0.0, 0, 0)

  function Plus(a: Amount, b: Amount): Amount {
    Amount(a.integer + b.integer, a.sum + b.sum, a.count + b.count, a.samples + b.samples)
  }

  /** Counters are only known modulo 2^64. */
  predicate SameAmount(a: Amount, b: Amount) {
    (a.integer - b.integer) % TWO_64 == 0 && a.sum == b.sum && a.count == b.count && a.samples == b.samples
  }

  /** Only numbers carry their count along. */
  function AmountOf(m: Metric, count: nat, id: Id): Amount {
    match m
    case Number(x) => Amount(0, x, count, 0)
    case Histogram(bins) => Amount(0, 0.0, 0, bins[id.bucket])
    case Integer(n) => Amount(n, 0.0, 0, 0)
  }

  function AmountAt(t: Table, k: Key, id: Id): Amount {
    if k in t then AmountOf(t[k].metric, t[k].count, id) else ZERO
  }

  function AmountArriving(m: Message, id: Id): Amount {
    AmountOf(m.metric, ArrivingCount(m), id)
  }

  // ----- The system -----

  function SenderKey(id: Id): Key { Key(id.timestamp, id.name, true, false) }
  function HeldKey(id: Id): Key { Key(id.timestamp, id.name, false, false) }
  predicate IsFor(m: Message, id: Id) { m.name == id.name && m.timestamp == id.timestamp }

  /**
   Book-keeping for one metric: what callers have added, what was dropped with retired entries,
   what was cleared without being published, the counts made up for messages that had none, what
   printing has changed sums by, and how often the metric was published.
   */
  datatype Books = Books(added: Amount, retired: Amount, lost: Amount, madeUp: int, rounded: real, published: nat)

  /** One table for each instance and team, and the messages that have not been delivered yet. */
  datatype System = System(sites: seq<Table>, topic: seq<Message>, books: Books)

  datatype Event =
    | Update(site: nat, name: string, aggregate: bool, delta: Delta, timestamp: nat, now: nat)
    | Flush(site: nat, now: nat, order: seq<Key>, produce: Key -> bool, printed: real -> real, stamps: map<Key, nat>)
    | Deliver(site: nat, index: nat, now: nat)

  /** Each name is used for one kind of metric; a pass gets to distinct entries; deliveries are of messages in flight. */
  ghost predicate Legal(s: System, e: Event) {
    e.site < |s.sites| &&
    match e
    case Update(site, name, aggregate, delta, timestamp, _) =>
      var k := UpdateKey(name, aggregate, timestamp, delta);
      k in s.sites[site] ==> SameKind(s.sites[site][k].metric, MetricOf(delta))
    case Flush(site, _, order, _, _, _) =>
      NoDuplicates(order) && forall k | k in order :: k in s.sites[site]
    case Deliver(site, index, _) =>
      index < |s.topic| &&
      var k := OwnerKey(s.topic[index]);
      k in s.sites[site] ==> SameKind(s.sites[site][k].metric, s.topic[index].metric)
  }

  /** What an update adds to the metric: creating an entry always counts one. */
  function Added(t: Table, k: Key, delta: Delta, id: Id): Amount {
    AmountOf(MetricOf(delta), if k in t then CountOf(delta) else 1, id)
  }

  function Sent(t: Table, e: Event): seq<Key>
    requires e.Flush? && forall k | k in e.order :: k in t
  {
    Chosen(Having(t, e.now, e.order, Publish), e.produce)
  }

  ghost function FlushedTable(t: Table, e: Event): Table
    requires e.Flush? && forall k | k in e.order :: k in t
  {
    AfterPass(t, e.now, ToSet(e.order), SentKeys(t, e.now, e.order, e.produce), e.stamps)
  }

  function FateIn(t: Table, e: Event, k: Key): Fate
    requires e.Flush?
  {
    if k in t && k in e.order then FateOf(k, t[k], e.now) else Wait
  }

  /** Whether a message for this entry makes the owner count an update that nobody made. */
  function MakesUpCount(t: Table, k: Key): int {
    if k in t && t[k].metric.Number? && t[k].count == 0 then 1 else 0
  }

  /** What printing the sum of an entry changes it by. */
  function Rounding(t: Table, k: Key, printed: real -> real): real {
    if k in t && t[k].metric.Number? then printed(t[k].metric.number) - t[k].metric.number else 0.0
  }

  /** What a message has beyond what its entry had. */
  function Extra(t: Table, k: Key, printed: real -> real): Amount {
    Amount(0, Rounding(t, k, printed), MakesUpCount(t, k), 0)
  }

  /** What a pass does to the books, given the fate and the amount of the metric's entry at a sender. */
  function BookedForSender(b: Books, fate: Fate, ok: bool, pending: Amount, extra: Amount): Books {
    match fate
    case Expire => b.(retired := Plus(b.retired, pending))
    case Publish =>
      if ok then b.(madeUp := b.madeUp + extra.count, rounded := b.rounded + extra.sum, published := b.published + 1)
      else b.(lost := Plus(b.lost, pending))
    case _ => b
  }

  function BookedForHeld(b: Books, fate: Fate, total: Amount): Books {
    if fate == Expire then b.(retired := Plus(b.retired, total)) else b
  }

  function SenderBooks(b: Books, t: Table, e: Event, id: Id): Books
    requires e.Flush?
  {
    var k := SenderKey(id);
    BookedForSender(b, FateIn(t, e, k), e.produce(k), AmountAt(t, k, id), Extra(t, k, e.printed))
  }

  /** What a pass at this table does to the books of the metric. */
  function BooksAfterFlush(b: Books, t: Table, e: Event, id: Id): Books
    requires e.Flush?
  {
    BookedForHeld(SenderBooks(b, t, e, id), FateIn(t, e, HeldKey(id)), AmountAt(t, HeldKey(id), id))
  }

  ghost function Step(s: System, e: Event, id: Id): System
    requires Legal(s, e)
  {
    match e
    case Update(site, name, aggregate, delta, timestamp, now) =>
      var t, k := s.sites[site], UpdateKey(name, aggregate, timestamp, delta);
      var b := if k == SenderKey(id) || k == HeldKey(id) then s.books.(added := Plus(s.books.added, Added(t, k, delta, id))) else s.books;
      s.(sites := s.sites[site := Updated(t, k, delta, now)], books := b)
    case Flush(site, _, _, _, _, _) =>
      var t := s.sites[site];
      System(s.sites[site := FlushedTable(t, e)], s.topic + MessagesOf(t, Sent(t, e), e.printed), BooksAfterFlush(s.books, t, e, id))
    case Deliver(site, index, now) =>
      s.(sites := s.sites[site := Delivered(s.sites[site], s.topic[index], now)],
         topic := s.topic[..index] + s.topic[index + 1..])
  }

  // ----- Conservation -----

  function SumAt(sites: seq<Table>, k: Key, id: Id): Amount {
    if sites == [] then ZERO else Plus(SumAt(sites[..|sites| - 1], k, id), AmountAt(sites[|sites| - 1], k, id))
  }

  function InFlight(topic: seq<Message>, id: Id): Amount {
    if topic == [] then ZERO
    else Plus(InFlight(topic[..|topic| - 1], id), ArrivingFor(topic[|topic| - 1], id))
  }

  function ArrivingFor(m: Message, id: Id): Amount {
    if IsFor(m, id) then AmountArriving(m, id) else ZERO
  }

  /** Pending at senders, in flight, held at owners, retired and lost. */
  function Accounted(s: System, id: Id): Amount {
    Plus(Plus(SumAt(s.sites, SenderKey(id), id), InFlight(s.topic, id)),
         Plus(SumAt(s.sites, HeldKey(id), id), Plus(s.books.retired, s.books.lost)))
  }

  /** What the books say has come in: from callers, made up, and by printing. */
  function In(b: Books): Amount {
    Plus(b.added, Amount(0, b.rounded, b.madeUp, 0))
  }

  ghost predicate Balanced(s: System, id: Id) {
    SameAmount(In(s.books), Accounted(s, id))
  }

  lemma {:induction false} SumUpdate(sites: seq<Table>, i: nat, t: Table, k: Key, id: Id)
    requires i < |sites|
    ensures Plus(SumAt(sites[i := t], k, id), AmountAt(sites[i], k, id)) == Plus(SumAt(sites, k, id), AmountAt(t, k, id))
  {
    hide AmountAt;
    var front := sites[..|sites| - 1];
    if i == |sites| - 1 {
      assert sites[i := t][..i] == front;
    } else {
      SumUpdate(front, i, t, k, id);
      assert sites[i := t][..|sites| - 1] == front[i := t];
    }
  }

  lemma PlusLaws(a: Amount, b: Amount, c: Amount)
    ensures Plus(Plus(a, b), c) == Plus(a, Plus(b, c)) && Plus(a, b) == Plus(b, a) && Plus(a, ZERO) == a
  {
  }

  lemma {:induction false} InFlightAppend(a: seq<Message>, b: seq<Message>, id: Id)
    ensures InFlight(a + b, id) == Plus(InFlight(a, id), InFlight(b, id))
  {
    hide ArrivingFor, Plus;
    if b == [] {
      assert a + b == a;
      PlusLaws(InFlight(a, id), ZERO, ZERO);
    } else {
      var front := b[..|b| - 1];
      InFlightAppend(a, front, id);
      assert (a + b)[..|a + b| - 1] == a + front;
      PlusLaws(InFlight(a, id), InFlight(front, id), ArrivingFor(b[|b| - 1], id));
    }
  }

  lemma InFlightRemove(topic: seq<Message>, i: nat, id: Id)
    requires i < |topic|
    ensures InFlight(topic, id) == Plus(InFlight(topic[..i] + topic[i + 1..], id), ArrivingFor(topic[i], id))
  {
    hide ArrivingFor, Plus;
    var front, back := topic[..i], topic[i + 1..];
    assert topic == front + [topic[i]] + back;
    InFlightAppend(front + [topic[i]], back, id);
    InFlightAppend(front, back, id);
    assert (front + [topic[i]])[..i] == front;
    PlusLaws(InFlight(front, id), ArrivingFor(topic[i], id), InFlight(back, id));
    PlusLaws(InFlight(front, id), InFlight(back, id), ArrivingFor(topic[i], id));
    PlusLaws(InFlight(back, id), ArrivingFor(topic[i], id), ZERO);
  }

  /** Among the messages of a pass there is one for the metric exactly if its entry was sent. */
  lemma {:induction false} InFlightOfPass(t: Table, keys: seq<Key>, printed: real -> real, id: Id)
    requires NoDuplicates(keys) && forall k | k in keys :: k in t && k.aggregate && !k.immediateFlush
    ensures InFlight(MessagesOf(t, keys, printed), id) ==
            if SenderKey(id) in keys then AmountArriving(MessageOf(SenderKey(id), t[SenderKey(id)], printed), id) else ZERO
  {
    hide AmountArriving, Plus;
    if keys != [] {
      var front, last := keys[..|keys| - 1], keys[|keys| - 1];
      InFlightOfPass(t, front, printed, id);
      assert MessagesOf(t, keys, printed)[..|keys| - 1] == MessagesOf(t, front, printed);
      assert IsFor(MessageOf(last, t[last], printed), id) <==> last == SenderKey(id);
      assert keys == front + [last] && last !in front;
      PlusLaws(InFlight(MessagesOf(t, front, printed), id), ZERO, ZERO);
      PlusLaws(ZERO, ArrivingFor(MessageOf(last, t[last], printed), id), ZERO);
      PlusLaws(ArrivingFor(MessageOf(last, t[last], printed), id), ZERO, ZERO);
    }
  }

  /** Aggregated entries never flush immediately. */
  ghost predicate KeysOk(t: Table) {
    forall k | k in t :: k.aggregate ==> !k.immediateFlush
  }

  /** The two entries of the metric in one table. */
  function BothAt(t: Table, id: Id): Amount {
    Plus(AmountAt(t, SenderKey(id), id), AmountAt(t, HeldKey(id), id))
  }

  /** What the books say is gone. */
  function Gone(b: Books): Amount {
    Plus(b.retired, b.lost)
  }

  /** If what changes at one table, in flight and in the books evens out, the balance is kept. */
  lemma LocalBalance(s: System, next: System, site: nat, t: Table, id: Id)
    requires Balanced(s, id) && site < |s.sites| && next.sites == s.sites[site := t]
    requires SameAmount(Plus(Plus(In(next.books), Gone(s.books)), Plus(BothAt(s.sites[site], id), InFlight(s.topic, id))),
                        Plus(Plus(In(s.books), Gone(next.books)), Plus(BothAt(t, id), InFlight(next.topic, id))))
    ensures Balanced(next, id)
  {
    hide AmountAt, InFlight, SumAt;
    SumUpdate(s.sites, site, t, SenderKey(id), id);
    SumUpdate(s.sites, site, t, HeldKey(id), id);
    MultiplesAdd(In(s.books).integer - Accounted(s, id).integer,
                 Plus(Plus(In(next.books), Gone(s.books)), Plus(BothAt(s.sites[site], id), InFlight(s.topic, id))).integer -
                 Plus(Plus(In(s.books), Gone(next.books)), Plus(BothAt(t, id), InFlight(next.topic, id))).integer);
  }

  lemma MultiplesAdd(a: int, b: int)
    requires a % TWO_64 == 0 && b % TWO_64 == 0
    ensures (a + b) % TWO_64 == 0
  {
  }

  lemma UpdateKeepsBalance(s: System, e: Event, id: Id)
    requires Legal(s, e) && e.Update? && Balanced(s, id)
    ensures Balanced(Step(s, e, id), id)
  {
    hide Balanced, InFlight, AmountAt, Added, Updated;
    var t := s.sites[e.site];
    var k := UpdateKey(e.name, e.aggregate, e.timestamp, e.delta);
    UpdatedAmount(t, k, e.delta, e.now, id);
    LocalBalance(s, Step(s, e, id), e.site, Updated(t, k, e.delta, e.now), id);
  }

  lemma UpdatedAmount(t: Table, k: Key, delta: Delta, now: nat, id: Id)
    requires k in t ==> SameKind(t[k].metric, MetricOf(delta))
    ensures SameAmount(AmountAt(Updated(t, k, delta, now), k, id), Plus(AmountAt(t, k, id), Added(t, k, delta, id)))
    ensures forall j | j != k :: AmountAt(Updated(t, k, delta, now), j, id) == AmountAt(t, j, id)
  {
  }

  lemma AccumulatedAmount(a: Metric, b: Metric, aCount: nat, bCount: nat, id: Id)
    requires SameKind(a, b)
    ensures SameAmount(AmountOf(Accumulated(a, b), aCount + bCount, id), Plus(AmountOf(a, aCount, id), AmountOf(b, bCount, id)))
  {
  }

  lemma OnlyNumbersCount(m: Metric, a: nat, b: nat, id: Id)
    requires !m.Number?
    ensures AmountOf(m, a, id) == AmountOf(m, b, id)
  {
  }

  lemma SameAmountItself(a: Amount)
    ensures SameAmount(a, a) && SameAmount(a, Plus(ZERO, a)) && SameAmount(a, Plus(a, ZERO))
  {
  }

  lemma DeliveredAmount(t: Table, m: Message, now: nat, id: Id)
    requires OwnerKey(m) in t ==> SameKind(t[OwnerKey(m)].metric, m.metric)
    ensures SameAmount(AmountAt(Delivered(t, m, now), HeldKey(id), id), Plus(AmountAt(t, HeldKey(id), id), ArrivingFor(m, id)))
    ensures AmountAt(Delivered(t, m, now), SenderKey(id), id) == AmountAt(t, SenderKey(id), id)
  {
    hide AmountOf, Plus, SameAmount, Accumulated, ArrivingCount;
    assert OwnerKey(m) == HeldKey(id) <==> IsFor(m, id);
    SameAmountItself(AmountAt(t, HeldKey(id), id));
    SameAmountItself(AmountArriving(m, id));
    if IsFor(m, id) {
      if OwnerKey(m) in t {
        var v := t[OwnerKey(m)];
        AccumulatedAmount(v.metric, m.metric, v.count, ArrivingCount(m), id);
        if !m.metric.Number? {
          AccumulatedKind(v.metric, m.metric);
          OnlyNumbersCount(Accumulated(v.metric, m.metric), v.count, v.count + ArrivingCount(m), id);
        }
      } else if !m.metric.Number? {
        OnlyNumbersCount(m.metric, 1, ArrivingCount(m), id);
      }
    }
  }

  lemma AccumulatedKind(a: Metric, b: Metric)
    requires SameKind(a, b)
    ensures SameKind(Accumulated(a, b), b)
  {
  }

  lemma DeliverKeepsBalance(s: System, e: Event, id: Id)
    requires Legal(s, e) && e.Deliver? && Balanced(s, id)
    ensures Balanced(Step(s, e, id), id)
  {
    hide Balanced, InFlight, AmountAt, ArrivingFor, Delivered;
    var t, m := s.sites[e.site], s.topic[e.index];
    DeliveredAmount(t, m, e.now, id);
    InFlightRemove(s.topic, e.index, id);
    LocalBalance(s, Step(s, e, id), e.site, Delivered(t, m, e.now), id);
  }

  lemma KeyAfterFlush(t: Table, e: Event, k: Key, id: Id)
    requires e.Flush? && forall j | j in e.order :: j in t
    ensures AmountAt(FlushedTable(t, e), k, id) ==
            if FateIn(t, e, k) == Expire || FateIn(t, e, k) == Publish then ZERO else AmountAt(t, k, id)
  {
    hide FateOf;
  }

  lemma ArrivingAmount(t: Table, k: Key, printed: real -> real, id: Id)
    requires k in t
    ensures AmountArriving(MessageOf(k, t[k], printed), id) == Plus(AmountAt(t, k, id), Extra(t, k, printed))
  {
  }

  lemma SentAmount(t: Table, e: Event, id: Id)
    requires e.Flush? && NoDuplicates(e.order) && (forall k | k in e.order :: k in t) && KeysOk(t)
    ensures forall k | k in Sent(t, e) :: k in t
    ensures var k := SenderKey(id);
            InFlight(MessagesOf(t, Sent(t, e), e.printed), id) ==
            if FateIn(t, e, k) == Publish && e.produce(k)
            then Plus(AmountAt(t, k, id), Extra(t, k, e.printed))
            else ZERO
  {
    hide FateOf, InFlight, Having, Chosen, AmountArriving, AmountOf;
    HavingHasNoDuplicates(t, e.now, e.order, Publish);
    ChosenHasNoDuplicates(Having(t, e.now, e.order, Publish), e.produce);
    PublishedAreAggregated(t, e);
    InFlightOfPass(t, Sent(t, e), e.printed, id);
    if SenderKey(id) in t {
      ArrivingAmount(t, SenderKey(id), e.printed, id);
    }
  }

  /** What comes in and goes out as the books say, with what is left of an entry and what was sent. */
  predicate EvensOut(before: Books, after: Books, was: Amount, left: Amount, sent: Amount) {
    Plus(Plus(In(after), Gone(before)), was) == Plus(Plus(In(before), Gone(after)), Plus(left, sent))
  }

  lemma PlusMoves(a: Amount, b: Amount, c: Amount, d: Amount)
    ensures Plus(Plus(Plus(a, b), c), d) == Plus(Plus(a, c), Plus(d, b))
  {
  }

  /** Nothing happens, an amount is gone, or it is sent with something extra. */
  lemma ThreeWays(before: Books, after: Books, was: Amount, extra: Amount)
    ensures In(after) == In(before) && Gone(after) == Gone(before) ==> EvensOut(before, after, was, was, ZERO)
    ensures In(after) == In(before) && Gone(after) == Plus(Gone(before), was) ==> EvensOut(before, after, was, ZERO, ZERO)
    ensures In(after) == Plus(In(before), extra) && Gone(after) == Gone(before) ==>
            EvensOut(before, after, was, ZERO, Plus(was, extra))
  {
    var i, g := In(before), Gone(before);
    PlusLaws(i, g, was);
    PlusLaws(was, ZERO, ZERO);
    PlusLaws(ZERO, ZERO, ZERO);
    PlusLaws(Plus(i, Plus(g, was)), ZERO, ZERO);
    PlusLaws(ZERO, Plus(was, extra), ZERO);
    PlusLaws(Plus(was, extra), ZERO, ZERO);
    PlusMoves(i, extra, g, was);
    hide In, Gone, Plus;
  }

  lemma SenderEvensOut(b: Books, fate: Fate, ok: bool, pending: Amount, extra: Amount)
    requires extra.integer == 0 && extra.samples == 0
    ensures EvensOut(b, BookedForSender(b, fate, ok, pending, extra), pending,
                     if fate == Expire || fate == Publish then ZERO else pending,
                     if fate == Publish && ok then Plus(pending, extra) else ZERO)
  {
    var after := BookedForSender(b, fate, ok, pending, extra);
    ThreeWays(b, after, pending, extra);
    hide EvensOut;
    assert In(after) == if fate == Publish && ok then Plus(In(b), extra) else In(b);
    assert Gone(after) == if fate == Expire || (fate == Publish && !ok) then Plus(Gone(b), pending) else Gone(b);
  }

  lemma HeldEvensOut(b: Books, fate: Fate, total: Amount)
    ensures EvensOut(b, BookedForHeld(b, fate, total), total, if fate == Expire then ZERO else total, ZERO)
  {
    ThreeWays(b, BookedForHeld(b, fate, total), total, ZERO);
    hide EvensOut;
  }

  lemma BothEvenOut(b: Books, b1: Books, b2: Books, pending: Amount, pending': Amount, sent: Amount, total: Amount, total': Amount)
    requires EvensOut(b, b1, pending, pending', sent) && EvensOut(b1, b2, total, total', ZERO)
    ensures EvensOut(b, b2, Plus(pending, total), Plus(pending', total'), sent)
  {
    hide In, Gone;
  }

  lemma FlushedSender(t: Table, e: Event, b: Books, id: Id)
    requires e.Flush? && NoDuplicates(e.order) && (forall k | k in e.order :: k in t) && KeysOk(t)
    ensures forall k | k in Sent(t, e) :: k in t
    ensures EvensOut(b, SenderBooks(b, t, e, id), AmountAt(t, SenderKey(id), id), AmountAt(FlushedTable(t, e), SenderKey(id), id),
                     InFlight(MessagesOf(t, Sent(t, e), e.printed), id))
  {
    hide *;
    var k := SenderKey(id);
    SentAmount(t, e, id);
    KeyAfterFlush(t, e, k, id);
    FlushedSenderAs(b, SenderBooks(b, t, e, id), t, e, id, AmountAt(FlushedTable(t, e), k, id),
                    InFlight(MessagesOf(t, Sent(t, e), e.printed), id));
  }

  lemma FlushedSenderAs(b: Books, b1: Books, t: Table, e: Event, id: Id, left: Amount, sent: Amount)
    requires e.Flush? && b1 == SenderBooks(b, t, e, id)
    requires var k := SenderKey(id);
             && left == (if FateIn(t, e, k) == Expire || FateIn(t, e, k) == Publish then ZERO else AmountAt(t, k, id))
             && sent == (if FateIn(t, e, k) == Publish && e.produce(k) then Plus(AmountAt(t, k, id), Extra(t, k, e.printed)) else ZERO)
    ensures EvensOut(b, b1, AmountAt(t, SenderKey(id), id), left, sent)
  {
    hide AmountAt, FateIn, BookedForSender, EvensOut, Plus;
    var k := SenderKey(id);
    SenderEvensOut(b, FateIn(t, e, k), e.produce(k), AmountAt(t, k, id), Extra(t, k, e.printed));
  }

  lemma FlushedHeld(t: Table, e: Event, b: Books, id: Id)
    requires e.Flush? && forall k | k in e.order :: k in t
    ensures EvensOut(b, BookedForHeld(b, FateIn(t, e, HeldKey(id)), AmountAt(t, HeldKey(id), id)),
                     AmountAt(t, HeldKey(id), id), AmountAt(FlushedTable(t, e), HeldKey(id), id), ZERO)
  {
    hide FlushedTable, AmountAt, EvensOut;
    HeldEvensOut(b, FateIn(t, e, HeldKey(id)), AmountAt(t, HeldKey(id), id));
    HeldIsNotPublished(t, e, id);
    KeyAfterFlush(t, e, HeldKey(id), id);
  }

  /** A pass takes the metric's entries out of the table exactly as the books say. */
  lemma FlushedAmount(t: Table, e: Event, b: Books, id: Id)
    requires e.Flush? && NoDuplicates(e.order) && (forall k | k in e.order :: k in t) && KeysOk(t)
    ensures forall k | k in Sent(t, e) :: k in t
    ensures var b' := BooksAfterFlush(b, t, e, id);
            EvensOut(b, b', BothAt(t, id), BothAt(FlushedTable(t, e), id), InFlight(MessagesOf(t, Sent(t, e), e.printed), id))
  {
    hide InFlight, FlushedTable, AmountAt, Sent, MessagesOf, FateIn, BookedForHeld, SenderBooks, Plus, EvensOut;
    var b1 := SenderBooks(b, t, e, id);
    FlushedSender(t, e, b, id);
    FlushedHeld(t, e, b1, id);
    BothEvenOut(b, b1, BooksAfterFlush(b, t, e, id), AmountAt(t, SenderKey(id), id), AmountAt(FlushedTable(t, e), SenderKey(id), id),
                InFlight(MessagesOf(t, Sent(t, e), e.printed), id), AmountAt(t, HeldKey(id), id),
                AmountAt(FlushedTable(t, e), HeldKey(id), id));
  }

  lemma PublishedAreAggregated(t: Table, e: Event)
    requires e.Flush? && (forall k | k in e.order :: k in t) && KeysOk(t)
    ensures forall k | k in Sent(t, e) :: k in t && k.aggregate && !k.immediateFlush
    ensures forall k :: k in Sent(t, e) <==> FateIn(t, e, k) == Publish && e.produce(k)
  {
  }

  lemma HeldIsNotPublished(t: Table, e: Event, id: Id)
    requires e.Flush?
    ensures FateIn(t, e, HeldKey(id)) != Publish && FateIn(t, e, SenderKey(id)) != Journal
  {
  }

  lemma FlushKeepsBalance(s: System, e: Event, id: Id)
    requires Legal(s, e) && e.Flush? && Balanced(s, id) && KeysOk(s.sites[e.site])
    ensures Balanced(Step(s, e, id), id)
  {
    hide Balanced, InFlight, AmountAt, BooksAfterFlush, FlushedTable, Sent;
    var t := s.sites[e.site];
    FlushedAmount(t, e, s.books, id);
    InFlightAppend(s.topic, MessagesOf(t, Sent(t, e), e.printed), id);
    LocalBalance(s, Step(s, e, id), e.site, FlushedTable(t, e), id);
  }
}
