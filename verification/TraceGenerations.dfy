/**
 What the transaction store holds, without its filters: a current and a last generation of
 records, and the three operations that change them. A run is a sequence of timed operations.
 */
module TraceGenerations {
  import opened Stripes
  import opened Wrappers

  type Id = seq<byte>
  type Blob = seq<byte>

  datatype Record =
    | Root(blob: Blob, firstSeenMs: nat, lastModifiedMs: nat, ttl: nat)
    | Child(blob: Blob, firstSeenMs: nat, ttl: nat)
    | OpenMs(ms: nat)

  type Generation = map<Id, Record>

  const DASH: byte := 45
  const TEN_MINUTES_MS := 600000

  /** The key of a generation's creation time: "tm_transaction_store_open_ms". */
  function Meta(): Id {
    [116, 109, 95, 116, 114, 97, 110, 115, 97, 99, 116, 105, 111, 110, 95,
     115, 116, 111, 114, 101, 95, 111, 112, 101, 110, 95, 109, 115]
  }

  /** `epoch` numbers the current generation; the last one is numbered `epoch - 1`. */
  datatype Store = Store(current: Generation, currentOpenMs: nat, last: Generation, lastOpenMs: nat, epoch: nat)

  /** An event is what a caller does, at the time the clock shows; `hexId` is missing for documents without an event. */
  datatype Event =
    | Put(now: nat, id: Id, blob: Blob, firstSeenMs: nat, ttl: nat)
    | AddChild(now: nat, id: Id, hexId: Option<Id>, blob: Blob, ttl: nat)
    | DeleteOld(now: nat, reopenMs: nat)

  function ChildKey(id: Id, hexId: Id): Id {
    id + [DASH] + hexId
  }

  function Ttl(ttl: nat, lookbackSecs: nat): nat {
    if ttl == 0 then lookbackSecs + 300 else ttl
  }

  function Touched(record: Record, now: nat): Record {
    if record.Root? then record.(lastModifiedMs := now) else record
  }

  /** A child is stored beside the root it belongs to, whose modification time is renewed. */
  function WithChild(g: Generation, e: Event, lookbackSecs: nat): Generation
    requires e.AddChild?
  {
    var touched := if e.id in g then g[e.id := Touched(g[e.id], e.now)] else g;
    if e.hexId.None? then touched
    else touched[ChildKey(e.id, e.hexId.value) := Child(e.blob, e.now, Ttl(e.ttl, lookbackSecs))]
  }

  /** When an environment is opened, it says when it was created; a new one is stamped now. */
  function OpenedMs(g: Generation, now: nat): nat {
    if Meta() in g && g[Meta()].OpenMs? then g[Meta()].ms else now
  }

  /** The store over what is found on disk; a generation without a stamp gets one. */
  function Opened(diskCurrent: Generation, diskLast: Generation, currentMs: nat, lastMs: nat): Store {
    var current := if Meta() in diskCurrent then diskCurrent else diskCurrent[Meta() := OpenMs(currentMs)];
    var last := if Meta() in diskLast then diskLast else diskLast[Meta() := OpenMs(lastMs)];
    Store(current, OpenedMs(current, currentMs), last, OpenedMs(last, lastMs), 0)
  }

  lemma MetaSpells()
    ensures |Meta()| == 28
    ensures Meta()[0] as int == 't' as int && Meta()[1] as int == 'm' as int && Meta()[2] as int == '_' as int
    ensures Meta()[3] as int == 't' as int && Meta()[4] as int == 'r' as int && Meta()[5] as int == 'a' as int
    ensures Meta()[6] as int == 'n' as int && Meta()[7] as int == 's' as int && Meta()[8] as int == 'a' as int
    ensures Meta()[9] as int == 'c' as int && Meta()[10] as int == 't' as int && Meta()[11] as int == 'i' as int
    ensures Meta()[12] as int == 'o' as int && Meta()[13] as int == 'n' as int && Meta()[14] as int == '_' as int
    ensures Meta()[15] as int == 's' as int && Meta()[16] as int == 't' as int && Meta()[17] as int == 'o' as int
    ensures Meta()[18] as int == 'r' as int && Meta()[19] as int == 'e' as int && Meta()[20] as int == '_' as int
    ensures Meta()[21] as int == 'o' as int && Meta()[22] as int == 'p' as int && Meta()[23] as int == 'e' as int
    ensures Meta()[24] as int == 'n' as int && Meta()[25] as int == '_' as int && Meta()[26] as int == 'm' as int
    ensures Meta()[27] as int == 's' as int
  {
  }

  /** An environment that says when it was created keeps that time; another one is stamped with the present time. */
  lemma OpenedStamps(diskCurrent: Generation, diskLast: Generation, currentMs: nat, lastMs: nat)
    ensures var s := Opened(diskCurrent, diskLast, currentMs, lastMs);
            && (Meta() !in diskCurrent ==> s.currentOpenMs == currentMs && s.current == diskCurrent[Meta() := OpenMs(currentMs)])
            && (Meta() in diskCurrent ==> s.current == diskCurrent)
            && (Meta() in diskCurrent && diskCurrent[Meta()].OpenMs? ==> s.currentOpenMs == diskCurrent[Meta()].ms)
            && (Meta() !in diskLast ==> s.lastOpenMs == lastMs && s.last == diskLast[Meta() := OpenMs(lastMs)])
            && (Meta() in diskLast ==> s.last == diskLast)
            && (Meta() in diskLast && diskLast[Meta()].OpenMs? ==> s.lastOpenMs == diskLast[Meta()].ms)
  {
    hide Meta;
  }

  predicate Expired(s: Store, now: nat) {
    now > s.currentOpenMs && now - s.currentOpenMs > TEN_MINUTES_MS
  }

  function Step(s: Store, e: Event, lookbackSecs: nat): Store {
    match e
    case Put(now, id, blob, first, ttl) =>
      if id == [] then s
      else s.(current := s.current[id := Root(blob, first, now, Ttl(ttl, lookbackSecs))])
    case AddChild(now, id, hexId, blob, ttl) =>
      if id in s.last then s.(last := WithChild(s.last, e, lookbackSecs))
      else s.(current := WithChild(s.current, e, lookbackSecs))
    case DeleteOld(now, reopenMs) =>
      if !Expired(s, now) then s
      else Store(map[Meta() := OpenMs(reopenMs)], reopenMs, s.current, OpenedMs(s.current, reopenMs), s.epoch + 1)
  }

  function Run(s: Store, events: seq<Event>, lookbackSecs: nat): Store
    decreases |events|
  {
    if events == [] then s
    else Step(Run(s, events[..|events| - 1], lookbackSecs), events[|events| - 1], lookbackSecs)
  }

  /** The plain lookup: the last generation first, then the current one. */
  function Lookup(last: Generation, current: Generation, id: Id): Option<Record> {
    if id in last then Some(last[id])
    else if id in current then Some(current[id])
    else None
  }

  // ----- Time -----

  /** The clock never goes back, also not between deciding to rotate and reopening. */
  ghost predicate Monotone(events: seq<Event>) {
    && (forall i, j | 0 <= i < j < |events| :: EndOf(events[i]) <= events[j].now)
    && (forall i | 0 <= i < |events| :: events[i].now <= EndOf(events[i]))
  }

  function EndOf(e: Event): nat {
    if e.DeleteOld? then e.reopenMs else e.now
  }

  /** A trace that was put at time `t` is found until at least ten minutes later. */
  lemma {:induction false} KeptTenMinutes(s: Store, events: seq<Event>, i: nat, lookbackSecs: nat)
    requires Monotone(events) && i < |events| && events[i].Put? && events[i].id != []
    requires forall j | i < j < |events| :: events[j].now <= events[i].now + 600000
    ensures var end := Run(s, events, lookbackSecs); Lookup(end.last, end.current, events[i].id).Some?
    ensures var end := Run(s, events, lookbackSecs);
            events[i].id in end.current || (events[i].id in end.last && end.currentOpenMs >= events[i].now)
    decreases |events|
  {
    var most := events[..|events| - 1];
    if i < |most| {
      KeptTenMinutes(s, most, i, lookbackSecs);
      assert events[i].now <= events[|most|].now;
    }
  }

  /** The bound is sharp: a millisecond later the trace may be gone. */
  lemma TenMinutesIsTight(id: Id)
    requires id != [] && id != Meta()
    ensures var t := TEN_MINUTES_MS + 1;
            var events := [Put(t, id, [], t, 0), DeleteOld(t, t), DeleteOld(t + TEN_MINUTES_MS + 1, t + TEN_MINUTES_MS + 1)];
            var end := Run(Store(map[], 0, map[], 0, 0), events, 0);
            Monotone(events) && Lookup(end.last, end.current, id).None?
  {
    hide Meta, OpenedMs, Ttl;
    var t := TEN_MINUTES_MS + 1;
    var s0 := Store(map[], 0, map[], 0, 0);
    var put, first, second := Put(t, id, [], t, 0), DeleteOld(t, t), DeleteOld(t + TEN_MINUTES_MS + 1, t + TEN_MINUTES_MS + 1);
    var events := [put, first, second];
    assert events[..2] == [put, first] && [put, first][..1] == [put] && [put][..0] == [];
    assert Run(s0, [], 0) == s0;
    assert Run(s0, [put], 0) == Step(s0, put, 0);
    assert Run(s0, [put, first], 0) == Step(Step(s0, put, 0), first, 0);
    assert Run(s0, events, 0) == Step(Step(Step(s0, put, 0), first, 0), second, 0);
    hide Run;
    assert Step(Step(s0, put, 0), first, 0).currentOpenMs == t;
    assert Run(s0, events, 0).last == map[Meta() := OpenMs(t)];
  }

  // ----- Generations -----

  /** The generation numbered `n`, while it is held. */
  function Numbered(s: Store, n: int): Option<Generation> {
    if n == s.epoch then Some(s.current)
    else if n == s.epoch - 1 then Some(s.last)
    else None
  }

  lemma StepKeepsKeys(s: Store, e: Event, lookbackSecs: nat, n: int)
    ensures var next := Step(s, e, lookbackSecs);
            && s.epoch <= next.epoch
            && (Numbered(s, n).Some? && Numbered(next, n).Some? ==>
                  Numbered(s, n).value.Keys <= Numbered(next, n).value.Keys)
            && (n < s.epoch && Numbered(s, n).None? ==> Numbered(next, n).None?)
  {
  }

  /** A generation only gains keys, until it is dropped as a whole and for good. */
  lemma {:induction false} GenerationsOnlyGrow(s: Store, events: seq<Event>, lookbackSecs: nat, n: int)
    requires n <= s.epoch
    ensures var end := Run(s, events, lookbackSecs);
            && s.epoch <= end.epoch
            && (Numbered(s, n).Some? && Numbered(end, n).Some? ==>
                  Numbered(s, n).value.Keys <= Numbered(end, n).value.Keys)
            && (Numbered(s, n).None? ==> Numbered(end, n).None?)
    decreases |events|
  {
    if events != [] {
      var most := events[..|events| - 1];
      GenerationsOnlyGrow(s, most, lookbackSecs, n);
      StepKeepsKeys(Run(s, most, lookbackSecs), events[|events| - 1], lookbackSecs, n);
    }
  }

  /** A child added while its root is visible shares the root's generation until both are dropped together. */
  lemma ChildStaysWithRoot(s: Store, e: Event, after: seq<Event>, lookbackSecs: nat)
    requires e.AddChild? && e.hexId.Some? && Lookup(s.last, s.current, e.id).Some?
    ensures var n := if e.id in s.last then s.epoch - 1 else s.epoch as int;
            var end := Run(Step(s, e, lookbackSecs), after, lookbackSecs);
            Numbered(end, n).Some? ==>
              e.id in Numbered(end, n).value && ChildKey(e.id, e.hexId.value) in Numbered(end, n).value
  {
    var n := if e.id in s.last then s.epoch - 1 else s.epoch as int;
    GenerationsOnlyGrow(Step(s, e, lookbackSecs), after, lookbackSecs, n);
  }

  // ----- When a trace is found -----

  /** The event stores a record under this key. */
  predicate Stores(e: Event, key: Id) {
    (e.Put? && e.id == key) || (e.AddChild? && e.hexId.Some? && ChildKey(e.id, e.hexId.value) == key)
  }

  /** The key is in the generation numbered `n`, while that is held, and in no later one. */
  ghost predicate StoredIn(s: Store, key: Id, n: int) {
    && n <= s.epoch
    && (Numbered(s, n).Some? ==> key in Numbered(s, n).value)
    && (forall m | m > n && Numbered(s, m).Some? :: key !in Numbered(s, m).value)
  }

  lemma StepKeepsStored(s: Store, e: Event, lookbackSecs: nat, key: Id, n: int)
    requires StoredIn(s, key, n) && !Stores(e, key) && key != Meta()
    ensures StoredIn(Step(s, e, lookbackSecs), key, n)
  {
    hide Meta, OpenedMs, Touched, ChildKey, Ttl;
    var next := Step(s, e, lookbackSecs);
    assert Numbered(s, s.epoch) == Some(s.current) && Numbered(s, s.epoch - 1) == Some(s.last);
    assert key in next.last <==> key in (if next.epoch == s.epoch then s.last else s.current);
    assert key in next.current <==> next.epoch == s.epoch && key in s.current;
  }

  lemma {:induction false} StaysStored(s: Store, events: seq<Event>, i: nat, lookbackSecs: nat)
    requires i < |events| && events[i].Put? && events[i].id != [] && events[i].id != Meta()
    requires forall j | i < j < |events| :: !Stores(events[j], events[i].id)
    ensures StoredIn(Run(s, events, lookbackSecs), events[i].id, Run(s, events[..i + 1], lookbackSecs).epoch)
    decreases |events|
  {
    hide Meta, Step;
    var most, e := events[..|events| - 1], events[|events| - 1];
    if i < |most| {
      StaysStored(s, most, i, lookbackSecs);
      assert most[..i + 1] == events[..i + 1];
      StepKeepsStored(Run(s, most, lookbackSecs), e, lookbackSecs, events[i].id, Run(s, events[..i + 1], lookbackSecs).epoch);
    } else {
      assert events[..i + 1] == events;
      PutIsStored(Run(s, most, lookbackSecs), e, lookbackSecs);
    }
  }

  lemma PutIsStored(s: Store, e: Event, lookbackSecs: nat)
    requires e.Put? && e.id != []
    ensures StoredIn(Step(s, e, lookbackSecs), e.id, Step(s, e, lookbackSecs).epoch)
  {
  }

  /** A trace is found exactly as long as there has been at most one rotation since it was last put. */
  lemma FoundExactly(s: Store, events: seq<Event>, i: nat, lookbackSecs: nat)
    requires i < |events| && events[i].Put? && events[i].id != [] && events[i].id != Meta()
    requires forall j | i < j < |events| :: !Stores(events[j], events[i].id)
    ensures var atPut, end := Run(s, events[..i + 1], lookbackSecs), Run(s, events, lookbackSecs);
            Lookup(end.last, end.current, events[i].id).Some? <==> end.epoch - atPut.epoch <= 1
  {
    StaysStored(s, events, i, lookbackSecs);
    hide Run, Meta, Stores;
    var end := Run(s, events, lookbackSecs);
    assert Numbered(end, end.epoch).Some? && Numbered(end, end.epoch - 1).Some?;
  }

  // ----- What is found -----

  /** The event is a put of the trace, or a child of it, and goes to the generation numbered `n`. */
  predicate GoesTo(s: Store, events: seq<Event>, k: nat, lookbackSecs: nat, id: Id, n: int)
    requires k < |events|
  {
    var before := Run(s, events[..k], lookbackSecs);
    match events[k]
    case Put(_, at, _, _, _) => at == id && n == before.epoch
    case AddChild(_, at, _, _, _) => at == id && n == if id in before.last then before.epoch - 1 else before.epoch
    case DeleteOld(_, _) => false
  }

  predicate PutsIn(s: Store, events: seq<Event>, k: nat, lookbackSecs: nat, id: Id, n: int)
    requires k < |events|
  {
    events[k].Put? && GoesTo(s, events, k, lookbackSecs, id, n)
  }

  /** No event stores a child under the trace's own key. */
  ghost predicate NoChildKey(events: seq<Event>, id: Id) {
    forall k | 0 <= k < |events| && events[k].AddChild? && events[k].hexId.Some? :: events[k].id + [45] + events[k].hexId.value != id
  }

  lemma StepKeepsRecord(s: Store, e: Event, lookbackSecs: nat, id: Id, n: int)
    requires id != Meta() && n <= s.epoch && (Numbered(s, n).Some? ==> id in Numbered(s, n).value)
    requires e.AddChild? && e.hexId.Some? ==> ChildKey(e.id, e.hexId.value) != id
    requires e.Put? ==> !(e.id == id && n == s.epoch)
    ensures var next := Step(s, e, lookbackSecs);
            && n <= next.epoch
            && (Numbered(next, n).Some? ==>
                  && Numbered(s, n).Some? && id in Numbered(next, n).value
                  && Numbered(next, n).value[id] ==
                     if e.AddChild? && e.id == id && n == (if id in s.last then s.epoch - 1 else s.epoch)
                     then Touched(Numbered(s, n).value[id], e.now) else Numbered(s, n).value[id])
  {
    hide Meta, OpenedMs, Touched, ChildKey, Ttl;
  }

  lemma {:induction false} NotYetNumbered(s: Store, events: seq<Event>, lookbackSecs: nat)
    ensures s.epoch <= Run(s, events, lookbackSecs).epoch
    decreases |events|
  {
    if events != [] {
      NotYetNumbered(s, events[..|events| - 1], lookbackSecs);
    }
  }

  /**
   As long as a generation is held, what it has for a trace is the latest document put there: with
   its own first-seen time and time to live, the default standing for zero, and with the time of
   the latest put or child of the trace that went there.
   */
  lemma {:induction false} RecordIsLatestPut(s: Store, events: seq<Event>, lookbackSecs: nat, id: Id, n: int, i: nat, j: nat)
    requires id != [] && id != Meta() && NoChildKey(events, id)
    requires i <= j < |events| && PutsIn(s, events, i, lookbackSecs, id, n) && GoesTo(s, events, j, lookbackSecs, id, n)
    requires forall k | i < k < |events| :: !PutsIn(s, events, k, lookbackSecs, id, n)
    requires forall k | j < k < |events| :: !GoesTo(s, events, k, lookbackSecs, id, n)
    ensures var end, put := Run(s, events, lookbackSecs), events[i];
            && n <= end.epoch
            && (Numbered(end, n).Some? ==>
                  && id in Numbered(end, n).value
                  && Numbered(end, n).value[id] ==
                     Root(put.blob, put.firstSeenMs, events[j].now, if put.ttl == 0 then lookbackSecs + 300 else put.ttl))
    decreases |events|
  {
    var most, e := events[..|events| - 1], events[|events| - 1];
    SameForFront(s, events, lookbackSecs, id, n);
    assert events[..|most|] == most;
    if i < |most| {
      var j' := j;
      if j == |most| {
        j' := LatestBefore(s, events, lookbackSecs, id, n, i, j);
      }
      TouchedIs(events[i], events[j'].now, events[j].now, lookbackSecs);
      assert most[i] == events[i] && most[j'] == events[j'];
      RecordIsLatestPut(s, most, lookbackSecs, id, n, i, j');
      assert !PutsIn(s, events, |most|, lookbackSecs, id, n) && (GoesTo(s, events, |most|, lookbackSecs, id, n) <==> j == |most|);
      hide Meta, Step, Touched;
      StepKeepsRecord(Run(s, most, lookbackSecs), e, lookbackSecs, id, n);
    } else {
      hide Meta;
    }
  }

  lemma SameForFront(s: Store, events: seq<Event>, lookbackSecs: nat, id: Id, n: int)
    requires events != []
    ensures var most := events[..|events| - 1];
            && (NoChildKey(events, id) ==> NoChildKey(most, id))
            && forall k | 0 <= k < |most| ::
                 && (GoesTo(s, most, k, lookbackSecs, id, n) <==> GoesTo(s, events, k, lookbackSecs, id, n))
                 && (PutsIn(s, most, k, lookbackSecs, id, n) <==> PutsIn(s, events, k, lookbackSecs, id, n))
  {
    hide Run;
    var most := events[..|events| - 1];
    forall k | 0 <= k < |most|
      ensures most[..k] == events[..k] && most[k] == events[k]
    {
    }
  }

  lemma TouchedIs(put: Event, was: nat, now: nat, lookbackSecs: nat)
    requires put.Put?
    ensures var ttl := if put.ttl == 0 then lookbackSecs + 300 else put.ttl;
            Touched(Root(put.blob, put.firstSeenMs, was, ttl), now) == Root(put.blob, put.firstSeenMs, now, ttl)
  {
  }

  /** The latest event before `j` that went to the generation. */
  lemma LatestBefore(s: Store, events: seq<Event>, lookbackSecs: nat, id: Id, n: int, i: nat, j: nat) returns (m: nat)
    requires i < j <= |events| && GoesTo(s, events, i, lookbackSecs, id, n)
    ensures i <= m < j && GoesTo(s, events, m, lookbackSecs, id, n)
    ensures forall k | m < k < j :: !GoesTo(s, events, k, lookbackSecs, id, n)
  {
    m := j - 1;
    while !GoesTo(s, events, m, lookbackSecs, id, n)
      invariant i <= m < j
      invariant forall k | m < k < j :: !GoesTo(s, events, k, lookbackSecs, id, n)
      decreases m
    {
      m := m - 1;
    }
  }

  /** A lookup yields that document, unless the last generation has an older one. */
  lemma FoundIsLatestPut(s: Store, events: seq<Event>, lookbackSecs: nat, id: Id, n: int, i: nat, j: nat)
    requires id != [] && id != Meta() && NoChildKey(events, id)
    requires i <= j < |events| && PutsIn(s, events, i, lookbackSecs, id, n) && GoesTo(s, events, j, lookbackSecs, id, n)
    requires forall k | i < k < |events| :: !PutsIn(s, events, k, lookbackSecs, id, n)
    requires forall k | j < k < |events| :: !GoesTo(s, events, k, lookbackSecs, id, n)
    ensures var end, put := Run(s, events, lookbackSecs), events[i];
            n == end.epoch - 1 || (n == end.epoch && id !in end.last) ==>
              Lookup(end.last, end.current, id) ==
              Some(Root(put.blob, put.firstSeenMs, events[j].now, if put.ttl == 0 then lookbackSecs + 300 else put.ttl))
  {
    RecordIsLatestPut(s, events, lookbackSecs, id, n, i, j);
    hide Run, PutsIn, GoesTo, NoChildKey, Meta;
  }

  /** After a rotation, a second document put for a trace stays hidden behind the first. */
  lemma OlderDocumentIsFound(id: Id, first: Blob, second: Blob)
    requires id != [] && id != Meta()
    ensures var t := TEN_MINUTES_MS + 1;
            var events := [Put(0, id, first, 0, 60), DeleteOld(t, t), Put(t, id, second, 0, 60)];
            var end := Run(Store(map[], 0, map[], 0, 0), events, 0);
            Lookup(end.last, end.current, id) == Some(Root(first, 0, 0, 60))
  {
    hide Meta, OpenedMs, Ttl;
    var t := TEN_MINUTES_MS + 1;
    var s0 := Store(map[], 0, map[], 0, 0);
    var put, rotate, again := Put(0, id, first, 0, 60), DeleteOld(t, t), Put(t, id, second, 0, 60);
    assert [put, rotate, again][..2] == [put, rotate] && [put, rotate][..1] == [put] && [put][..0] == [];
    assert Run(s0, [], 0) == s0;
    assert Run(s0, [put], 0) == Step(s0, put, 0);
    assert Run(s0, [put, rotate], 0) == Step(Step(s0, put, 0), rotate, 0);
    assert Run(s0, [put, rotate, again], 0) == Step(Step(Step(s0, put, 0), rotate, 0), again, 0);
    hide Run;
    SixtySeconds();
    assert Step(s0, put, 0).current == map[id := Root(first, 0, 0, 60)];
    assert Step(Step(s0, put, 0), rotate, 0).last == map[id := Root(first, 0, 0, 60)];
  }

  lemma SixtySeconds()
    ensures Ttl(60, 0) == 60
  {
  }
}
