/**
 Collecting the children of a trace: a cursor is set to the trace id and advanced while the
 keys start with it. That this finds all children, and nothing else, rests on the keys with a
 given prefix being contiguous in the order of the database.
 */
module ChildScan {
  import opened Stripes
  import opened TraceGenerations
  import opened Wrappers

  const MAX_CHILD_COUNT := 1000

  /** What comes of reading a stored document back. */
  datatype Parsed = Corrupt | NotJson | Document(json: Blob)

  // ----- The order of keys -----

  /** Keys are compared byte by byte; a prefix comes before what it is a prefix of. */
  predicate Before(a: Id, b: Id) {
    if b == [] then false
    else if a == [] then true
    else if a[0] == b[0] then Before(a[1..], b[1..])
    else a[0] < b[0]
  }

  lemma {:induction false} BeforeIsTotal(a: Id, b: Id)
    ensures (Before(a, b) && !Before(b, a) && a != b) || (Before(b, a) && !Before(a, b) && a != b) ||
            (a == b && !Before(a, b))
  {
    if a != [] && b != [] && a[0] == b[0] {
      BeforeIsTotal(a[1..], b[1..]);
      assert a == [a[0]] + a[1..] && b == [b[0]] + b[1..];
    }
  }

  lemma {:induction false} BeforeIsTransitive(a: Id, b: Id, c: Id)
    requires Before(a, b) && Before(b, c)
    ensures Before(a, c)
  {
    if a != [] && b != [] && c != [] && a[0] == b[0] == c[0] {
      BeforeIsTransitive(a[1..], b[1..], c[1..]);
    }
  }

  /** The first byte that differs decides. */
  lemma {:induction false} FirstDifferenceDecides(p: Id, a: byte, x: Id, b: byte, y: Id)
    requires a != b
    ensures Before(p + [a] + x, p + [b] + y) <==> a < b
  {
    if p != [] {
      FirstDifferenceDecides(p[1..], a, x, b, y);
      assert (p + [a] + x)[1..] == p[1..] + [a] + x && (p + [b] + y)[1..] == p[1..] + [b] + y;
    } else {
      assert (p + [a] + x)[0] == a && (p + [b] + y)[0] == b;
    }
  }

  lemma {:induction false} PrefixIsBefore(p: Id, a: Id)
    requires p <= a
    ensures p == a || Before(p, a)
  {
    if p != [] {
      PrefixIsBefore(p[1..], a[1..]);
      assert p == [p[0]] + p[1..] && a == [a[0]] + a[1..];
    }
  }

  /** Between a prefix and a key that has it, every key has it. */
  lemma {:induction false} PrefixBlockIsContiguous(p: Id, a: Id, b: Id)
    requires p <= b && !Before(a, p) && !Before(b, a)
    ensures p <= a
  {
    if p != [] {
      if a == [] || a[0] != p[0] {
        BeforeIsTotal(a, b);
        assert false;
      } else {
        PrefixBlockIsContiguous(p[1..], a[1..], b[1..]);
        assert p == [p[0]] + p[1..] && a == [a[0]] + a[1..];
      }
    }
  }

  // ----- The scan -----

  ghost predicate Ordered(keys: seq<Id>) {
    forall i, j | 0 <= i < j < |keys| :: Before(keys[i], keys[j])
  }

  /** The keys that extend `id`, in order. */
  function Extending(keys: seq<Id>, id: Id): (block: seq<Id>)
    ensures forall k :: k in block <==> k in keys && id <= k && k != id
  {
    if keys == [] then []
    else (if id <= keys[0] && keys[0] != id then [keys[0]] else []) + Extending(keys[1..], id)
  }

  /** The documents read back from the first keys, until there are `room` of them; none if one is corrupt. */
  function Collect(g: Generation, parse: Record -> Parsed, keys: seq<Id>, room: nat): Option<seq<Blob>>
    requires forall k | k in keys :: k in g
  {
    if keys == [] || room == 0 then Some([])
    else
      match parse(g[keys[0]])
      case Corrupt => None
      case NotJson => Collect(g, parse, keys[1..], room)
      case Document(json) =>
        var rest := Collect(g, parse, keys[1..], room - 1);
        if rest.None? then None else Some([json] + rest.value)
  }

  /** The documents among the records at these keys. */
  function Documents(g: Generation, parse: Record -> Parsed, keys: seq<Id>): seq<Blob>
    requires forall k | k in keys :: k in g
  {
    if keys == [] then []
    else (if parse(g[keys[0]]).Document? then [parse(g[keys[0]]).json] else []) + Documents(g, parse, keys[1..])
  }

  /** The record at the `i`-th key is corrupt, and there was still room for documents when it was read. */
  predicate CorruptAt(g: Generation, parse: Record -> Parsed, keys: seq<Id>, room: nat, i: nat)
    requires forall k | k in keys :: k in g
  {
    i < |keys| && parse(g[keys[i]]).Corrupt? && |Documents(g, parse, keys[..i])| < room
  }

  lemma CorruptShifts(g: Generation, parse: Record -> Parsed, keys: seq<Id>, room: nat, less: nat, i: nat)
    requires keys != [] && (forall k | k in keys :: k in g)
    requires room == less + if parse(g[keys[0]]).Document? then 1 else 0
    ensures CorruptAt(g, parse, keys, room, i + 1) <==> CorruptAt(g, parse, keys[1..], less, i)
  {
    if i + 1 < |keys| {
      assert keys[..i + 1][1..] == keys[1..][..i] && keys[..i + 1][0] == keys[0];
    }
  }

  /**
   What is collected are the first documents, as many as there is room for; nothing, exactly if
   a corrupt record comes before there are that many.
   */
  lemma {:induction false} CollectExactly(g: Generation, parse: Record -> Parsed, keys: seq<Id>, room: nat)
    requires forall k | k in keys :: k in g
    ensures Collect(g, parse, keys, room).None? <==> exists i: nat :: CorruptAt(g, parse, keys, room, i)
    ensures var docs := Documents(g, parse, keys);
            Collect(g, parse, keys, room).Some? ==>
              Collect(g, parse, keys, room).value == if |docs| <= room then docs else docs[..room]
  {
    if keys != [] && room > 0 {
      var rest, parsed := keys[1..], parse(g[keys[0]]);
      var less := if parsed.Document? then room - 1 else room;
      CollectExactly(g, parse, rest, less);
      forall i: nat
        ensures CorruptAt(g, parse, keys, room, i + 1) <==> CorruptAt(g, parse, rest, less, i)
      {
        CorruptShifts(g, parse, keys, room, less, i);
      }
      assert keys[..0] == [];
      assert CorruptAt(g, parse, keys, room, 0) <==> parsed.Corrupt?;
      hide CorruptAt, Documents;
      if j: nat :| CorruptAt(g, parse, keys, room, j) {
        assert j == 0 || CorruptAt(g, parse, rest, less, j - 1);
      }
      if j: nat :| CorruptAt(g, parse, rest, less, j) {
        assert CorruptAt(g, parse, keys, room, j + 1);
      }
    }
  }

  /** MDB_SET_RANGE: the position of the first key that is not before `id`. */
  method SetRange(order: seq<Id>, id: Id) returns (at: nat)
    requires Ordered(order)
    ensures at <= |order|
    ensures forall i | 0 <= i < at :: Before(order[i], id)
    ensures forall i | at <= i < |order| :: !Before(order[i], id)
  {
    at := 0;
    while at < |order| && Before(order[at], id)
      invariant at <= |order|
      invariant forall i | 0 <= i < at :: Before(order[i], id)
    {
      at := at + 1;
    }
    forall i | at <= i < |order|
      ensures !Before(order[i], id)
    {
      if at < i && Before(order[i], id) {
        BeforeIsTransitive(order[at], order[i], id);
      }
    }
  }

  /** What the scan still has to collect from position `at` on. */
  ghost function Remaining(g: Generation, order: seq<Id>, parse: Record -> Parsed, id: Id, at: nat, room: nat): Option<seq<Blob>>
    requires at <= |order| && forall k | k in order :: k in g
  {
    Collect(g, parse, Extending(order[at..], id), room)
  }

  lemma RemainingStep(g: Generation, order: seq<Id>, parse: Record -> Parsed, id: Id, at: nat, room: nat)
    requires at < |order| && room > 0 && forall k | k in order :: k in g
    ensures var key := order[at];
            var now := Remaining(g, order, parse, id, at, room);
            if !(id <= key) || key == id then now == Remaining(g, order, parse, id, at + 1, room)
            else match parse(g[key])
              case Corrupt => now == None
              case NotJson => now == Remaining(g, order, parse, id, at + 1, room)
              case Document(json) => now == Prepend([json], Remaining(g, order, parse, id, at + 1, room - 1))
  {
    assert order[at..][1..] == order[at + 1..];
    var block := Extending(order[at + 1..], id);
    assert [order[at]] + block == Extending(order[at..], id) || [] + block == block == Extending(order[at..], id);
    assert ([order[at]] + block)[1..] == block;
  }

  function OrNothing(docs: Option<seq<Blob>>): seq<Blob> {
    if docs.Some? then docs.value else []
  }

  /** `order` is the order in which the database yields the keys of `g`. */
  method GetChildren(g: Generation, order: seq<Id>, parse: Record -> Parsed, id: Id) returns (children: seq<Blob>)
    requires Ordered(order) && forall k :: k in order <==> k in g
    ensures children == OrNothing(Collect(g, parse, Extending(order, id), 1000))
  {
    var at := SetRange(order, id);
    NothingBefore(order, id, at);
    children := ScanFrom(g, order, parse, id, at);
  }

  method ScanFrom(g: Generation, order: seq<Id>, parse: Record -> Parsed, id: Id, start: nat) returns (children: seq<Blob>)
    requires Ordered(order) && start <= |order|
    requires forall k | k in order :: k in g
    requires forall i | start <= i < |order| :: !Before(order[i], id)
    ensures children == OrNothing(Remaining(g, order, parse, id, start, MAX_CHILD_COUNT))
  {
    hide Extending, Remaining, Before, Collect, Prepend, Ordered;
    var at := start;
    children := [];
    ghost var all := Remaining(g, order, parse, id, start, MAX_CHILD_COUNT);
    PrependNothing(all);
    while at < |order|
      invariant start <= at <= |order| && |children| < MAX_CHILD_COUNT
      invariant all == Prepend(children, Remaining(g, order, parse, id, at, MAX_CHILD_COUNT - |children|))
    {
      var key := order[at];
      RemainingStep(g, order, parse, id, at, MAX_CHILD_COUNT - |children|);
      NothingMore(children);
      if !(id <= key) {
        NothingAfter(g, order, parse, id, at, MAX_CHILD_COUNT - |children|);
        return;
      }
      if |key| != |id| {
        var parsed := parse(g[key]);
        if parsed.Corrupt? {
          return [];
        }
        if parsed.Document? {
          PrependOne(children, parsed.json, Remaining(g, order, parse, id, at + 1, MAX_CHILD_COUNT - |children| - 1));
          children := children + [parsed.json];
          if |children| >= MAX_CHILD_COUNT {
            NothingMore(children);
            NoRoom(g, order, parse, id, at + 1);
            return;
          }
        }
      }
      at := at + 1;
    }
    NothingMore(children);
    NothingAtEnd(g, order, parse, id, MAX_CHILD_COUNT - |children|);
  }

  ghost function Prepend(docs: seq<Blob>, rest: Option<seq<Blob>>): Option<seq<Blob>> {
    if rest.None? then None else Some(docs + rest.value)
  }

  lemma PrependNothing(rest: Option<seq<Blob>>)
    ensures Prepend([], rest) == rest
  {
    assert rest.Some? ==> [] + rest.value == rest.value;
  }

  lemma NothingMore(docs: seq<Blob>)
    ensures Prepend(docs, Some([])) == Some(docs) && Prepend(docs, None) == None
  {
    assert docs + [] == docs;
  }

  lemma PrependOne(docs: seq<Blob>, doc: Blob, rest: Option<seq<Blob>>)
    ensures Prepend(docs, Prepend([doc], rest)) == Prepend(docs + [doc], rest)
  {
    assert rest.Some? ==> docs + ([doc] + rest.value) == docs + [doc] + rest.value;
  }

  lemma NoRoom(g: Generation, order: seq<Id>, parse: Record -> Parsed, id: Id, at: nat)
    requires at <= |order| && forall k | k in order :: k in g
    ensures Remaining(g, order, parse, id, at, 0) == Some([])
  {
  }

  lemma NothingAtEnd(g: Generation, order: seq<Id>, parse: Record -> Parsed, id: Id, room: nat)
    requires forall k | k in order :: k in g
    ensures Remaining(g, order, parse, id, |order|, room) == Some([])
  {
  }

  lemma {:induction false} NothingBefore(order: seq<Id>, id: Id, at: nat)
    requires at <= |order| && forall i | 0 <= i < at :: Before(order[i], id)
    ensures Extending(order[at..], id) == Extending(order, id)
  {
    if at == 0 {
      assert order[at..] == order;
    } else {
      NothingBefore(order[1..], id, at - 1);
      assert order[1..][at - 1..] == order[at..];
      if id <= order[0] {
        PrefixIsBefore(id, order[0]);
        BeforeIsTotal(id, order[0]);
      }
    }
  }

  lemma NothingAfter(g: Generation, order: seq<Id>, parse: Record -> Parsed, id: Id, at: nat, room: nat)
    requires Ordered(order) && at < |order| && !Before(order[at], id) && !(id <= order[at])
    requires forall k | k in order :: k in g
    ensures Remaining(g, order, parse, id, at, room) == Some([])
  {
    var block := Extending(order[at..], id);
    if block != [] {
      var k := block[0];
      assert k in order[at..];
      var i :| at <= i < |order| && order[i] == k;
      BeforeIsTotal(order[at], k);
      PrefixBlockIsContiguous(id, order[at], k);
    }
  }

  // ----- What the scan finds in a run -----

  /** The trace ids and the stamp's key, none of which is a prefix of another. */
  ghost predicate PrefixFree(ids: set<Id>) {
    Meta() in ids && forall a, b | a in ids && b in ids && a <= b :: a == b
  }

  ghost predicate TraceIds(events: seq<Event>, ids: set<Id>) {
    forall i | 0 <= i < |events| && !events[i].DeleteOld? :: events[i].id in ids
  }

  ghost predicate IsChildKey(id: Id, key: Id) {
    exists hexId :: key == id + [45] + hexId
  }

  /** The generation holds traces and children of these ids, as it does when it was written by such a store. */
  ghost predicate HoldsOnly(g: Generation, ids: set<Id>) {
    forall key | key in g :: key in ids || exists id :: id in ids && IsChildKey(id, key)
  }

  lemma OpenedHoldsOnly(diskCurrent: Generation, diskLast: Generation, currentMs: nat, lastMs: nat, ids: set<Id>)
    requires HoldsOnly(diskCurrent, ids) && HoldsOnly(diskLast, ids) && Meta() in ids
    ensures var s := Opened(diskCurrent, diskLast, currentMs, lastMs); HoldsOnly(s.current, ids) && HoldsOnly(s.last, ids)
  {
    hide Meta, OpenedMs;
  }

  /** Every key is a trace id, the stamp, or the key of a child of one of the traces. */
  lemma {:induction false} KeysAreKnown(s: Store, events: seq<Event>, ids: set<Id>, lookbackSecs: nat)
    requires TraceIds(events, ids) && Meta() in ids && HoldsOnly(s.current, ids) && HoldsOnly(s.last, ids)
    ensures var end := Run(s, events, lookbackSecs); HoldsOnly(end.current, ids) && HoldsOnly(end.last, ids)
    decreases |events|
  {
    if events != [] {
      var most, e := events[..|events| - 1], events[|events| - 1];
      KeysAreKnown(s, most, ids, lookbackSecs);
      assert !e.DeleteOld? ==> e.id in ids;
      StepKeysAreKnown(Run(s, most, lookbackSecs), e, ids, lookbackSecs);
    }
  }

  lemma ChildIs(e: Event, lookbackSecs: nat)
    requires e.AddChild? && e.hexId.Some?
    ensures ChildKey(e.id, e.hexId.value) == e.id + [45] + e.hexId.value
    ensures Ttl(e.ttl, lookbackSecs) == if e.ttl == 0 then lookbackSecs + 300 else e.ttl
  {
  }

  lemma StepKeysAreKnown(s: Store, e: Event, ids: set<Id>, lookbackSecs: nat)
    requires (!e.DeleteOld? ==> e.id in ids) && Meta() in ids && HoldsOnly(s.current, ids) && HoldsOnly(s.last, ids)
    ensures var next := Step(s, e, lookbackSecs); HoldsOnly(next.current, ids) && HoldsOnly(next.last, ids)
  {
    hide Meta, OpenedMs, Touched, Ttl, ChildKey;
    if e.AddChild? && e.hexId.Some? {
      ChildIs(e, lookbackSecs);
      assert IsChildKey(e.id, e.id + [45] + e.hexId.value);
    }
  }

  /** The record of the latest event that stored a child under this key in the generation numbered `n`. */
  function LatestChild(s: Store, events: seq<Event>, lookbackSecs: nat, key: Id, n: int): Option<Record>
    decreases |events|
  {
    if events == [] then None
    else
      var most, e := events[..|events| - 1], events[|events| - 1];
      var before := Run(s, most, lookbackSecs);
      if e.AddChild? && e.hexId.Some? && e.id + [45] + e.hexId.value == key &&
         n == (if e.id in before.last then before.epoch - 1 else before.epoch)
      then Some(Child(e.blob, e.now, if e.ttl == 0 then lookbackSecs + 300 else e.ttl))
      else LatestChild(s, most, lookbackSecs, key, n)
  }

  /** What the key of a child holds: the latest child, or else what was there at the start. */
  ghost predicate HoldsLatest(s: Store, end: Store, latest: Option<Record>, key: Id, n: int) {
    && (n > end.epoch ==> latest.None?)
    && (Numbered(end, n).Some? ==>
          && (key in Numbered(end, n).value <==> latest.Some? || (Numbered(s, n).Some? && key in Numbered(s, n).value))
          && (key in Numbered(end, n).value ==>
                Numbered(end, n).value[key] == if latest.Some? then latest.value else Numbered(s, n).value[key]))
    && end.epoch >= s.epoch
  }

  lemma StepHoldsLatest(s: Store, before: Store, latest: Option<Record>, e: Event, lookbackSecs: nat, key: Id, n: int)
    requires HoldsLatest(s, before, latest, key, n) && key != Meta() && (!e.DeleteOld? ==> e.id != key)
    ensures var here := e.AddChild? && e.hexId.Some? && e.id + [45] + e.hexId.value == key &&
                        n == (if e.id in before.last then before.epoch - 1 else before.epoch);
            var child := if here then Some(Child(e.blob, e.now, if e.ttl == 0 then lookbackSecs + 300 else e.ttl)) else latest;
            HoldsLatest(s, Step(before, e, lookbackSecs), child, key, n)
  {
    if e.AddChild? && e.hexId.Some? {
      ChildIs(e, lookbackSecs);
    }
    hide Meta, OpenedMs, Touched, Ttl, ChildKey;
  }

  lemma {:induction false} RecordIsLatestChild(s: Store, events: seq<Event>, ids: set<Id>, lookbackSecs: nat, key: Id, n: int)
    requires TraceIds(events, ids) && Meta() in ids && key !in ids
    ensures HoldsLatest(s, Run(s, events, lookbackSecs), LatestChild(s, events, lookbackSecs, key, n), key, n)
    decreases |events|
  {
    if events != [] {
      var most, e := events[..|events| - 1], events[|events| - 1];
      assert !e.DeleteOld? ==> e.id in ids;
      hide HoldsLatest, Meta, Step, Ttl, ChildKey;
      RecordIsLatestChild(s, most, ids, lookbackSecs, key, n);
      StepHoldsLatest(s, Run(s, most, lookbackSecs), LatestChild(s, most, lookbackSecs, key, n), e, lookbackSecs, key, n);
    }
  }

  lemma ExtendsOnlyItsOwnId(ids: set<Id>, id: Id, other: Id, hexId: Id)
    requires PrefixFree(ids) && id in ids && other in ids && id <= ChildKey(other, hexId)
    ensures id == other
  {
    var key := ChildKey(other, hexId);
    assert other <= key;
    assert id <= other || other <= id;
  }

  /**
   In either generation, what the scan goes through are exactly the children of this very trace
   that were stored in that generation, or were there at the start, each with its latest record.
   */
  lemma ScanFindsExactlyTheChildren(s: Store, events: seq<Event>, ids: set<Id>, lookbackSecs: nat,
                                    id: Id, inLast: bool, order: seq<Id>, key: Id)
    requires TraceIds(events, ids) && PrefixFree(ids) && id in ids && HoldsOnly(s.current, ids) && HoldsOnly(s.last, ids)
    requires var end := Run(s, events, lookbackSecs); forall k :: k in order <==> k in (if inLast then end.last else end.current)
    ensures var end := Run(s, events, lookbackSecs);
            var g, n := if inLast then end.last else end.current, if inLast then end.epoch - 1 else end.epoch as int;
            var latest := LatestChild(s, events, lookbackSecs, key, n);
            && (key in Extending(order, id) <==>
                  IsChildKey(id, key) && (latest.Some? || (Numbered(s, n).Some? && key in Numbered(s, n).value)))
            && (key in Extending(order, id) ==> g[key] == if latest.Some? then latest.value else Numbered(s, n).value[key])
  {
    var end := Run(s, events, lookbackSecs);
    var g, n := if inLast then end.last else end.current, if inLast then end.epoch - 1 else end.epoch as int;
    KeysAreKnown(s, events, ids, lookbackSecs);
    ExtendingAreChildren(g, order, ids, id, key);
    if IsChildKey(id, key) {
      ChildKeyIsNoId(ids, id, key);
      RecordIsLatestChild(s, events, ids, lookbackSecs, key, n);
      assert Numbered(end, n) == Some(g);
    }
    hide Run, LatestChild, TraceIds, PrefixFree, HoldsOnly, Extending, IsChildKey, Numbered;
  }

  /** What was found on disk for the generation numbered `n` of a store that has just been opened. */
  function OnDisk(diskCurrent: Generation, diskLast: Generation, n: int): Generation {
    if n == 0 then diskCurrent else if n == -1 then diskLast else map[]
  }

  /** For a store opened over what an earlier one left on disk: the children stored since, and those found there. */
  lemma OpenedScanFindsChildren(diskCurrent: Generation, diskLast: Generation, currentMs: nat, lastMs: nat, events: seq<Event>,
                                ids: set<Id>, lookbackSecs: nat, id: Id, inLast: bool, order: seq<Id>, key: Id)
    requires TraceIds(events, ids) && PrefixFree(ids) && id in ids && HoldsOnly(diskCurrent, ids) && HoldsOnly(diskLast, ids)
    requires var end := Run(Opened(diskCurrent, diskLast, currentMs, lastMs), events, lookbackSecs);
             forall k :: k in order <==> k in (if inLast then end.last else end.current)
    ensures var s := Opened(diskCurrent, diskLast, currentMs, lastMs);
            var end := Run(s, events, lookbackSecs);
            var g, n := if inLast then end.last else end.current, if inLast then end.epoch - 1 else end.epoch as int;
            var latest, disk := LatestChild(s, events, lookbackSecs, key, n), OnDisk(diskCurrent, diskLast, n);
            && (key in Extending(order, id) <==> IsChildKey(id, key) && (latest.Some? || key in disk))
            && (key in Extending(order, id) ==> g[key] == if latest.Some? then latest.value else disk[key])
  {
    var s := Opened(diskCurrent, diskLast, currentMs, lastMs);
    OpenedHoldsOnly(diskCurrent, diskLast, currentMs, lastMs, ids);
    ScanFindsExactlyTheChildren(s, events, ids, lookbackSecs, id, inLast, order, key);
    if IsChildKey(id, key) {
      ChildKeyIsNoId(ids, id, key);
      OpenedIsDisk(diskCurrent, diskLast, currentMs, lastMs, key);
    }
    hide Run, LatestChild, TraceIds, PrefixFree, HoldsOnly, Extending, IsChildKey, Meta, Opened;
  }

  /** Opening adds nothing to a generation but its stamp. */
  lemma OpenedIsDisk(diskCurrent: Generation, diskLast: Generation, currentMs: nat, lastMs: nat, key: Id)
    requires key != Meta()
    ensures forall n :: var held := Numbered(Opened(diskCurrent, diskLast, currentMs, lastMs), n);
              (key in OnDisk(diskCurrent, diskLast, n) <==> held.Some? && key in held.value) &&
              (key in OnDisk(diskCurrent, diskLast, n) ==> held.value[key] == OnDisk(diskCurrent, diskLast, n)[key])
  {
    hide Meta, OpenedMs;
  }

  lemma ExtendingAreChildren(g: Generation, order: seq<Id>, ids: set<Id>, id: Id, key: Id)
    requires PrefixFree(ids) && id in ids && HoldsOnly(g, ids) && forall k :: k in order <==> k in g
    ensures key in Extending(order, id) <==> key in g && IsChildKey(id, key)
  {
    hide Meta;
    if key in Extending(order, id) {
      assert key !in ids;
      var other :| other in ids && IsChildKey(other, key);
      var hexId :| key == other + [45] + hexId;
      ExtendsOnlyItsOwnId(ids, id, other, hexId);
    }
    if IsChildKey(id, key) {
      ChildKeyIsNoId(ids, id, key);
    }
  }

  lemma ChildKeyIsNoId(ids: set<Id>, id: Id, key: Id)
    requires PrefixFree(ids) && id in ids && IsChildKey(id, key)
    ensures key !in ids && id <= key && key != id
  {
  }

  lemma {:induction false} ExtendingIsOrdered(order: seq<Id>, id: Id)
    requires Ordered(order)
    ensures Ordered(Extending(order, id))
  {
    if order != [] {
      ExtendingIsOrdered(order[1..], id);
      forall k | k in order[1..]
        ensures Before(order[0], k)
      {
        var j :| 1 <= j < |order| && order[j] == k;
      }
    }
  }
}
