/**
 One team's table of metrics, as it is kept by every instance: updates accumulate in an entry,
 a flush pass publishes or journals entries and retires idle ones, and the owner of a key
 accumulates what arrives on the aggregation topic.
 */
module MetricTable {
  import opened Words

  const TWO_MB := 2097152
  const RETIRE_MS := 600000
  const AGGREGATE_DELAY_MS := 10000

  // a latency falls into a bucket of a histogram
  type Bucket = int

  /** The whole structure is the hash key, flags included. */
  datatype Key = Key(timestamp: nat, name: string, aggregate: bool, immediateFlush: bool)

  datatype Metric = Number(number: real) | Histogram(bins: multiset<Bucket>) | Integer(integer: nat)

  datatype Value = Value(metric: Metric, count: nat, lastSeen: nat, flushedMs: nat)

  type Table = map<Key, Value>

  /** What is added to an entry: by a caller, or from a message. */
  datatype Delta =
    | Counter(n: nat)
    | Average(x: real)
    | Numeric(y: real)
    | Sample(bucket: Bucket)

  predicate SameKind(a: Metric, b: Metric) {
    a.Number? == b.Number? && a.Histogram? == b.Histogram?
  }

  function MetricOf(delta: Delta): Metric {
    match delta
    case Counter(n) => Integer(n % TWO_64)
    case Average(x) => Number(x)
    case Numeric(y) => Number(y)
    case Sample(bucket) => Histogram(multiset{bucket})
  }

  /** Counters are 64-bit and wrap; an entry is only ever updated with its own kind of metric. */
  function Accumulated(a: Metric, b: Metric): Metric
    requires SameKind(a, b)
  {
    match a
    case Number(x) => Number(x + b.number)
    case Histogram(bins) => Histogram(bins + b.bins)
    case Integer(n) => Integer((n + b.integer) % TWO_64)
  }

  function Cleared(a: Metric): Metric {
    match a
    case Number(_) => Number(0.0)
    case Histogram(_) => Histogram(multiset{})
    case Integer(_) => Integer(0)
  }

  // ----- Updates -----

  /** Numbers that are not averages do not count their updates; neither do counters and histograms. */
  function CountOf(delta: Delta): nat {
    if delta.Average? then 1 else 0
  }

  /** A new entry always starts with a count of one. */
  function Updated(t: Table, k: Key, delta: Delta, now: nat): Table
    requires k in t ==> SameKind(t[k].metric, MetricOf(delta))
  {
    if k in t then
      var v := t[k];
      t[k := v.(metric := Accumulated(v.metric, MetricOf(delta)), count := v.count + CountOf(delta), lastSeen := now)]
    else t[k := Value(MetricOf(delta), 1, now, 0)]
  }

  /** Histograms never flush immediately; the other kinds do when they are not aggregated. */
  function UpdateKey(name: string, aggregate: bool, timestamp: nat, delta: Delta): Key {
    Key(timestamp, name, aggregate, !aggregate && !delta.Sample?)
  }

  // ----- Updates and deliveries, spelled out -----

  predicate OnlyAt(t: Table, u: Table, k: Key) {
    k in u && u.Keys == t.Keys + {k} && forall j | j in t && j != k :: u[j] == t[j]
  }

  /** From `t` to `u`, the entry at `k` takes one call: a sample counts in its own bucket and in no other. */
  ghost predicate TakesCall(t: Table, u: Table, k: Key, delta: Delta, now: nat) {
    && OnlyAt(t, u, k) && u[k].lastSeen == now && u[k].flushedMs == (if k in t then t[k].flushedMs else 0)
    && u[k].count == (if k !in t then 1 else if delta.Average? then t[k].count + 1 else t[k].count)
    && match (delta, u[k].metric)
       case (Counter(n), Integer(i)) =>
         if k in t && t[k].metric.Integer? then i == (t[k].metric.integer + n) % 0x1_0000_0000_0000_0000
         else k !in t && i == n % 0x1_0000_0000_0000_0000
       case (Average(x), Number(y)) => if k in t && t[k].metric.Number? then y == t[k].metric.number + x else k !in t && y == x
       case (Numeric(x), Number(y)) => if k in t && t[k].metric.Number? then y == t[k].metric.number + x else k !in t && y == x
       case (Sample(b), Histogram(bins)) =>
         bins[b] == SamplesAt(t, k, b) + 1 && forall c | c != b :: bins[c] == SamplesAt(t, k, c)
       case _ => false
  }

  function SamplesAt(t: Table, k: Key, b: Bucket): nat {
    if k in t && t[k].metric.Histogram? then t[k].metric.bins[b] else 0
  }

  lemma UpdatedTakesCall(t: Table, k: Key, delta: Delta, now: nat)
    requires k in t ==> SameKind(t[k].metric, MetricOf(delta))
    ensures TakesCall(t, Updated(t, k, delta, now), k, delta, now)
  {
    if k in t {
      EntryTakesCall(t, k, delta, now);
    }
  }

  lemma EntryTakesCall(t: Table, k: Key, delta: Delta, now: nat)
    requires k in t && SameKind(t[k].metric, MetricOf(delta))
    ensures TakesCall(t, Updated(t, k, delta, now), k, delta, now)
  {
    match delta
    case Counter(n) => WrappedSum(t[k].metric.integer, n);
    case Average(x) =>
    case Numeric(y) =>
    case Sample(b) =>
  }

  lemma WrappedSum(a: nat, b: nat)
    ensures (a + b % TWO_64) % TWO_64 == (a + b) % 0x1_0000_0000_0000_0000
  {
  }

  // ----- Messages -----

  datatype Message = Message(name: string, timestamp: nat, metric: Metric, count: nat)

  /** Sums are sent as text, so what is sent is what printing leaves of them; the rest is sent exactly. */
  function Transmitted(m: Metric, printed: real -> real): Metric {
    if m.Number? then Number(printed(m.number)) else m
  }

  function MessageOf(k: Key, v: Value, printed: real -> real): Message {
    Message(k.name, k.timestamp, Transmitted(v.metric, printed), v.count)
  }

  function OwnerKey(m: Message): Key {
    Key(m.timestamp, m.name, false, false)
  }

  /** A number that arrives with a count of zero is taken to stand for one update. */
  function ArrivingCount(m: Message): nat {
    if m.metric.Number? && m.count == 0 then 1 else m.count
  }

  function Delivered(t: Table, m: Message, now: nat): Table
    requires OwnerKey(m) in t ==> SameKind(t[OwnerKey(m)].metric, m.metric)
  {
    var k := OwnerKey(m);
    if k in t then
      var v := t[k];
      t[k := v.(metric := Accumulated(v.metric, m.metric),
                count := v.count + if m.metric.Number? then ArrivingCount(m) else 0,
                lastSeen := now)]
    else t[k := Value(m.metric, if m.metric.Number? then ArrivingCount(m) else 1, now, 0)]
  }

  /** From `t` to `u`, the owner's entry takes one message; a number without a count stands for one update. */
  ghost predicate TakesMessage(t: Table, u: Table, m: Message, now: nat) {
    var k := Key(m.timestamp, m.name, false, false);
    var arriving := if m.metric.Number? then (if m.count == 0 then 1 else m.count) else 0;
    && OnlyAt(t, u, k) && u[k].lastSeen == now && u[k].flushedMs == (if k in t then t[k].flushedMs else 0)
    && u[k].count == (if k in t then t[k].count + arriving else if m.metric.Number? then arriving else 1)
    && match (m.metric, u[k].metric)
       case (Integer(n), Integer(i)) =>
         if k in t && t[k].metric.Integer? then i == (t[k].metric.integer + n) % 0x1_0000_0000_0000_0000 else k !in t && i == n
       case (Number(x), Number(y)) => if k in t && t[k].metric.Number? then y == t[k].metric.number + x else k !in t && y == x
       case (Histogram(more), Histogram(bins)) => forall c :: bins[c] == SamplesAt(t, k, c) + more[c]
       case _ => false
  }

  lemma DeliveredTakesMessage(t: Table, m: Message, now: nat)
    requires OwnerKey(m) in t ==> SameKind(t[OwnerKey(m)].metric, m.metric)
    ensures TakesMessage(t, Delivered(t, m, now), m, now)
  {
  }

  /** The value shown for a number is its sum divided by its count, or by one if nothing was counted. */
  function Resolved(v: Value): real
    requires v.metric.Number?
  {
    v.metric.number / (if v.count > 1 then v.count as real else 1.0)
  }

  // ----- A flush pass -----

  datatype Fate = Expire | Skip | Journal | Publish | Wait

  /** Flushed, and nothing new has come in since. */
  predicate IsClean(v: Value) {
    v.flushedMs > 0 && v.flushedMs >= v.lastSeen
  }

  predicate OlderThan(now: nat, earlier: nat, ms: nat) {
    now > earlier && now - earlier > ms
  }

  function FateOf(k: Key, v: Value, now: nat): Fate {
    if IsClean(v) then (if OlderThan(now, v.lastSeen, RETIRE_MS) then Expire else Skip)
    else if !k.aggregate then
      if k.immediateFlush || (OlderThan(now, k.timestamp, 1000) && OlderThan(now, v.lastSeen, AGGREGATE_DELAY_MS))
      then Journal else Wait
    else if OlderThan(now, v.lastSeen, AGGREGATE_DELAY_MS) then Publish else Wait
  }

  /** A published entry is cleared, and marked as flushed only if the publication succeeded. */
  function Reset(v: Value, now: nat, ok: bool): Value {
    v.(metric := Cleared(v.metric), count := 0, flushedMs := if ok then now else 0)
  }

  /** The entry at `k` once the pass has got to it. */
  function Marked(k: Key, v: Value, now: nat, sent: set<Key>, stamps: map<Key, nat>): Value {
    match FateOf(k, v, now)
    case Publish => Reset(v, now, k in sent)
    case Journal => if k in stamps then v.(flushedMs := stamps[k]) else v
    case _ => v
  }

  /**
   The table while a pass at time `now` is under way: it has got to the entries in `done`,
   published those in `sent` successfully, and stamped those in `stamps` at the given times.
   */
  function DuringPass(t: Table, now: nat, done: set<Key>, sent: set<Key>, stamps: map<Key, nat>): Table {
    map k | k in t :: if k in done then Marked(k, t[k], now, sent, stamps) else t[k]
  }

  /** The same with the expired entries removed. */
  function AfterPass(t: Table, now: nat, done: set<Key>, sent: set<Key>, stamps: map<Key, nat>): Table {
    map k | k in t && !(k in done && FateOf(k, t[k], now) == Expire) ::
      DuringPass(t, now, done, sent, stamps)[k]
  }

  // ----- Chunks of JSON -----

  /**
   What is decided elsewhere during a pass: which publications succeed, whether the i-th write to
   the journal succeeds and when that is known, how an entry is rendered, and what printing
   leaves of a sum.
   */
  datatype World = World(produce: Key -> bool, journal: nat -> bool, clock: nat -> nat,
                         render: (Key, Value) -> string, printed: real -> real)

  /** What is handed to the journal in one write, and the entries in it. */
  datatype Chunk = Chunk(text: string, keys: seq<Key>, written: bool)

  function Joined(fragments: seq<string>): string {
    if fragments == [] then ""
    else if |fragments| == 1 then fragments[0]
    else Joined(fragments[..|fragments| - 1]) + "," + fragments[|fragments| - 1]
  }

  function Fragments(t: Table, render: (Key, Value) -> string, keys: seq<Key>): seq<string>
    requires forall k | k in keys :: k in t
  {
    seq(|keys|, i requires 0 <= i < |keys| => render(keys[i], t[keys[i]]))
  }

  /** The entries among `keys` that meet the given fate. */
  function Having(t: Table, now: nat, keys: seq<Key>, fate: Fate): (chosen: seq<Key>)
    requires forall k | k in keys :: k in t
    ensures forall k :: k in chosen <==> k in keys && FateOf(k, t[k], now) == fate
  {
    if keys == [] then []
    else
      var last := keys[|keys| - 1];
      Having(t, now, keys[..|keys| - 1], fate) + if FateOf(last, t[last], now) == fate then [last] else []
  }

  function Chosen(keys: seq<Key>, ok: Key -> bool): (chosen: seq<Key>)
    ensures forall k :: k in chosen <==> k in keys && ok(k)
  {
    if keys == [] then []
    else
      var last := keys[|keys| - 1];
      Chosen(keys[..|keys| - 1], ok) + if ok(last) then [last] else []
  }

  function MessagesOf(t: Table, keys: seq<Key>, printed: real -> real): seq<Message>
    requires forall k | k in keys :: k in t
  {
    seq(|keys|, i requires 0 <= i < |keys| => MessageOf(keys[i], t[keys[i]], printed))
  }

  function KeysOf(chunks: seq<Chunk>): seq<Key> {
    if chunks == [] then [] else KeysOf(chunks[..|chunks| - 1]) + chunks[|chunks| - 1].keys
  }

  function WrittenKeys(chunks: seq<Chunk>): set<Key> {
    set c, k | c in chunks && c.written && k in c.keys :: k
  }

  /** The text of a chunk that is still open. */
  function OpenText(t: Table, render: (Key, Value) -> string, keys: seq<Key>): string
    requires forall k | k in keys :: k in t
  {
    "{" + Joined(Fragments(t, render, keys))
  }

  /** Without its last entry the chunk was not too long yet. */
  predicate CutInTime(t: Table, render: (Key, Value) -> string, keys: seq<Key>)
    requires forall k | k in keys :: k in t
  {
    keys != [] ==> |OpenText(t, render, keys[..|keys| - 1])| <= 2097152
  }

  ghost predicate WellFormedChunk(t: Table, render: (Key, Value) -> string, c: Chunk) {
    && c.keys != [] && (forall k | k in c.keys :: k in t)
    && c.text == OpenText(t, render, c.keys) + "}" && CutInTime(t, render, c.keys)
  }

  /** The chunk was closed before the end of the pass, because it had become too long. */
  predicate IsFull(c: Chunk) {
    |c.text| > 2097153
  }

  ghost predicate NoDuplicates(keys: seq<Key>) {
    forall i, j | 0 <= i < j < |keys| :: keys[i] != keys[j]
  }

  lemma StampOne(t: Table, now: nat, done: set<Key>, sent: set<Key>, stamps: map<Key, nat>, k: Key, stamp: nat)
    requires k in t && k in done && FateOf(k, t[k], now) == Journal
    ensures var d := DuringPass(t, now, done, sent, stamps);
            k in d && d[k := d[k].(flushedMs := stamp)] == DuringPass(t, now, done, sent, stamps[k := stamp])
  {
  }

  lemma VisitOne(t: Table, now: nat, done: set<Key>, sent: set<Key>, stamps: map<Key, nat>, k: Key, ok: bool)
    requires k in t && k !in done && k !in stamps && k !in sent
    ensures var d := DuringPass(t, now, done, sent, stamps);
            && k in d && d[k] == t[k]
            && DuringPass(t, now, done + {k}, if ok then sent + {k} else sent, stamps) ==
               if FateOf(k, t[k], now) == Publish then d[k := Reset(t[k], now, ok)] else d
  {
  }

  ghost function SentKeys(t: Table, now: nat, keys: seq<Key>, produce: Key -> bool): set<Key>
    requires forall k | k in keys :: k in t
  {
    set k | k in keys && FateOf(k, t[k], now) == Publish && produce(k)
  }

  /** What a pass has put out once it has been through `keys`, with nothing left in the open chunk. */
  ghost predicate PassDone(t: Table, now: nat, keys: seq<Key>, world: World,
                           chunks: seq<Chunk>, messages: seq<Message>, stamps: map<Key, nat>)
  {
    && (forall k | k in keys :: k in t)
    && KeysOf(chunks) == Having(t, now, keys, Journal)
    && (forall i | 0 <= i < |chunks| :: WellFormedChunk(t, world.render, chunks[i]) && chunks[i].written == world.journal(i))
    && (forall i | 0 <= i < |chunks| - 1 :: chunks[i].written && IsFull(chunks[i]))
    && MessagesOk(t, Having(t, now, keys, Publish), world, messages)
    && stamps.Keys == WrittenKeys(chunks) && forall k | k in stamps :: stamps[k] >= now
  }

  /** The local state of a pass: the chunk being built, and what has been put out so far. */
  datatype Pass = Pass(json: string, jsonKeys: seq<Key>, comma: bool, expired: seq<Key>,
                       chunks: seq<Chunk>, messages: seq<Message>)

  ghost predicate ChunksOk(t: Table, world: World, chunks: seq<Chunk>) {
    forall i | 0 <= i < |chunks| :: WellFormedChunk(t, world.render, chunks[i]) && chunks[i].written == world.journal(i)
  }

  ghost predicate StampsOk(now: nat, chunks: seq<Chunk>, stamps: map<Key, nat>) {
    stamps.Keys == WrittenKeys(chunks) && forall k | k in stamps :: stamps[k] >= now
  }

  /** The open chunk is a correct object but for its closing brace. */
  ghost predicate OpenChunkOk(t: Table, render: (Key, Value) -> string, json: string, jsonKeys: seq<Key>, comma: bool) {
    && (forall k | k in jsonKeys :: k in t)
    && json == OpenText(t, render, jsonKeys) && CutInTime(t, render, jsonKeys) && (comma <==> jsonKeys != [])
  }

  ghost predicate MessagesOk(t: Table, published: seq<Key>, world: World, messages: seq<Message>) {
    (forall k | k in published :: k in t) && messages == MessagesOf(t, Chosen(published, world.produce), world.printed)
  }

  /** The pass has been through `keys` and every chunk so far has been written. */
  ghost predicate Passing(t: Table, now: nat, keys: seq<Key>, world: World, p: Pass, stamps: map<Key, nat>)
  {
    && (forall k | k in keys :: k in t)
    && KeysOf(p.chunks) + p.jsonKeys == Having(t, now, keys, Journal)
    && OpenChunkOk(t, world.render, p.json, p.jsonKeys, p.comma)
    && p.expired == Having(t, now, keys, Expire)
    && ChunksOk(t, world, p.chunks) && (forall c | c in p.chunks :: c.written && IsFull(c))
    && MessagesOk(t, Having(t, now, keys, Publish), world, p.messages)
    && StampsOk(now, p.chunks, stamps)
  }

  /** What a pass does with the entry at `k`, apart from clearing it in the table. */
  function Taken(p: Pass, k: Key, v: Value, now: nat, world: World): Pass {
    match FateOf(k, v, now)
    case Expire => p.(expired := p.expired + [k])
    case Journal => p.(json := p.json + (if p.comma then "," else "") + world.render(k, v),
                         jsonKeys := p.jsonKeys + [k], comma := true)
    case Publish => if world.produce(k) then p.(messages := p.messages + [MessageOf(k, v, world.printed)]) else p
    case _ => p
  }

  lemma OpenChunkOneMore(t: Table, render: (Key, Value) -> string, json: string, keys: seq<Key>, comma: bool, k: Key)
    requires OpenChunkOk(t, render, json, keys, comma) && k in t && |json| <= TWO_MB
    ensures OpenChunkOk(t, render, json + (if comma then "," else "") + render(k, t[k]), keys + [k], true)
  {
    var before, all := Fragments(t, render, keys), Fragments(t, render, keys + [k]);
    assert all[..|all| - 1] == before;
    assert (keys + [k])[..|keys|] == keys;
    if keys == [] {
      assert json + "" + render(k, t[k]) == "{" + render(k, t[k]);
    } else {
      assert json + "," + render(k, t[k]) == "{" + (Joined(before) + "," + render(k, t[k]));
    }
  }

  lemma MessagesOneMore(t: Table, published: seq<Key>, world: World, messages: seq<Message>, k: Key)
    requires MessagesOk(t, published, world, messages) && k in t
    ensures MessagesOk(t, published + [k], world,
                       if world.produce(k) then messages + [MessageOf(k, t[k], world.printed)] else messages)
  {
    assert (published + [k])[..|published|] == published;
    var chosen := Chosen(published, world.produce);
    assert chosen + [] == chosen;
    if world.produce(k) {
      assert MessagesOf(t, chosen + [k], world.printed) == MessagesOf(t, chosen, world.printed) + [MessageOf(k, t[k], world.printed)];
    }
  }

  lemma HavingOneMore(t: Table, now: nat, keys: seq<Key>, k: Key, fate: Fate)
    requires k in t && forall j | j in keys :: j in t
    ensures Having(t, now, keys + [k], fate) ==
            if FateOf(k, t[k], now) == fate then Having(t, now, keys, fate) + [k] else Having(t, now, keys, fate)
  {
    assert (keys + [k])[..|keys|] == keys;
    assert Having(t, now, keys, fate) + [] == Having(t, now, keys, fate);
  }

  lemma TakenKeepsPassing(t: Table, now: nat, keys: seq<Key>, k: Key, world: World, p: Pass, stamps: map<Key, nat>)
    requires Passing(t, now, keys, world, p, stamps) && k in t && |p.json| <= TWO_MB
    ensures Passing(t, now, keys + [k], world, Taken(p, k, t[k], now, world), stamps)
  {
    hide FateOf, ChunksOk, StampsOk, OpenChunkOk, MessagesOk, KeysOf, Having;
    HavingOneMore(t, now, keys, k, Journal);
    HavingOneMore(t, now, keys, k, Expire);
    HavingOneMore(t, now, keys, k, Publish);
    OpenChunkOneMore(t, world.render, p.json, p.jsonKeys, p.comma, k);
    MessagesOneMore(t, Having(t, now, keys, Publish), world, p.messages, k);
    assert KeysOf(p.chunks) + (p.jsonKeys + [k]) == KeysOf(p.chunks) + p.jsonKeys + [k];
  }

  lemma WrittenOneMore(chunks: seq<Chunk>, c: Chunk)
    ensures WrittenKeys(chunks + [c]) == WrittenKeys(chunks) + if c.written then set k | k in c.keys else {}
    ensures KeysOf(chunks + [c]) == KeysOf(chunks) + c.keys
  {
    var all := chunks + [c];
    assert all[..|chunks|] == chunks && c in all;
    assert forall d | d in chunks :: d in all;
  }

  /** Once the open chunk is handed to the journal, nothing is left over. */
  lemma PassEnds(t: Table, now: nat, keys: seq<Key>, world: World, p: Pass, stamps: map<Key, nat>, c: Chunk,
                 stamped: map<Key, nat>, stamp: nat)
    requires Passing(t, now, keys, world, p, stamps) && stamp >= now
    requires WellFormedChunk(t, world.render, c) && c.keys == p.jsonKeys && c.written == world.journal(|p.chunks|)
    requires stamped == if c.written then stamps + map k | k in c.keys :: stamp else stamps
    ensures PassDone(t, now, keys, world, p.chunks + [c], p.messages, stamped)
    ensures c.written && IsFull(c) ==> Passing(t, now, keys, world,
                                  p.(json := "{", jsonKeys := [], comma := false, chunks := p.chunks + [c]), stamped)
  {
    hide OpenChunkOk, MessagesOk, WellFormedChunk, Having, WrittenKeys;
    WrittenOneMore(p.chunks, c);
    assert KeysOf(p.chunks + [c]) + [] == KeysOf(p.chunks + [c]);
    FreshChunk(t, world.render);
  }

  lemma FreshChunk(t: Table, render: (Key, Value) -> string)
    ensures OpenChunkOk(t, render, "{", [], false)
  {
    assert "{" + "" == "{";
  }

  lemma PassStarts(t: Table, now: nat, world: World)
    ensures Passing(t, now, [], world, Pass("{", [], false, [], [], []), map[])
  {
    FreshChunk(t, world.render);
  }

  lemma NothingOpen(t: Table, now: nat, keys: seq<Key>, world: World, p: Pass, stamps: map<Key, nat>)
    requires Passing(t, now, keys, world, p, stamps) && p.jsonKeys == []
    ensures PassDone(t, now, keys, world, p.chunks, p.messages, stamps)
  {
    assert KeysOf(p.chunks) + [] == KeysOf(p.chunks);
    assert forall i | 0 <= i < |p.chunks| :: p.chunks[i] in p.chunks;
  }

  ghost function ToSet(keys: seq<Key>): set<Key> {
    set k | k in keys
  }

  lemma StampedWereVisited(t: Table, now: nat, keys: seq<Key>, world: World, p: Pass, stamps: map<Key, nat>)
    requires Passing(t, now, keys, world, p, stamps)
    ensures forall k | k in stamps || k in p.jsonKeys :: k in keys && FateOf(k, t[k], now) == Journal
  {
    forall k | k in stamps
      ensures k in Having(t, now, keys, Journal)
    {
      var c :| c in p.chunks && c.written && k in c.keys;
      KeysOfHas(p.chunks, c, k);
      assert k in KeysOf(p.chunks) + p.jsonKeys;
    }
    assert forall k | k in p.jsonKeys :: k in KeysOf(p.chunks) + p.jsonKeys;
  }

  lemma KeysOfHas(chunks: seq<Chunk>, c: Chunk, k: Key)
    requires c in chunks && k in c.keys
    ensures k in KeysOf(chunks)
  {
    if c != chunks[|chunks| - 1] {
      KeysOfHas(chunks[..|chunks| - 1], c, k);
    }
  }

  lemma PassingFacts(t: Table, now: nat, keys: seq<Key>, world: World, p: Pass, stamps: map<Key, nat>)
    requires Passing(t, now, keys, world, p, stamps)
    ensures p.expired == Having(t, now, keys, Expire)
    ensures |p.json| > TWO_MB ==> p.jsonKeys != []
  {
  }

  /** The table and the local state after getting to one more entry. */
  lemma VisitStep(t: Table, now: nat, order: seq<Key>, i: nat, world: World, p: Pass, stamps: map<Key, nat>)
    requires NoDuplicates(order) && i < |order| && forall k | k in order :: k in t
    requires Passing(t, now, order[..i], world, p, stamps) && |p.json| <= TWO_MB
    ensures var k := order[i];
            var d := DuringPass(t, now, ToSet(order[..i]), SentKeys(t, now, order[..i], world.produce), stamps);
            && k in d && d[k] == t[k]
            && DuringPass(t, now, ToSet(order[..i + 1]), SentKeys(t, now, order[..i + 1], world.produce), stamps) ==
               (if FateOf(k, t[k], now) == Publish then d[k := Reset(t[k], now, world.produce(k))] else d)
            && Passing(t, now, order[..i + 1], world,
                       Taken(p, k, t[k], now, world), stamps)
  {
    hide FateOf, DuringPass, Passing, Taken, Reset;
    var k, done := order[i], order[..i];
    assert order[..i + 1] == done + [k];
    TakenKeepsPassing(t, now, done, k, world, p, stamps);
    StampedWereVisited(t, now, done, world, p, stamps);
    assert k !in done;
    assert ToSet(done + [k]) == ToSet(done) + {k};
    var ok := FateOf(k, t[k], now) == Publish && world.produce(k);
    var sent := SentKeys(t, now, done, world.produce);
    assert SentKeys(t, now, done + [k], world.produce) == if ok then sent + {k} else sent;
    assert k !in sent;
    VisitOne(t, now, ToSet(done), sent, stamps, k, ok);
  }

  lemma {:induction false} HavingHasNoDuplicates(t: Table, now: nat, keys: seq<Key>, fate: Fate)
    requires NoDuplicates(keys) && forall k | k in keys :: k in t
    ensures NoDuplicates(Having(t, now, keys, fate))
  {
    hide FateOf;
    if keys != [] {
      HavingHasNoDuplicates(t, now, keys[..|keys| - 1], fate);
      assert keys[|keys| - 1] !in keys[..|keys| - 1];
    }
  }

  lemma {:induction false} ChosenHasNoDuplicates(keys: seq<Key>, ok: Key -> bool)
    requires NoDuplicates(keys)
    ensures NoDuplicates(Chosen(keys, ok))
  {
    if keys != [] {
      ChosenHasNoDuplicates(keys[..|keys| - 1], ok);
      assert keys[|keys| - 1] !in keys[..|keys| - 1];
    }
  }

  /** No entry is in two chunks of a pass, or twice in one. */
  lemma NoEntryTwice(t: Table, now: nat, keys: seq<Key>, world: World, chunks: seq<Chunk>, messages: seq<Message>, stamps: map<Key, nat>)
    requires PassDone(t, now, keys, world, chunks, messages, stamps) && NoDuplicates(keys)
    ensures NoDuplicates(KeysOf(chunks))
    ensures forall k | k in keys && FateOf(k, t[k], now) == Journal :: k in KeysOf(chunks)
  {
    HavingHasNoDuplicates(t, now, keys, Journal);
  }

  // ----- A pass, spelled out -----

  predicate DueForJournal(k: Key, v: Value, now: nat) {
    && !(v.flushedMs > 0 && v.flushedMs >= v.lastSeen) && !k.aggregate
    && (k.immediateFlush || (now > k.timestamp + 1000 && now > v.lastSeen + 10000))
  }

  predicate DueForTopic(k: Key, v: Value, now: nat) {
    !(v.flushedMs > 0 && v.flushedMs >= v.lastSeen) && k.aggregate && now > v.lastSeen + 10000
  }

  predicate DueForDeletion(v: Value, now: nat) {
    v.flushedMs > 0 && v.flushedMs >= v.lastSeen && now > v.lastSeen + 600000
  }

  predicate IsEmpty(m: Metric) {
    match m
    case Number(x) => x == 0.0
    case Histogram(bins) => bins == multiset{}
    case Integer(n) => n == 0
  }

  /** The message is for this entry and has what was in it, a sum as it is printed. */
  predicate Carries(m: Message, k: Key, v: Value, printed: real -> real) {
    && m.name == k.name && m.timestamp == k.timestamp && m.count == v.count
    && m.metric == if v.metric.Number? then Number(printed(v.metric.number)) else v.metric
  }

  ghost predicate InWrittenChunk(chunks: seq<Chunk>, k: Key) {
    exists c :: c in chunks && c.written && k in c.keys
  }

  ghost predicate InChunk(chunks: seq<Chunk>, k: Key) {
    exists c :: c in chunks && k in c.keys
  }

  /** What a pass from `t` to `u` has done with an entry that it got to. */
  ghost predicate Treated(t: Table, u: Table, k: Key, now: nat, world: World, chunks: seq<Chunk>, messages: seq<Message>)
    requires k in t
  {
    var v := t[k];
    && (InChunk(chunks, k) <==> DueForJournal(k, v, now))
    && (k !in u <==> DueForDeletion(v, now))
    && (DueForTopic(k, v, now) ==>
          && k in u && u[k].lastSeen == v.lastSeen && u[k].count == 0 && u[k].flushedMs == (if world.produce(k) then now else 0)
          && IsEmpty(u[k].metric) && SameKind(u[k].metric, v.metric))
    && (k in u && !DueForTopic(k, v, now) ==>
          u[k].(flushedMs := v.flushedMs) == v && (InWrittenChunk(chunks, k) ==> u[k].flushedMs >= now)
          && (!InWrittenChunk(chunks, k) ==> u[k] == v))
    && (DueForTopic(k, v, now) && world.produce(k) ==> exists m :: m in messages && Carries(m, k, v, world.printed))
  }

  /** Every message of a pass is of an entry that was due for the topic, and carries what was in it. */
  ghost predicate MessagesAreOf(t: Table, keys: seq<Key>, now: nat, world: World, messages: seq<Message>) {
    forall m | m in messages ::
      exists k :: k in keys && k in t && DueForTopic(k, t[k], now) && world.produce(k) && Carries(m, k, t[k], world.printed)
  }

  lemma FateIs(k: Key, v: Value, now: nat)
    ensures FateOf(k, v, now) == Journal <==> DueForJournal(k, v, now)
    ensures FateOf(k, v, now) == Publish <==> DueForTopic(k, v, now)
    ensures FateOf(k, v, now) == Expire <==> DueForDeletion(v, now)
  {
  }

  lemma {:induction false} ChunksOfKeys(chunks: seq<Chunk>, k: Key)
    ensures k in KeysOf(chunks) <==> InChunk(chunks, k)
  {
    if chunks != [] {
      var front, last := chunks[..|chunks| - 1], chunks[|chunks| - 1];
      ChunksOfKeys(front, k);
      assert chunks == front + [last];
    }
  }

  lemma MessageIsSent(t: Table, keys: seq<Key>, printed: real -> real, k: Key)
    requires (forall j | j in keys :: j in t) && k in keys
    ensures exists m :: m in MessagesOf(t, keys, printed) && Carries(m, k, t[k], printed)
  {
    var i :| 0 <= i < |keys| && keys[i] == k;
    var m := MessageOf(k, t[k], printed);
    assert MessagesOf(t, keys, printed)[i] == m;
    assert m in MessagesOf(t, keys, printed) && Carries(m, k, t[k], printed);
  }

  lemma AfterPassAt(t: Table, now: nat, done: set<Key>, sent: set<Key>, stamps: map<Key, nat>, k: Key)
    requires k in t
    ensures var u := AfterPass(t, now, done, sent, stamps);
            && (k in u <==> !(k in done && FateOf(k, t[k], now) == Expire))
            && (k in u ==> u[k] == if k in done then Marked(k, t[k], now, sent, stamps) else t[k])
  {
    hide FateOf, Marked;
  }

  /** The entries in chunks are those due for the journal, and the stamped ones are in written chunks. */
  lemma ChunksOfPass(t: Table, now: nat, keys: seq<Key>, world: World,
                     chunks: seq<Chunk>, messages: seq<Message>, stamps: map<Key, nat>, k: Key)
    requires PassDone(t, now, keys, world, chunks, messages, stamps)
    ensures InChunk(chunks, k) <==> k in keys && k in t && DueForJournal(k, t[k], now)
    ensures (InWrittenChunk(chunks, k) <==> k in stamps) && (k in stamps ==> stamps[k] >= now && InChunk(chunks, k))
  {
    hide FateOf, DueForJournal, DueForTopic, DueForDeletion, WellFormedChunk, KeysOf;
    ChunksOfKeys(chunks, k);
    if k in keys {
      FateIs(k, t[k], now);
    }
  }

  lemma SentIfDue(t: Table, now: nat, keys: seq<Key>, world: World,
                  chunks: seq<Chunk>, messages: seq<Message>, stamps: map<Key, nat>, k: Key)
    requires PassDone(t, now, keys, world, chunks, messages, stamps) && k in keys
    ensures k in t && (k in SentKeys(t, now, keys, world.produce) <==> DueForTopic(k, t[k], now) && world.produce(k))
    ensures k in SentKeys(t, now, keys, world.produce) ==> exists m :: m in messages && Carries(m, k, t[k], world.printed)
  {
    hide FateOf, DueForJournal, DueForTopic, DueForDeletion, Carries, WellFormedChunk, KeysOf;
    FateIs(k, t[k], now);
    if FateOf(k, t[k], now) == Publish && world.produce(k) {
      MessageIsSent(t, Chosen(Having(t, now, keys, Publish), world.produce), world.printed, k);
    }
  }

  /** What a completed pass has done, in numbers: which entries were journalled, published, deleted or left. */
  lemma PassTreats(t: Table, now: nat, keys: seq<Key>, world: World,
                   chunks: seq<Chunk>, messages: seq<Message>, stamps: map<Key, nat>, k: Key)
    requires PassDone(t, now, keys, world, chunks, messages, stamps) && k in t
    ensures forall j | j in keys :: j in t
    ensures var u := AfterPass(t, now, ToSet(keys), SentKeys(t, now, keys, world.produce), stamps);
            if k in keys then Treated(t, u, k, now, world, chunks, messages) else k in u && u[k] == t[k]
  {
    hide FateOf, DueForJournal, DueForTopic, DueForDeletion, Carries, InChunk, InWrittenChunk, AfterPass, WellFormedChunk,
         KeysOf, WrittenKeys, SentKeys, Having, MessagesOk;
    ChunksOfPass(t, now, keys, world, chunks, messages, stamps, k);
    AfterPassAt(t, now, ToSet(keys), SentKeys(t, now, keys, world.produce), stamps, k);
    if k in keys {
      FateIs(k, t[k], now);
      SentIfDue(t, now, keys, world, chunks, messages, stamps, k);
    }
  }

  lemma PassSends(t: Table, now: nat, keys: seq<Key>, world: World, chunks: seq<Chunk>, messages: seq<Message>, stamps: map<Key, nat>)
    requires PassDone(t, now, keys, world, chunks, messages, stamps)
    ensures MessagesAreOf(t, keys, now, world, messages)
  {
    hide FateOf, DueForTopic, WellFormedChunk, Carries, KeysOf;
    var sent := Chosen(Having(t, now, keys, Publish), world.produce);
    forall m | m in messages
      ensures exists k :: k in keys && k in t && DueForTopic(k, t[k], now) && world.produce(k) && Carries(m, k, t[k], world.printed)
    {
      var i :| 0 <= i < |messages| && messages[i] == m;
      FateIs(sent[i], t[sent[i]], now);
      CarriesItself(sent[i], t[sent[i]], world.printed);
    }
  }

  lemma CarriesItself(k: Key, v: Value, printed: real -> real)
    ensures Carries(MessageOf(k, v, printed), k, v, printed)
  {
  }

  lemma PassDescribed(t: Table, now: nat, keys: seq<Key>, world: World, chunks: seq<Chunk>, messages: seq<Message>, stamps: map<Key, nat>)
    requires PassDone(t, now, keys, world, chunks, messages, stamps)
    ensures var u := AfterPass(t, now, ToSet(keys), SentKeys(t, now, keys, world.produce), stamps);
            && u.Keys <= t.Keys && MessagesAreOf(t, keys, now, world, messages)
            && forall k | k in t ::
                 if k in keys then Treated(t, u, k, now, world, chunks, messages) else k in u && u[k] == t[k]
  {
    hide FateOf, Treated, MessagesAreOf, KeysOf, WellFormedChunk;
    PassSends(t, now, keys, world, chunks, messages, stamps);
    forall k | k in t
      ensures var u := AfterPass(t, now, ToSet(keys), SentKeys(t, now, keys, world.produce), stamps);
              if k in keys then Treated(t, u, k, now, world, chunks, messages) else k in u && u[k] == t[k]
    {
      PassTreats(t, now, keys, world, chunks, messages, stamps, k);
    }
  }

  /** Fragments one after the other, a comma before each but the first. */
  function CommaList(fragments: seq<string>): string {
    if fragments == [] then ""
    else if |fragments| == 1 then fragments[0]
    else fragments[0] + "," + CommaList(fragments[1..])
  }

  lemma {:induction false} JoinedIsCommaList(fragments: seq<string>)
    ensures Joined(fragments) == CommaList(fragments)
    decreases |fragments|
  {
    if |fragments| > 1 {
      var front, last := fragments[..|fragments| - 1], fragments[|fragments| - 1];
      JoinedIsCommaList(front);
      CommaListAppend(front, last);
      assert front + [last] == fragments;
    }
  }

  lemma {:induction false} CommaListAppend(front: seq<string>, last: string)
    requires front != []
    ensures CommaList(front + [last]) == CommaList(front) + "," + last
    decreases |front|
  {
    var all := front + [last];
    if |front| == 1 {
      assert all[1..] == [last];
    } else {
      CommaListAppend(front[1..], last);
      assert all[1..] == front[1..] + [last];
      assert front[0] + "," + (CommaList(front[1..]) + "," + last) == front[0] + "," + CommaList(front[1..]) + "," + last;
    }
  }

  /** A chunk is one object whose members are its entries as rendered. */
  lemma ChunkIsObject(t: Table, render: (Key, Value) -> string, c: Chunk)
    requires WellFormedChunk(t, render, c)
    ensures c.text == "{" + CommaList(seq(|c.keys|, i requires 0 <= i < |c.keys| => render(c.keys[i], t[c.keys[i]]))) + "}"
  {
    var fragments := seq(|c.keys|, i requires 0 <= i < |c.keys| => render(c.keys[i], t[c.keys[i]]));
    assert Fragments(t, render, c.keys) == fragments;
    JoinedIsCommaList(fragments);
  }

  // ----- The table of a team -----

  class TeamData {
    var hash: Table

    method Update(name: string, aggregate: bool, delta: Delta, timestamp: nat, now: nat)
      requires var k := UpdateKey(name, aggregate, timestamp, delta); k in hash ==> SameKind(hash[k].metric, MetricOf(delta))
      modifies this
      ensures hash == Updated(old(hash), UpdateKey(name, aggregate, timestamp, delta), delta, now)
      ensures TakesCall(old(hash), hash, Key(timestamp, name, aggregate, !aggregate && !delta.Sample?), delta, now)
    {
      UpdatedTakesCall(hash, UpdateKey(name, aggregate, timestamp, delta), delta, now);
      hide TakesCall;
      var key := UpdateKey(name, aggregate, timestamp, delta);
      if key in hash {
        var v := hash[key].(lastSeen := now);
        v := v.(metric := Accumulated(v.metric, MetricOf(delta)));
        if delta.Average? {
          v := v.(count := v.count + 1);
        }
        hash := hash[key := v];
      } else {
        hash := hash[key := Value(MetricOf(delta), 1, now, 0)];
      }
    }

    /** The owner adds what arrives on the aggregation topic to what it has. */
    method ProcessAggregate(m: Message, now: nat)
      requires OwnerKey(m) in hash ==> SameKind(hash[OwnerKey(m)].metric, m.metric)
      modifies this
      ensures hash == Delivered(old(hash), m, now)
      ensures TakesMessage(old(hash), hash, m, now)
    {
      DeliveredTakesMessage(hash, m, now);
      hide TakesMessage;
      var count := if m.metric.Number? && m.count == 0 then 1 else m.count;
      var key := OwnerKey(m);
      if key in hash {
        var v := hash[key].(lastSeen := now);
        v := v.(metric := Accumulated(v.metric, m.metric));
        if m.metric.Number? {
          v := v.(count := v.count + count);
        }
        hash := hash[key := v];
      } else {
        hash := hash[key := Value(m.metric, if m.metric.Number? then count else 1, now, 0)];
      }
    }

    /** Mark the entries of a chunk that was written as flushed. */
    method Stamp(keys: seq<Key>, stamp: nat,
                 ghost t: Table, ghost now: nat, ghost done: set<Key>, ghost sent: set<Key>, ghost stamps: map<Key, nat>)
      returns (ghost stamped: map<Key, nat>)
      requires hash == DuringPass(t, now, done, sent, stamps)
      requires forall k | k in keys :: k in t && k in done && FateOf(k, t[k], now) == Journal
      modifies this
      ensures stamped == stamps + map k | k in keys :: stamp
      ensures hash == DuringPass(t, now, done, sent, stamped)
    {
      hide DuringPass, FateOf;
      stamped := stamps;
      for i := 0 to |keys|
        invariant stamped == stamps + map k | k in keys[..i] :: stamp
        invariant hash == DuringPass(t, now, done, sent, stamped)
      {
        StampOne(t, now, done, sent, stamped, keys[i], stamp);
        hash := hash[keys[i] := hash[keys[i]].(flushedMs := stamp)];
        stamped := stamped[keys[i] := stamp];
        assert keys[..i + 1] == keys[..i] + [keys[i]];
      }
      assert keys[..|keys|] == keys;
    }

    /** What the pass does on getting to one entry; `skipped` if it moves straight on to the next. */
    method VisitEntry(k: Key, now: nat, world: World, before: Pass) returns (p: Pass, skipped: bool)
      requires k in hash
      modifies this
      ensures p == Taken(before, k, old(hash[k]), now, world)
      ensures hash == if FateOf(k, old(hash[k]), now) == Publish
                      then old(hash)[k := Reset(old(hash[k]), now, world.produce(k))] else old(hash)
      ensures skipped ==> p.json == before.json
      ensures p.jsonKeys == before.jsonKeys + if DueForJournal(k, old(hash[k]), now) then [k] else []
      ensures p.expired == before.expired + if DueForDeletion(old(hash[k]), now) then [k] else []
      ensures if DueForTopic(k, old(hash[k]), now)
              then hash[k].count == 0 && hash[k].flushedMs == if world.produce(k) then now else 0
              else hash == old(hash) && p.messages == before.messages
    {
      var v := hash[k];
      p, skipped := before, false;
      if v.flushedMs > 0 && v.flushedMs >= v.lastSeen && now > v.lastSeen && now - v.lastSeen > RETIRE_MS {
        return p.(expired := p.expired + [k]), true;
      }
      if v.flushedMs > 0 && v.flushedMs >= v.lastSeen {
        return p, true;
      }
      if !k.aggregate {
        if k.immediateFlush || ((now > k.timestamp && now - k.timestamp > 1000)
                                && (now > v.lastSeen && now - v.lastSeen > AGGREGATE_DELAY_MS)) {
          p := p.(json := p.json + (if p.comma then "," else "") + world.render(k, v), comma := true, jsonKeys := p.jsonKeys + [k]);
        }
      } else if now > v.lastSeen && now - v.lastSeen > AGGREGATE_DELAY_MS {
        var message := MessageOf(k, v, world.printed);
        v := v.(metric := Cleared(v.metric), count := 0, flushedMs := 0);
        if world.produce(k) {
          p := p.(messages := p.messages + [message]);
          v := v.(flushedMs := now);
        }
        hash := hash[k := v];
      }
    }

    /** Hand the open chunk to the journal and stamp its entries if that succeeds. */
    method WriteChunk(json: string, keys: seq<Key>, ok: bool, stamp: nat, ghost render: (Key, Value) -> string,
                      ghost t: Table, ghost now: nat, ghost done: set<Key>, ghost sent: set<Key>, ghost stamps: map<Key, nat>)
      returns (chunk: Chunk, ghost stamped: map<Key, nat>)
      requires hash == DuringPass(t, now, done, sent, stamps)
      requires keys != [] && forall k | k in keys :: k in t && k in done && FateOf(k, t[k], now) == Journal
      requires json == OpenText(t, render, keys) && CutInTime(t, render, keys)
      modifies this
      ensures chunk.keys == keys && chunk.written == ok && WellFormedChunk(t, render, chunk)
      ensures IsFull(chunk) <==> |json| > TWO_MB
      ensures stamped == if ok then stamps + map k | k in keys :: stamp else stamps
      ensures hash == DuringPass(t, now, done, sent, stamped)
    {
      hide DuringPass, FateOf;
      chunk, stamped := Chunk(json + "}", keys, ok), stamps;
      if ok {
        stamped := Stamp(keys, stamp, t, now, done, sent, stamps);
      }
    }

    /**
     One flush of the team. `order` is the order in which the hash table yields its keys, and `n`
     how many of them the pass gets to: all, unless a write to the journal fails on the way.
     */
    method FlushPass(now: nat, order: seq<Key>, world: World)
      returns (p: Pass, ghost n: nat, ghost stamps: map<Key, nat>)
      requires NoDuplicates(order) && forall k :: k in order <==> k in hash
      requires forall i :: world.clock(i) >= now
      modifies this
      ensures n <= |order|
      ensures n < |order| ==> p.chunks != [] && !p.chunks[|p.chunks| - 1].written && IsFull(p.chunks[|p.chunks| - 1])
      ensures PassDone(old(hash), now, order[..n], world, p.chunks, p.messages, stamps)
      ensures hash == AfterPass(old(hash), now, ToSet(order[..n]), SentKeys(old(hash), now, order[..n], world.produce), stamps)
      ensures hash.Keys <= old(hash).Keys && MessagesAreOf(old(hash), order[..n], now, world, p.messages)
      ensures forall k | k in old(hash) ::
                if k in order[..n] then Treated(old(hash), hash, k, now, world, p.chunks, p.messages)
                else k in hash && hash[k] == old(hash)[k]
    {
      hide FateOf, DuringPass, AfterPass, Taken, Passing, PassDone, SentKeys, OpenText, CutInTime, IsFull, Treated, MessagesAreOf,
           DueForJournal, DueForTopic, DueForDeletion;
      ghost var t := hash;
      var aborted, i := false, 0;
      p, stamps := Pass("{", [], false, [], [], []), map[];
      PassStarts(t, now, world);
      NothingVisited(t, now, order, world.produce);
      while i < |order| && !aborted
        invariant i <= |order| && hash == DuringPass(t, now, ToSet(order[..i]), SentKeys(t, now, order[..i], world.produce), stamps)
        invariant !aborted ==> Passing(t, now, order[..i], world, p, stamps) && |p.json| <= TWO_MB
        invariant aborted ==> PassDone(t, now, order[..i], world, p.chunks, p.messages, stamps)
        invariant aborted ==> p.chunks != [] && !p.chunks[|p.chunks| - 1].written && IsFull(p.chunks[|p.chunks| - 1])
        invariant p.expired == Having(t, now, order[..i], Expire)
      {
        var k := order[i];
        VisitStep(t, now, order, i, world, p, stamps);
        var skipped;
        p, skipped := VisitEntry(k, now, world, p);
        i := i + 1;
        PassingFacts(t, now, order[..i], world, p, stamps);
        if !skipped && |p.json| > TWO_MB {
          aborted, p, stamps := CloseChunk(now, world, p, t, order[..i], stamps);
        }
      }
      n := i;
      if !aborted {
        if p.jsonKeys != [] {
          aborted, p, stamps := CloseChunk(now, world, p, t, order[..i], stamps);
        } else {
          NothingOpen(t, now, order[..i], world, p, stamps);
        }
      }
      Retire(p.expired, t, now, order[..n], SentKeys(t, now, order[..n], world.produce), stamps);
      PassDescribed(t, now, order[..n], world, p.chunks, p.messages, stamps);
    }

    /** Write the open chunk; after a failure the rest of the team is left for the next pass. */
    method CloseChunk(now: nat, world: World,
                      before: Pass, ghost t: Table, ghost keys: seq<Key>, ghost stamps: map<Key, nat>)
      returns (aborted: bool, p: Pass, ghost stamped: map<Key, nat>)
      requires Passing(t, now, keys, world, before, stamps) && before.jsonKeys != []
      requires hash == DuringPass(t, now, ToSet(keys), SentKeys(t, now, keys, world.produce), stamps)
      requires forall i :: world.clock(i) >= now
      modifies this
      ensures hash == DuringPass(t, now, ToSet(keys), SentKeys(t, now, keys, world.produce), stamped)
      ensures PassDone(t, now, keys, world, p.chunks, p.messages, stamped)
      ensures !aborted && |before.json| > TWO_MB ==> Passing(t, now, keys, world, p, stamped) && |p.json| <= TWO_MB
      ensures p.chunks != [] && p.chunks[|p.chunks| - 1].written == !aborted
      ensures IsFull(p.chunks[|p.chunks| - 1]) <==> |before.json| > TWO_MB
      ensures p.expired == before.expired
    {
      hide FateOf, DuringPass, PassDone, SentKeys, OpenText, CutInTime;
      StampedWereVisited(t, now, keys, world, before, stamps);
      var ok, stamp := world.journal(|before.chunks|), world.clock(|before.chunks|);
      var chunk;
      chunk, stamped := WriteChunk(before.json, before.jsonKeys, ok, stamp, world.render,
                                   t, now, ToSet(keys), SentKeys(t, now, keys, world.produce), stamps);
      PassEnds(t, now, keys, world, before, stamps, chunk, stamped, stamp);
      p := before.(chunks := before.chunks + [chunk]);
      aborted := !ok;
      if ok {
        p := p.(json := "{", jsonKeys := [], comma := false);
      }
    }

    /** Remove the expired entries. */
    method Retire(expired: seq<Key>, ghost t: Table, ghost now: nat, ghost keys: seq<Key>,
                  ghost sent: set<Key>, ghost stamps: map<Key, nat>)
      requires hash == DuringPass(t, now, ToSet(keys), sent, stamps)
      requires (forall k | k in keys :: k in t) && expired == Having(t, now, keys, Expire)
      modifies this
      ensures hash == AfterPass(t, now, ToSet(keys), sent, stamps)
    {
      hide FateOf, DuringPass;
      for i := 0 to |expired|
        invariant hash == DuringPass(t, now, ToSet(keys), sent, stamps) - ToSet(expired[..i])
      {
        hash := hash - {expired[i]};
        assert ToSet(expired[..i + 1]) == ToSet(expired[..i]) + {expired[i]};
      }
      assert expired[..|expired|] == expired;
      RetiredAre(t, now, keys, sent, stamps);
    }
  }

  lemma RetiredAre(t: Table, now: nat, keys: seq<Key>, sent: set<Key>, stamps: map<Key, nat>)
    requires forall k | k in keys :: k in t
    ensures DuringPass(t, now, ToSet(keys), sent, stamps) - ToSet(Having(t, now, keys, Expire)) ==
            AfterPass(t, now, ToSet(keys), sent, stamps)
  {
    hide FateOf, Marked;
  }

  lemma NothingVisited(t: Table, now: nat, order: seq<Key>, produce: Key -> bool)
    ensures order[..0] == [] && DuringPass(t, now, ToSet([]), SentKeys(t, now, [], produce), map[]) == t
  {
  }
}
