/**
 The transaction store: two generations of records, rotated from time to time, and in front of
 each, when filters are switched on, a Bloom filter that lets lookups skip it. The store's
 records are those of `TraceGenerations.Run` on everything done so far, and the filters change
 no answer about any trace id.
 */
module TransactionStore {
  import opened TraceGenerations
  import opened Bloom
  import opened Wrappers
  import Xxh64

  const FILTER_ITEMS := 50000000
  const FILTER_BITS := 16

  function KeyHash(id: Id): U64 {
    Xxh64.Hash(id, 0) as int
  }

  ghost predicate MayContain(filter: BloomFilter, id: Id)
    reads filter.data
  {
    filter.data.Length > 0 && Has(filter.data[..], HashOf(filter.hasher, KeyHash(id)), filter.k)
  }

  /** A filter is asked for the 64-bit hash of the key, with seed zero. */
  lemma FilterIsAskedFor(filter: BloomFilter, id: Id)
    requires filter.data.Length > 0
    ensures MayContain(filter, id) <==> Has(filter.data[..], HashOf(filter.hasher, Xxh64.Hash(id, 0) as int), filter.k)
  {
    hide HashOf, Has, Xxh64.Hash;
  }

  /** The filter lets every key through, except perhaps those that need not have been entered in it. */
  ghost predicate Passes(filter: BloomFilter, keys: set<Id>, exempt: set<Id>)
    reads filter.data
  {
    filter.data.Length > 0 && forall id | id in keys && id !in exempt :: MayContain(filter, id)
  }

  method BloomCreate(hasher: Hasher) returns (filter: BloomFilter)
    ensures fresh(filter) && fresh(filter.data) && filter.data.Length > 0
    ensures filter.k > 0 && forall w | 0 <= w < filter.data.Length :: filter.data[w] == 0
  {
    filter := new BloomFilter(FILTER_ITEMS, FILTER_BITS, false, hasher);
  }

  method BloomAdd(filter: BloomFilter, id: Id, ghost keys: set<Id>, ghost exempt: set<Id>)
    requires Passes(filter, keys, exempt)
    modifies filter.data
    ensures Passes(filter, keys + {id}, exempt)
  {
    hide KeyHash, Has, HashOf;
    AddedHas(filter.data[..], HashOf(filter.hasher, KeyHash(id)), filter.k);
    filter.Add(KeyHash(id));
  }

  method BloomContains(filter: BloomFilter, id: Id) returns (found: bool)
    requires filter.data.Length > 0
    ensures found <==> MayContain(filter, id)
  {
    hide KeyHash, Has, HashOf;
    found := filter.Contain(KeyHash(id));
  }

  /** The keys under which children were stored since opening; storing a child enters nothing in a filter. */
  ghost function ChildKeysOf(events: seq<Event>): set<Id>
    decreases |events|
  {
    if events == [] then {}
    else
      var e := events[|events| - 1];
      ChildKeysOf(events[..|events| - 1]) +
      if e.AddChild? && e.hexId.Some? then {ChildKey(e.id, e.hexId.value)} else {}
  }

  lemma OneMore(start: Store, history: seq<Event>, e: Event, lookbackSecs: nat)
    ensures Run(start, history + [e], lookbackSecs) == Step(Run(start, history, lookbackSecs), e, lookbackSecs)
    ensures ChildKeysOf(history + [e]) ==
            ChildKeysOf(history) + if e.AddChild? && e.hexId.Some? then {ChildKey(e.id, e.hexId.value)} else {}
  {
    assert (history + [e])[..|history|] == history;
  }

  /** Besides what is put, only keys of children and the stamp of a new generation are stored. */
  lemma StepAddsKeys(s: Store, e: Event, lookbackSecs: nat)
    requires e.AddChild?
    ensures var next, key := Step(s, e, lookbackSecs), if e.hexId.Some? then {ChildKey(e.id, e.hexId.value)} else {};
            next.current.Keys <= s.current.Keys + key && next.last.Keys <= s.last.Keys + key
  {
  }

  /** The filters of the two generations, or none if filters are switched off. */
  class FilterPair {
    const enabled: bool
    var current: BloomFilter?
    var last: BloomFilter?

    ghost function Words(): set<array<bv64>>
      reads this
    {
      (if current == null then {} else {current.data}) + (if last == null then {} else {last.data})
    }

    /** Apart from the exempt keys, no key of either generation is kept from a lookup. */
    ghost predicate Knows(currentKeys: set<Id>, lastKeys: set<Id>, exempt: set<Id>)
      reads this, Words()
    {
      enabled ==>
        && current != null && last != null && current.data != last.data
        && Passes(current, currentKeys, exempt) && Passes(last, lastKeys, exempt)
    }

    /** A lookup of `id` goes on to the generation behind the filter. */
    ghost predicate Sees(inLast: bool, id: Id)
      reads this, Words()
    {
      var filter := if inLast then last else current;
      enabled && filter != null ==> MayContain(filter, id)
    }

    ghost predicate CurrentIsBlank()
      reads this, Words()
    {
      && current != null && current.k > 0 && current.data.Length > 0
      && forall w | 0 <= w < current.data.Length :: current.data[w] == 0
    }

    constructor (enabled: bool, current: Generation, last: Generation, hasher: Hasher, lastHasher: Hasher)
      ensures this.enabled == enabled && Knows(current.Keys, last.Keys, {Meta()}) && fresh(Words())
    {
      hide Passes, Meta;
      this.enabled, this.current, this.last := enabled, null, null;
      new;
      if enabled {
        var filter := BloomCreate(hasher);
        Populate(filter, current);
        var filterLast := BloomCreate(lastHasher);
        Populate(filterLast, last);
        this.current, this.last := filter, filterLast;
      }
    }

    /** Enter everything found on disk. */
    static method Populate(filter: BloomFilter, g: Generation)
      requires filter.data.Length > 0
      modifies filter.data
      ensures Passes(filter, g.Keys, {Meta()})
    {
      hide Meta, MayContain;
      var todo := g.Keys;
      while todo != {}
        invariant todo <= g.Keys && Passes(filter, g.Keys - todo, {Meta()})
        decreases todo
      {
        var id :| id in todo;
        BloomAdd(filter, id, g.Keys - todo, {Meta()});
        todo := todo - {id};
        assert g.Keys - todo == g.Keys - (todo + {id}) + {id};
      }
    }

    method Add(id: Id, ghost currentKeys: set<Id>, ghost lastKeys: set<Id>, ghost exempt: set<Id>)
      requires Knows(currentKeys, lastKeys, exempt)
      modifies Words()
      ensures Knows(currentKeys + {id}, lastKeys, exempt)
    {
      hide MayContain;
      if enabled {
        BloomAdd(current, id, currentKeys, exempt);
      }
    }

    method Rotate(hasher: Hasher, ghost currentKeys: set<Id>, ghost lastKeys: set<Id>, ghost exempt: set<Id>)
      requires Knows(currentKeys, lastKeys, exempt) && Meta() in exempt
      modifies this
      ensures Knows({Meta()}, currentKeys, exempt)
      ensures forall w | w in Words() :: w in old(Words()) || fresh(w)
      ensures enabled ==> CurrentIsBlank()
    {
      hide MayContain, Meta;
      if enabled {
        var blank := BloomCreate(hasher);
        last := current;
        current := blank;
      }
    }

    method MayHold(inLast: bool, id: Id, ghost currentKeys: set<Id>, ghost lastKeys: set<Id>, ghost exempt: set<Id>)
      returns (go: bool)
      requires Knows(currentKeys, lastKeys, exempt)
      ensures go <==> Sees(inLast, id)
      ensures id in (if inLast then lastKeys else currentKeys) && id !in exempt ==> go
    {
      hide MayContain;
      go := true;
      if enabled {
        if inLast {
          go := BloomContains(last, id);
        } else {
          go := BloomContains(current, id);
        }
      }
    }

    lemma KnowsWithExempt(currentKeys: set<Id>, lastKeys: set<Id>, exempt: set<Id>,
                          moreCurrent: set<Id>, moreLast: set<Id>, moreExempt: set<Id>)
      requires Knows(currentKeys, lastKeys, exempt) && exempt <= moreExempt
      requires moreCurrent <= currentKeys + moreExempt && moreLast <= lastKeys + moreExempt
      ensures Knows(moreCurrent, moreLast, moreExempt)
    {
    }

    lemma BlankSeesNothing(id: Id)
      requires enabled && CurrentIsBlank()
      ensures !Sees(false, id)
    {
      hide KeyHash, HashOf;
      BlankHasNothing(current.data[..], HashOf(current.hasher, KeyHash(id)), current.k);
    }
  }

  class TransactionStore {
    const filters: FilterPair
    const lookbackSecs: nat
    var current: Generation
    var currentOpenMs: nat
    var last: Generation
    var lastOpenMs: nat
    // what was found on disk, everything done since, and how often the generations were rotated
    ghost const start: Store
    ghost var history: seq<Event>
    ghost var epoch: nat

    ghost function Model(): Store
      reads this
    {
      Store(current, currentOpenMs, last, lastOpenMs, epoch)
    }

    /** The keys that the filters need not know about. */
    ghost function Exempt(): set<Id>
      reads this
    {
      ChildKeysOf(history) + {Meta()}
    }

    ghost predicate Valid()
      reads this, filters, filters.Words()
    {
      && Model() == Run(start, history, lookbackSecs)
      && filters.Knows(current.Keys, last.Keys, Exempt())
    }

    /** Open the two generations found on disk, stamping new ones, and fill their filters. */
    constructor (diskCurrent: Generation, diskLast: Generation, currentMs: nat, lastMs: nat,
                 lookbackSecs: nat, useBloomFilters: bool, hasher: Hasher, lastHasher: Hasher)
      ensures Valid() && history == [] && fresh(filters) && fresh(filters.Words())
      ensures start == Opened(diskCurrent, diskLast, currentMs, lastMs)
      ensures filters.enabled == useBloomFilters && this.lookbackSecs == lookbackSecs
    {
      hide Meta, OpenedMs;
      var found := Opened(diskCurrent, diskLast, currentMs, lastMs);
      this.lookbackSecs := lookbackSecs;
      current, currentOpenMs, last, lastOpenMs := found.current, found.currentOpenMs, found.last, found.lastOpenMs;
      filters := new FilterPair(useBloomFilters, found.current, found.last, hasher, lastHasher);
      start, history, epoch := found, [], 0;
    }

    /** Puts always go to the current generation. */
    method Put(now: nat, id: Id, blob: Blob, firstSeenMs: nat, ttl: nat) returns (ok: bool)
      requires Valid()
      modifies this`current, this`history, filters.Words()
      ensures Valid() && history == old(history) + [Event.Put(now, id, blob, firstSeenMs, ttl)]
      ensures ok <==> id != []
      ensures current == if ok then old(current)[id := Root(blob, firstSeenMs, now, if ttl == 0 then lookbackSecs + 300 else ttl)]
                         else old(current)
    {
      ghost var e := Event.Put(now, id, blob, firstSeenMs, ttl);
      TtlIs(ttl, lookbackSecs);
      hide Meta, Run, Passes, ChildKeysOf, Ttl;
      OneMore(start, history, e, lookbackSecs);
      ok := id != [];
      if ok {
        current := current[id := Root(blob, firstSeenMs, now, Ttl(ttl, lookbackSecs))];
        filters.Add(id, old(current.Keys), last.Keys, Exempt());
        assert current.Keys == old(current.Keys) + {id};
      }
      history := history + [e];
      assert Exempt() == old(Exempt());
    }

    /** Add a child document to the generation of its root, or to the current one if there is no root. */
    method AddChild(now: nat, id: Id, hexId: Option<Id>, blob: Blob, ttl: nat) returns (ok: bool)
      requires Valid() && id != [] && id !in Exempt()
      modifies this`current, this`last, this`history
      ensures Valid() && history == old(history) + [Event.AddChild(now, id, hexId, blob, ttl)]
      ensures ok <==> hexId.Some?
      ensures ok ==> HoldsChild(if id in old(last) then last else current, now, id, hexId.value, blob, ttl)
    {
      hide Meta, Run, Step, Passes, ChildKeysOf, FilterPair.Sees, HoldsChild;
      ghost var e := Event.AddChild(now, id, hexId, blob, ttl);
      OneMore(start, history, e, lookbackSecs);
      StepAddsKeys(Model(), e, lookbackSecs);
      var parent := FindParent(id);
      ok := StoreChild(now, id, hexId, blob, ttl, parent);
      history := history + [e];
      filters.KnowsWithExempt(old(current.Keys), old(last.Keys), old(Exempt()), current.Keys, last.Keys, Exempt());
    }

    /** The child's document is stored under the trace id, a dash and its own id. */
    predicate HoldsChild(g: Generation, now: nat, id: Id, hexId: Id, blob: Blob, ttl: nat) {
      var key := id + [45] + hexId;
      key in g && g[key] == Child(blob, now, if ttl == 0 then lookbackSecs + 300 else ttl)
    }

    /** `parent` says which generation the root was found in: the last one or the current one. */
    method StoreChild(now: nat, id: Id, hexId: Option<Id>, blob: Blob, ttl: nat, parent: Option<bool>) returns (ok: bool)
      requires parent == if id in last then Some(true) else if id in current then Some(false) else None
      modifies this`current, this`last
      ensures Model() == Step(old(Model()), Event.AddChild(now, id, hexId, blob, ttl), lookbackSecs)
      ensures ok <==> hexId.Some?
      ensures ok ==> HoldsChild(if id in old(last) then last else current, now, id, hexId.value, blob, ttl)
    {
      TtlIs(ttl, lookbackSecs);
      hide Ttl, Touched;
      // the root's modification time is renewed first
      if parent == Some(true) {
        last := last[id := Touched(last[id], now)];
      } else if parent == Some(false) {
        current := current[id := Touched(current[id], now)];
      }
      ok := hexId.Some?;
      if ok {
        var child := Child(blob, now, Ttl(ttl, lookbackSecs));
        if parent == Some(true) {
          last := last[ChildKey(id, hexId.value) := child];
        } else {
          current := current[ChildKey(id, hexId.value) := child];
        }
      }
    }

    /** Whether the plain lookup finds `id` in the last generation or in the current one. */
    ghost function PlainPlace(id: Id): Option<bool>
      reads this
    {
      if id in last then Some(true) else if id in current then Some(false) else None
    }

    /** The same with the filters asked first. */
    ghost function FilteredPlace(id: Id): Option<bool>
      reads this, filters, filters.Words()
    {
      if id in last && filters.Sees(true, id) then Some(true)
      else if id in current && filters.Sees(false, id) then Some(false) else None
    }

    /** The filters make no difference for a key exactly if that of the generation it is found in lets it through. */
    lemma FiltersAgreeExactly(id: Id)
      ensures FilteredPlace(id) == PlainPlace(id) <==> (PlainPlace(id).Some? ==> filters.Sees(PlainPlace(id).value, id))
    {
    }

    /** In which generation a lookup finds `id`, asking the filters first. */
    method FindParent(id: Id) returns (inLast: Option<bool>)
      requires filters.Knows(current.Keys, last.Keys, Exempt())
      ensures inLast == FilteredPlace(id)
      ensures id !in Exempt() ==> inLast == PlainPlace(id)
    {
      hide Meta, ChildKeysOf, Has, HashOf, KeyHash;
      var tryLast := filters.MayHold(true, id, current.Keys, last.Keys, Exempt());
      if tryLast && id in last {
        return Some(true);
      }
      var tryCurrent := filters.MayHold(false, id, current.Keys, last.Keys, Exempt());
      if !tryCurrent {
        return None;
      }
      return if id in current then Some(false) else None;
    }

    /** With filters or without, a trace id gets the answer of the plain lookup. */
    method Get(id: Id) returns (found: Option<Record>)
      requires Valid()
      ensures var s := Run(start, history, lookbackSecs);
              && (id !in Exempt() ==> found == Lookup(s.last, s.current, id))
              && (!filters.enabled ==> found == Lookup(s.last, s.current, id))
      ensures found == if FilteredPlace(id) == Some(true) then Some(last[id])
                       else if FilteredPlace(id) == Some(false) then Some(current[id]) else None
    {
      hide Meta, Passes, ChildKeysOf, Run;
      var inLast := FindParent(id);
      found := if inLast == Some(true) then Some(last[id])
               else if inLast == Some(false) then Some(current[id])
               else None;
    }

    /** Start a new current generation once the old one is more than ten minutes old. */
    method DeleteOld(now: nat, reopenMs: nat, hasher: Hasher) returns (deleted: nat)
      requires Valid()
      modifies this, filters
      ensures Valid() && history == old(history) + [Event.DeleteOld(now, reopenMs)]
      ensures forall w | w in filters.Words() :: w in old(filters.Words()) || fresh(w)
      ensures Expired(old(Model()), now) && filters.enabled ==> filters.CurrentIsBlank()
      ensures deleted == if Expired(old(Model()), now) then |old(current)| else 0
    {
      hide Meta, Run, ChildKeysOf, OpenedMs, Has, HashOf, KeyHash;
      ghost var e := Event.DeleteOld(now, reopenMs);
      OneMore(start, history, e, lookbackSecs);
      history := history + [e];
      assert Exempt() == old(Exempt());
      deleted := 0;
      if now > currentOpenMs && now - currentOpenMs > TEN_MINUTES_MS {
        deleted := Flip(reopenMs, hasher);
      }
    }

    method Flip(reopenMs: nat, hasher: Hasher) returns (deleted: nat)
      requires filters.Knows(current.Keys, last.Keys, Exempt())
      modifies this`current, this`currentOpenMs, this`last, this`lastOpenMs, this`epoch, filters
      ensures Model() == Store(map[Meta() := OpenMs(reopenMs)], reopenMs,
                               old(current), OpenedMs(old(current), reopenMs), old(epoch) + 1)
      ensures filters.Knows(current.Keys, last.Keys, Exempt())
      ensures forall w | w in filters.Words() :: w in old(filters.Words()) || fresh(w)
      ensures filters.enabled ==> filters.CurrentIsBlank()
      ensures deleted == |old(current)|
    {
      hide Meta, ChildKeysOf, OpenedMs, Has, HashOf, KeyHash;
      deleted := |current|;
      filters.Rotate(hasher, current.Keys, last.Keys, Exempt());
      last, lastOpenMs := current, OpenedMs(current, reopenMs);
      current, currentOpenMs := map[Meta() := OpenMs(reopenMs)], reopenMs;
      epoch := epoch + 1;
      assert current.Keys == {Meta()};
    }
  }

  /** A store that has just been rotated; its current filter is still blank. */
  method JustRotated(hasher: Hasher) returns (store: TransactionStore, now: nat)
    ensures fresh(store) && fresh(store.filters) && fresh(store.filters.Words())
    ensures store.Valid() && store.filters.enabled && store.filters.CurrentIsBlank()
    ensures store.history == [Event.DeleteOld(now, now)]
    ensures store.current.Keys == {Meta()} && store.last.Keys == {Meta()}
  {
    hide Meta, Has, HashOf, KeyHash, Passes, OpenedMs;
    store := new TransactionStore(map[], map[], 0, 0, 0, true, hasher, hasher);
    now := TEN_MINUTES_MS + OpenedMs(store.current, 0) + 1;
    var deleted := store.DeleteOld(now, now, hasher);
    OneMore(store.start, [], Event.DeleteOld(now, now), store.lookbackSecs);
  }

  /**
   Why the keys of children stored since opening are excepted: they are not entered in a filter.
   Here the filters hide one that the plain lookup finds.
   */
  method ChildKeyIsHidden(id: Id, hexId: Id, hasher: Hasher) returns (found: Option<Record>, ghost plain: Option<Record>)
    requires id != [] && id != Meta() && ChildKey(id, hexId) != Meta()
    ensures found.None? && plain.Some?
  {
    hide Meta, Has, HashOf, KeyHash, Passes, OpenedMs;
    var store, now := JustRotated(hasher);
    ghost var history := store.history;
    assert ChildKeysOf(history) == {};
    OneMore(store.start, history, Event.AddChild(now, id, Some(hexId), [], 0), store.lookbackSecs);
    var ok := store.AddChild(now, id, Some(hexId), [], 0);
    store.filters.BlankSeesNothing(ChildKey(id, hexId));
    found := store.Get(ChildKey(id, hexId));
    plain := Lookup(store.last, store.current, ChildKey(id, hexId));
  }

  lemma TtlIs(ttl: nat, lookbackSecs: nat)
    ensures Ttl(ttl, lookbackSecs) == if ttl == 0 then lookbackSecs + 300 else ttl
  {
  }
}
