/**
 The Bloom filter in front of each generation of the transaction store, and the blocked bulk
 insertion that must leave the same bits as inserting the keys one by one.
 */
module Bloom {
  import opened Words

  const TWO_128 := TWO_64 * TWO_64
  type U32 = x: int | 0 <= x < TWO_32
  type U64 = x: int | 0 <= x < TWO_64

  const BLOCK_LEN := 32768

  // ----- Where a key's bits are -----

  /** The multiply-shift hash a filter draws at random when it is created. */
  datatype Hasher = Hasher(multiply: nat, add: nat)

  function HashOf(hasher: Hasher, key: U64): U64 {
    ((hasher.add + hasher.multiply * key) % TWO_128) / TWO_64
  }

  /** The two halves of a hash exchanged. */
  function Swapped(hash: U64): U64 {
    hash / TWO_32 + (hash % TWO_32) * TWO_32
  }

  function Next(a: U64, hash: U64): U64 {
    (a + hash) % TWO_64
  }

  /** The `i`-th probe: each is the one before plus the hash, modulo 2^64. */
  function Probe(hash: U64, i: nat): U64 {
    if i == 0 then Swapped(hash) else Next(Probe(hash, i - 1), hash)
  }

  /** The hash is the high word of the 128-bit value. */
  lemma HashIsHighWord(hasher: Hasher, key: U64) returns (carry: nat, low: nat)
    ensures low < 0x1_0000_0000_0000_0000
    ensures hasher.multiply * key + hasher.add ==
            carry * 0x1_0000_0000_0000_0000_0000_0000_0000_0000 + HashOf(hasher, key) * 0x1_0000_0000_0000_0000 + low
  {
    var all := hasher.add + hasher.multiply * key;
    carry, low := all / TWO_128, all % TWO_128 % TWO_64;
  }

  /** The probes in closed form. */
  lemma {:induction false} ProbeIs(hash: U64, i: nat)
    ensures Probe(hash, i) ==
            (hash / 0x1_0000_0000 + hash % 0x1_0000_0000 * 0x1_0000_0000 + i * hash) % 0x1_0000_0000_0000_0000
  {
    var start := hash / 0x1_0000_0000 + hash % 0x1_0000_0000 * 0x1_0000_0000;
    if i == 0 {
      assert start < 0x1_0000_0000_0000_0000;
    } else {
      ProbeIs(hash, i - 1);
      assert start + i * hash == start + (i - 1) * hash + hash;
      WrapOnce(start + (i - 1) * hash, hash);
    }
  }

  lemma WrapOnce(a: nat, b: nat)
    ensures (a % TWO_64 + b) % TWO_64 == (a + b) % TWO_64
  {
    var q, r := a / TWO_64, a % TWO_64;
    assert a + b == q * TWO_64 + (r + b);
  }

  /** Lemire's reduction of a 64-bit word to an index below `p`, without dividing. */
  function FastRange(word: U64, p: nat): (index: nat)
    requires p > 0
    ensures index < p
    ensures index * 0x1_0000_0000_0000_0000 <= word * p < (index + 1) * 0x1_0000_0000_0000_0000
  {
    ProductBelow(word, p);
    word * p / TWO_64
  }

  lemma ProductBelow(word: U64, p: nat)
    requires p > 0
    ensures 0 <= word * p < TWO_64 * p
  {
  }

  /** index & 63 */
  function Offset(index: nat): (n: bv7)
    ensures n < 64
  {
    (index % 64) as bv7
  }

  function Up(n: bv7): bv64 {
    if n < 64 then 1 << n else 0
  }

  function BitOf(index: nat): bv64 {
    Up(Offset(index))
  }

  predicate Test(word: bv64, bit: bv64) {
    word & bit != 0
  }

  lemma BitIsSet(index: nat)
    ensures Test(BitOf(index), BitOf(index))
  {
    hide Offset;
  }

  // ----- What insertion does to the words -----

  function Or(word: bv64, bits: bv64): bv64 {
    word | bits
  }

  function WithBit(word: bv64, index: nat): bv64 {
    Or(word, BitOf(index))
  }

  predicate HasBit(word: bv64, index: nat) {
    Test(word, BitOf(index))
  }

  function Mark(words: seq<bv64>, a: U64): (marked: seq<bv64>)
    requires |words| > 0
    ensures |marked| == |words|
  {
    var w := FastRange(a, |words|);
    words[w := WithBit(words[w], a)]
  }

  /** The words after marking the first `n` probes of `hash`. */
  function Added(words: seq<bv64>, hash: U64, n: nat): (marked: seq<bv64>)
    requires |words| > 0
    ensures |marked| == |words|
  {
    if n == 0 then words else Mark(Added(words, hash, n - 1), Probe(hash, n - 1))
  }

  /** The words after adding the keys one at a time. */
  function AddedAll(words: seq<bv64>, hasher: Hasher, keys: seq<U64>, k: nat): (marked: seq<bv64>)
    requires |words| > 0
    ensures |marked| == |words|
  {
    if keys == [] then words
    else Added(AddedAll(words, hasher, keys[..|keys| - 1], k), HashOf(hasher, keys[|keys| - 1]), k)
  }

  predicate IsMarked(words: seq<bv64>, a: U64)
    requires |words| > 0
  {
    HasBit(words[FastRange(a, |words|)], a)
  }

  /** All `k` probes of `hash` are marked. */
  predicate Has(words: seq<bv64>, hash: U64, k: nat)
    requires |words| > 0
  {
    forall i | 0 <= i < k :: IsMarked(words, Probe(hash, i))
  }

  lemma MarkKeeps(words: seq<bv64>, a: U64, b: U64)
    requires |words| > 0
    ensures IsMarked(Mark(words, a), a)
    ensures IsMarked(words, b) ==> IsMarked(Mark(words, a), b)
  {
    hide WithBit, HasBit, FastRange;
    WithBitKeeps(words[FastRange(a, |words|)], a, b);
  }

  lemma WithBitKeeps(word: bv64, a: nat, b: nat)
    ensures HasBit(WithBit(word, a), a)
    ensures HasBit(word, b) ==> HasBit(WithBit(word, a), b)
  {
    hide BitOf, Test, Or;
    OrKeeps(word, BitOf(a), BitOf(b));
    OrKeeps(word, BitOf(a), BitOf(a));
    BitIsSet(a);
  }

  lemma OrKeeps(word: bv64, bit: bv64, other: bv64)
    ensures Test(word, other) ==> Test(Or(word, bit), other)
    ensures Test(bit, other) ==> Test(Or(word, bit), other)
  {
    assert (word | bit) & other == (word & other) | (bit & other);
  }

  /** A key that was added is found, whatever else is added before or after: no false negatives. */
  lemma {:induction false} AddedHas(words: seq<bv64>, hash: U64, n: nat)
    requires |words| > 0
    ensures Has(Added(words, hash, n), hash, n)
    ensures forall other, k | Has(words, other, k) :: Has(Added(words, hash, n), other, k)
  {
    hide Mark, IsMarked;
    if n > 0 {
      AddedHas(words, hash, n - 1);
      var before, a := Added(words, hash, n - 1), Probe(hash, n - 1);
      forall b
        ensures IsMarked(Mark(before, a), a) && (IsMarked(before, b) ==> IsMarked(Mark(before, a), b))
      {
        MarkKeeps(before, a, b);
      }
    }
  }

  lemma {:induction false} AddedAllHas(words: seq<bv64>, hasher: Hasher, keys: seq<U64>, k: nat, key: U64)
    requires |words| > 0 && key in keys
    ensures Has(AddedAll(words, hasher, keys, k), HashOf(hasher, key), k)
  {
    hide HashOf;
    var most, last := keys[..|keys| - 1], keys[|keys| - 1];
    AddedHas(AddedAll(words, hasher, most, k), HashOf(hasher, last), k);
    if key != last {
      AddedAllHas(words, hasher, most, k, key);
    }
  }

  /** A filter with no bits set contains nothing. */
  lemma BlankHasNothing(words: seq<bv64>, hash: U64, k: nat)
    requires |words| > 0 && k > 0 && forall w | 0 <= w < |words| :: words[w] == 0
    ensures !Has(words, hash, k)
  {
    assert !IsMarked(words, Probe(hash, 0));
  }

  // ----- Exactly which bits -----

  /** The two point at the same bit of the same word. */
  predicate SameBit(a: U64, b: U64, length: nat)
    requires length > 0
  {
    FastRange(a, length) == FastRange(b, length) && a % 64 == b % 64
  }

  lemma BitsOverlap(m: bv7, n: bv7)
    requires m < 64 && n < 64
    ensures Test(Up(m), Up(n)) <==> m == n
  {
  }

  lemma OrTests(word: bv64, bits: bv64, other: bv64)
    ensures Test(Or(word, bits), other) <==> Test(word, other) || Test(bits, other)
  {
    OrKeeps(word, bits, other);
    assert (word | bits) & other == (word & other) | (bits & other);
  }

  lemma OffsetIs(a: nat)
    ensures Offset(a) as int == a % 64
  {
    SmallIs(a % 64);
  }

  lemma SameOffsets(a: nat, b: nat)
    ensures Offset(a) == Offset(b) <==> a % 64 == b % 64
  {
    OffsetIs(a);
    OffsetIs(b);
    hide Offset;
  }

  lemma WithBitExactly(word: bv64, a: nat, b: nat)
    ensures HasBit(WithBit(word, a), b) <==> HasBit(word, b) || a % 64 == b % 64
  {
    hide Offset, Up, Test, Or;
    OrTests(word, BitOf(a), BitOf(b));
    BitsOverlap(Offset(a), Offset(b));
    SameOffsets(a, b);
  }

  lemma MarkExactly(words: seq<bv64>, a: U64, b: U64)
    requires |words| > 0
    ensures IsMarked(Mark(words, a), b) <==> IsMarked(words, b) || SameBit(a, b, |words|)
  {
    hide WithBit, HasBit, FastRange;
    WithBitExactly(words[FastRange(b, |words|)], a, b);
  }

  /** One of the first `n` probes of `hash` is this very bit. */
  ghost predicate Hits(hash: U64, n: nat, a: U64, length: nat)
    requires length > 0
  {
    exists i: nat :: i < n && SameBit(Probe(hash, i), a, length)
  }

  lemma {:induction false} AddedExactly(words: seq<bv64>, hash: U64, n: nat, a: U64)
    requires |words| > 0
    ensures IsMarked(Added(words, hash, n), a) <==> IsMarked(words, a) || Hits(hash, n, a, |words|)
  {
    hide Mark, IsMarked, SameBit;
    if n > 0 {
      AddedExactly(words, hash, n - 1, a);
      MarkExactly(Added(words, hash, n - 1), Probe(hash, n - 1), a);
    }
  }

  /** A bit is set exactly if it was before, or one of the keys has a probe there. */
  lemma {:induction false} AddedAllExactly(words: seq<bv64>, hasher: Hasher, keys: seq<U64>, k: nat, a: U64)
    requires |words| > 0
    ensures IsMarked(AddedAll(words, hasher, keys, k), a) <==>
            IsMarked(words, a) || exists key :: key in keys && Hits(HashOf(hasher, key), k, a, |words|)
  {
    hide HashOf, IsMarked, Hits;
    if keys != [] {
      var most, last := keys[..|keys| - 1], keys[|keys| - 1];
      AddedAllExactly(words, hasher, most, k, a);
      AddedExactly(AddedAll(words, hasher, most, k), HashOf(hasher, last), k, a);
      assert keys == most + [last];
    }
  }

  /** One of the keys has a probe at this very bit. */
  ghost predicate SomeKeyHits(hasher: Hasher, keys: seq<U64>, k: nat, a: U64, length: nat)
    requires length > 0
  {
    exists key :: key in keys && Hits(HashOf(hasher, key), k, a, length)
  }

  /** The `i`-th probe of `hash` is one that some key has, too. */
  ghost predicate IsShared(hasher: Hasher, keys: seq<U64>, k: nat, hash: U64, i: nat, length: nat)
    requires length > 0
  {
    SomeKeyHits(hasher, keys, k, Probe(hash, i), length)
  }

  /** A filter made from nothing finds a hash exactly if each of its probes is a probe of some key. */
  lemma FoundInFilterExactly(words: seq<bv64>, hasher: Hasher, keys: seq<U64>, k: nat, hash: U64)
    requires |words| > 0 && forall w | 0 <= w < |words| :: words[w] == 0
    ensures Has(AddedAll(words, hasher, keys, k), hash, k) <==> forall i: nat | i < k :: IsShared(hasher, keys, k, hash, i, |words|)
  {
    forall i: nat | i < k
      ensures ProbeMarked(AddedAll(words, hasher, keys, k), hash, i) <==> IsShared(hasher, keys, k, hash, i, |words|)
    {
      MarkedByKeys(words, hasher, keys, k, Probe(hash, i));
    }
    HasMeans(AddedAll(words, hasher, keys, k), hash, k);
    hide *;
  }

  predicate ProbeMarked(words: seq<bv64>, hash: U64, i: nat)
    requires |words| > 0
  {
    IsMarked(words, Probe(hash, i))
  }

  lemma HasMeans(words: seq<bv64>, hash: U64, k: nat)
    requires |words| > 0
    ensures Has(words, hash, k) <==> forall i: nat | i < k :: ProbeMarked(words, hash, i)
  {
    hide IsMarked;
    if Has(words, hash, k) {
      forall i: nat | i < k
        ensures ProbeMarked(words, hash, i)
      {
        assert IsMarked(words, Probe(hash, i));
      }
    }
    if forall i: nat | i < k :: ProbeMarked(words, hash, i) {
      forall i | 0 <= i < k
        ensures IsMarked(words, Probe(hash, i))
      {
        assert ProbeMarked(words, hash, i);
      }
    }
  }

  lemma MarkedByKeys(words: seq<bv64>, hasher: Hasher, keys: seq<U64>, k: nat, a: U64)
    requires |words| > 0 && forall w | 0 <= w < |words| :: words[w] == 0
    ensures IsMarked(AddedAll(words, hasher, keys, k), a) <==> SomeKeyHits(hasher, keys, k, a, |words|)
  {
    NothingMarked(words, a);
    AddedAllExactly(words, hasher, keys, k, a);
    hide IsMarked, Hits, HashOf, AddedAll;
  }

  lemma NothingMarked(words: seq<bv64>, a: U64)
    requires |words| > 0 && forall w | 0 <= w < |words| :: words[w] == 0
    ensures !IsMarked(words, a)
  {
  }

  // ----- Blocked insertion -----

  /** The bits that a queue of bit indices holds for word `w`. */
  ghost function Queued(queue: seq<U32>, w: nat): bv64 {
    if queue == [] then 0
    else
      var last := queue[|queue| - 1];
      Or(Queued(queue[..|queue| - 1], w), if last / 64 == w then BitOf(last) else 0)
  }

  /** The queue of a block: the first `lens[block]` of its `BLOCK_LEN` slots. */
  ghost function QueueOf(slots: seq<U32>, lens: seq<nat>, block: nat): seq<U32>
    requires block < |lens| && (block + 1) * BLOCK_LEN <= |slots| && lens[block] <= BLOCK_LEN
  {
    slots[block * BLOCK_LEN..block * BLOCK_LEN + lens[block]]
  }

  ghost predicate InBlock(queue: seq<U32>, block: nat, length: nat) {
    forall i | 0 <= i < |queue| :: queue[i] / 64 < length && queue[i] / 64 / BLOCK_LEN == block
  }

  ghost predicate QueuesOk(slots: seq<U32>, lens: seq<nat>, length: nat) {
    && |slots| == |lens| * BLOCK_LEN && length / BLOCK_LEN < |lens|
    && (forall b | 0 <= b < |lens| :: lens[b] <= BLOCK_LEN)
    && (forall b | 0 <= b < |lens| :: InBlock(QueueOf(slots, lens, b), b, length))
  }

  /** In every word, the bits set so far and the bits queued for it make up the target. */
  ghost predicate Pending(words: seq<bv64>, slots: seq<U32>, lens: seq<nat>, target: seq<bv64>) {
    && QueuesOk(slots, lens, |words|) && |target| == |words|
    && forall w | 0 <= w < |words| :: Or(words[w], Queued(QueueOf(slots, lens, w / BLOCK_LEN), w)) == target[w]
  }

  lemma OrLaws(a: bv64, b: bv64, c: bv64)
    ensures Or(Or(a, b), c) == Or(a, Or(b, c)) && Or(a, 0) == a
  {
  }

  lemma {:induction false} NothingQueued(queue: seq<U32>, block: nat, length: nat, w: nat)
    requires InBlock(queue, block, length) && w / BLOCK_LEN != block
    ensures Queued(queue, w) == 0
  {
    hide Or, BitOf;
    if queue != [] {
      NothingQueued(queue[..|queue| - 1], block, length, w);
      OrLaws(0, 0, 0);
    }
  }

  /** Where the bit index of a probe points. */
  lemma FlatIndex(index: nat, a: U64)
    ensures var flat := index * 64 + a % 64; flat / 64 == index && BitOf(flat) == BitOf(a)
  {
    hide BitOf;
    assert (index * 64 + a % 64) / 64 == index && (index * 64 + a % 64) % 64 == a % 64;
    SameOffset(index * 64 + a % 64, a);
  }

  lemma SameOffset(i: nat, j: nat)
    requires i % 64 == j % 64
    ensures BitOf(i) == BitOf(j)
  {
    hide Up;
  }

  lemma EnqueueQueues(slots: seq<U32>, lens: seq<nat>, length: nat, block: nat, flat: U32)
    requires QueuesOk(slots, lens, length) && block < |lens| && lens[block] < BLOCK_LEN
    requires flat / 64 < length && flat / 64 / BLOCK_LEN == block
    ensures var (slots', lens') := Pushed(slots, lens, block, flat);
            && QueuesOk(slots', lens', length)
            && forall b | 0 <= b < |lens| :: QueueOf(slots', lens', b) ==
                 if b == block then QueueOf(slots, lens, b) + [flat] else QueueOf(slots, lens, b)
  {
    var (slots', lens') := Pushed(slots, lens, block, flat);
    forall b | 0 <= b < |lens|
      ensures QueueOf(slots', lens', b) == if b == block then QueueOf(slots, lens, b) + [flat] else QueueOf(slots, lens, b)
      ensures InBlock(QueueOf(slots', lens', b), b, length)
    {
      assert InBlock(QueueOf(slots, lens, b), b, length);
    }
  }

  ghost function Pushed(slots: seq<U32>, lens: seq<nat>, block: nat, flat: U32): (seq<U32>, seq<nat>)
    requires block < |lens| && (block + 1) * BLOCK_LEN <= |slots| && lens[block] < BLOCK_LEN
  {
    (slots[block * BLOCK_LEN + lens[block] := flat], lens[block := lens[block] + 1])
  }

  lemma QueuedOneMore(word: bv64, queue: seq<U32>, flat: U32, w: nat)
    ensures Or(word, Queued(queue + [flat], w)) ==
            if flat / 64 == w then Or(Or(word, Queued(queue, w)), BitOf(flat)) else Or(word, Queued(queue, w))
  {
    hide Or, BitOf;
    assert (queue + [flat])[..|queue|] == queue;
    OrLaws(word, Queued(queue, w), BitOf(flat));
    OrLaws(Queued(queue, w), 0, 0);
  }

  lemma Enqueue(words: seq<bv64>, slots: seq<U32>, lens: seq<nat>, target: seq<bv64>, a: U64, flat: U32)
    requires |words| > 0 && Pending(words, slots, lens, target)
    requires var index := FastRange(a, |words|); flat == index * 64 + a % 64 && lens[index / BLOCK_LEN] < BLOCK_LEN
    ensures var (slots', lens') := Pushed(slots, lens, FastRange(a, |words|) / BLOCK_LEN, flat);
            Pending(words, slots', lens', Mark(target, a))
  {
    hide Or, BitOf, FastRange, InBlock, QueueOf, Pushed, Queued;
    var index := FastRange(a, |words|);
    var block := index / BLOCK_LEN;
    FlatIndex(index, a);
    EnqueueQueues(slots, lens, |words|, block, flat);
    var (slots', lens') := Pushed(slots, lens, block, flat);
    var target' := Mark(target, a);
    forall w | 0 <= w < |words|
      ensures Or(words[w], Queued(QueueOf(slots', lens', w / BLOCK_LEN), w)) == target'[w]
    {
      if w / BLOCK_LEN == block {
        QueuedOneMore(words[w], QueueOf(slots, lens, w / BLOCK_LEN), flat, w);
      }
    }
  }

  lemma EmptiedQueues(slots: seq<U32>, lens: seq<nat>, length: nat, block: nat)
    requires QueuesOk(slots, lens, length) && block < |lens|
    ensures QueuesOk(slots, lens[block := 0], length)
    ensures forall b | 0 <= b < |lens| ::
              QueueOf(slots, lens[block := 0], b) == if b == block then [] else QueueOf(slots, lens, b)
  {
    var lens' := lens[block := 0];
    forall b | 0 <= b < |lens|
      ensures QueueOf(slots, lens', b) == if b == block then [] else QueueOf(slots, lens, b)
      ensures InBlock(QueueOf(slots, lens', b), b, length)
    {
      assert InBlock(QueueOf(slots, lens, b), b, length);
    }
  }

  lemma Applied(words: seq<bv64>, words': seq<bv64>, slots: seq<U32>, lens: seq<nat>, target: seq<bv64>, block: nat)
    requires Pending(words, slots, lens, target) && block < |lens| && |words'| == |words|
    requires forall w | 0 <= w < |words| :: words'[w] == Or(words[w], Queued(QueueOf(slots, lens, block), w))
    ensures Pending(words', slots, lens[block := 0], target)
  {
    hide Or, InBlock, QueueOf;
    EmptiedQueues(slots, lens, |words|, block);
    forall w | 0 <= w < |words|
      ensures Or(words'[w], Queued(QueueOf(slots, lens[block := 0], w / BLOCK_LEN), w)) == target[w]
    {
      OrLaws(words[w], 0, 0);
      OrLaws(words'[w], 0, 0);
      if w / BLOCK_LEN != block {
        assert InBlock(QueueOf(slots, lens, block), block, |words|);
        NothingQueued(QueueOf(slots, lens, block), block, |words|, w);
      }
    }
  }

  lemma NothingLeft(words: seq<bv64>, slots: seq<U32>, lens: seq<nat>, target: seq<bv64>)
    requires Pending(words, slots, lens, target) && forall b | 0 <= b < |lens| :: lens[b] == 0
    ensures words == target
  {
    hide Or;
    forall w | 0 <= w < |words|
      ensures words[w] == target[w]
    {
      assert QueueOf(slots, lens, w / BLOCK_LEN) == [];
      OrLaws(words[w], 0, 0);
    }
  }

  lemma NothingYet(words: seq<bv64>, slots: seq<U32>, lens: seq<nat>)
    requires |slots| == |lens| * BLOCK_LEN && |words| / BLOCK_LEN < |lens|
    requires forall b | 0 <= b < |lens| :: lens[b] == 0
    ensures Pending(words, slots, lens, words)
  {
    hide Or;
    assert forall b | 0 <= b < |lens| :: QueueOf(slots, lens, b) == [];
    forall w | 0 <= w < |words|
      ensures Or(words[w], Queued(QueueOf(slots, lens, w / BLOCK_LEN), w)) == words[w]
    {
      OrLaws(words[w], 0, 0);
    }
  }

  // ----- The filter -----

  class BloomFilter {
    const data: array<bv64>
    const k: nat
    const branchless: bool
    const hasher: Hasher

    constructor (n: nat, bitsPerItem: nat, branchless: bool, hasher: Hasher)
      requires n * bitsPerItem > 0
      ensures fresh(data) && data.Length == (n * bitsPerItem + 63) / 64 && data.Length > 0
      ensures forall w | 0 <= w < data.Length :: data[w] == 0
      ensures k == (bitsPerItem as real * 0.693147180559945 + 0.5).Floor
      ensures this.branchless == branchless && this.hasher == hasher
    {
      data := new bv64[(n * bitsPerItem + 63) / 64](_ => 0);
      k := (bitsPerItem as real * 0.693147180559945 + 0.5).Floor;
      this.branchless, this.hasher := branchless, hasher;
    }

    method Add(key: U64)
      requires data.Length > 0
      modifies data
      ensures data[..] == Added(old(data[..]), HashOf(hasher, key), k)
    {
      hide WithBit, Swapped, HashOf, Next, FastRange;
      var hash := HashOf(hasher, key);
      var a := Swapped(hash);
      for i := 0 to k
        invariant a == Probe(hash, i)
        invariant data[..] == Added(old(data[..]), hash, i)
      {
        var w := FastRange(a, data.Length);
        data[w] := WithBit(data[w], a);
        a := Next(a, hash);
      }
    }

    predicate Apart(tmp: array<U32>, tmpLen: array<nat>) {
      tmp as object != data && tmpLen as object != data && tmp as object != tmpLen
    }

    /** Set the bits of the first `len` entries of a block's queue. */
    method ApplyBlock(tmp: array<U32>, block: nat, len: nat)
      requires tmp as object != data && len <= BLOCK_LEN && (block + 1) * BLOCK_LEN <= tmp.Length
      requires forall index | index in tmp[block * BLOCK_LEN..block * BLOCK_LEN + len] :: index / 64 < data.Length
      modifies data
      ensures forall w | 0 <= w < data.Length ::
                data[w] == Or(old(data[w]), Queued(tmp[block * BLOCK_LEN..block * BLOCK_LEN + len], w))
    {
      hide Or, BitOf;
      ghost var queue := tmp[block * BLOCK_LEN..block * BLOCK_LEN + len];
      forall w | 0 <= w < data.Length
        ensures Or(data[w], Queued(queue[..0], w)) == data[w]
      {
        OrLaws(data[w], 0, 0);
      }
      for i := 0 to len
        invariant forall w | 0 <= w < data.Length :: data[w] == Or(old(data[w]), Queued(queue[..i], w))
      {
        var index := tmp[block * BLOCK_LEN + i];
        assert queue[i] == index && index in queue;
        data[index / 64] := WithBit(data[index / 64], index);
        assert queue[..i + 1][..i] == queue[..i];
        forall w | 0 <= w < data.Length
          ensures data[w] == Or(old(data[w]), Queued(queue[..i + 1], w))
        {
          OrLaws(old(data[w]), Queued(queue[..i], w), BitOf(index));
          OrLaws(Queued(queue[..i], w), 0, 0);
        }
      }
      assert queue[..len] == queue;
    }

    /** Bulk insertion: the same bits as adding the keys one by one. */
    method AddAll(keys: seq<U64>, start: nat, end: nat)
      requires data.Length > 0 && start <= end <= |keys|
      modifies data
      ensures data[..] == AddedAll(old(data[..]), hasher, keys[start..end], k)
    {
      hide Added, HashOf, FastRange;
      if data.Length > 0x3ffffff {
        for i := start to end
          invariant data[..] == AddedAll(old(data[..]), hasher, keys[start..i], k)
        {
          assert keys[start..i + 1][..i - start] == keys[start..i];
          Add(keys[i]);
        }
      } else {
        AddBlocked(keys, start, end);
      }
    }

    method AddBlocked(keys: seq<U64>, start: nat, end: nat)
      requires 0 < data.Length <= 0x3ffffff && start <= end <= |keys|
      modifies data
      ensures data[..] == AddedAll(old(data[..]), hasher, keys[start..end], k)
    {
      hide Added, HashOf, FastRange, Pending;
      ghost var target := data[..];
      var blocks := 1 + data.Length / BLOCK_LEN;
      var tmp := new U32[blocks * BLOCK_LEN];
      var tmpLen := new nat[blocks](_ => 0);
      NothingYet(data[..], tmp[..], tmpLen[..]);
      for i := start to end
        invariant target == AddedAll(old(data[..]), hasher, keys[start..i], k)
        invariant |target| == data.Length && Pending(data[..], tmp[..], tmpLen[..], target)
        invariant forall b | 0 <= b < blocks :: tmpLen[b] < BLOCK_LEN
      {
        assert keys[start..i + 1][..i - start] == keys[start..i];
        target := EnqueueKey(keys[i], tmp, tmpLen, target);
      }
      for block := 0 to blocks
        invariant Pending(data[..], tmp[..], tmpLen[..], target)
        invariant forall b | 0 <= b < blocks :: if b < block then tmpLen[b] == 0 else tmpLen[b] < BLOCK_LEN
      {
        FlushBlock(tmp, tmpLen, block, target);
      }
      NothingLeft(data[..], tmp[..], tmpLen[..], target);
    }

    /** Queue the `k` bits of a key, applying every block that fills up. */
    method EnqueueKey(key: U64, tmp: array<U32>, tmpLen: array<nat>, ghost target: seq<bv64>) returns (ghost now: seq<bv64>)
      requires 0 < data.Length <= 0x3ffffff && Pending(data[..], tmp[..], tmpLen[..], target)
      requires |target| == data.Length && Apart(tmp, tmpLen)
      requires forall b | 0 <= b < tmpLen.Length :: tmpLen[b] < BLOCK_LEN
      modifies data, tmp, tmpLen
      ensures |now| == |target| && Pending(data[..], tmp[..], tmpLen[..], now) && now == Added(target, HashOf(hasher, key), k)
      ensures forall b | 0 <= b < tmpLen.Length :: tmpLen[b] < BLOCK_LEN
    {
      hide Swapped, HashOf, Next, FastRange, Pending;
      var hash := HashOf(hasher, key);
      var a := Swapped(hash);
      now := target;
      for j := 0 to k
        invariant a == Probe(hash, j) && |now| == |target| && now == Added(target, hash, j)
        invariant Pending(data[..], tmp[..], tmpLen[..], now)
        invariant forall b | 0 <= b < tmpLen.Length :: tmpLen[b] < BLOCK_LEN
      {
        EnqueueProbe(a, tmp, tmpLen, now);
        now := Mark(now, a);
        a := Next(a, hash);
      }
    }

    method EnqueueProbe(a: U64, tmp: array<U32>, tmpLen: array<nat>, ghost target: seq<bv64>)
      requires 0 < data.Length <= 0x3ffffff && Pending(data[..], tmp[..], tmpLen[..], target)
      requires |target| == data.Length && Apart(tmp, tmpLen)
      requires forall b | 0 <= b < tmpLen.Length :: tmpLen[b] < BLOCK_LEN
      modifies data, tmp, tmpLen
      ensures Pending(data[..], tmp[..], tmpLen[..], Mark(target, a))
      ensures forall b | 0 <= b < tmpLen.Length :: tmpLen[b] < BLOCK_LEN
    {
      hide InBlock, QueueOf, FastRange, Or, Mark;
      var index := FastRange(a, data.Length);
      var block := index / BLOCK_LEN;
      var len := tmpLen[block];
      Enqueue(data[..], tmp[..], tmpLen[..], target, a, index * 64 + a % 64);
      tmp[block * BLOCK_LEN + len] := index * 64 + a % 64;
      tmpLen[block] := len + 1;
      assert tmp[..] == old(tmp[..])[block * BLOCK_LEN + len := index * 64 + a % 64];
      assert tmpLen[..] == old(tmpLen[..])[block := len + 1];
      if len + 1 == BLOCK_LEN {
        FlushBlock(tmp, tmpLen, block, Mark(target, a));
      }
    }

    method FlushBlock(tmp: array<U32>, tmpLen: array<nat>, block: nat, ghost target: seq<bv64>)
      requires block < tmpLen.Length && Apart(tmp, tmpLen)
      requires Pending(data[..], tmp[..], tmpLen[..], target)
      modifies data, tmpLen
      ensures Pending(data[..], tmp[..], tmpLen[..], target)
      ensures tmpLen[..] == old(tmpLen[..])[block := 0]
    {
      hide Or, Queued;
      ghost var words, slots, lens := data[..], tmp[..], tmpLen[..];
      assert InBlock(QueueOf(slots, lens, block), block, |words|);
      assert QueueOf(slots, lens, block) == tmp[block * BLOCK_LEN..block * BLOCK_LEN + tmpLen[block]];
      ApplyBlock(tmp, block, tmpLen[block]);
      tmpLen[block] := 0;
      assert tmpLen[..] == lens[block := 0];
      Applied(words, data[..], slots, lens, target, block);
    }

    method Contain(key: U64) returns (found: bool)
      requires data.Length > 0
      ensures found <==> Has(data[..], HashOf(hasher, key), k)
    {
      hide BitOf, Swapped, HashOf, Next, LowBit, IsMarked, FastRange;
      var hash := HashOf(hasher, key);
      var a := Swapped(hash);
      if branchless && k >= 3 {
        var a1 := Next(a, hash);
        var a2 := Next(a1, hash);
        assert a == Probe(hash, 0) && a1 == Probe(hash, 1) && a2 == Probe(hash, 2);
        var firstThree := TestThree(a, a1, a2);
        if !firstThree {
          return false;
        }
        a := a2;
        for i := 3 to k
          invariant a == Probe(hash, i - 1)
          invariant forall j | 0 <= j < i :: IsMarked(data[..], Probe(hash, j))
        {
          a := Next(a, hash);
          var b := ShiftedBit(a);
          if !LowBit(b) {
            assert !IsMarked(data[..], Probe(hash, i));
            return false;
          }
        }
        return true;
      }
      for i := 0 to k
        invariant a == Probe(hash, i)
        invariant forall j | 0 <= j < i :: IsMarked(data[..], Probe(hash, j))
      {
        var marked := TestBit(a);
        if !marked {
          return false;
        }
        a := Next(a, hash);
      }
      return true;
    }

    method TestBit(a: U64) returns (marked: bool)
      requires data.Length > 0
      ensures marked <==> IsMarked(data[..], a)
    {
      hide Test, BitOf, FastRange;
      marked := HasBit(data[FastRange(a, data.Length)], a);
    }

    method TestThree(a: U64, a1: U64, a2: U64) returns (all: bool)
      requires data.Length > 0
      ensures all <==> IsMarked(data[..], a) && IsMarked(data[..], a1) && IsMarked(data[..], a2)
    {
      hide IsMarked;
      var b0 := ShiftedBit(a);
      var b1 := ShiftedBit(a1);
      var b2 := ShiftedBit(a2);
      AllThree(b0, b1, b2);
      all := LowBit(b0 & b1 & b2);
    }

    /** The word of a probe, shifted so that the probe's bit is the lowest. */
    method ShiftedBit(a: U64) returns (b: bv64)
      requires data.Length > 0
      ensures LowBit(b) <==> IsMarked(data[..], a)
    {
      hide HasBit, ShiftDown, FastRange, LowBit;
      var word := data[FastRange(a, data.Length)];
      b := ShiftDown(word, a);
      MarkedByShift(word, a);
    }
  }

  predicate LowBit(word: bv64) {
    word & 1 != 0
  }

  function Down(word: bv64, n: bv7): bv64 {
    if n < 64 then word >> n else 0
  }

  function ShiftDown(word: bv64, index: nat): bv64 {
    Down(word, Offset(index))
  }

  lemma MarkedByShift(word: bv64, index: nat)
    ensures LowBit(ShiftDown(word, index)) <==> HasBit(word, index)
  {
    hide Offset, LowBit, Down, Up, Test;
    ShiftedTo(word, Offset(index));
  }

  lemma ShiftedTo(word: bv64, n: bv7)
    ensures LowBit(Down(word, n)) <==> Test(word, Up(n))
  {
  }

  lemma AllThree(b0: bv64, b1: bv64, b2: bv64)
    ensures LowBit(b0 & b1 & b2) <==> LowBit(b0) && LowBit(b1) && LowBit(b2)
  {
  }
}
