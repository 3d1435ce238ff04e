/** The 64-bit hash: a reference definition, the one-shot loop, and the buffered stream. */
module Xxh64 {
  import opened Stripes
  import opened Words

  const PRIME_1: bv64 := 11400714785074694791
  const PRIME_2: bv64 := 14029467366897019727
  const PRIME_3: bv64 := 1609587929392839161
  const PRIME_4: bv64 := 9650029242287828579
  const PRIME_5: bv64 := 2870177450012600261
  const WIDTH := 32

  datatype Lanes = Lanes(v1: bv64, v2: bv64, v3: bv64, v4: bv64)

  // ----- Mixing -----

  function Rotl(x: bv64, r: nat): bv64
    requires r <= 64
  {
    (x << r) | (x >> (64 - r))
  }

  // the operations on words, each a function of its own so that proofs can treat it as one
  function Plus(a: bv64, b: bv64): bv64 { a + b }
  function Xor(a: bv64, b: bv64): bv64 { a ^ b }
  function Wide(x: bv32): bv64 { x as bv64 }
  function OfByte(b: byte): bv64 { b as bv64 }
  function Times1(x: bv64): bv64 { x * 11400714785074694791 }
  function Times2(x: bv64): bv64 { x * 14029467366897019727 }
  function Times3(x: bv64): bv64 { x * 1609587929392839161 }
  function Times5(x: bv64): bv64 { x * 2870177450012600261 }

  function Round(acc: bv64, input: bv64): bv64 {
    Times1(Rotl(Plus(acc, Times2(input)), 31))
  }

  function MergeRound(acc: bv64, val: bv64): bv64 {
    Plus(Times1(Xor(acc, Round(0, val))), PRIME_4)
  }

  function Mirror33(x: bv64): bv64 { x ^ (x >> 33) }
  function Mirror29(x: bv64): bv64 { x ^ (x >> 29) }
  function Mirror32(x: bv64): bv64 { x ^ (x >> 32) }

  function Avalanche(h: bv64): bv64 {
    Mirror32(Times3(Mirror29(Times2(Mirror33(h)))))
  }

  function Start(seed: bv64): Lanes {
    Lanes(seed + PRIME_1 + PRIME_2, seed + PRIME_2, seed, seed - PRIME_1)
  }

  function Stripe(v: Lanes, s: seq<byte>): Lanes {
    if |s| != WIDTH then v else
    Lanes(Round(v.v1, Read64(s[0..8])), Round(v.v2, Read64(s[8..16])),
          Round(v.v3, Read64(s[16..24])), Round(v.v4, Read64(s[24..32])))
  }

  function Converge(v: Lanes): bv64 {
    var h := Plus(Plus(Plus(Rotl(v.v1, 1), Rotl(v.v2, 7)), Rotl(v.v3, 12)), Rotl(v.v4, 18));
    MergeRound(MergeRound(MergeRound(MergeRound(h, v.v1), v.v2), v.v3), v.v4)
  }

  function Mix8(h: bv64, s: seq<byte>): bv64
    requires |s| == 8
  {
    Plus(Times1(Rotl(Xor(h, Round(0, Read64(s))), 27)), PRIME_4)
  }

  function Mix4(h: bv64, s: seq<byte>): bv64
    requires |s| == 4
  {
    Plus(Times2(Rotl(Xor(h, Times1(Wide(Read32(s)))), 23)), PRIME_3)
  }

  function Mix1(h: bv64, b: byte): bv64 {
    Times1(Rotl(Xor(h, Times5(OfByte(b))), 11))
  }

  // ----- Reference definition -----

  function MixBytes(h: bv64, s: seq<byte>): bv64
    decreases |s|
  {
    if s == [] then h else MixBytes(Mix1(h, s[0]), s[1..])
  }

  /** The bytes after the last whole stripe: by eights, then one four, then singly. */
  function MixTail(h: bv64, s: seq<byte>): bv64
    decreases |s|
  {
    if |s| >= 8 then MixTail(Mix8(h, s[..8]), s[8..])
    else if |s| >= 4 then MixBytes(Mix4(h, s[..4]), s[4..])
    else MixBytes(h, s)
  }

  function AddLength(h: bv64, length: nat): bv64
    requires length < TWO_64
  {
    Plus(h, length as bv64)
  }

  function Hash(input: seq<byte>, seed: bv64): bv64 {
    var h := if |input| >= WIDTH then Converge(Fold(Stripe, WIDTH, Start(seed), input)) else Plus(seed, PRIME_5);
    Avalanche(MixTail(AddLength(h, |input| % TWO_64), TailOf(WIDTH, input)))
  }

  /** What a stream gives for a long input whose wrapped length is that of a short one. */
  function HashOfWrapped(input: seq<byte>, seed: bv64): bv64 {
    Avalanche(MixTail(AddLength(Plus(Fold(Stripe, WIDTH, Start(seed), input).v3, PRIME_5), |input| % TWO_64), TailOf(WIDTH, input)))
  }

  // ----- One shot -----

  lemma TailStep(h: bv64, buffer: array<byte>, p: nat, end: nat)
    requires p <= end <= buffer.Length
    ensures p + 8 <= end ==> MixTail(h, buffer[p..end]) == MixTail(Mix8(h, buffer[p..p + 8]), buffer[p + 8..end])
    ensures p + 4 <= end < p + 8 ==> MixTail(h, buffer[p..end]) == MixBytes(Mix4(h, buffer[p..p + 4]), buffer[p + 4..end])
    ensures end < p + 4 ==> MixTail(h, buffer[p..end]) == MixBytes(h, buffer[p..end])
  {
    hide Mix8, Mix4, MixBytes;
    if p + 8 <= end {
      CutSlice(buffer, p, 8, end);
    } else if p + 4 <= end {
      CutSlice(buffer, p, 4, end);
    }
  }

  lemma ByteStep(h: bv64, buffer: array<byte>, p: nat, end: nat)
    requires p <= end <= buffer.Length
    ensures p < end ==> MixBytes(h, buffer[p..end]) == MixBytes(Mix1(h, buffer[p]), buffer[p + 1..end])
    ensures p == end ==> MixBytes(h, buffer[p..end]) == h
  {
    hide Mix1;
    if p < end {
      CutSlice(buffer, p, 1, end);
    }
  }

  /** The end of both the one-shot function and the digest. */
  method Finish(start: bv64, buffer: array<byte>, from: nat, end: nat) returns (h: bv64)
    requires from <= end <= buffer.Length
    ensures h == Avalanche(MixTail(start, buffer[from..end]))
  {
    hide Mix8, Mix4, Mix1, MixTail, MixBytes, Avalanche;
    h := start;
    var p := from;
    while p + 8 <= end
      invariant from <= p <= end
      invariant MixTail(h, buffer[p..end]) == MixTail(start, buffer[from..end])
    {
      TailStep(h, buffer, p, end);
      h := Mix8(h, buffer[p..p + 8]);
      p := p + 8;
    }
    TailStep(h, buffer, p, end);
    if p + 4 <= end {
      h := Mix4(h, buffer[p..p + 4]);
      p := p + 4;
    }
    while p < end
      invariant from <= p <= end
      invariant MixBytes(h, buffer[p..end]) == MixTail(start, buffer[from..end])
    {
      ByteStep(h, buffer, p, end);
      h := Mix1(h, buffer[p]);
      p := p + 1;
    }
    ByteStep(h, buffer, p, end);
    h := Avalanche(h);
  }

  /** The loop over whole stripes, in the one-shot function and in the update. */
  method ConsumeStripes(start: Lanes, input: array<byte>, from: nat, end: nat) returns (v: Lanes, p: nat)
    requires from <= end <= input.Length
    ensures from <= p <= end && v == Fold(Stripe, WIDTH, start, input[from..end])
    ensures input[p..end] == TailOf(WIDTH, input[from..end])
  {
    hide Round, Read64;
    v, p := start, from;
    while p + WIDTH <= end
      invariant from <= p <= end
      invariant Fold(Stripe, WIDTH, v, input[p..end]) == Fold(Stripe, WIDTH, start, input[from..end])
      invariant TailOf(WIDTH, input[p..end]) == TailOf(WIDTH, input[from..end])
    {
      CutSlice(input, p, WIDTH, end);
      v := ReadStripe(v, input, p);
      p := p + WIDTH;
    }
  }

  method ReadStripe(was: Lanes, input: array<byte>, at: nat) returns (v: Lanes)
    requires at + WIDTH <= input.Length
    ensures v == Stripe(was, input[at..at + WIDTH])
  {
    hide Round, Read64;
    ghost var s := input[at..at + WIDTH];
    assert s[0..8] == input[at..at + 8] && s[8..16] == input[at + 8..at + 16];
    assert s[16..24] == input[at + 16..at + 24] && s[24..32] == input[at + 24..at + 32];
    v := was;
    v := v.(v1 := Round(v.v1, Read64(input[at..at + 8])));
    v := v.(v2 := Round(v.v2, Read64(input[at + 8..at + 16])));
    v := v.(v3 := Round(v.v3, Read64(input[at + 16..at + 24])));
    v := v.(v4 := Round(v.v4, Read64(input[at + 24..at + 32])));
  }

  method OneShot(input: array<byte>, from: nat, len: nat, seed: bv64) returns (h: bv64)
    requires from + len <= input.Length
    ensures h == Hash(input[from..from + len], seed)
  {
    hide Converge, Stripe, Avalanche, MixTail, Fold, TailOf, Start, AddLength;
    var p, end := from, from + len;
    ghost var s := input[from..end];
    if len >= WIDTH {
      var v;
      v, p := ConsumeStripes(Start(seed), input, from, end);
      h := Converge(v);
    } else {
      h := Plus(seed, PRIME_5);
      ShortOfAStripe(Stripe, WIDTH, Start(seed), s);
    }
    h := AddLength(h, len % TWO_64);
    h := Finish(h, input, p, end);
  }

  // ----- Stream -----

  class State {
    var totalLen: nat  // wraps at 64 bits
    var v1: bv64
    var v2: bv64
    var v3: bv64
    var v4: bv64
    const mem: array<byte>
    var memsize: nat

    /** After a reset with `seed`, exactly the bytes of `input` have been given to this state. */
    ghost predicate Absorbed(input: seq<byte>, seed: bv64)
      reads this, mem
    {
      && mem.Length == WIDTH && totalLen == |input| % TWO_64
      && memsize < WIDTH && mem[..memsize] == TailOf(WIDTH, input)
      && Lanes(v1, v2, v3, v4) == Fold(Stripe, WIDTH, Start(seed), input)
    }

    constructor Reset(seed: bv64)
      ensures Absorbed([], seed) && fresh(mem)
    {
      hide Start, Stripe;
      var start := Start(seed);
      totalLen, memsize, mem := 0, 0, new byte[WIDTH](_ => 0);
      v1, v2, v3, v4 := start.v1, start.v2, start.v3, start.v4;
    }

    /** Give this state another chunk; a null chunk is an error and changes nothing. */
    method Update(input: array?<byte>, from: nat, len: nat, ghost before: seq<byte>, ghost seed: bv64) returns (ok: bool)
      requires Absorbed(before, seed) && input != mem
      requires input != null ==> from + len <= input.Length
      modifies this, mem
      ensures ok <==> input != null
      ensures Absorbed(if input == null then before else before + input[from..from + len], seed)
    {
      ok := input != null;
      if ok {
        Absorb(input, from, len, before, seed);
      }
    }

    method Absorb(input: array<byte>, from: nat, len: nat, ghost before: seq<byte>, ghost seed: bv64)
      requires Absorbed(before, seed) && input != mem && from + len <= input.Length
      modifies this, mem
      ensures Absorbed(before + input[from..from + len], seed)
    {
      hide Stripe, Start, Fold, TailOf;
      FoldAppend(Stripe, WIDTH, Start(seed), before, input[from..from + len]);
      CountLength(len, |before|);
      if memsize + len < WIDTH {
        Buffer(input, from, len);
      } else {
        Consume(input, from, len);
      }
    }

    /** A chunk that does not complete a stripe is kept for later. */
    method Buffer(input: array<byte>, from: nat, len: nat)
      requires mem.Length == WIDTH && memsize + len < WIDTH && input != mem && from + len <= input.Length
      modifies this, mem
      ensures totalLen == old(totalLen) && memsize < WIDTH
      ensures Lanes(v1, v2, v3, v4) == Fold(Stripe, WIDTH, old(Lanes(v1, v2, v3, v4)), old(mem[..memsize]) + input[from..from + len])
      ensures mem[..memsize] == TailOf(WIDTH, old(mem[..memsize]) + input[from..from + len])
    {
      hide Stripe, Fold, TailOf;
      ghost var kept := mem[..memsize];
      MemCpy(mem, memsize, input, from, len);
      memsize := memsize + len;
      ShortOfAStripe(Stripe, WIDTH, Lanes(v1, v2, v3, v4), kept + input[from..from + len]);
    }

    /** A chunk that completes a stripe: top up the buffer, then consume the rest. */
    method Consume(input: array<byte>, from: nat, len: nat)
      requires mem.Length == WIDTH && memsize < WIDTH <= memsize + len && input != mem && from + len <= input.Length
      modifies this, mem
      ensures totalLen == old(totalLen) && memsize < WIDTH
      ensures Lanes(v1, v2, v3, v4) == Fold(Stripe, WIDTH, old(Lanes(v1, v2, v3, v4)), old(mem[..memsize]) + input[from..from + len])
      ensures mem[..memsize] == TailOf(WIDTH, old(mem[..memsize]) + input[from..from + len])
    {
      hide Stripe, Fold, TailOf;
      ghost var chunk, kept, v := input[from..from + len], mem[..memsize], Lanes(v1, v2, v3, v4);
      var p := from;
      if memsize != 0 {
        p := TopUp(input, from);
        assert chunk[..p - from] == input[from..p] && chunk[p - from..] == input[p..from + len];
        OneStripeThenRest(Stripe, WIDTH, v, kept, chunk, kept + input[from..p]);
      } else {
        assert kept + chunk == chunk;
      }
      ConsumeRest(input, p, from + len);
    }

    method CountLength(len: nat, ghost before: nat)
      requires totalLen == before % TWO_64
      modifies this`totalLen
      ensures totalLen == (before + len) % TWO_64
    {
      totalLen := (totalLen + len) % TWO_64;
    }

    /** Fill the buffer up to a whole stripe and consume it. */
    method TopUp(input: array<byte>, from: nat) returns (p: nat)
      requires mem.Length == WIDTH && 0 < memsize < WIDTH && input != mem && from + (WIDTH - memsize) <= input.Length
      modifies this, mem
      ensures memsize == 0 && p == from + WIDTH - old(memsize) && totalLen == old(totalLen)
      ensures Lanes(v1, v2, v3, v4) == Stripe(old(Lanes(v1, v2, v3, v4)), old(mem[..memsize]) + input[from..p])
    {
      hide Stripe;
      var fill := WIDTH - memsize;
      p := from + fill;
      MemCpy(mem, memsize, input, from, fill);
      assert mem[0..WIDTH] == mem[..WIDTH];
      var filled := ReadStripe(Lanes(v1, v2, v3, v4), mem, 0);
      v1, v2, v3, v4 := filled.v1, filled.v2, filled.v3, filled.v4;
      memsize := 0;
    }

    /** With nothing buffered, consume all whole stripes and buffer what is left. */
    method ConsumeRest(input: array<byte>, from: nat, end: nat)
      requires mem.Length == WIDTH && memsize == 0 && input != mem && from <= end <= input.Length
      modifies this, mem
      ensures totalLen == old(totalLen) && memsize < WIDTH
      ensures Lanes(v1, v2, v3, v4) == Fold(Stripe, WIDTH, old(Lanes(v1, v2, v3, v4)), input[from..end])
      ensures mem[..memsize] == TailOf(WIDTH, input[from..end])
    {
      hide Stripe, Fold, TailOf;
      var stripes, p := ConsumeStripes(Lanes(v1, v2, v3, v4), input, from, end);
      v1, v2, v3, v4 := stripes.v1, stripes.v2, stripes.v3, stripes.v4;
      if p < end {
        MemCpy(mem, 0, input, p, end - p);
        memsize := end - p;
      }
      assert mem[..memsize] == input[p..end];
    }

    /**
     The stream's hash is the one-shot hash, as long as the wrapped length tells the short inputs
     apart. For other inputs, of 2^64 bytes or more, the third lane is taken for the seed.
     */
    method Digest(ghost input: seq<byte>, ghost seed: bv64) returns (h: bv64)
      requires Absorbed(input, seed)
      ensures |input| < WIDTH || |input| % TWO_64 >= WIDTH ==> h == Hash(input, seed)
      ensures |input| >= WIDTH && |input| % TWO_64 < WIDTH ==>
                h == HashOfWrapped(input, seed)
    {
      hide Converge, Stripe, Avalanche, MixTail, TailOf, AddLength;
      if totalLen >= WIDTH {
        h := Converge(Lanes(v1, v2, v3, v4));
      } else {
        h := Plus(v3, PRIME_5);
      }
      h := AddLength(h, totalLen);
      h := Finish(h, mem, 0, memsize);
    }
  }

  /** Cutting an input into chunks, however it is done, does not change its hash. */
  method HashChunks(chunks: seq<array<byte>>, seed: bv64) returns (h: bv64)
    ensures |Concat(chunks)| < TWO_64 ==> h == Hash(Concat(chunks), seed)
  {
    hide Hash, HashOfWrapped, State.Absorbed;
    var state := new State.Reset(seed);
    ghost var input := [];
    for i := 0 to |chunks|
      invariant fresh(state) && fresh(state.mem) && state.Absorbed(input, seed)
      invariant input == Concat(chunks[..i])
    {
      var ok := state.Update(chunks[i], 0, chunks[i].Length, input, seed);
      input := input + chunks[i][..];
      assert chunks[i][0..chunks[i].Length] == chunks[i][..];
      assert chunks[..i + 1][..i] == chunks[..i];
    }
    assert chunks[..|chunks|] == chunks;
    h := state.Digest(input, seed);
  }
}
