/**
 The 32-bit hash. It differs from the 64-bit one in that the stream counts its length modulo
 2^32 and remembers in a sticky flag whether a whole stripe was ever seen.
 */
module Xxh32 {
  import opened Stripes
  import opened Words

  const PRIME_1: bv32 := 2654435761
  const PRIME_2: bv32 := 2246822519
  const PRIME_5: bv32 := 374761393
  const WIDTH := 16

  datatype Lanes = Lanes(v1: bv32, v2: bv32, v3: bv32, v4: bv32)

  // ----- Mixing -----

  function Rotl(x: bv32, r: nat): bv32
    requires r <= 32
  {
    (x << r) | (x >> (32 - r))
  }

  // the operations on words, each a function of its own so that proofs can treat it as one
  function Plus(a: bv32, b: bv32): bv32 { a + b }
  function OfByte(b: byte): bv32 { b as bv32 }
  function Times1(x: bv32): bv32 { x * 2654435761 }
  function Times2(x: bv32): bv32 { x * 2246822519 }
  function Times3(x: bv32): bv32 { x * 3266489917 }
  function Times4(x: bv32): bv32 { x * 668265263 }
  function Times5(x: bv32): bv32 { x * 374761393 }

  function Round(acc: bv32, input: bv32): bv32 {
    Times1(Rotl(Plus(acc, Times2(input)), 13))
  }

  function Mirror15(x: bv32): bv32 { x ^ (x >> 15) }
  function Mirror13(x: bv32): bv32 { x ^ (x >> 13) }
  function Mirror16(x: bv32): bv32 { x ^ (x >> 16) }

  function Avalanche(h: bv32): bv32 {
    Mirror16(Times3(Mirror13(Times2(Mirror15(h)))))
  }

  function Start(seed: bv32): Lanes {
    Lanes(seed + PRIME_1 + PRIME_2, seed + PRIME_2, seed, seed - PRIME_1)
  }

  function Stripe(v: Lanes, s: seq<byte>): Lanes {
    if |s| != WIDTH then v else
    Lanes(Round(v.v1, Read32(s[0..4])), Round(v.v2, Read32(s[4..8])),
          Round(v.v3, Read32(s[8..12])), Round(v.v4, Read32(s[12..16])))
  }

  function Converge(v: Lanes): bv32 {
    Plus(Plus(Plus(Rotl(v.v1, 1), Rotl(v.v2, 7)), Rotl(v.v3, 12)), Rotl(v.v4, 18))
  }

  function Mix4(h: bv32, s: seq<byte>): bv32
    requires |s| == 4
  {
    Times4(Rotl(Plus(h, Times3(Read32(s))), 17))
  }

  function Mix1(h: bv32, b: byte): bv32 {
    Times1(Rotl(Plus(h, Times5(OfByte(b))), 11))
  }

  // ----- Reference definition -----

  /** The bytes after the last whole stripe: by fours, then singly. */
  function MixTail(h: bv32, s: seq<byte>): bv32
    decreases |s|
  {
    if |s| >= 4 then MixTail(Mix4(h, s[..4]), s[4..])
    else if s == [] then h
    else MixTail(Mix1(h, s[0]), s[1..])
  }

  function AddLength(h: bv32, length: nat): bv32
    requires length < TWO_32
  {
    Plus(h, length as bv32)
  }

  function Hash(input: seq<byte>, seed: bv32): bv32 {
    var h := if |input| >= WIDTH then Converge(Fold(Stripe, WIDTH, Start(seed), input)) else Plus(seed, PRIME_5);
    Avalanche(MixTail(AddLength(h, |input| % TWO_32), TailOf(WIDTH, input)))
  }

  // ----- One shot -----

  /** The end of both the one-shot function and the digest. */
  method Finish(start: bv32, buffer: array<byte>, from: nat, end: nat) returns (h: bv32)
    requires from <= end <= buffer.Length
    ensures h == Avalanche(MixTail(start, buffer[from..end]))
  {
    hide Mix4, Mix1, Avalanche;
    h := start;
    var p := from;
    while p + 4 <= end
      invariant from <= p <= end
      invariant MixTail(h, buffer[p..end]) == MixTail(start, buffer[from..end])
    {
      CutSlice(buffer, p, 4, end);
      h := Mix4(h, buffer[p..p + 4]);
      p := p + 4;
    }
    while p < end
      invariant from <= p <= end && end - p < 4
      invariant MixTail(h, buffer[p..end]) == MixTail(start, buffer[from..end])
    {
      CutSlice(buffer, p, 1, end);
      h := Mix1(h, buffer[p]);
      p := p + 1;
    }
    h := Avalanche(h);
  }

  /** The loop over whole stripes, in the one-shot function and in the update. */
  method ConsumeStripes(start: Lanes, input: array<byte>, from: nat, end: nat) returns (v: Lanes, p: nat)
    requires from <= end <= input.Length
    ensures from <= p <= end && v == Fold(Stripe, WIDTH, start, input[from..end])
    ensures input[p..end] == TailOf(WIDTH, input[from..end])
  {
    hide Round, Read32;
    v, p := start, from;
    while p + WIDTH <= end
      invariant from <= p <= end
      invariant Fold(Stripe, WIDTH, v, input[p..end]) == Fold(Stripe, WIDTH, start, input[from..end])
      invariant TailOf(WIDTH, input[p..end]) == TailOf(WIDTH, input[from..end])
    {
      CutSlice(input, p, WIDTH, end);
      v := ReadStripe(v, input, p);
      p := p + WIDTH;
    }
  }

  method ReadStripe(was: Lanes, input: array<byte>, at: nat) returns (v: Lanes)
    requires at + WIDTH <= input.Length
    ensures v == Stripe(was, input[at..at + WIDTH])
  {
    hide Round, Read32;
    ghost var s := input[at..at + WIDTH];
    assert s[0..4] == input[at..at + 4] && s[4..8] == input[at + 4..at + 8];
    assert s[8..12] == input[at + 8..at + 12] && s[12..16] == input[at + 12..at + 16];
    v := was;
    v := v.(v1 := Round(v.v1, Read32(input[at..at + 4])));
    v := v.(v2 := Round(v.v2, Read32(input[at + 4..at + 8])));
    v := v.(v3 := Round(v.v3, Read32(input[at + 8..at + 12])));
    v := v.(v4 := Round(v.v4, Read32(input[at + 12..at + 16])));
  }

  method OneShot(input: array<byte>, from: nat, len: nat, seed: bv32) returns (h: bv32)
    requires from + len <= input.Length
    ensures h == Hash(input[from..from + len], seed)
  {
    hide Converge, Stripe, Avalanche, MixTail, Fold, TailOf, Start, AddLength;
    var p, end := from, from + len;
    ghost var s := input[from..end];
    if len >= WIDTH {
      var v;
      v, p := ConsumeStripes(Start(seed), input, from, end);
      h := Converge(v);
    } else {
      h := Plus(seed, PRIME_5);
      ShortOfAStripe(Stripe, WIDTH, Start(seed), s);
    }
    h := AddLength(h, len % TWO_32);
    h := Finish(h, input, p, end);
  }

  // ----- Stream -----

  class State {
    var totalLen32: nat
    var largeLen: bool
    var v1: bv32
    var v2: bv32
    var v3: bv32
    var v4: bv32
    const mem: array<byte>
    var memsize: nat

    /** After a reset with `seed`, exactly the bytes of `input` have been given to this state. */
    ghost predicate Absorbed(input: seq<byte>, seed: bv32)
      reads this, mem
    {
      && mem.Length == WIDTH && totalLen32 == |input| % TWO_32
      && (largeLen <==> |input| >= WIDTH)
      && memsize < WIDTH && mem[..memsize] == TailOf(WIDTH, input)
      && Lanes(v1, v2, v3, v4) == Fold(Stripe, WIDTH, Start(seed), input)
    }

    constructor Reset(seed: bv32)
      ensures Absorbed([], seed) && fresh(mem)
    {
      hide Start, Stripe;
      var start := Start(seed);
      totalLen32, largeLen, memsize, mem := 0, false, 0, new byte[WIDTH](_ => 0);
      v1, v2, v3, v4 := start.v1, start.v2, start.v3, start.v4;
    }

    /** Give this state another chunk; a null chunk is an error and changes nothing. */
    method Update(input: array?<byte>, from: nat, len: nat, ghost before: seq<byte>, ghost seed: bv32) returns (ok: bool)
      requires Absorbed(before, seed) && input != mem
      requires input != null ==> from + len <= input.Length
      modifies this, mem
      ensures ok <==> input != null
      ensures Absorbed(if input == null then before else before + input[from..from + len], seed)
    {
      ok := input != null;
      if ok {
        Absorb(input, from, len, before, seed);
      }
    }

    method Absorb(input: array<byte>, from: nat, len: nat, ghost before: seq<byte>, ghost seed: bv32)
      requires Absorbed(before, seed) && input != mem && from + len <= input.Length
      modifies this, mem
      ensures Absorbed(before + input[from..from + len], seed)
    {
      hide Stripe, Start, Fold, TailOf;
      FoldAppend(Stripe, WIDTH, Start(seed), before, input[from..from + len]);
      CountLength(len, |before|);
      if memsize + len < WIDTH {
        Buffer(input, from, len);
      } else {
        Consume(input, from, len);
      }
    }

    /** A chunk that does not complete a stripe is kept for later. */
    method Buffer(input: array<byte>, from: nat, len: nat)
      requires mem.Length == WIDTH && memsize + len < WIDTH && input != mem && from + len <= input.Length
      modifies this, mem
      ensures totalLen32 == old(totalLen32) && largeLen == old(largeLen) && memsize < WIDTH
      ensures Lanes(v1, v2, v3, v4) == Fold(Stripe, WIDTH, old(Lanes(v1, v2, v3, v4)), old(mem[..memsize]) + input[from..from + len])
      ensures mem[..memsize] == TailOf(WIDTH, old(mem[..memsize]) + input[from..from + len])
    {
      hide Stripe, Fold, TailOf;
      ghost var kept := mem[..memsize];
      MemCpy(mem, memsize, input, from, len);
      memsize := memsize + len;
      ShortOfAStripe(Stripe, WIDTH, Lanes(v1, v2, v3, v4), kept + input[from..from + len]);
    }

    /** A chunk that completes a stripe: top up the buffer, then consume the rest. */
    method Consume(input: array<byte>, from: nat, len: nat)
      requires mem.Length == WIDTH && memsize < WIDTH <= memsize + len && input != mem && from + len <= input.Length
      modifies this, mem
      ensures totalLen32 == old(totalLen32) && largeLen == old(largeLen) && memsize < WIDTH
      ensures Lanes(v1, v2, v3, v4) == Fold(Stripe, WIDTH, old(Lanes(v1, v2, v3, v4)), old(mem[..memsize]) + input[from..from + len])
      ensures mem[..memsize] == TailOf(WIDTH, old(mem[..memsize]) + input[from..from + len])
    {
      hide Stripe, Fold, TailOf;
      ghost var chunk, kept, v := input[from..from + len], mem[..memsize], Lanes(v1, v2, v3, v4);
      var p := from;
      if memsize != 0 {
        p := TopUp(input, from);
        assert chunk[..p - from] == input[from..p] && chunk[p - from..] == input[p..from + len];
        OneStripeThenRest(Stripe, WIDTH, v, kept, chunk, kept + input[from..p]);
      } else {
        assert kept + chunk == chunk;
      }
      ConsumeRest(input, p, from + len);
    }

    method CountLength(len: nat, ghost before: nat)
      requires totalLen32 == before % TWO_32 && (largeLen <==> before >= WIDTH)
      modifies this`totalLen32, this`largeLen
      ensures totalLen32 == (before + len) % TWO_32 && (largeLen <==> before + len >= WIDTH)
    {
      LengthWraps(before, len);
      totalLen32 := (totalLen32 + len % TWO_32) % TWO_32;
      largeLen := largeLen || len >= WIDTH || totalLen32 >= WIDTH;
    }

    /** Fill the buffer up to a whole stripe and consume it. */
    method TopUp(input: array<byte>, from: nat) returns (p: nat)
      requires mem.Length == WIDTH && 0 < memsize < WIDTH && input != mem && from + (WIDTH - memsize) <= input.Length
      modifies this, mem
      ensures memsize == 0 && p == from + WIDTH - old(memsize)
      ensures totalLen32 == old(totalLen32) && largeLen == old(largeLen)
      ensures Lanes(v1, v2, v3, v4) == Stripe(old(Lanes(v1, v2, v3, v4)), old(mem[..memsize]) + input[from..p])
    {
      hide Stripe;
      var fill := WIDTH - memsize;
      p := from + fill;
      MemCpy(mem, memsize, input, from, fill);
      assert mem[0..WIDTH] == mem[..WIDTH];
      var filled := ReadStripe(Lanes(v1, v2, v3, v4), mem, 0);
      v1, v2, v3, v4 := filled.v1, filled.v2, filled.v3, filled.v4;
      memsize := 0;
    }

    /** With nothing buffered, consume all whole stripes and buffer what is left. */
    method ConsumeRest(input: array<byte>, from: nat, end: nat)
      requires mem.Length == WIDTH && memsize == 0 && input != mem && from <= end <= input.Length
      modifies this, mem
      ensures totalLen32 == old(totalLen32) && largeLen == old(largeLen) && memsize < WIDTH
      ensures Lanes(v1, v2, v3, v4) == Fold(Stripe, WIDTH, old(Lanes(v1, v2, v3, v4)), input[from..end])
      ensures mem[..memsize] == TailOf(WIDTH, input[from..end])
    {
      hide Stripe, Fold, TailOf;
      var stripes, p := ConsumeStripes(Lanes(v1, v2, v3, v4), input, from, end);
      v1, v2, v3, v4 := stripes.v1, stripes.v2, stripes.v3, stripes.v4;
      if p < end {
        MemCpy(mem, 0, input, p, end - p);
        memsize := end - p;
      }
      assert mem[..memsize] == input[p..end];
    }

    /** The stream's hash is the one-shot hash for every input, even where the length has wrapped. */
    method Digest(ghost input: seq<byte>, ghost seed: bv32) returns (h: bv32)
      requires Absorbed(input, seed)
      ensures h == Hash(input, seed)
    {
      hide Converge, Stripe, Avalanche, MixTail, TailOf, AddLength;
      if largeLen {
        h := Converge(Lanes(v1, v2, v3, v4));
      } else {
        h := Plus(v3, PRIME_5);
      }
      h := AddLength(h, totalLen32);
      h := Finish(h, mem, 0, memsize);
    }
  }

  /** The wrapped length is exact, and it cannot wrap before the flag is set. */
  lemma LengthWraps(a: nat, b: nat)
    ensures (a % TWO_32 + b % TWO_32) % TWO_32 == (a + b) % TWO_32
    ensures a >= WIDTH || b >= WIDTH || (a + b) % TWO_32 >= WIDTH <==> a + b >= WIDTH
  {
    WrapAdds(a, b, a / TWO_32 + b / TWO_32, a % TWO_32 + b % TWO_32);
    if a < WIDTH && b < WIDTH {
      assert (a + b) % TWO_32 == a + b;
    }
  }

  lemma WrapAdds(a: nat, b: nat, q: nat, r: nat)
    requires q == a / TWO_32 + b / TWO_32 && r == a % TWO_32 + b % TWO_32
    ensures r % TWO_32 == (a + b) % TWO_32
  {
    assert a + b == q * TWO_32 + r;
  }

  /** Cutting an input into chunks, however it is done, does not change its hash. */
  method HashChunks(chunks: seq<array<byte>>, seed: bv32) returns (h: bv32)
    ensures h == Hash(Concat(chunks), seed)
  {
    hide Hash, State.Absorbed;
    var state := new State.Reset(seed);
    ghost var input := [];
    for i := 0 to |chunks|
      invariant fresh(state) && fresh(state.mem) && state.Absorbed(input, seed)
      invariant input == Concat(chunks[..i])
    {
      var ok := state.Update(chunks[i], 0, chunks[i].Length, input, seed);
      input := input + chunks[i][..];
      assert chunks[i][0..chunks[i].Length] == chunks[i][..];
      assert chunks[..i + 1][..i] == chunks[..i];
    }
    assert chunks[..|chunks|] == chunks;
    h := state.Digest(input, seed);
  }
}
