/**
 What the 32-bit hash does with its input, apart from the order of its steps: every step can be
 undone, so that no byte and no bit of the running hash is lost on the way, and some known answers.
 */
module Xxh32Mixing {
  import opened Stripes
  import opened Words
  import opened Xxh32

  // ----- Undoing single operations -----

  function Over1(x: bv32): bv32 { x * 244002641 }

  function Over2(x: bv32): bv32 { x * 3066638151 }

  function Over3(x: bv32): bv32 { x * 2828982549 }

  function Over4(x: bv32): bv32 { x * 2701016015 }

  function Over5(x: bv32): bv32 { x * 2923004241 }

  lemma Undo1(x: bv32)
    ensures Over1(Times1(x)) == x
  {
    assert Over1(x * 2654435761) == x;
  }

  lemma Undo2(x: bv32)
    ensures Over2(Times2(x)) == x
  {
    assert Over2(x * 2246822519) == x;
  }

  lemma Undo3(x: bv32)
    ensures Over3(Times3(x)) == x
  {
    assert Over3(x * 3266489917) == x;
  }

  lemma Undo4(x: bv32)
    ensures Over4(Times4(x)) == x
  {
    assert Over4(x * 668265263) == x;
  }

  lemma Undo5(x: bv32)
    ensures Over5(Times5(x)) == x
  {
    assert Over5(x * 374761393) == x;
  }

  lemma Turn11(x: bv32)
    ensures Rotl(Rotl(x, 11), 21) == x
  {
    assert Rotl((x << 11) | (x >> 21), 21) == x;
  }

  lemma Turn13(x: bv32)
    ensures Rotl(Rotl(x, 13), 19) == x
  {
    assert Rotl((x << 13) | (x >> 19), 19) == x;
  }

  lemma Turn17(x: bv32)
    ensures Rotl(Rotl(x, 17), 15) == x
  {
    assert Rotl((x << 17) | (x >> 15), 15) == x;
  }

  function Minus(a: bv32, b: bv32): bv32 { a - b }

  lemma UndoPlus(a: bv32, b: bv32)
    ensures Minus(Plus(a, b), a) == b && Minus(Plus(a, b), b) == a
  {
    assert Minus(a + b, a) == b && Minus(a + b, b) == a;
  }

  function LowByte(x: bv32): byte { (x & 0xff) as byte }

  lemma UndoByte(b: byte)
    ensures LowByte(OfByte(b)) == b
  {
  }

  function Unmirror15(x: bv32): bv32 { x ^ (x >> 15) ^ (x >> 30) }

  lemma UndoMirror15(x: bv32)
    ensures Unmirror15(Mirror15(x)) == x
  {
    assert Unmirror15(x ^ (x >> 15)) == x;
  }

  function Unmirror13(x: bv32): bv32 { x ^ (x >> 13) ^ (x >> 26) }

  lemma UndoMirror13(x: bv32)
    ensures Unmirror13(Mirror13(x)) == x
  {
    assert Unmirror13(x ^ (x >> 13)) == x;
  }

  lemma UndoMirror16(x: bv32)
    ensures Mirror16(Mirror16(x)) == x
  {
    assert Mirror16(x ^ (x >> 16)) == x;
  }

  // ----- Undoing whole steps -----

  lemma AvalancheTells(x: bv32, y: bv32)
    requires Avalanche(x) == Avalanche(y)
    ensures x == y
  {
    hide Mirror15, Mirror13, Mirror16, Times2, Times3;
    UndoMirror15(x);
    UndoMirror15(y);
    Undo2(Mirror15(x));
    Undo2(Mirror15(y));
    UndoMirror13(Times2(Mirror15(x)));
    UndoMirror13(Times2(Mirror15(y)));
    Undo3(Mirror13(Times2(Mirror15(x))));
    Undo3(Mirror13(Times2(Mirror15(y))));
    UndoMirror16(Times3(Mirror13(Times2(Mirror15(x)))));
    UndoMirror16(Times3(Mirror13(Times2(Mirror15(y)))));
  }

  lemma UndoRound(acc: bv32, x: bv32)
    ensures var y := Rotl(Over1(Round(acc, x)), 19); Over2(Minus(y, acc)) == x && Minus(y, Times2(x)) == acc
  {
    hide Times1, Times2, Over1, Over2, Rotl, Plus, Minus;
    Undo1(Rotl(Plus(acc, Times2(x)), 13));
    Turn13(Plus(acc, Times2(x)));
    UndoPlus(acc, Times2(x));
    Undo2(x);
  }

  /** From the result of a round, either input tells the other. */
  lemma RoundTells(acc: bv32, x: bv32, acc': bv32, y: bv32)
    requires Round(acc, x) == Round(acc', y)
    ensures acc == acc' <==> x == y
  {
    hide *;
    UndoRound(acc, x);
    UndoRound(acc', y);
  }

  lemma UndoMix4(h: bv32, s: seq<byte>)
    requires |s| == 4
    ensures var x, y := Times3(Read32(s)), Rotl(Over4(Mix4(h, s)), 15); Over3(Minus(y, h)) == Read32(s) && Minus(y, x) == h
  {
    hide Times3, Times4, Over3, Over4, Rotl, Plus, Minus, Read32;
    var x := Times3(Read32(s));
    Undo4(Rotl(Plus(h, x), 17));
    Turn17(Plus(h, x));
    UndoPlus(h, x);
    Undo3(Read32(s));
  }

  lemma Mix4Tells(h: bv32, s: seq<byte>, h': bv32, t: seq<byte>)
    requires |s| == |t| == 4 && Mix4(h, s) == Mix4(h', t)
    ensures h == h' <==> s == t
  {
    hide *;
    UndoMix4(h, s);
    UndoMix4(h', t);
    Read32Tells(s, t);
  }

  lemma UndoMix1(h: bv32, b: byte)
    ensures var x, y := Times5(OfByte(b)), Rotl(Over1(Mix1(h, b)), 21); LowByte(Over5(Minus(y, h))) == b && Minus(y, x) == h
  {
    hide Times1, Times5, Over1, Over5, Rotl, Plus, Minus, OfByte, LowByte;
    var x := Times5(OfByte(b));
    Undo1(Rotl(Plus(h, x), 11));
    Turn11(Plus(h, x));
    UndoPlus(h, x);
    Undo5(OfByte(b));
    UndoByte(b);
  }

  lemma Mix1Tells(h: bv32, a: byte, h': bv32, b: byte)
    requires Mix1(h, a) == Mix1(h', b)
    ensures h == h' <==> a == b
  {
    hide *;
    UndoMix1(h, a);
    UndoMix1(h', b);
  }

  // ----- Tails -----

  /** Mixing in the same bytes keeps different running hashes apart. */
  lemma {:induction false} MixTailKeepsApart(h: bv32, h': bv32, s: seq<byte>)
    requires h != h'
    ensures MixTail(h, s) != MixTail(h', s)
    decreases |s|
  {
    hide Mix4, Mix1;
    if |s| >= 4 {
      if Mix4(h, s[..4]) == Mix4(h', s[..4]) {
        Mix4Tells(h, s[..4], h', s[..4]);
      }
      MixTailKeepsApart(Mix4(h, s[..4]), Mix4(h', s[..4]), s[4..]);
    } else if s != [] {
      if Mix1(h, s[0]) == Mix1(h', s[0]) {
        Mix1Tells(h, s[0], h', s[0]);
      }
      MixTailKeepsApart(Mix1(h, s[0]), Mix1(h', s[0]), s[1..]);
    }
  }

  /** So does mixing in a different byte, wherever it is. */
  lemma {:induction false} MixTailTells(h: bv32, s: seq<byte>, t: seq<byte>, i: nat)
    requires DifferAt(s, t, i)
    ensures MixTail(h, s) != MixTail(h, t)
    decreases |s|
  {
    hide Mix4, Mix1;
    if |s| >= 4 {
      DifferHere(s, t, i, 4);
      if i < 4 {
        if Mix4(h, s[..4]) == Mix4(h, t[..4]) {
          Mix4Tells(h, s[..4], h, t[..4]);
        }
        MixTailKeepsApart(Mix4(h, s[..4]), Mix4(h, t[..4]), s[4..]);
      } else {
        MixTailTells(Mix4(h, s[..4]), s[4..], t[4..], i - 4);
      }
    } else {
      DifferHere(s, t, i, 1);
      if i == 0 {
        if Mix1(h, s[0]) == Mix1(h, t[0]) {
          Mix1Tells(h, s[0], h, t[0]);
        }
        MixTailKeepsApart(Mix1(h, s[0]), Mix1(h, t[0]), s[1..]);
      } else {
        MixTailTells(Mix1(h, s[0]), s[1..], t[1..], i - 1);
      }
    }
  }

  // ----- Stripes -----

  /** Every byte of a stripe counts in its lane. */
  lemma StripeTells(v: Lanes, s: seq<byte>, w: Lanes, t: seq<byte>)
    requires |s| == |t| == WIDTH && Stripe(v, s) == Stripe(w, t)
    ensures v == w <==> s == t
  {
    hide Round, Read32;
    RoundTells(v.v1, Read32(s[0..4]), w.v1, Read32(t[0..4]));
    RoundTells(v.v2, Read32(s[4..8]), w.v2, Read32(t[4..8]));
    RoundTells(v.v3, Read32(s[8..12]), w.v3, Read32(t[8..12]));
    RoundTells(v.v4, Read32(s[12..16]), w.v4, Read32(t[12..16]));
    if v == w {
      Read32Tells(s[0..4], t[0..4]);
      Read32Tells(s[4..8], t[4..8]);
      Read32Tells(s[8..12], t[8..12]);
      Read32Tells(s[12..16], t[12..16]);
      assert s == s[0..4] + s[4..8] + s[8..12] + s[12..16];
      assert t == t[0..4] + t[4..8] + t[8..12] + t[12..16];
    }
  }

  lemma {:induction false} FoldKeepsApart(v: Lanes, w: Lanes, s: seq<byte>)
    requires v != w
    ensures Fold(Stripe, WIDTH, v, s) != Fold(Stripe, WIDTH, w, s)
    decreases |s|
  {
    hide Stripe;
    if |s| >= WIDTH {
      if Stripe(v, s[..WIDTH]) == Stripe(w, s[..WIDTH]) {
        StripeTells(v, s[..WIDTH], w, s[..WIDTH]);
      }
      FoldKeepsApart(Stripe(v, s[..WIDTH]), Stripe(w, s[..WIDTH]), s[WIDTH..]);
    }
  }

  /** A different byte before the tail leaves different lanes. */
  lemma {:induction false} LanesTell(v: Lanes, s: seq<byte>, t: seq<byte>, i: nat)
    requires DifferAt(s, t, i) && i < |s| - |TailOf(WIDTH, s)|
    ensures Fold(Stripe, WIDTH, v, s) != Fold(Stripe, WIDTH, v, t)
    decreases |s|
  {
    hide Stripe;
    if |s| >= WIDTH {
      DifferHere(s, t, i, WIDTH);
      if i < WIDTH {
        if Stripe(v, s[..WIDTH]) == Stripe(v, t[..WIDTH]) {
          StripeTells(v, s[..WIDTH], v, t[..WIDTH]);
        }
        FoldKeepsApart(Stripe(v, s[..WIDTH]), Stripe(v, t[..WIDTH]), s[WIDTH..]);
      } else {
        LanesTell(Stripe(v, s[..WIDTH]), s[WIDTH..], t[WIDTH..], i - WIDTH);
      }
    }
  }

  // ----- The hash -----

  lemma {:induction false} TailLength(s: seq<byte>)
    ensures |TailOf(WIDTH, s)| == |s| % 16
    decreases |s|
  {
    if |s| >= WIDTH {
      TailLength(s[WIDTH..]);
    }
  }

  /** The running hash before the tail is mixed in. */
  function BeforeTail(whole: seq<byte>, length: nat, seed: bv32): bv32 {
    AddLength(if length >= WIDTH then Converge(Fold(Stripe, WIDTH, Start(seed), whole)) else Plus(seed, PRIME_5), length % TWO_32)
  }

  lemma HashIs(a: seq<byte>, seed: bv32)
    ensures var whole := |a| - |a| % 16;
            Hash(a, seed) == Avalanche(MixTail(BeforeTail(a[..whole], |a|, seed), a[whole..]))
  {
    hide Stripe, Start, Converge, MixTail, AddLength, Avalanche, Fold, TailOf;
    TailLength(a);
    TailIsTheEnd(Stripe, WIDTH, Start(seed), a);
  }

  /**
   Two inputs of the same length that differ in one byte after the last whole stripe never have
   the same hash; below the width of a stripe that is any byte.
   */
  lemma HashTells(a: seq<byte>, b: seq<byte>, seed: bv32, i: nat)
    requires DifferAt(a, b, i) && i >= |a| - |a| % 16
    ensures Hash(a, seed) != Hash(b, seed)
  {
    var whole := |a| - |a| % 16;
    DifferHere(a, b, i, whole);
    TailsTell(a, b, seed, i - whole, whole);
  }

  lemma TailsTell(a: seq<byte>, b: seq<byte>, seed: bv32, i: nat, whole: nat)
    requires |a| == |b| && whole == |a| - |a| % 16 && a[..whole] == b[..whole] && DifferAt(a[whole..], b[whole..], i)
    ensures Hash(a, seed) != Hash(b, seed)
  {
    hide *;
    HashIs(a, seed);
    HashIs(b, seed);
    var x := BeforeTail(a[..whole], |a|, seed);
    MixTailTells(x, a[whole..], b[whole..], i);
    if Hash(a, seed) == Hash(b, seed) {
      AvalancheTells(MixTail(x, a[whole..]), MixTail(x, b[whole..]));
    }
  }

  /** Below the width of a stripe, different seeds give different hashes. */
  lemma SeedTells(s: seq<byte>, seed: bv32, other: bv32)
    requires |s| < 16 && seed != other
    ensures Hash(s, seed) != Hash(s, other)
  {
    assert |s| < TWO_32;
    hide *;
    ShortHashIs(s, seed);
    ShortHashIs(s, other);
    UndoPlus(seed, PRIME_5);
    UndoPlus(other, PRIME_5);
    var x, y := AddLength(Plus(seed, PRIME_5), |s|), AddLength(Plus(other, PRIME_5), |s|);
    AddLengthTells(Plus(seed, PRIME_5), Plus(other, PRIME_5), |s|);
    MixTailKeepsApart(x, y, s);
    if Hash(s, seed) == Hash(s, other) {
      AvalancheTells(MixTail(x, s), MixTail(y, s));
    }
  }

  lemma AddLengthTells(h: bv32, h': bv32, n: nat)
    requires n < TWO_32
    ensures AddLength(h, n) == AddLength(h', n) ==> h == h'
  {
    hide Plus, Minus;
    UndoPlus(h, n as bv32);
    UndoPlus(h', n as bv32);
  }

  lemma ShortHashIs(s: seq<byte>, seed: bv32)
    requires |s| < 16
    ensures Hash(s, seed) == Avalanche(MixTail(AddLength(Plus(seed, PRIME_5), |s|), s))
  {
    hide MixTail, Avalanche, AddLength, Stripe, Fold, Start, Converge;
  }

  // ----- Known answers -----

  /** The hash of nothing. */
  lemma HashOfNothing()
    ensures Hash([], 0) == 0x2cc5d05
  {
    ShortHashIs([], 0);
    assert Plus(0, PRIME_5) == 0x165667b1 && AddLength(0x165667b1, 0) == 0x165667b1;
    assert Mirror15(0x165667b1) == 0x16564b1d && Times2(0x16564b1d) == 0x7e00cc7b;
    assert Mirror13(0x7e00cc7b) == 0x7e033c7d && Times3(0x7e033c7d) == 0x2cc5fc9;
    assert Mirror16(0x2cc5fc9) == 0x2cc5d05;
    hide Hash;
  }

  /** The hash of "abc". */
  lemma HashOfAbc()
    ensures Hash([97, 98, 99], 0) == 0x32d153ff
  {
    ShortHashIs([97, 98, 99], 0);
    var s: seq<byte> := [97, 98, 99];
    assert s[1..] == [98, 99] && s[1..][1..] == [99] && s[1..][1..][1..] == [];
    assert Plus(0, PRIME_5) == 0x165667b1 && AddLength(0x165667b1, 3) == 0x165667b4;
    assert Mix1(0x165667b4, 97) == 0xdca1dbe8 && Mix1(0xdca1dbe8, 98) == 0x4f80fd3d && Mix1(0x4f80fd3d, 99) == 0x760a1e67;
    assert Mirror15(0x760a1e67) == 0x760af273 && Times2(0x760af273) == 0xd0f67175;
    assert Mirror13(0xd0f67175) == 0xd0f0f6c6 && Times3(0xd0f0f6c6) == 0x32d1612e;
    assert Mirror16(0x32d1612e) == 0x32d153ff;
    hide Hash, Mix1;
  }

  /** The bytes from 0 to 15, one stripe. */
  function OneStripe(): seq<byte> {
    [0, 1, 2, 3] + [4, 5, 6, 7]
    + [8, 9, 10, 11] + [12, 13, 14, 15]
  }

  /** The bytes from 16 to 20. */
  function AfterStripe(): seq<byte> {
    [16, 17, 18, 19] + [20]
  }

  lemma Quarters(a: seq<byte>, b: seq<byte>, c: seq<byte>, d: seq<byte>)
    requires |a| == |b| == |c| == |d| == 4
    ensures var s := a + b + c + d;
            |s| == WIDTH && s[0..4] == a && s[4..8] == b && s[8..12] == c && s[12..16] == d
  {
  }

  lemma WordsAre()
    ensures Read32([0, 1, 2, 3]) == 0x3020100 && Read32([4, 5, 6, 7]) == 0x7060504
    ensures Read32([8, 9, 10, 11]) == 0xb0a0908 && Read32([12, 13, 14, 15]) == 0xf0e0d0c
  {
  }

  lemma WordsOfStripe()
    ensures var s := OneStripe();
            && |s| == WIDTH && Read32(s[0..4]) == 0x3020100 && Read32(s[4..8]) == 0x7060504
            && Read32(s[8..12]) == 0xb0a0908 && Read32(s[12..16]) == 0xf0e0d0c
  {
    hide Read32;
    WordsAre();
    Quarters([0, 1, 2, 3], [4, 5, 6, 7], [8, 9, 10, 11], [12, 13, 14, 15]);
  }

  lemma StartIs()
    ensures Start(0) == Lanes(0x24234428, 0x85ebca77, 0x0, 0x61c8864f)
  {
  }

  lemma RoundsAre()
    ensures Round(0x24234428, 0x3020100) == 0xf817bccb
    ensures Round(0x85ebca77, 0x7060504) == 0x222719b
    ensures Round(0x0, 0xb0a0908) == 0xd4b0c0a4
    ensures Round(0x61c8864f, 0xf0e0d0c) == 0xdebb7574
  {
  }

  lemma LanesAre()
    ensures Stripe(Start(0), OneStripe()) == Lanes(0xf817bccb, 0x222719b, 0xd4b0c0a4, 0xdebb7574)
  {
    StartIs();
    WordsOfStripe();
    RoundsAre();
    hide Start, OneStripe, Read32, Round;
  }

  lemma ConvergeIs()
    ensures Converge(Lanes(0xf817bccb, 0x222719b, 0xd4b0c0a4, 0xdebb7574)) == 0xe3460f50
  {
    assert Rotl(0xf817bccb, 1) == 0xf02f7997 && Plus(0xf02f7997, Rotl(0x222719b, 7)) == 0x1684718;
    assert Plus(0x1684718, Rotl(0xd4b0c0a4, 12)) == 0xd729463 && Plus(0xd729463, Rotl(0xdebb7574, 18)) == 0xe3460f50;
    hide Rotl, Plus;
  }

  lemma MixedTail()
    ensures |AfterStripe()| == 5 && MixTail(0xe3460f65, AfterStripe()) == 0x4d40e6e9
  {
    var s := AfterStripe();
    assert s[..4] == [16, 17, 18, 19] && s[4..] == [20] && s[4..][1..] == [];
    assert Read32([16, 17, 18, 19]) == 0x13121110;
    hide Read32, AfterStripe;
    assert Mix4(0xe3460f65, [16, 17, 18, 19]) == 0x186f3446;
    assert Mix1(0x186f3446, 20) == 0x4d40e6e9;
    hide Mix4, Mix1;
  }

  lemma LongIsFolded(a: seq<byte>, b: seq<byte>, v: Lanes)
    requires |a| == WIDTH && |b| < WIDTH
    ensures Fold(Stripe, WIDTH, v, a + b) == Stripe(v, a) && TailOf(WIDTH, a + b) == b
  {
    hide Stripe;
    assert (a + b)[..WIDTH] == a && (a + b)[WIDTH..] == b;
  }

  /** The hash of the bytes from 0 to 20: one stripe and a tail of every kind. */
  lemma HashOfBytes()
    ensures Hash(OneStripe() + AfterStripe(), 0) == 0xc6bab491
  {
    assert AddLength(0xe3460f50, 21) == 0xe3460f65;
    HashIsOf(OneStripe(), AfterStripe());
    LanesAre();
    ConvergeIs();
    MixedTail();
    AvalancheOfBytes();
    hide *;
  }

  lemma AvalancheOfBytes()
    ensures Avalanche(0x4d40e6e9) == 0xc6bab491
  {
    assert Mirror15(0x4d40e6e9) == 0x4d407c68 && Times2(0x4d407c68) == 0x69be458;
    assert Mirror13(0x69be458) == 0x69bd087 && Times3(0x69bd087) == 0xc6ba722b;
    assert Mirror16(0xc6ba722b) == 0xc6bab491;
  }

  lemma HashIsOf(a: seq<byte>, b: seq<byte>)
    requires |a| == WIDTH && |b| < WIDTH
    ensures Hash(a + b, 0) == Avalanche(MixTail(AddLength(Converge(Stripe(Start(0), a)), WIDTH + |b|), b))
  {
    LongIsFolded(a, b, Start(0));
    hide Stripe, Start, Converge, MixTail, AddLength, Avalanche, Fold, TailOf;
  }
}
