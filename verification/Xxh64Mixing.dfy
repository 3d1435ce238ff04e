/**
 What the 64-bit hash does with its input, apart from the order of its steps: every step can be
 undone, so that no byte and no bit of the running hash is lost on the way, and some known answers.
 */
module Xxh64Mixing {
  import opened Stripes
  import opened Words
  import opened Xxh64

  // ----- Undoing single operations -----

  function Over1(x: bv64): bv64 { x * 614540362697595703 }

  function Over2(x: bv64): bv64 { x * 839798700976720815 }

  function Over3(x: bv64): bv64 { x * 16855272203555305545 }

  function Over5(x: bv64): bv64 { x * 14236653164957433613 }

  lemma Undo1(x: bv64)
    ensures Over1(Times1(x)) == x
  {
    assert Over1(x * 11400714785074694791) == x;
  }

  lemma Undo2(x: bv64)
    ensures Over2(Times2(x)) == x
  {
    assert Over2(x * 14029467366897019727) == x;
  }

  lemma Undo3(x: bv64)
    ensures Over3(Times3(x)) == x
  {
    assert Over3(x * 1609587929392839161) == x;
  }

  lemma Undo5(x: bv64)
    ensures Over5(Times5(x)) == x
  {
    assert Over5(x * 2870177450012600261) == x;
  }

  lemma Turn11(x: bv64)
    ensures Rotl(Rotl(x, 11), 53) == x
  {
    assert Rotl((x << 11) | (x >> 53), 53) == x;
  }

  lemma Turn23(x: bv64)
    ensures Rotl(Rotl(x, 23), 41) == x
  {
    assert Rotl((x << 23) | (x >> 41), 41) == x;
  }

  lemma Turn27(x: bv64)
    ensures Rotl(Rotl(x, 27), 37) == x
  {
    assert Rotl((x << 27) | (x >> 37), 37) == x;
  }

  lemma Turn31(x: bv64)
    ensures Rotl(Rotl(x, 31), 33) == x
  {
    assert Rotl((x << 31) | (x >> 33), 33) == x;
  }

  function Minus(a: bv64, b: bv64): bv64 { a - b }

  lemma UndoPlus(a: bv64, b: bv64)
    ensures Minus(Plus(a, b), a) == b && Minus(Plus(a, b), b) == a
  {
    assert Minus(a + b, a) == b && Minus(a + b, b) == a;
  }

  lemma UndoXor(a: bv64, b: bv64)
    ensures Xor(Xor(a, b), a) == b && Xor(Xor(a, b), b) == a
  {
    assert Xor(a ^ b, a) == b && Xor(a ^ b, b) == a;
  }

  function Narrow(x: bv64): bv32 { (x & 0xffffffff) as bv32 }

  lemma UndoWide(x: bv32)
    ensures Narrow(Wide(x)) == x
  {
  }

  function LowByte(x: bv64): byte { (x & 0xff) as byte }

  lemma UndoByte(b: byte)
    ensures LowByte(OfByte(b)) == b
  {
  }

  lemma UndoMirror33(x: bv64)
    ensures Mirror33(Mirror33(x)) == x
  {
    assert Mirror33(x ^ (x >> 33)) == x;
  }

  function Unmirror29(x: bv64): bv64 { x ^ (x >> 29) ^ (x >> 58) }

  lemma UndoMirror29(x: bv64)
    ensures Unmirror29(Mirror29(x)) == x
  {
    assert Unmirror29(x ^ (x >> 29)) == x;
  }

  lemma UndoMirror32(x: bv64)
    ensures Mirror32(Mirror32(x)) == x
  {
    assert Mirror32(x ^ (x >> 32)) == x;
  }

  // ----- Undoing whole steps -----

  lemma AvalancheTells(x: bv64, y: bv64)
    requires Avalanche(x) == Avalanche(y)
    ensures x == y
  {
    hide Mirror33, Mirror29, Mirror32, Times2, Times3;
    UndoMirror33(x);
    UndoMirror33(y);
    Undo2(Mirror33(x));
    Undo2(Mirror33(y));
    UndoMirror29(Times2(Mirror33(x)));
    UndoMirror29(Times2(Mirror33(y)));
    Undo3(Mirror29(Times2(Mirror33(x))));
    Undo3(Mirror29(Times2(Mirror33(y))));
    UndoMirror32(Times3(Mirror29(Times2(Mirror33(x)))));
    UndoMirror32(Times3(Mirror29(Times2(Mirror33(y)))));
  }

  lemma UndoRound(acc: bv64, x: bv64)
    ensures var y := Rotl(Over1(Round(acc, x)), 33); Over2(Minus(y, acc)) == x && Minus(y, Times2(x)) == acc
  {
    hide Times1, Times2, Over1, Over2, Rotl, Plus, Minus;
    Undo1(Rotl(Plus(acc, Times2(x)), 31));
    Turn31(Plus(acc, Times2(x)));
    UndoPlus(acc, Times2(x));
    Undo2(x);
  }

  /** From the result of a round, either input tells the other. */
  lemma RoundTells(acc: bv64, x: bv64, acc': bv64, y: bv64)
    requires Round(acc, x) == Round(acc', y)
    ensures acc == acc' <==> x == y
  {
    hide *;
    UndoRound(acc, x);
    UndoRound(acc', y);
  }

  lemma UndoMix8(h: bv64, s: seq<byte>)
    requires |s| == 8
    ensures var y := Rotl(Over1(Minus(Mix8(h, s), PRIME_4)), 37);
            Xor(y, h) == Round(0, Read64(s)) && Xor(y, Round(0, Read64(s))) == h
  {
    hide Times1, Over1, Rotl, Plus, Minus, Xor, Round, Read64;
    var r := Round(0, Read64(s));
    UndoPlus(Times1(Rotl(Xor(h, r), 27)), PRIME_4);
    Undo1(Rotl(Xor(h, r), 27));
    Turn27(Xor(h, r));
    UndoXor(h, r);
  }

  lemma Mix8Tells(h: bv64, s: seq<byte>, h': bv64, t: seq<byte>)
    requires |s| == |t| == 8 && Mix8(h, s) == Mix8(h', t)
    ensures h == h' <==> s == t
  {
    hide *;
    UndoMix8(h, s);
    UndoMix8(h', t);
    if h == h' {
      RoundTells(0, Read64(s), 0, Read64(t));
      Read64Tells(s, t);
    }
  }

  lemma UndoMix4(h: bv64, s: seq<byte>)
    requires |s| == 4
    ensures var x, y := Times1(Wide(Read32(s))), Rotl(Over2(Minus(Mix4(h, s), PRIME_3)), 41);
            Narrow(Over1(Xor(y, h))) == Read32(s) && Xor(y, x) == h
  {
    hide Times1, Times2, Over1, Over2, Rotl, Plus, Minus, Xor, Wide, Narrow, Read32;
    var x := Times1(Wide(Read32(s)));
    UndoPlus(Times2(Rotl(Xor(h, x), 23)), PRIME_3);
    Undo2(Rotl(Xor(h, x), 23));
    Turn23(Xor(h, x));
    UndoXor(h, x);
    Undo1(Wide(Read32(s)));
    UndoWide(Read32(s));
  }

  lemma Mix4Tells(h: bv64, s: seq<byte>, h': bv64, t: seq<byte>)
    requires |s| == |t| == 4 && Mix4(h, s) == Mix4(h', t)
    ensures h == h' <==> s == t
  {
    hide *;
    UndoMix4(h, s);
    UndoMix4(h', t);
    Read32Tells(s, t);
  }

  lemma UndoMix1(h: bv64, b: byte)
    ensures var x, y := Times5(OfByte(b)), Rotl(Over1(Mix1(h, b)), 53); LowByte(Over5(Xor(y, h))) == b && Xor(y, x) == h
  {
    hide Times1, Times5, Over1, Over5, Rotl, Xor, OfByte, LowByte;
    var x := Times5(OfByte(b));
    Undo1(Rotl(Xor(h, x), 11));
    Turn11(Xor(h, x));
    UndoXor(h, x);
    Undo5(OfByte(b));
    UndoByte(b);
  }

  lemma Mix1Tells(h: bv64, a: byte, h': bv64, b: byte)
    requires Mix1(h, a) == Mix1(h', b)
    ensures h == h' <==> a == b
  {
    hide *;
    UndoMix1(h, a);
    UndoMix1(h', b);
  }

  // ----- Tails -----

  /** Mixing in the same bytes keeps different running hashes apart. */
  lemma {:induction false} MixBytesKeepsApart(h: bv64, h': bv64, s: seq<byte>)
    requires h != h'
    ensures MixBytes(h, s) != MixBytes(h', s)
    decreases |s|
  {
    hide Mix1;
    if s != [] {
      if Mix1(h, s[0]) == Mix1(h', s[0]) {
        Mix1Tells(h, s[0], h', s[0]);
      }
      MixBytesKeepsApart(Mix1(h, s[0]), Mix1(h', s[0]), s[1..]);
    }
  }

  lemma {:induction false} MixTailKeepsApart(h: bv64, h': bv64, s: seq<byte>)
    requires h != h'
    ensures MixTail(h, s) != MixTail(h', s)
    decreases |s|
  {
    hide Mix8, Mix4, MixBytes;
    if |s| >= 8 {
      if Mix8(h, s[..8]) == Mix8(h', s[..8]) {
        Mix8Tells(h, s[..8], h', s[..8]);
      }
      MixTailKeepsApart(Mix8(h, s[..8]), Mix8(h', s[..8]), s[8..]);
    } else if |s| >= 4 {
      if Mix4(h, s[..4]) == Mix4(h', s[..4]) {
        Mix4Tells(h, s[..4], h', s[..4]);
      }
      MixBytesKeepsApart(Mix4(h, s[..4]), Mix4(h', s[..4]), s[4..]);
    } else {
      MixBytesKeepsApart(h, h', s);
    }
  }

  /** So does mixing in a different byte, wherever it is. */
  lemma {:induction false} MixBytesTells(h: bv64, s: seq<byte>, t: seq<byte>, i: nat)
    requires DifferAt(s, t, i)
    ensures MixBytes(h, s) != MixBytes(h, t)
    decreases |s|
  {
    hide Mix1;
    DifferHere(s, t, i, 1);
    if i == 0 {
      if Mix1(h, s[0]) == Mix1(h, t[0]) {
        Mix1Tells(h, s[0], h, t[0]);
      }
      MixBytesKeepsApart(Mix1(h, s[0]), Mix1(h, t[0]), s[1..]);
    } else {
      MixBytesTells(Mix1(h, s[0]), s[1..], t[1..], i - 1);
    }
  }

  lemma {:induction false} MixTailTells(h: bv64, s: seq<byte>, t: seq<byte>, i: nat)
    requires DifferAt(s, t, i)
    ensures MixTail(h, s) != MixTail(h, t)
    decreases |s|
  {
    hide Mix8, Mix4, MixBytes;
    if |s| >= 8 {
      DifferHere(s, t, i, 8);
      if i < 8 {
        if Mix8(h, s[..8]) == Mix8(h, t[..8]) {
          Mix8Tells(h, s[..8], h, t[..8]);
        }
        MixTailKeepsApart(Mix8(h, s[..8]), Mix8(h, t[..8]), s[8..]);
      } else {
        MixTailTells(Mix8(h, s[..8]), s[8..], t[8..], i - 8);
      }
    } else if |s| >= 4 {
      DifferHere(s, t, i, 4);
      if i < 4 {
        if Mix4(h, s[..4]) == Mix4(h, t[..4]) {
          Mix4Tells(h, s[..4], h, t[..4]);
        }
        MixBytesKeepsApart(Mix4(h, s[..4]), Mix4(h, t[..4]), s[4..]);
      } else {
        MixBytesTells(Mix4(h, s[..4]), s[4..], t[4..], i - 4);
      }
    } else {
      MixBytesTells(h, s, t, i);
    }
  }

  // ----- Stripes -----

  /** Every byte of a stripe counts in its lane. */
  lemma StripeTells(v: Lanes, s: seq<byte>, w: Lanes, t: seq<byte>)
    requires |s| == |t| == WIDTH && Stripe(v, s) == Stripe(w, t)
    ensures v == w <==> s == t
  {
    hide Round, Read64;
    RoundTells(v.v1, Read64(s[0..8]), w.v1, Read64(t[0..8]));
    RoundTells(v.v2, Read64(s[8..16]), w.v2, Read64(t[8..16]));
    RoundTells(v.v3, Read64(s[16..24]), w.v3, Read64(t[16..24]));
    RoundTells(v.v4, Read64(s[24..32]), w.v4, Read64(t[24..32]));
    if v == w {
      Read64Tells(s[0..8], t[0..8]);
      Read64Tells(s[8..16], t[8..16]);
      Read64Tells(s[16..24], t[16..24]);
      Read64Tells(s[24..32], t[24..32]);
      assert s == s[0..8] + s[8..16] + s[16..24] + s[24..32];
      assert t == t[0..8] + t[8..16] + t[16..24] + t[24..32];
    }
  }

  lemma {:induction false} FoldKeepsApart(v: Lanes, w: Lanes, s: seq<byte>)
    requires v != w
    ensures Fold(Stripe, WIDTH, v, s) != Fold(Stripe, WIDTH, w, s)
    decreases |s|
  {
    hide Stripe;
    if |s| >= WIDTH {
      if Stripe(v, s[..WIDTH]) == Stripe(w, s[..WIDTH]) {
        StripeTells(v, s[..WIDTH], w, s[..WIDTH]);
      }
      FoldKeepsApart(Stripe(v, s[..WIDTH]), Stripe(w, s[..WIDTH]), s[WIDTH..]);
    }
  }

  /** A different byte before the tail leaves different lanes. */
  lemma {:induction false} LanesTell(v: Lanes, s: seq<byte>, t: seq<byte>, i: nat)
    requires DifferAt(s, t, i) && i < |s| - |TailOf(WIDTH, s)|
    ensures Fold(Stripe, WIDTH, v, s) != Fold(Stripe, WIDTH, v, t)
    decreases |s|
  {
    hide Stripe;
    if |s| >= WIDTH {
      DifferHere(s, t, i, WIDTH);
      if i < WIDTH {
        if Stripe(v, s[..WIDTH]) == Stripe(v, t[..WIDTH]) {
          StripeTells(v, s[..WIDTH], v, t[..WIDTH]);
        }
        FoldKeepsApart(Stripe(v, s[..WIDTH]), Stripe(v, t[..WIDTH]), s[WIDTH..]);
      } else {
        LanesTell(Stripe(v, s[..WIDTH]), s[WIDTH..], t[WIDTH..], i - WIDTH);
      }
    }
  }

  // ----- The hash -----

  lemma {:induction false} TailLength(s: seq<byte>)
    ensures |TailOf(WIDTH, s)| == |s| % 32
    decreases |s|
  {
    if |s| >= WIDTH {
      TailLength(s[WIDTH..]);
    }
  }

  /** The running hash before the tail is mixed in. */
  function BeforeTail(whole: seq<byte>, length: nat, seed: bv64): bv64 {
    AddLength(if length >= WIDTH then Converge(Fold(Stripe, WIDTH, Start(seed), whole)) else Plus(seed, PRIME_5), length % TWO_64)
  }

  lemma HashIs(a: seq<byte>, seed: bv64)
    ensures var whole := |a| - |a| % 32;
            Hash(a, seed) == Avalanche(MixTail(BeforeTail(a[..whole], |a|, seed), a[whole..]))
  {
    hide Stripe, Start, Converge, MixTail, AddLength, Avalanche, Fold, TailOf;
    TailLength(a);
    TailIsTheEnd(Stripe, WIDTH, Start(seed), a);
  }

  /**
   Two inputs of the same length that differ in one byte after the last whole stripe never have
   the same hash; below the width of a stripe that is any byte.
   */
  lemma HashTells(a: seq<byte>, b: seq<byte>, seed: bv64, i: nat)
    requires DifferAt(a, b, i) && i >= |a| - |a| % 32
    ensures Hash(a, seed) != Hash(b, seed)
  {
    var whole := |a| - |a| % 32;
    DifferHere(a, b, i, whole);
    TailsTell(a, b, seed, i - whole, whole);
  }

  lemma TailsTell(a: seq<byte>, b: seq<byte>, seed: bv64, i: nat, whole: nat)
    requires |a| == |b| && whole == |a| - |a| % 32 && a[..whole] == b[..whole] && DifferAt(a[whole..], b[whole..], i)
    ensures Hash(a, seed) != Hash(b, seed)
  {
    hide *;
    HashIs(a, seed);
    HashIs(b, seed);
    var x := BeforeTail(a[..whole], |a|, seed);
    MixTailTells(x, a[whole..], b[whole..], i);
    if Hash(a, seed) == Hash(b, seed) {
      AvalancheTells(MixTail(x, a[whole..]), MixTail(x, b[whole..]));
    }
  }

  /** Below the width of a stripe, different seeds give different hashes. */
  lemma SeedTells(s: seq<byte>, seed: bv64, other: bv64)
    requires |s| < 32 && seed != other
    ensures Hash(s, seed) != Hash(s, other)
  {
    assert |s| < TWO_64;
    hide *;
    ShortHashIs(s, seed);
    ShortHashIs(s, other);
    UndoPlus(seed, PRIME_5);
    UndoPlus(other, PRIME_5);
    var x, y := AddLength(Plus(seed, PRIME_5), |s|), AddLength(Plus(other, PRIME_5), |s|);
    AddLengthTells(Plus(seed, PRIME_5), Plus(other, PRIME_5), |s|);
    MixTailKeepsApart(x, y, s);
    if Hash(s, seed) == Hash(s, other) {
      AvalancheTells(MixTail(x, s), MixTail(y, s));
    }
  }

  lemma AddLengthTells(h: bv64, h': bv64, n: nat)
    requires n < TWO_64
    ensures AddLength(h, n) == AddLength(h', n) ==> h == h'
  {
    hide Plus, Minus;
    UndoPlus(h, n as bv64);
    UndoPlus(h', n as bv64);
  }

  lemma ShortHashIs(s: seq<byte>, seed: bv64)
    requires |s| < 32
    ensures Hash(s, seed) == Avalanche(MixTail(AddLength(Plus(seed, PRIME_5), |s|), s))
  {
    hide MixTail, Avalanche, AddLength, Stripe, Fold, Start, Converge;
  }

  // ----- Known answers -----

  /** The hash of nothing. */
  lemma HashOfNothing()
    ensures Hash([], 0) == 0xef46db3751d8e999
  {
    ShortHashIs([], 0);
    assert Plus(0, PRIME_5) == 0x27d4eb2f165667c5 && AddLength(0x27d4eb2f165667c5, 0) == 0x27d4eb2f165667c5;
    assert Mirror33(0x27d4eb2f165667c5) == 0x27d4eb2f05bc1252 && Times2(0x27d4eb2f05bc1252) == 0xbeb13dda13c2ed4e;
    assert Mirror29(0xbeb13dda13c2ed4e) == 0xbeb13ddfe64b039e && Times3(0xbeb13ddfe64b039e) == 0xef46db37be9e32ae;
    assert Mirror32(0xef46db37be9e32ae) == 0xef46db3751d8e999;
    hide Hash;
  }

  /** The hash of "abc". */
  lemma HashOfAbc()
    ensures Hash([97, 98, 99], 0) == 0x44bc2cf5ad770999
  {
    ShortHashIs([97, 98, 99], 0);
    var s: seq<byte> := [97, 98, 99];
    assert s[1..] == [98, 99] && s[1..][1..] == [99] && s[1..][1..][1..] == [];
    assert Plus(0, PRIME_5) == 0x27d4eb2f165667c5 && AddLength(0x27d4eb2f165667c5, 3) == 0x27d4eb2f165667c8;
    assert Mix1(0x27d4eb2f165667c8, 97) == 0xe6d11bdc91f0215 && Mix1(0xe6d11bdc91f0215, 98) == 0x791983e9ab307069;
    assert Mix1(0x791983e9ab307069, 99) == 0xe87a46f8b9a4c39e;
    assert Mirror33(0xe87a46f8b9a4c39e) == 0xe87a46f8cd99e0e2 && Times2(0xe87a46f8cd99e0e2) == 0xdfe7320e5d13dbbe;
    assert Mirror29(0xdfe7320e5d13dbbe) == 0xdfe73208a22a4bcc && Times3(0xdfe73208a22a4bcc) == 0x44bc2cf5e9cb256c;
    assert Mirror32(0x44bc2cf5e9cb256c) == 0x44bc2cf5ad770999;
    hide Hash, Mix1;
  }

  /** The bytes from 0 to 31, one stripe. */
  function OneStripe(): seq<byte> {
    [0, 1, 2, 3, 4, 5, 6, 7] + [8, 9, 10, 11, 12, 13, 14, 15]
    + [16, 17, 18, 19, 20, 21, 22, 23] + [24, 25, 26, 27, 28, 29, 30, 31]
  }

  /** The bytes from 32 to 44. */
  function AfterStripe(): seq<byte> {
    [32, 33, 34, 35, 36, 37, 38, 39] + [40, 41, 42, 43] + [44]
  }

  lemma Quarters(a: seq<byte>, b: seq<byte>, c: seq<byte>, d: seq<byte>)
    requires |a| == |b| == |c| == |d| == 8
    ensures var s := a + b + c + d;
            |s| == WIDTH && s[0..8] == a && s[8..16] == b && s[16..24] == c && s[24..32] == d
  {
  }

  lemma WordsAre()
    ensures Read64([0, 1, 2, 3, 4, 5, 6, 7]) == 0x706050403020100 && Read64([8, 9, 10, 11, 12, 13, 14, 15]) == 0xf0e0d0c0b0a0908
    ensures Read64([16, 17, 18, 19, 20, 21, 22, 23]) == 0x1716151413121110
    ensures Read64([24, 25, 26, 27, 28, 29, 30, 31]) == 0x1f1e1d1c1b1a1918
  {
  }

  lemma WordsOfStripe()
    ensures var s := OneStripe();
            && |s| == WIDTH && Read64(s[0..8]) == 0x706050403020100 && Read64(s[8..16]) == 0xf0e0d0c0b0a0908
            && Read64(s[16..24]) == 0x1716151413121110 && Read64(s[24..32]) == 0x1f1e1d1c1b1a1918
  {
    hide Read64;
    WordsAre();
    Quarters([0, 1, 2, 3, 4, 5, 6, 7], [8, 9, 10, 11, 12, 13, 14, 15], [16, 17, 18, 19, 20, 21, 22, 23], [24, 25, 26, 27, 28, 29, 30, 31]);
  }

  lemma StartIs()
    ensures Start(0) == Lanes(0x60ea27eeadc0b5d6, 0xc2b2ae3d27d4eb4f, 0x0, 0x61c8864e7a143579)
  {
  }

  lemma RoundsAre()
    ensures Round(0x60ea27eeadc0b5d6, 0x706050403020100) == 0xf4b53b57406b5e99
    ensures Round(0xc2b2ae3d27d4eb4f, 0xf0e0d0c0b0a0908) == 0xc3d34b511fc32561
    ensures Round(0x0, 0x1716151413121110) == 0xcb26c007c8a1553f
    ensures Round(0x61c8864e7a143579, 0x1f1e1d1c1b1a1918) == 0x9a44d001a7f91c07
  {
  }

  lemma LanesAre()
    ensures Stripe(Start(0), OneStripe()) == Lanes(0xf4b53b57406b5e99, 0xc3d34b511fc32561, 0xcb26c007c8a1553f, 0x9a44d001a7f91c07)
  {
    StartIs();
    WordsOfStripe();
    RoundsAre();
    hide Start, OneStripe, Read64, Round;
  }

  lemma ConvergeIs()
    ensures Converge(Lanes(0xf4b53b57406b5e99, 0xc3d34b511fc32561, 0xcb26c007c8a1553f, 0x9a44d001a7f91c07)) == 0xc845dbc88c411c2d
  {
    assert Rotl(0xf4b53b57406b5e99, 1) == 0xe96a76ae80d6bd33;
    assert Plus(0xe96a76ae80d6bd33, Rotl(0xc3d34b511fc32561, 7)) == 0xd3101f3e62696e14;
    assert Plus(0xd3101f3e62696e14, Rotl(0xcb26c007c8a1553f, 12)) == 0x3f109bc877bd6ac6;
    assert Plus(0x3f109bc877bd6ac6, Rotl(0x9a44d001a7f91c07, 18)) == 0x7f173bace7dbd3d9;
    MergesAre();
    hide Rotl, Plus, MergeRound;
  }

  lemma MergesAre()
    ensures MergeRound(0x7f173bace7dbd3d9, 0xf4b53b57406b5e99) == 0xf4f010017eb0b31e
    ensures MergeRound(0xf4f010017eb0b31e, 0xc3d34b511fc32561) == 0x3ebaf0888f893b86
    ensures MergeRound(0x3ebaf0888f893b86, 0xcb26c007c8a1553f) == 0x570dd21af61c37a7
    ensures MergeRound(0x570dd21af61c37a7, 0x9a44d001a7f91c07) == 0xc845dbc88c411c2d
  {
  }

  lemma TailInSteps(h: bv64, eight: seq<byte>, four: seq<byte>, one: byte)
    requires |eight| == 8 && |four| == 4
    ensures MixTail(h, eight + four + [one]) == Mix1(Mix4(Mix8(h, eight), four), one)
  {
    hide Mix8, Mix4, Mix1;
    var s := eight + four + [one];
    var rest := four + [one];
    assert s[..8] == eight && s[8..] == rest && rest[..4] == four && rest[4..] == [one] && [one][1..] == [];
    var h1 := Mix8(h, eight);
    var h2 := Mix4(h1, four);
    assert MixTail(h, s) == MixTail(h1, rest);
    assert MixTail(h1, rest) == MixBytes(h2, [one]);
    assert MixBytes(h2, [one]) == MixBytes(Mix1(h2, one), []);
  }

  lemma TailWords()
    ensures Read64([32, 33, 34, 35, 36, 37, 38, 39]) == 0x2726252423222120 && Read32([40, 41, 42, 43]) == 0x2b2a2928
  {
  }

  lemma MixedEight()
    ensures Mix8(0xc845dbc88c411c5a, [32, 33, 34, 35, 36, 37, 38, 39]) == 0xef1f7486253bde8d
  {
    TailWords();
    assert Times2(0x2726252423222120) == 0x360a92567a7098e0 && Plus(0, 0x360a92567a7098e0) == 0x360a92567a7098e0;
    assert Rotl(0x360a92567a7098e0, 31) == 0x3d384c701b05492b && Times1(0x3d384c701b05492b) == 0x8e6d3b08ecfe83ad;
    assert Xor(0xc845dbc88c411c5a, 0x8e6d3b08ecfe83ad) == 0x4628e0c060bf9ff7 && Rotl(0x4628e0c060bf9ff7, 27) == 0x305fcffba314706;
    assert Times1(0x305fcffba314706) == 0x6933aa0e6289302a && Plus(0x6933aa0e6289302a, PRIME_4) == 0xef1f7486253bde8d;
    hide Read64, Times1, Times2, Plus, Xor, Rotl;
  }

  lemma MixedFour()
    ensures Mix4(0xef1f7486253bde8d, [40, 41, 42, 43]) == 0xa246b855fd2a4741
  {
    TailWords();
    assert Wide(0x2b2a2928) == 0x2b2a2928 && Times1(0x2b2a2928) == 0x63c705e3976d4418;
    assert Xor(0xef1f7486253bde8d, 0x63c705e3976d4418) == 0x8cd87165b2569a95;
    assert Rotl(0x8cd87165b2569a95, 23) == 0xb2d92b4d4ac66c38;
    assert Times2(0xb2d92b4d4ac66c38) == 0x8bf050a45ef2cd48 && Plus(0x8bf050a45ef2cd48, PRIME_3) == 0xa246b855fd2a4741;
    hide Read32, Wide, Times1, Times2, Plus, Xor, Rotl;
  }

  lemma MixedOne()
    ensures Mix1(0xa246b855fd2a4741, 44) == 0xf5b3eb29c01139da
  {
    assert OfByte(44) == 44 && Times5(44) == 0xd8986c17d6d9d5dc;
    assert Xor(0xa246b855fd2a4741, 0xd8986c17d6d9d5dc) == 0x7aded4422bf3929d;
    assert Rotl(0x7aded4422bf3929d, 11) == 0xf6a2115f9c94ebd6 && Times1(0xf6a2115f9c94ebd6) == 0xf5b3eb29c01139da;
    hide OfByte, Times1, Times5, Xor, Rotl;
  }

  lemma MixedTail()
    ensures |AfterStripe()| == 13 && MixTail(0xc845dbc88c411c5a, AfterStripe()) == 0xf5b3eb29c01139da
  {
    var eight, four, one: seq<byte> := [32, 33, 34, 35, 36, 37, 38, 39], [40, 41, 42, 43], [44];
    TailInSteps(0xc845dbc88c411c5a, eight, four, 44);
    MixedEight();
    MixedFour();
    MixedOne();
    hide *;
  }

  lemma LongIsFolded(a: seq<byte>, b: seq<byte>, v: Lanes)
    requires |a| == WIDTH && |b| < WIDTH
    ensures Fold(Stripe, WIDTH, v, a + b) == Stripe(v, a) && TailOf(WIDTH, a + b) == b
  {
    hide Stripe;
    assert (a + b)[..WIDTH] == a && (a + b)[WIDTH..] == b;
  }

  /** The hash of the bytes from 0 to 44: one stripe and a tail of every kind. */
  lemma HashOfBytes()
    ensures Hash(OneStripe() + AfterStripe(), 0) == 0x10fdd84d6409abdf
  {
    assert AddLength(0xc845dbc88c411c2d, 45) == 0xc845dbc88c411c5a;
    HashIsOf(OneStripe(), AfterStripe());
    LanesAre();
    ConvergeIs();
    MixedTail();
    AvalancheOfBytes();
    hide *;
  }

  lemma AvalancheOfBytes()
    ensures Avalanche(0xf5b3eb29c01139da) == 0x10fdd84d6409abdf
  {
    assert Mirror33(0xf5b3eb29c01139da) == 0xf5b3eb29bac8cc4e && Times2(0xf5b3eb29bac8cc4e) == 0x3c59d8560a1aa612;
    assert Mirror29(0x3c59d8560a1aa612) == 0x3c59d857e8d464a2 && Times3(0x3c59d857e8d464a2) == 0x10fdd84d74f47392;
    assert Mirror32(0x10fdd84d74f47392) == 0x10fdd84d6409abdf;
  }

  lemma HashIsOf(a: seq<byte>, b: seq<byte>)
    requires |a| == WIDTH && |b| < WIDTH
    ensures Hash(a + b, 0) == Avalanche(MixTail(AddLength(Converge(Stripe(Start(0), a)), WIDTH + |b|), b))
  {
    LongIsFolded(a, b, Start(0));
    hide Stripe, Start, Converge, MixTail, AddLength, Avalanche, Fold, TailOf;
  }
}
