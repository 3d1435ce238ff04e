/**
 What both hash widths share: an input is consumed in stripes of fixed width, and what is left
 over after the last whole stripe is the tail.
 */
module Stripes {

  type byte = bv8

  /** The bytes after the last whole stripe. */
  function TailOf(width: nat, s: seq<byte>): (tail: seq<byte>)
    requires width > 0
    ensures |tail| < width
    decreases |s|
  {
    if |s| < width then s else TailOf(width, s[width..])
  }

  /** Run `round` over every whole stripe of `s`. */
  function Fold<V>(round: (V, seq<byte>) -> V, width: nat, v: V, s: seq<byte>): V
    requires width > 0
    decreases |s|
  {
    if |s| < width then v else Fold(round, width, round(v, s[..width]), s[width..])
  }

  /** Only the tail of what came before has to be remembered to go on with `b`. */
  lemma {:induction false} FoldAppend<V>(round: (V, seq<byte>) -> V, width: nat, v: V, a: seq<byte>, b: seq<byte>)
    requires width > 0
    ensures Fold(round, width, v, a + b) == Fold(round, width, Fold(round, width, v, a), TailOf(width, a) + b)
    ensures TailOf(width, a + b) == TailOf(width, TailOf(width, a) + b)
    decreases |a|
  {
    if |a| >= width {
      FoldAppend(round, width, round(v, a[..width]), a[width..], b);
      assert (a + b)[..width] == a[..width] && (a + b)[width..] == a[width..] + b;
    }
  }

  lemma ShortOfAStripe<V>(round: (V, seq<byte>) -> V, width: nat, v: V, s: seq<byte>)
    requires |s| < width
    ensures Fold(round, width, v, s) == v && TailOf(width, s) == s
  {
  }

  /** What was kept, filled up to a stripe, and then the rest of the chunk. */
  lemma OneStripeThenRest<V>(round: (V, seq<byte>) -> V, width: nat, v: V, kept: seq<byte>, chunk: seq<byte>, full: seq<byte>)
    requires |kept| < width <= |kept| + |chunk| && full == kept + chunk[..width - |kept|]
    ensures Fold(round, width, v, kept + chunk) == Fold(round, width, round(v, full), chunk[width - |kept|..])
    ensures TailOf(width, kept + chunk) == TailOf(width, chunk[width - |kept|..])
  {
    var s := kept + chunk;
    assert s[..width] == full && s[width..] == chunk[width - |kept|..];
  }

  lemma CutSlice(buffer: array<byte>, from: nat, k: nat, end: nat)
    requires from + k <= end <= buffer.Length
    ensures buffer[from..end][..k] == buffer[from..from + k] && buffer[from..end][k..] == buffer[from + k..end]
  {
  }

  /** The tail is the end of the input, and what comes before it is all that is folded. */
  lemma {:induction false} TailIsTheEnd<V>(round: (V, seq<byte>) -> V, width: nat, v: V, s: seq<byte>)
    requires width > 0
    ensures var whole := |s| - |TailOf(width, s)|;
            0 <= whole && TailOf(width, s) == s[whole..] && Fold(round, width, v, s) == Fold(round, width, v, s[..whole])
    decreases |s|
  {
    if |s| < width {
      assert s[0..] == s;
    } else {
      var rest := s[width..];
      TailIsTheEnd(round, width, round(v, s[..width]), rest);
      var whole, restWhole := |s| - |TailOf(width, s)|, |rest| - |TailOf(width, rest)|;
      assert s[..whole][..width] == s[..width] && s[..whole][width..] == rest[..restWhole];
    }
  }

  /** The two differ in the byte at `i` and nowhere else. */
  ghost predicate DifferAt(a: seq<byte>, b: seq<byte>, i: nat) {
    |a| == |b| && i < |a| && a[i] != b[i] && forall j | 0 <= j < |a| && j != i :: a[j] == b[j]
  }

  lemma DifferHere(a: seq<byte>, b: seq<byte>, i: nat, k: nat)
    requires DifferAt(a, b, i) && k <= |a|
    ensures i < k ==> DifferAt(a[..k], b[..k], i) && a[k..] == b[k..]
    ensures k <= i ==> DifferAt(a[k..], b[k..], i - k) && a[..k] == b[..k]
  {
  }

  ghost function Concat(chunks: seq<array<byte>>): seq<byte>
    reads chunks
  {
    if chunks == [] then [] else Concat(chunks[..|chunks| - 1]) + chunks[|chunks| - 1][..]
  }

  method MemCpy(dst: array<byte>, to: nat, src: array<byte>, from: nat, len: nat)
    requires to + len <= dst.Length && from + len <= src.Length && dst != src
    modifies dst
    ensures dst[..to + len] == old(dst[..to]) + src[from..from + len]
  {
    forall i | 0 <= i < len {
      dst[to + i] := src[from + i];
    }
  }

  // ----- Little-endian reads, on either kind of CPU -----

  function Read32(s: seq<byte>): bv32
    requires |s| >= 4
  {
    (s[0] as bv32) | ((s[1] as bv32) << 8) | ((s[2] as bv32) << 16) | ((s[3] as bv32) << 24)
  }

  function Read64(s: seq<byte>): bv64
    requires |s| >= 8
  {
    (Read32(s) as bv64) | ((Read32(s[4..]) as bv64) << 32)
  }

  /** The lowest byte comes first. */
  lemma Read32InOrder(s: seq<byte>)
    requires |s| >= 4
    ensures Read32(s) & 0xff == s[0] as bv32 && (Read32(s) >> 8) & 0xff == s[1] as bv32
    ensures (Read32(s) >> 16) & 0xff == s[2] as bv32 && Read32(s) >> 24 == s[3] as bv32
  {
  }

  lemma Read64InOrder(s: seq<byte>)
    requires |s| >= 8
    ensures Read64(s) & 0xffffffff == Read32(s) as bv64 && Read64(s) >> 32 == Read32(s[4..]) as bv64
  {
    hide Read32;
  }

  lemma Read32Tells(s: seq<byte>, t: seq<byte>)
    requires |s| == |t| == 4
    ensures Read32(s) == Read32(t) ==> s == t
  {
    Read32InOrder(s);
    Read32InOrder(t);
    hide Read32;
    if Read32(s) == Read32(t) {
      Same(s[0], t[0]);
      Same(s[1], t[1]);
      Same(s[2], t[2]);
      Same(s[3], t[3]);
    }
  }

  lemma Same(a: byte, b: byte)
    ensures a as bv32 == b as bv32 ==> a == b
  {
  }

  lemma Read64Tells(s: seq<byte>, t: seq<byte>)
    requires |s| == |t| == 8
    ensures Read64(s) == Read64(t) ==> s == t
  {
    Read64InOrder(s);
    Read64InOrder(t);
    Read32First(s);
    Read32First(t);
    hide Read32, Read64;
    if Read64(s) == Read64(t) {
      SameWide(Read32(s), Read32(t));
      SameWide(Read32(s[4..]), Read32(t[4..]));
      Read32Tells(s[..4], t[..4]);
      Read32Tells(s[4..], t[4..]);
      assert s == s[..4] + s[4..] && t == t[..4] + t[4..];
    }
  }

  lemma Read32First(s: seq<byte>)
    requires |s| >= 4
    ensures Read32(s) == Read32(s[..4])
  {
  }

  lemma SameWide(a: bv32, b: bv32)
    ensures a as bv64 == b as bv64 ==> a == b
  {
  }
}
