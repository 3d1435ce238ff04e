/**
 Escaping metric names and text values for JSON strings (section 7 of RFC 8259). The loop copies
 runs of ordinary bytes in one go and writes an escape for everything else.
 */
module JsonEscape {
  import opened Wrappers

  type Byte = x | 0 <= x < 256

  const QUOTE: Byte := 0x22
  const BACKSLASH: Byte := 0x5c
  const SLASH: Byte := 0x2f
  const SPACE: Byte := 0x20

  // ----- What is written -----

  /** Lower case. */
  function HexDigit(n: nat): Byte
    requires n < 16
  {
    if n < 10 then 0x30 + n else 0x61 + n - 10
  }

  predicate IsOrdinary(c: Byte) {
    c >= SPACE && c != QUOTE && c != BACKSLASH && c != SLASH
  }

  function EscapeByte(c: Byte): seq<Byte> {
    if IsOrdinary(c) then [c]
    else if c == 8 then [BACKSLASH, 0x62]
    else if c == 10 then [BACKSLASH, 0x6e]
    else if c == 13 then [BACKSLASH, 0x72]
    else if c == 9 then [BACKSLASH, 0x74]
    else if c == QUOTE || c == BACKSLASH || c == SLASH then [BACKSLASH, c]
    else [BACKSLASH, 0x75, 0x30, 0x30, HexDigit(c / 16), HexDigit(c % 16)]
  }

  function Escape(s: seq<Byte>): seq<Byte> {
    if s == [] then [] else EscapeByte(s[0]) + Escape(s[1..])
  }

  /** The escapes as they are written: short ones for four control bytes, lower-case codes for the others. */
  lemma EscapesAre()
    ensures Escape([8, 9, 10, 13]) == [0x5c, 0x62, 0x5c, 0x74, 0x5c, 0x6e, 0x5c, 0x72]
    ensures Escape([0x22, 0x5c, 0x2f]) == [0x5c, 0x22, 0x5c, 0x5c, 0x5c, 0x2f]
    ensures Escape([12]) == [0x5c, 0x75, 0x30, 0x30, 0x30, 0x63]
    ensures Escape([31]) == [0x5c, 0x75, 0x30, 0x30, 0x31, 0x66]
    ensures forall c: Byte | c >= 0x20 && c !in {0x22, 0x5c, 0x2f} :: EscapeByte(c) == [c]
  {
    OneEscape(12);
    OneEscape(31);
    assert Escape([8, 9, 10, 13]) == EscapeByte(8) + (EscapeByte(9) + (EscapeByte(10) + EscapeByte(13))) by {
      ManyEscapes([8, 9, 10, 13]);
    }
    assert Escape([0x22, 0x5c, 0x2f]) == EscapeByte(0x22) + (EscapeByte(0x5c) + EscapeByte(0x2f)) by {
      ManyEscapes([0x22, 0x5c, 0x2f]);
    }
  }

  lemma OneEscape(c: Byte)
    ensures Escape([c]) == EscapeByte(c)
  {
    assert [c][1..] == [] && EscapeByte(c) + [] == EscapeByte(c);
  }

  lemma ManyEscapes(s: seq<Byte>)
    ensures |s| == 3 ==> Escape(s) == EscapeByte(s[0]) + (EscapeByte(s[1]) + EscapeByte(s[2]))
    ensures |s| == 4 ==> Escape(s) == EscapeByte(s[0]) + (EscapeByte(s[1]) + (EscapeByte(s[2]) + EscapeByte(s[3])))
  {
    hide EscapeByte;
    if |s| == 3 {
      OneEscape(s[2]);
      assert s[1..] == [s[1], s[2]] && s[1..][1..] == [s[2]];
    } else if |s| == 4 {
      OneEscape(s[3]);
      assert s[1..] == [s[1], s[2], s[3]] && s[1..][1..] == [s[2], s[3]] && s[1..][1..][1..] == [s[3]];
    }
  }

  // ----- What is read back -----

  function HexValue(c: Byte): Option<nat> {
    if 0x30 <= c <= 0x39 then Some(c - 0x30)
    else if 0x61 <= c <= 0x66 then Some(c - 0x61 + 10)
    else if 0x41 <= c <= 0x46 then Some(c - 0x41 + 10)
    else None
  }

  /** The byte that the escape at the start of `t` stands for, and how long the escape is. */
  function ReadEscape(t: seq<Byte>): Option<(Byte, nat)>
    requires t != [] && t[0] == BACKSLASH
  {
    if |t| < 2 then None
    else if t[1] == QUOTE || t[1] == BACKSLASH || t[1] == SLASH then Some((t[1], 2))
    else if t[1] == 0x62 then Some((8, 2))
    else if t[1] == 0x66 then Some((12, 2))
    else if t[1] == 0x6e then Some((10, 2))
    else if t[1] == 0x72 then Some((13, 2))
    else if t[1] == 0x74 then Some((9, 2))
    else if t[1] == 0x75 && |t| >= 6 then
      match (HexValue(t[2]), HexValue(t[3]), HexValue(t[4]), HexValue(t[5]))
      case (Some(a), Some(b), Some(c), Some(d)) =>
        var code := ((a * 16 + b) * 16 + c) * 16 + d;
        if 0 <= code < 0x80 then Some((code, 6)) else None
      case _ => None
    else None
  }

  /**
   Read a string up to its closing quote: its bytes, and what comes after it. Code points above
   0x7f are only accepted as they are, not as escapes.
   */
  function ReadString(t: seq<Byte>): Option<(seq<Byte>, seq<Byte>)>
    decreases |t|
  {
    if t == [] || t[0] < SPACE then None
    else if t[0] == QUOTE then Some(([], t[1..]))
    else if t[0] == BACKSLASH then
      match ReadEscape(t)
      case None => None
      case Some((c, n)) => if n <= |t| && n > 0 then AfterByte(c, ReadString(t[n..])) else None
    else AfterByte(t[0], ReadString(t[1..]))
  }

  function AfterByte(c: Byte, r: Option<(seq<Byte>, seq<Byte>)>): Option<(seq<Byte>, seq<Byte>)> {
    match r
    case None => None
    case Some((bytes, rest)) => Some(([c] + bytes, rest))
  }

  lemma HexReadsBack(n: nat)
    requires n < 16
    ensures HexValue(HexDigit(n)) == Some(n) && HexValue(0x30) == Some(0)
  {
  }

  /** A control byte without an escape of its own is written by its code. */
  lemma CodeReadsBack(c: Byte, rest: seq<Byte>)
    requires |EscapeByte(c)| > 2
    ensures EscapeByte(c)[0] == BACKSLASH && |EscapeByte(c)| == 6
    ensures ReadEscape(EscapeByte(c) + rest) == Some((c, 6))
  {
    var high, low := c / 16, c % 16;
    assert c < 32 && EscapeByte(c) == [BACKSLASH, 0x75, 0x30, 0x30, HexDigit(high), HexDigit(low)];
    HexReadsBack(high);
    HexReadsBack(low);
    hide EscapeByte, HexDigit, HexValue;
    var t := EscapeByte(c) + rest;
    assert t[0] == BACKSLASH && t[1] == 0x75 && t[2] == 0x30 && t[3] == 0x30 && t[4] == HexDigit(high) && t[5] == HexDigit(low);
  }

  lemma ByteReadsBack(c: Byte, rest: seq<Byte>)
    requires c != 0
    ensures ReadString(EscapeByte(c) + rest) == AfterByte(c, ReadString(rest))
  {
    hide HexDigit, HexValue;
    var t := EscapeByte(c) + rest;
    if IsOrdinary(c) {
      assert t[1..] == rest;
    } else if |EscapeByte(c)| == 2 {
      assert t[0] == BACKSLASH && t[1] == EscapeByte(c)[1] && t[2..] == rest;
    } else {
      CodeReadsBack(c, rest);
      hide EscapeByte, ReadEscape;
      assert t[0] == BACKSLASH && t[6..] == rest;
    }
  }

  /** Reading an escaped string back gives the original, and stops exactly where it ends. */
  lemma {:induction false} EscapedReadsBack(s: seq<Byte>, rest: seq<Byte>)
    requires 0 !in s
    ensures ReadString(Escape(s) + [QUOTE] + rest) == Some((s, rest))
  {
    hide EscapeByte, ReadString;
    if s == [] {
      assert Escape(s) + [QUOTE] + rest == [QUOTE] + rest;
      ClosingQuote(rest);
    } else {
      var tail := Escape(s[1..]) + [QUOTE] + rest;
      assert Escape(s) + [QUOTE] + rest == EscapeByte(s[0]) + tail;
      ByteReadsBack(s[0], tail);
      EscapedReadsBack(s[1..], rest);
      assert [s[0]] + s[1..] == s;
    }
  }

  lemma ClosingQuote(rest: seq<Byte>)
    ensures ReadString([QUOTE] + rest) == Some(([], rest))
  {
    assert ([QUOTE] + rest)[1..] == rest;
  }

  /** Different strings are never written the same way. */
  lemma EscapeIsInjective(a: seq<Byte>, b: seq<Byte>)
    requires 0 !in a && 0 !in b && Escape(a) == Escape(b)
    ensures a == b
  {
    EscapedReadsBack(a, []);
    EscapedReadsBack(b, []);
  }

  /** The byte at `i` is the second one of the escape that stands for a quote of the original. */
  ghost predicate EndsQuoteEscape(s: seq<Byte>, i: nat) {
    exists k :: 0 <= k < |s| && s[k] == QUOTE && i == |Escape(s[..k])| + 1
  }

  /** What is a quote's escape in the rest is one in the whole. */
  lemma QuoteEscapeShifts(s: seq<Byte>, i: nat)
    requires s != [] && EndsQuoteEscape(s[1..], i)
    ensures EndsQuoteEscape(s, |EscapeByte(s[0])| + i)
  {
    hide EscapeByte;
    var k :| 0 <= k < |s[1..]| && s[1..][k] == QUOTE && i == |Escape(s[1..][..k])| + 1;
    assert s[..k + 1][1..] == s[1..][..k];
    assert s[k + 1] == QUOTE;
  }

  lemma QuoteEscapeFirst(s: seq<Byte>)
    requires s != [] && s[0] == QUOTE
    ensures EndsQuoteEscape(s, 1)
  {
    assert |Escape(s[..0])| + 1 == 1;
  }

  /** No control byte is written, and a quote only as the second byte of an escape. */
  lemma {:induction false} EscapedIsClean(s: seq<Byte>)
    ensures forall i | 0 <= i < |Escape(s)| :: Escape(s)[i] >= SPACE
    ensures forall i | 0 <= i < |Escape(s)| && Escape(s)[i] == QUOTE ::
              i > 0 && Escape(s)[i - 1] == BACKSLASH && EndsQuoteEscape(s, i)
  {
    if s != [] {
      EscapedIsClean(s[1..]);
      CleanByte(s[0]);
      var first := |EscapeByte(s[0])|;
      hide EscapeByte, EndsQuoteEscape;
      forall i | 0 <= i < |Escape(s)| && Escape(s)[i] == QUOTE
        ensures i > 0 && Escape(s)[i - 1] == BACKSLASH && EndsQuoteEscape(s, i)
      {
        if i < first {
          assert EscapeByte(s[0])[i] == QUOTE;
          QuoteEscapeFirst(s);
        } else {
          assert Escape(s[1..])[i - first] == QUOTE;
          QuoteEscapeShifts(s, i - first);
        }
      }
    }
  }

  lemma CleanByte(c: Byte)
    ensures forall i | 0 <= i < |EscapeByte(c)| :: EscapeByte(c)[i] >= SPACE
    ensures forall i | 0 <= i < |EscapeByte(c)| && EscapeByte(c)[i] == QUOTE ::
              c == QUOTE && i == 1 && EscapeByte(c)[i - 1] == BACKSLASH
  {
  }

  // ----- The loop -----

  class Buffer {
    var data: seq<Byte>

    method Add(bytes: seq<Byte>)
      modifies this
      ensures data == old(data) + bytes
    {
      data := data + bytes;
    }
  }

  /** The bytes of a C string: those before the first zero. */
  function CString(str: seq<Byte>): (s: seq<Byte>)
    requires 0 in str
    ensures 0 !in s && s < str && str[|s|] == 0
  {
    if str[0] == 0 then [] else [str[0]] + CString(str[1..])
  }

  lemma {:induction false} OrdinaryRun(s: seq<Byte>, run: nat)
    requires run <= |s| && forall i | 0 <= i < run :: IsOrdinary(s[i])
    ensures Escape(s) == s[..run] + Escape(s[run..])
  {
    if run == 0 {
      assert s[..0] == [] && s[0..] == s;
    } else {
      var tail := s[1..];
      OneOrdinary(s);
      hide Escape, IsOrdinary;
      assert forall i | 0 <= i < run - 1 :: tail[i] == s[i + 1];
      OrdinaryRun(tail, run - 1);
      FirstAndRest(s, run);
      Regroup([s[0]], tail[..run - 1], Escape(s[run..]));
    }
  }

  lemma FirstAndRest(s: seq<Byte>, run: nat)
    requires 0 < run <= |s|
    ensures s[1..][run - 1..] == s[run..] && [s[0]] + s[1..][..run - 1] == s[..run]
  {
  }

  lemma Regroup(a: seq<Byte>, b: seq<Byte>, c: seq<Byte>)
    ensures a + (b + c) == a + b + c
  {
  }

  lemma OneOrdinary(s: seq<Byte>)
    requires s != [] && IsOrdinary(s[0])
    ensures Escape(s) == [s[0]] + Escape(s[1..])
  {
  }

  /** What an escape in the middle of a string adds to what has been written. */
  lemma RunThenEscape(s: seq<Byte>, start: nat, pos: nat)
    requires start <= pos < |s| && forall i | start <= i < pos :: IsOrdinary(s[i])
    ensures Escape(s[start..]) == s[start..pos] + EscapeByte(s[pos]) + Escape(s[pos + 1..])
  {
    hide EscapeByte, IsOrdinary;
    assert forall i | 0 <= i < pos - start :: IsOrdinary(s[start..][i]);
    OrdinaryRun(s[start..], pos - start);
    assert s[start..][..pos - start] == s[start..pos] && s[start..][pos - start..] == s[pos..];
    assert s[pos..][1..] == s[pos + 1..];
  }

  /** Copy the run of ordinary bytes that ends at `pos`. */
  method AddRun(pb: Buffer, str: seq<Byte>, start: nat, pos: nat)
    requires start <= pos <= |str|
    modifies pb
    ensures pb.data == old(pb.data) + str[start..pos]
  {
    if pos - start > 0 {
      pb.Add(str[start..pos]);
    }
  }

  method AddShort(pb: Buffer, c: Byte)
    requires c in {8, 10, 13, 9, QUOTE, BACKSLASH, SLASH}
    modifies pb
    ensures pb.data == old(pb.data) + EscapeByte(c)
  {
    if c == 8 {
      pb.Add([BACKSLASH, 0x62]);
    } else if c == 10 {
      pb.Add([BACKSLASH, 0x6e]);
    } else if c == 13 {
      pb.Add([BACKSLASH, 0x72]);
    } else if c == 9 {
      pb.Add([BACKSLASH, 0x74]);
    } else if c == QUOTE {
      pb.Add([BACKSLASH, QUOTE]);
    } else if c == BACKSLASH {
      pb.Add([BACKSLASH, BACKSLASH]);
    } else if c == SLASH {
      pb.Add([BACKSLASH, SLASH]);
    }
  }

  method AddControl(pb: Buffer, c: Byte)
    requires c < SPACE && c !in {8, 10, 13, 9}
    modifies pb
    ensures pb.data == old(pb.data) + EscapeByte(c)
  {
    pb.Add([BACKSLASH, 0x75, 0x30, 0x30, HexDigit(c / 16), HexDigit(c % 16)]);
  }

  lemma LastRun(s: seq<Byte>, start: nat)
    requires start <= |s| && forall i | start <= i < |s| :: IsOrdinary(s[i])
    ensures Escape(s[start..]) == s[start..]
  {
    hide IsOrdinary;
    assert forall i | 0 <= i < |s| - start :: IsOrdinary(s[start..][i]);
    OrdinaryRun(s[start..], |s| - start);
    assert s[start..][|s| - start..] == [] && s[start..][..|s| - start] == s[start..];
  }

  lemma Reassociate(before: seq<Byte>, run: seq<Byte>, escape: seq<Byte>, rest: seq<Byte>)
    ensures before + run + escape + rest == before + (run + escape + rest)
  {
  }

  method EscapeStr(pb: Buffer, str: seq<Byte>)
    requires 0 in str
    modifies pb
    ensures pb.data == old(pb.data) + Escape(CString(str))
  {
    hide Escape, EscapeByte;
    ghost var s := CString(str);
    var pos, start := 0, 0;
    var c := str[pos];
    assert s[0..] == s;
    while c != 0
      invariant start <= pos <= |s| && c == str[pos]
      invariant forall i | start <= i < pos :: IsOrdinary(s[i])
      invariant pb.data + Escape(s[start..]) == old(pb.data) + Escape(s)
      decreases |s| - pos
    {
      RunThenEscape(s, start, pos);
      Reassociate(pb.data, s[start..pos], EscapeByte(c), Escape(s[pos + 1..]));
      assert str[start..pos] == s[start..pos];
      if c in {8, 10, 13, 9, QUOTE, BACKSLASH, SLASH} {
        AddRun(pb, str, start, pos);
        AddShort(pb, c);
        pos := pos + 1;
        start := pos;
      } else if c < SPACE {
        AddRun(pb, str, start, pos);
        AddControl(pb, c);
        pos := pos + 1;
        start := pos;
      } else {
        pos := pos + 1;
      }
      c := str[pos];
    }
    LastRun(s, start);
    assert s[start..] == str[start..pos];
    AddRun(pb, str, start, pos);
  }
}
