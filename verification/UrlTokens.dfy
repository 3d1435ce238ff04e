/** Cutting a URL into its segments: the `strtok_r` walk over '/', which skips blank levels. */
module UrlTokens {

  function StripNewline(url: string): string {
    if url != "" && url[|url| - 1] == '\n' then url[..|url| - 1] else url
  }

  /** The length of the segment that starts `s`. */
  function SegmentLength(s: string): (n: nat)
    ensures n <= |s| && '/' !in s[..n] && (n < |s| ==> s[n] == '/')
  {
    if s == "" || s[0] == '/' then 0
    else
      var n := 1 + SegmentLength(s[1..]);
      assert s[..n] == [s[0]] + s[1..][..n - 1];
      n
  }

  function Tokens(s: string): (segments: seq<string>)
    ensures forall i | 0 <= i < |segments| :: IsSegment(segments[i])
    decreases |s|
  {
    if s == "" then []
    else if s[0] == '/' then Tokens(s[1..])
    else
      var n := SegmentLength(s);
      [s[..n]] + Tokens(s[n..])
  }

  /** A slash separates: what lies on its two sides is cut independently. */
  lemma {:induction false} TokensSplit(a: string, b: string)
    ensures Tokens(a + "/" + b) == Tokens(a) + Tokens(b)
    decreases |a|
  {
    var s := a + "/" + b;
    if a == "" {
      assert s[1..] == b;
    } else if a[0] == '/' {
      TokensSplit(a[1..], b);
      assert s[1..] == a[1..] + "/" + b;
    } else {
      var n := SegmentLength(a);
      SegmentLengthSplit(a, b);
      TokensSplit(a[n..], b);
      assert s[..n] == a[..n] && s[n..] == a[n..] + "/" + b;
    }
  }

  lemma {:induction false} SegmentLengthSplit(a: string, b: string)
    ensures SegmentLength(a + "/" + b) == SegmentLength(a)
  {
    if a != "" && a[0] != '/' {
      SegmentLengthSplit(a[1..], b);
      assert (a + "/" + b)[1..] == a[1..] + "/" + b;
    }
  }

  lemma SlashFirst(b: string)
    ensures Tokens("/" + b) == Tokens(b)
  {
    assert ("/" + b)[1..] == b;
  }

  /** `/a/b//c//d` has the segments of `/a/b/c/d`. */
  lemma BlankLevelsAreSkipped(a: string, b: string)
    ensures Tokens(a + "//" + b) == Tokens(a + "/" + b)
  {
    SlashFirst(b);
    hide Tokens;
    TokensSplit(a, "/" + b);
    TokensSplit(a, b);
    assert a + "//" + b == a + "/" + ("/" + b);
  }

  function Join(segments: seq<string>): string {
    if segments == [] then "" else "/" + segments[0] + Join(segments[1..])
  }

  predicate IsSegment(s: string) {
    s != "" && '/' !in s
  }

  lemma {:induction false} TokensOfJoin(segments: seq<string>)
    requires forall i | 0 <= i < |segments| :: IsSegment(segments[i])
    ensures Tokens(Join(segments)) == segments
  {
    if segments != [] {
      var rest := Join(segments[1..]);
      TokensOfJoin(segments[1..]);
      hide Tokens;
      TokenAlone(segments[0], rest);
      SlashFirst(segments[0] + rest);
      assert "/" + (segments[0] + rest) == Join(segments);
    }
  }

  /** A newline is cut off at the end, and nothing else is. */
  lemma OnlyNewlineIsCut(s: string)
    ensures StripNewline(s + "\n") == s
    ensures s == "" || s[|s| - 1] != '\n' ==> StripNewline(s) == s
  {
    assert (s + "\n")[..|s|] == s;
  }

  /** The text is these segments, each after a slash, with or without a newline at the end. */
  predicate IsUrlOf(url: string, segments: seq<string>) {
    && (forall i | 0 <= i < |segments| :: IsSegment(segments[i]) && '\n' !in segments[i])
    && (url == Join(segments) || url == Join(segments) + "\n")
  }

  lemma {:induction false} JoinHasNoNewline(segments: seq<string>)
    requires forall i | 0 <= i < |segments| :: '\n' !in segments[i]
    ensures '\n' !in Join(segments)
  {
    if segments != [] {
      JoinHasNoNewline(segments[1..]);
    }
  }

  /** From the text of a URL, exactly its segments are recovered. */
  lemma SegmentsOfUrl(url: string, segments: seq<string>)
    requires IsUrlOf(url, segments)
    ensures Tokens(StripNewline(url)) == segments
  {
    JoinHasNoNewline(segments);
    OnlyNewlineIsCut(Join(segments));
    TokensOfJoin(segments);
    hide Tokens, Join, StripNewline;
  }

  lemma TokenAlone(segment: string, rest: string)
    requires IsSegment(segment) && (rest != "" ==> rest[0] == '/')
    ensures Tokens(segment + rest) == [segment] + Tokens(rest)
  {
    SegmentLengthOf(segment, rest);
    assert (segment + rest)[..|segment|] == segment && (segment + rest)[|segment|..] == rest;
  }

  lemma {:induction false} SegmentLengthOf(segment: string, rest: string)
    requires '/' !in segment && (rest != "" ==> rest[0] == '/')
    ensures SegmentLength(segment + rest) == |segment|
  {
    if segment != "" {
      SegmentLengthOf(segment[1..], rest);
      assert (segment + rest)[1..] == segment[1..] + rest;
    } else {
      assert segment + rest == rest;
    }
  }
}
