/**
 The value that a path squasher stands for: which name paths lead to a node of the tree, and
 which of those nodes have had their children squashed. A node is identified with the names on
 the way down to it, so the root is `[]`. Everything the squasher promises is stated and
 proved here; the heap structure in `UrlSquasher` refines it.
 */
module PathTrie {

  type Path = seq<string>

  const WILD := "{...}"
  const MAX_DEPTH := 5

  datatype Trie = Trie(paths: set<Path>, squashed: set<Path>)

  const EMPTY := Trie({[]}, {})

  function Parent(p: Path): Path
    requires p != []
  {
    p[..|p| - 1]
  }

  function Last(p: Path): string
    requires p != []
  {
    p[|p| - 1]
  }

  // ----- Operations -----

  /** The names of the children of the node at `p`. */
  function Kids(t: Trie, p: Path): set<string> {
    set x | x in t.paths && |x| == |p| + 1 && p < x :: x[|p|]
  }

  function AddChild(t: Trie, p: Path, segment: string): Trie {
    t.(paths := t.paths + {p + [segment]})
  }

  /** Below `p`, every path has its first name forgotten: all children become one `{...}`. */
  function Squash(t: Trie, p: Path): Trie {
    Trie((set x | x in t.paths && !(p < x)) +
         (set x | x in t.paths && p < x :: p + [WILD] + x[|p| + 1..]),
         (set x | x in t.squashed && !(p <= x)) + {p})
  }

  /** 3 << depth */
  function Divisor(depth: nat): (d: nat)
    ensures d >= 3
  {
    if depth == 0 then 3 else 2 * Divisor(depth - 1)
  }

  /** C's truncating division of the cardinality factor. */
  function Limit(factor: int, depth: nat): int {
    if factor >= 0 then factor / Divisor(depth) else -((-factor) / Divisor(depth))
  }

  /**
   The comparison of a child count with the limit. The count is unsigned, so a negative limit
   is converted to a huge unsigned one and is never exceeded.
   */
  predicate Exceeds(count: nat, factor: int, depth: nat) {
    0 <= Limit(factor, depth) < count
  }

  /** One turn of the insertion loop: the new trie and the node that is walked to. */
  function Step(t: Trie, p: Path, segment: string, factor: int): (Trie, Path) {
    if p in t.squashed then (t, p + [WILD])
    else
      var added := AddChild(t, p, segment);
      if p != [] && Exceeds(|Kids(added, p)|, factor, |p|)
      then (Squash(added, p), p + [WILD])
      else (added, p + [segment])
  }

  function Walk(t: Trie, p: Path, segments: seq<string>, factor: int): (Trie, Path)
    decreases |segments|
  {
    if segments == [] || |p| == MAX_DEPTH then (t, p)
    else
      var (next, child) := Step(t, p, segments[0], factor);
      Walk(next, child, segments[1..], factor)
  }

  function Insert(t: Trie, segments: seq<string>, factor: int): Trie {
    Walk(t, [], segments, factor).0
  }

  /** The trie after adding the URLs in order, each given as its segments. */
  function Run(urls: seq<seq<string>>, factor: int): Trie
    decreases |urls|
  {
    if urls == [] then EMPTY
    else Insert(Run(urls[..|urls| - 1], factor), urls[|urls| - 1], factor)
  }

  function FirstSegments(segments: seq<string>): seq<string> {
    if |segments| <= MAX_DEPTH then segments else segments[..MAX_DEPTH]
  }

  // ----- Languages -----

  /** A wildcard stands for any one segment, a literal for itself. */
  predicate Matches(p: Path, segments: seq<string>) {
    && |p| == |segments|
    && forall i | 0 <= i < |p| :: p[i] == WILD || p[i] == segments[i]
  }

  /** The node at `p` accepts `segments`: some path from it down the tree matches them. */
  ghost predicate AcceptsAt(t: Trie, p: Path, segments: seq<string>) {
    exists x :: x in t.paths && p <= x && Matches(x[|p|..], segments)
  }

  ghost predicate Covers(t: Trie, segments: seq<string>) {
    exists x :: x in t.paths && Matches(x, segments)
  }

  /** The name paths of the subtree at `p`. */
  function Below(t: Trie, p: Path): set<Path> {
    set x | x in t.paths && p <= x :: x[|p|..]
  }

  // ----- Structure -----

  /** The local rules at the node `x`. */
  predicate NodeOk(t: Trie, x: Path) {
    && |x| <= MAX_DEPTH
    && (x != [] ==> Parent(x) in t.paths && (Parent(x) in t.squashed ==> Last(x) == WILD))
    && (x in t.squashed ==> x + [WILD] in t.paths)
  }

  ghost predicate WellFormed(t: Trie) {
    && [] in t.paths && [] !in t.squashed && t.squashed <= t.paths
    && forall x {:trigger NodeOk(t, x)} :: x in t.paths ==> NodeOk(t, x)
  }

  ghost predicate HasSquashedPrefix(t: Trie, x: Path, upTo: nat) {
    exists j :: 0 <= j <= upTo && j <= |x| && x[..j] in t.squashed
  }

  /** Every `{...}` on the path `x` lies strictly below a squashed node of that path. */
  ghost predicate WildsOk(t: Trie, x: Path) {
    forall i | 0 <= i < |x| && x[i] == WILD :: HasSquashedPrefix(t, x, i)
  }

  ghost predicate WildsBelowSquashed(t: Trie) {
    forall x {:trigger WildsOk(t, x)} :: x in t.paths ==> WildsOk(t, x)
  }

  lemma PrefixClosed(t: Trie, x: Path, n: nat)
    requires WellFormed(t) && x in t.paths && n <= |x|
    ensures x[..n] in t.paths
    decreases |x| - n
  {
    if n < |x| {
      PrefixClosed(t, x, n + 1);
      assert NodeOk(t, x[..n + 1]);
      assert Parent(x[..n + 1]) == x[..n];
    } else {
      assert x[..n] == x;
    }
  }

  lemma DepthBound(t: Trie)
    requires WellFormed(t)
    ensures forall x | x in t.paths :: |x| <= MAX_DEPTH
  {
    assert forall x | x in t.paths :: NodeOk(t, x);
  }

  lemma KidIff(t: Trie, p: Path, s: string)
    ensures s in Kids(t, p) <==> p + [s] in t.paths
  {
    if p + [s] in t.paths {
      assert (p + [s])[|p|] == s && p < p + [s];
    }
    if s in Kids(t, p) {
      var x :| x in t.paths && |x| == |p| + 1 && p < x && x[|p|] == s;
      assert x == p + [s];
    }
  }

  lemma AddChildKeepsStructure(t: Trie, p: Path, s: string)
    requires WellFormed(t) && p in t.paths && p !in t.squashed && |p| < MAX_DEPTH
    ensures WellFormed(AddChild(t, p, s))
  {
    var a := AddChild(t, p, s);
    forall x | x in a.paths
      ensures NodeOk(a, x)
    {
      if x in t.paths {
        assert NodeOk(t, x);
      } else {
        assert Parent(x) == p;
        assert NodeOk(t, p);
      }
    }
  }

  lemma AddChildKeepsWilds(t: Trie, p: Path, s: string)
    requires p in t.paths && s != WILD && WildsBelowSquashed(t)
    ensures WildsBelowSquashed(AddChild(t, p, s))
  {
    var a := AddChild(t, p, s);
    forall x | x in a.paths
      ensures WildsOk(a, x)
    {
      var z := if x in t.paths then x else p;
      assert WildsOk(t, z);
      forall i | 0 <= i < |x| && x[i] == WILD
        ensures HasSquashedPrefix(a, x, i)
      {
        assert z[i] == WILD;
        var j :| 0 <= j <= i && j <= |z| && z[..j] in t.squashed;
        assert x[..j] == z[..j];
      }
    }
  }

  /** Where a path of the squashed trie comes from: it was kept, or it was re-rooted from `y`. */
  lemma SquashOrigin(t: Trie, p: Path, x: Path) returns (kept: bool, y: Path)
    requires x in Squash(t, p).paths
    ensures y in t.paths
    ensures kept ==> x == y && !(p < x)
    ensures !kept ==> p < y && x == p + [WILD] + y[|p| + 1..]
  {
    if x in t.paths && !(p < x) {
      kept, y := true, x;
    } else {
      kept := false;
      y :| y in t.paths && p < y && x == p + [WILD] + y[|p| + 1..];
    }
  }

  lemma SquashMoves(t: Trie, p: Path, y: Path)
    requires y in t.paths && p < y
    ensures p + [WILD] + y[|p| + 1..] in Squash(t, p).paths
  {
  }

  lemma SquashKeepsStructure(t: Trie, p: Path)
    requires WellFormed(t) && p in t.paths && p != [] && Kids(t, p) != {}
    ensures WellFormed(Squash(t, p))
  {
    var q := Squash(t, p);
    assert NodeOk(t, p);
    forall x | x in q.paths
      ensures NodeOk(q, x)
    {
      var kept, y := SquashOrigin(t, p, x);
      assert NodeOk(t, y);
      if kept {
        SquashKeepsKeptNode(t, p, x);
      } else if |y| == |p| + 1 {
        assert x == p + [WILD] && Parent(x) == p;
      } else {
        var z := Parent(y);
        SquashMoves(t, p, z);
        assert Parent(x) == p + [WILD] + z[|p| + 1..];
        assert p <= Parent(x) && p <= x;
      }
    }
  }

  lemma SquashKeepsKeptNode(t: Trie, p: Path, x: Path)
    requires WellFormed(t) && p in t.paths && p != [] && Kids(t, p) != {}
    requires x in t.paths && !(p < x)
    ensures NodeOk(Squash(t, p), x)
  {
    var q := Squash(t, p);
    assert NodeOk(t, x);
    if x == p {
      var kid :| kid in Kids(t, p);
      KidIff(t, p, kid);
      SquashMoves(t, p, p + [kid]);
      assert p + [WILD] + (p + [kid])[|p| + 1..] == p + [WILD];
    }
    if x != [] {
      assert !(p < Parent(x));
      assert Parent(x) != p;
    }
    if x in q.squashed && x != p {
      assert !(p < x + [WILD]);
    }
  }

  lemma SquashKeepsWilds(t: Trie, p: Path)
    requires p in t.paths && WildsBelowSquashed(t)
    ensures WildsBelowSquashed(Squash(t, p))
  {
    var q := Squash(t, p);
    forall x | x in q.paths
      ensures WildsOk(q, x)
    {
      var kept, y := SquashOrigin(t, p, x);
      assert WildsOk(t, y) && WildsOk(t, p);
      forall i | 0 <= i < |x| && x[i] == WILD
        ensures HasSquashedPrefix(q, x, i)
      {
        if !kept && i >= |p| {
          assert x[..|p|] == p;
        } else {
          assert y[i] == WILD;
          var j :| 0 <= j <= i && j <= |y| && y[..j] in t.squashed;
          assert x[..j] == y[..j];
          assert p <= x[..j] ==> |p| <= j && p <= x;
        }
      }
    }
  }

  // ----- What squashing does -----

  /** Squashing leaves one child, whose subtree is exactly the union of the old children's. */
  lemma SquashUnion(t: Trie, p: Path)
    requires WellFormed(t) && p in t.paths && Kids(t, p) != {}
    ensures Kids(Squash(t, p), p) == {WILD}
    ensures forall r :: r in Below(Squash(t, p), p + [WILD]) <==>
              exists kid :: kid in Kids(t, p) && r in Below(t, p + [kid])
  {
    var q := Squash(t, p);
    var k :| k in Kids(t, p);
    KidIff(t, p, k);
    SquashMoves(t, p, p + [k]);
    assert p + [WILD] + (p + [k])[|p| + 1..] == p + [WILD];
    forall s
      ensures s in Kids(q, p) <==> s == WILD
    {
      KidIff(q, p, s);
    }
    forall r
      ensures r in Below(q, p + [WILD]) <==> exists kid :: kid in Kids(t, p) && r in Below(t, p + [kid])
    {
      if r in Below(q, p + [WILD]) {
        var x :| x in q.paths && p + [WILD] <= x && r == x[|p| + 1..];
        assert p <= x;
        var kept, y := SquashOrigin(t, p, x);
        assert r == y[|p| + 1..];
        KidOnPath(t, p, y);
        assert p + [y[|p|]] <= y && y[|p + [y[|p|]]|..] == r;
      }
      if kid :| kid in Kids(t, p) && r in Below(t, p + [kid]) {
        var y :| y in t.paths && p + [kid] <= y && r == y[|p| + 1..];
        SquashMoves(t, p, y);
        var x := p + [WILD] + r;
        assert p + [WILD] <= x && x[|p + [WILD]|..] == r;
      }
    }
  }

  lemma KidOnPath(t: Trie, p: Path, y: Path)
    requires WellFormed(t) && y in t.paths && p < y
    ensures y[|p|] in Kids(t, p)
  {
    PrefixClosed(t, y, |p| + 1);
    assert y[..|p| + 1] == p + [y[|p|]];
    KidIff(t, p, y[|p|]);
  }

  /** A squashed node accepts exactly: nothing, or any one segment and then what an old child accepted. */
  lemma SquashLanguage(t: Trie, p: Path, segments: seq<string>)
    requires WellFormed(t) && p in t.paths
    ensures AcceptsAt(Squash(t, p), p, segments) <==>
            segments == [] || exists kid :: kid in Kids(t, p) && AcceptsAt(t, p + [kid], segments[1..])
  {
    if segments == [] {
      assert Matches(p[|p|..], segments);
      assert p in Squash(t, p).paths;
    } else {
      hide AcceptsAt, Kids, Squash, WellFormed;
      if AcceptsAt(Squash(t, p), p, segments) {
        var kid := AcceptedByKid(t, p, segments);
      }
      if kid :| kid in Kids(t, p) && AcceptsAt(t, p + [kid], segments[1..]) {
        KidIsAccepted(t, p, kid, segments);
      }
    }
  }

  lemma AcceptedByKid(t: Trie, p: Path, segments: seq<string>) returns (kid: string)
    requires WellFormed(t) && p in t.paths && segments != [] && AcceptsAt(Squash(t, p), p, segments)
    ensures kid in Kids(t, p) && AcceptsAt(t, p + [kid], segments[1..])
  {
    var x :| x in Squash(t, p).paths && p <= x && Matches(x[|p|..], segments);
    var kept, y := SquashOrigin(t, p, x);
    hide Squash;
    KidOnPath(t, p, y);
    kid := y[|p|];
    assert y[|p| + 1..] == x[|p|..][1..];
    assert Matches(y[|p + [kid]|..], segments[1..]);
  }

  lemma KidIsAccepted(t: Trie, p: Path, kid: string, segments: seq<string>)
    requires segments != [] && AcceptsAt(t, p + [kid], segments[1..])
    ensures AcceptsAt(Squash(t, p), p, segments)
  {
    var y :| y in t.paths && p + [kid] <= y && Matches(y[|p + [kid]|..], segments[1..]);
    SquashMoves(t, p, y);
    hide Squash;
    var x := p + [WILD] + y[|p| + 1..];
    assert x[|p|..] == [WILD] + y[|p| + 1..];
    assert Matches(x[|p|..], segments);
  }

  /** Outside the subtree at `p` nothing is accepted or rejected differently than before. */
  lemma SquashElsewhere(t: Trie, p: Path, segments: seq<string>)
    requires WellFormed(t) && p in t.paths
    ensures Covers(Squash(t, p), segments) <==>
            || (exists x :: x in t.paths && !(p <= x) && Matches(x, segments))
            || (|p| <= |segments| && Matches(p, segments[..|p|]) && AcceptsAt(Squash(t, p), p, segments[|p|..]))
  {
    var q := Squash(t, p);
    if Covers(q, segments) {
      var x :| x in q.paths && Matches(x, segments);
      if p <= x {
        MatchesSplit(p, x[|p|..], segments);
        assert x == p + x[|p|..];
      } else {
        var kept, y := SquashOrigin(t, p, x);
      }
    }
    if |p| <= |segments| && Matches(p, segments[..|p|]) && AcceptsAt(q, p, segments[|p|..]) {
      var x :| x in q.paths && p <= x && Matches(x[|p|..], segments[|p|..]);
      MatchesJoin(p, x[|p|..], segments[..|p|], segments[|p|..]);
      assert x == p + x[|p|..] && segments == segments[..|p|] + segments[|p|..];
    }
  }

  lemma MatchesSplit(p: Path, r: Path, segments: seq<string>)
    requires Matches(p + r, segments)
    ensures Matches(p, segments[..|p|]) && Matches(r, segments[|p|..])
  {
    forall i | 0 <= i < |r|
      ensures r[i] == WILD || r[i] == segments[|p|..][i]
    {
      assert r[i] == (p + r)[|p| + i];
    }
    forall i | 0 <= i < |p|
      ensures p[i] == WILD || p[i] == segments[..|p|][i]
    {
      assert p[i] == (p + r)[i];
    }
  }

  lemma MatchesJoin(p: Path, r: Path, front: seq<string>, back: seq<string>)
    requires Matches(p, front) && Matches(r, back)
    ensures Matches(p + r, front + back)
  {
  }

  // ----- Coverage over every run -----

  lemma SquashKeepsCoverage(t: Trie, p: Path, segments: seq<string>)
    requires Covers(t, segments)
    ensures Covers(Squash(t, p), segments)
  {
    var x :| x in t.paths && Matches(x, segments);
    if p < x {
      SquashMoves(t, p, x);
      assert Matches(p + [WILD] + x[|p| + 1..], segments);
    }
  }

  lemma StepKeepsCoverage(t: Trie, p: Path, segment: string, factor: int, segments: seq<string>)
    requires Covers(t, segments)
    ensures Covers(Step(t, p, segment, factor).0, segments)
  {
    var added := AddChild(t, p, segment);
    var x :| x in t.paths && Matches(x, segments);
    assert Covers(added, segments);
    SquashKeepsCoverage(added, p, segments);
  }

  /** One step keeps the structure, and walks to a child of where it stood. */
  lemma StepKeepsStructure(t: Trie, p: Path, segment: string, factor: int)
    requires WellFormed(t) && p in t.paths && |p| < MAX_DEPTH
    ensures var (next, child) := Step(t, p, segment, factor);
            && WellFormed(next)
            && child in next.paths && |child| == |p| + 1 && Parent(child) == p
            && (child == p + [segment] || child == p + [WILD])
            && (segment != WILD && WildsBelowSquashed(t) ==> WildsBelowSquashed(next))
  {
    if p in t.squashed {
      assert NodeOk(t, p);
    } else {
      var added := AddChild(t, p, segment);
      AddChildKeepsStructure(t, p, segment);
      KidIff(added, p, segment);
      if segment != WILD && WildsBelowSquashed(t) {
        AddChildKeepsWilds(t, p, segment);
      }
      if p != [] && Exceeds(|Kids(added, p)|, factor, |p|) {
        SquashKeepsStructure(added, p);
        SquashMoves(added, p, p + [segment]);
        assert p + [WILD] + (p + [segment])[|p| + 1..] == p + [WILD];
        if segment != WILD && WildsBelowSquashed(t) {
          SquashKeepsWilds(added, p);
        }
      }
    }
  }

  /** The walk keeps the structure and all coverage, and ends on a path matching what it was given. */
  lemma {:induction false} WalkInvariant(t: Trie, p: Path, walked: seq<string>, segments: seq<string>, factor: int)
    requires WellFormed(t) && p in t.paths && Matches(p, walked)
    ensures var (next, end) := Walk(t, p, segments, factor);
            && WellFormed(next)
            && end in next.paths && p <= end
            && Matches(end, FirstSegments(walked + segments))
            && (WILD !in segments && WildsBelowSquashed(t) ==> WildsBelowSquashed(next))
            && forall s :: Covers(t, s) ==> Covers(next, s)
    decreases |segments|
  {
    assert NodeOk(t, p);
    if segments == [] || |p| == MAX_DEPTH {
      assert FirstSegments(walked + segments) == walked;
    } else {
      StepKeepsStructure(t, p, segments[0], factor);
      var (next, child) := Step(t, p, segments[0], factor);
      assert Matches(child, walked + [segments[0]]);
      WalkInvariant(next, child, walked + [segments[0]], segments[1..], factor);
      assert walked + segments == walked + [segments[0]] + segments[1..];
      forall s | Covers(t, s)
        ensures Covers(next, s)
      {
        StepKeepsCoverage(t, p, segments[0], factor, s);
      }
    }
  }

  /** Adding a URL covers its first five segments and loses no coverage. */
  lemma InsertCovers(t: Trie, segments: seq<string>, factor: int)
    requires WellFormed(t)
    ensures WellFormed(Insert(t, segments, factor))
    ensures Covers(Insert(t, segments, factor), FirstSegments(segments))
    ensures forall s :: Covers(t, s) ==> Covers(Insert(t, segments, factor), s)
    ensures WILD !in segments && WildsBelowSquashed(t) ==> WildsBelowSquashed(Insert(t, segments, factor))
  {
    WalkInvariant(t, [], [], segments, factor);
    assert [] + segments == segments;
  }

  lemma {:induction false} RunIsWellFormed(urls: seq<seq<string>>, factor: int)
    ensures WellFormed(Run(urls, factor))
    ensures (forall u | u in urls :: WILD !in u) ==> WildsBelowSquashed(Run(urls, factor))
    decreases |urls|
  {
    if urls != [] {
      var most := urls[..|urls| - 1];
      RunIsWellFormed(most, factor);
      InsertCovers(Run(most, factor), urls[|urls| - 1], factor);
      assert forall u | u in most :: u in urls;
    }
  }

  /** Every URL ever added stays covered, whatever is added, squashed and merged afterwards. */
  lemma {:induction false} RunCoversEveryUrl(urls: seq<seq<string>>, factor: int, i: nat)
    requires i < |urls|
    ensures Covers(Run(urls, factor), FirstSegments(urls[i]))
    decreases |urls|
  {
    var most := urls[..|urls| - 1];
    RunIsWellFormed(most, factor);
    InsertCovers(Run(most, factor), urls[|urls| - 1], factor);
    if i < |most| {
      RunCoversEveryUrl(most, factor, i);
    }
  }

  // ----- Cardinality -----

  /** When a node has too many children: the factor divided by 3, 6, 12, 24 and 48, truncated towards zero. */
  lemma ExceedsAtEachDepth(count: nat, factor: int)
    ensures Exceeds(count, factor, 0) <==> count > 0 && -3 < factor < 3 * count
    ensures Exceeds(count, factor, 1) <==> count > 0 && -6 < factor < 6 * count
    ensures Exceeds(count, factor, 2) <==> count > 0 && -12 < factor < 12 * count
    ensures Exceeds(count, factor, 3) <==> count > 0 && -24 < factor < 24 * count
    ensures Exceeds(count, factor, 4) <==> count > 0 && -48 < factor < 48 * count
  {
    assert Divisor(0) == 3 && Divisor(1) == 6 && Divisor(2) == 12;
    assert Divisor(3) == 24 && Divisor(4) == 48;
  }

  /** A step at `p` changes neither the children nor the squashing of the nodes above `p`. */
  lemma StepIsLocal(t: Trie, p: Path, segment: string, factor: int, above: Path)
    requires above < p
    ensures var next := Step(t, p, segment, factor).0;
            Kids(next, above) == Kids(t, above) && (above in next.squashed <==> above in t.squashed)
  {
    var next := Step(t, p, segment, factor).0;
    forall s
      ensures s in Kids(next, above) <==> s in Kids(t, above)
    {
      KidIff(t, above, s);
      KidIff(next, above, s);
      var x := above + [s];
      assert |x| <= |p| && !(p < x);
      assert forall r: Path {:trigger p + [WILD] + r} :: |p + [WILD] + r| > |x|;
    }
  }

  /** A node that was walked through and is not the root is squashed, or within its limit. */
  predicate WithinLimit(t: Trie, p: Path, factor: int) {
    p in t.squashed || !Exceeds(|Kids(t, p)|, factor, |p|)
  }

  /** The parents on the path just walked end up within the limit; only those are promised. */
  lemma {:induction false} WalkedParentsWithinLimit(t: Trie, p: Path, segments: seq<string>, factor: int, n: nat)
    requires WellFormed(t) && p in t.paths
    requires forall i | 1 <= i < |p| :: WithinLimit(t, p[..i], factor)
    requires 1 <= n < |Walk(t, p, segments, factor).1|
    ensures var (next, end) := Walk(t, p, segments, factor); WithinLimit(next, end[..n], factor)
    decreases |segments|
  {
    assert NodeOk(t, p);
    if segments != [] && |p| < MAX_DEPTH {
      StepKeepsStructure(t, p, segments[0], factor);
      var (next, child) := Step(t, p, segments[0], factor);
      forall i | 1 <= i < |child|
        ensures WithinLimit(next, child[..i], factor)
      {
        if i < |p| {
          StepIsLocal(t, p, segments[0], factor, p[..i]);
          assert child[..i] == p[..i];
        } else {
          assert child[..i] == p;
        }
      }
      WalkedParentsWithinLimit(next, child, segments[1..], factor, n);
    }
  }

  /** The names that end up under `r` below the squashed children of `p`: those under `r` below any of them. */
  function MergedKids(t: Trie, p: Path, r: Path): set<string> {
    set x | x in t.paths && |x| == |p| + |r| + 2 && p < x && x[|p| + 1..|x| - 1] == r :: x[|x| - 1]
  }

  /**
   Merging can push a node over its limit, and nothing squashes it until it is walked through
   again: a merged node is within its limit exactly if the old children's names fit together.
   */
  lemma MergedNodeWithinLimit(t: Trie, p: Path, r: Path, factor: int)
    requires WellFormed(t) && p in t.paths
    ensures Kids(Squash(t, p), p + [WILD] + r) == MergedKids(t, p, r)
    ensures WithinLimit(Squash(t, p), p + [WILD] + r, factor) <==> !Exceeds(|MergedKids(t, p, r)|, factor, |p| + 1 + |r|)
  {
    var q, at := Squash(t, p), p + [WILD] + r;
    forall s
      ensures s in Kids(q, at) <==> s in MergedKids(t, p, r)
    {
      KidIff(q, at, s);
      if at + [s] in q.paths {
        MergedKidOrigin(t, p, r, s);
      }
      if s in MergedKids(t, p, r) {
        MergedKidIsThere(t, p, r, s);
      }
    }
    assert p <= at;
  }

  lemma MergedKidOrigin(t: Trie, p: Path, r: Path, s: string)
    requires p + [WILD] + r + [s] in Squash(t, p).paths
    ensures s in MergedKids(t, p, r)
  {
    var x := p + [WILD] + r + [s];
    assert p < x;
    var kept, y := SquashOrigin(t, p, x);
    hide Squash;
    assert x[|p| + 1..] == r + [s] == y[|p| + 1..];
    assert y[|p| + 1..|y| - 1] == (r + [s])[..|r|] == r && y[|y| - 1] == (r + [s])[|r|];
  }

  lemma MergedKidIsThere(t: Trie, p: Path, r: Path, s: string)
    requires s in MergedKids(t, p, r)
    ensures p + [WILD] + r + [s] in Squash(t, p).paths
  {
    var x :| x in t.paths && |x| == |p| + |r| + 2 && p < x && x[|p| + 1..|x| - 1] == r && x[|x| - 1] == s;
    SquashMoves(t, p, x);
    hide Squash;
    assert x[|p| + 1..] == r + [s];
    assert p + [WILD] + x[|p| + 1..] == p + [WILD] + r + [s];
  }

  /** What is there after /a/k/x and /a/l/y, as `ExampleIsReached` shows. */
  function Example(): Trie {
    Trie({[], ["a"], ["a", "k"], ["a", "l"], ["a", "k", "x"], ["a", "l", "y"]}, {})
  }

  lemma WalkOn(t: Trie, p: Path, segments: seq<string>, factor: int)
    requires segments != [] && |p| < MAX_DEPTH && p !in t.squashed
    requires p == [] || !Exceeds(|Kids(AddChild(t, p, segments[0]), p)|, factor, |p|)
    ensures Walk(t, p, segments, factor) == Walk(AddChild(t, p, segments[0]), p + [segments[0]], segments[1..], factor)
  {
    hide Kids, AddChild, Squash;
  }

  /** The children of a node whose paths are known to be among some. */
  lemma FewKids(t: Trie, p: Path, names: set<string>)
    requires forall x | x in t.paths && |x| == |p| + 1 && p < x :: x[|p|] in names
    ensures |Kids(t, p)| <= |names|
  {
    SubsetSize(Kids(t, p), names);
  }

  /** A walk down three names with room for one more child each. */
  lemma ExampleWalk(t: Trie, a: string, b: string, c: string)
    requires t.squashed == {}
    requires |Kids(AddChild(AddChild(t, [], a), [a], b), [a])| <= 2
    requires |Kids(AddChild(AddChild(AddChild(t, [], a), [a], b), [a, b], c), [a, b])| <= 1
    ensures Insert(t, [a, b, c], 12) == Trie(t.paths + {[a], [a, b], [a, b, c]}, {})
  {
    var t1 := AddChild(t, [], a);
    var t2 := AddChild(t1, [a], b);
    var t3 := AddChild(t2, [a, b], c);
    assert [] + [a] == [a] && [a] + [b] == [a, b] && [a, b] + [c] == [a, b, c];
    assert [a, b, c][1..] == [b, c] && [b, c][1..] == [c] && [c][1..] == [];
    assert t3 == Trie(t.paths + {[a], [a, b], [a, b, c]}, {});
    assert Divisor(1) == 6 && Divisor(2) == 12;
    assert t1.squashed == t2.squashed == {};
    hide Kids, AddChild, Walk;
    WalkOn(t, [], [a, b, c], 12);
    WalkOn(t1, [a], [b, c], 12);
    WalkOn(t2, [a, b], [c], 12);
    WalkEnds(t3, [a, b, c], 12);
  }

  lemma WalkEnds(t: Trie, p: Path, factor: int)
    ensures Walk(t, p, [], factor) == (t, p)
  {
  }

  lemma ExampleIsReached()
    ensures Run([["a", "k", "x"], ["a", "l", "y"]], 12) == Example()
  {
    var first, second := ["a", "k", "x"], ["a", "l", "y"];
    var half := Trie({[], ["a"], ["a", "k"], ["a", "k", "x"]}, {});
    assert [first, second][..1] == [first] && [first][..0] == [];
    FirstWalk();
    SecondWalk();
    assert Run([first], 12) == Insert(Run([], 12), first, 12);
    assert Run([first, second], 12) == Insert(Run([first], 12), second, 12);
    hide Insert, Run;
  }

  lemma FirstWalk()
    ensures Insert(EMPTY, ["a", "k", "x"], 12) == Trie({[], ["a"], ["a", "k"], ["a", "k", "x"]}, {})
  {
    var t2 := AddChild(AddChild(EMPTY, [], "a"), ["a"], "k");
    FewKids(t2, ["a"], {"k"});
    FewKids(AddChild(t2, ["a", "k"], "x"), ["a", "k"], {"x"});
    ExampleWalk(EMPTY, "a", "k", "x");
  }

  lemma SecondWalk()
    ensures Insert(Trie({[], ["a"], ["a", "k"], ["a", "k", "x"]}, {}), ["a", "l", "y"], 12) == Example()
  {
    var t := Trie({[], ["a"], ["a", "k"], ["a", "k", "x"]}, {});
    var t2 := AddChild(AddChild(t, [], "a"), ["a"], "l");
    FewKids(t2, ["a"], {"k", "l"});
    assert ["a", "k", "x"][1] != ["a", "l"][1];
    FewKids(AddChild(t2, ["a", "l"], "y"), ["a", "l"], {"y"});
    ExampleWalk(t, "a", "l", "y");
  }

  lemma ExampleIsWellFormed()
    ensures WellFormed(Example())
  {
    var t := Example();
    assert Parent(["a"]) == [] && Parent(["a", "k"]) == ["a"] && Parent(["a", "l"]) == ["a"];
    assert Parent(["a", "k", "x"]) == ["a", "k"] && Parent(["a", "l", "y"]) == ["a", "l"];
    assert NodeOk(t, []) && NodeOk(t, ["a"]) && NodeOk(t, ["a", "k"]) && NodeOk(t, ["a", "l"]);
    assert NodeOk(t, ["a", "k", "x"]) && NodeOk(t, ["a", "l", "y"]);
    hide NodeOk;
  }

  lemma {:induction false} SubsetSize<T>(a: set<T>, b: set<T>)
    requires a <= b
    ensures |a| <= |b|
    decreases a
  {
    if x :| x in a {
      SubsetSize(a - {x}, b - {x});
    }
  }

  lemma ExampleIsWithinLimit(p: Path)
    requires p in Example().paths && p != []
    ensures WithinLimit(Example(), p, 12)
  {
    var t := Example();
    assert Divisor(1) == 6 && Divisor(2) == 12 && Divisor(3) == 24;
    forall s
      ensures s in Kids(t, p) <==> p + [s] in t.paths
    {
      KidIff(t, p, s);
    }
    if p == ["a"] {
      assert Kids(t, p) == {"k", "l"};
    } else if |p| == 2 {
      var s := if p[1] == "k" then "x" else "y";
      assert forall z :: z in Kids(t, p) ==> (p + [z])[1] == p[1] && (p + [z])[2] == z;
      assert Kids(t, p) <= {s};
      assert |Kids(t, p)| <= |{s}| by { SubsetSize(Kids(t, p), {s}); }
    } else {
      assert Kids(t, p) == {};
    }
  }

  /** So not every node of a reachable trie is within its limit, even if all were before the last step. */
  lemma MergeExceedsLimit()
    ensures var t, next := Run([["a", "k", "x"], ["a", "l", "y"]], 12), Run([["a", "k", "x"], ["a", "l", "y"], ["a", "m"]], 12);
            && (forall p | p in t.paths && p != [] :: WithinLimit(t, p, 12))
            && !WithinLimit(next, ["a", "{...}"], 12)
  {
    forall p | p in Example().paths && p != []
      ensures WithinLimit(Example(), p, 12)
    {
      ExampleIsWithinLimit(p);
    }
    hide *;
    ExampleIsReached();
    ExampleGoesOn();
    ExampleIsOver();
  }

  lemma ExampleIsOver()
    ensures !WithinLimit(Step(Example(), ["a"], "m", 12).0, ["a", WILD], 12)
  {
    var added := AddChild(Example(), ["a"], "m");
    ExampleIsWellFormed();
    AddChildKeepsStructure(Example(), ["a"], "m");
    ExampleStep();
    hide Example, WellFormed, Squash, WithinLimit, Step;
    MergedNodeWithinLimit(added, ["a"], [], 12);
    assert ["a"] + [WILD] + [] == ["a", WILD];
  }

  lemma ExampleGoesOn()
    ensures Run([["a", "k", "x"], ["a", "l", "y"], ["a", "m"]], 12) == Step(Example(), ["a"], "m", 12).0
  {
    var urls, third := [["a", "k", "x"], ["a", "l", "y"]], ["a", "m"];
    var t := Example();
    ExampleIsReached();
    assert [urls[0], urls[1], third][..2] == urls;
    assert Run([urls[0], urls[1], third], 12) == Insert(Run(urls, 12), third, 12);
    assert AddChild(t, [], "a") == t && [] + ["a"] == ["a"] && third[1..] == ["m"] && ["m"][1..] == [];
    hide Run, Example, Squash, Kids, AddChild, Step;
    WalkOn(t, [], third, 12);
    var (next, child) := Step(t, ["a"], "m", 12);
    WalkEnds(next, child, 12);
    assert Walk(t, ["a"], ["m"], 12) == Walk(next, child, [], 12);
  }

  lemma ExampleStep()
    ensures var added := AddChild(Example(), ["a"], "m");
            Step(Example(), ["a"], "m", 12).0 == Squash(added, ["a"]) && Exceeds(|MergedKids(added, ["a"], [])|, 12, 2)
  {
    ExampleKids();
    hide Kids, MergedKids, Squash, AddChild;
    assert Divisor(1) == 6 && Divisor(2) == 12;
  }

  lemma ExampleKids()
    ensures var added := AddChild(Example(), ["a"], "m");
            |Kids(added, ["a"])| == 3 && |MergedKids(added, ["a"], [])| == 2
  {
    var added := AddChild(Example(), ["a"], "m");
    assert Kids(added, ["a"]) == {"k", "l", "m"};
    assert MergedKids(added, ["a"], []) == {"x", "y"};
  }

  // ----- When nothing is squashed -----

  /** The name paths along the segments from `p` on, down to the fifth level. */
  function Along(p: Path, segments: seq<string>): set<Path> {
    set k | 0 <= k <= |segments| && |p| + k <= MAX_DEPTH :: p + segments[..k]
  }

  /** The prefixes of all URLs, with their first five segments as they are. */
  function LiteralPaths(urls: seq<seq<string>>): set<Path> {
    if urls == [] then {[]} else LiteralPaths(urls[..|urls| - 1]) + Along([], urls[|urls| - 1])
  }

  /** No node but the root has more children than its depth allows. */
  ghost predicate Roomy(paths: set<Path>, factor: int) {
    forall q: Path | q != [] :: !Exceeds(|Kids(Trie(paths, {}), q)|, factor, |q|)
  }

  lemma FewerKids(few: set<Path>, many: set<Path>, q: Path, factor: int, depth: nat)
    requires few <= many && !Exceeds(|Kids(Trie(many, {}), q)|, factor, depth)
    ensures !Exceeds(|Kids(Trie(few, {}), q)|, factor, depth)
  {
    SubsetSize(Kids(Trie(few, {}), q), Kids(Trie(many, {}), q));
  }

  lemma AlongStep(p: Path, segments: seq<string>)
    requires |p| <= MAX_DEPTH
    ensures p in Along(p, segments) && (segments == [] || |p| == MAX_DEPTH ==> Along(p, segments) == {p})
    ensures segments != [] && |p| < MAX_DEPTH ==> Along(p, segments) == {p} + Along(p + [segments[0]], segments[1..])
  {
    assert p + segments[..0] == p;
    if segments != [] && |p| < MAX_DEPTH {
      AlongChild(p, segments);
    }
  }

  lemma AlongChild(p: Path, segments: seq<string>)
    requires segments != [] && |p| < MAX_DEPTH
    ensures Along(p, segments) == {p} + Along(p + [segments[0]], segments[1..])
  {
    var child, rest := p + [segments[0]], segments[1..];
    assert p + segments[..0] == p;
    forall x | x in Along(p, segments)
      ensures x == p || x in Along(child, rest)
    {
      var k :| 0 <= k <= |segments| && |p| + k <= MAX_DEPTH && x == p + segments[..k];
      assert k > 0 ==> x == child + rest[..k - 1];
    }
    forall x | x in Along(child, rest)
      ensures x in Along(p, segments)
    {
      var k :| 0 <= k <= |rest| && |child| + k <= MAX_DEPTH && x == child + rest[..k];
      assert x == p + segments[..k + 1];
    }
  }

  /** As long as there is room, a walk only adds the names along the way. */
  lemma {:induction false} WalkWithRoom(t: Trie, p: Path, segments: seq<string>, factor: int, all: set<Path>)
    requires t.squashed == {} && p in t.paths && |p| <= MAX_DEPTH && t.paths + Along(p, segments) <= all && Roomy(all, factor)
    ensures Walk(t, p, segments, factor).0 == Trie(t.paths + Along(p, segments), {})
    decreases |segments|
  {
    hide Kids, Exceeds, Along;
    AlongStep(p, segments);
    if segments != [] && |p| < MAX_DEPTH {
      var added, child := AddChild(t, p, segments[0]), p + [segments[0]];
      AlongStep(child, segments[1..]);
      assert added == Trie(added.paths, {});
      if p != [] {
        FewerKids(added.paths, all, p, factor, |p|);
      }
      WalkWithRoom(added, child, segments[1..], factor, all);
    }
  }

  lemma {:induction false} SquashedStays(t: Trie, p: Path, segments: seq<string>, factor: int)
    ensures Walk(t, p, segments, factor).0.squashed == {} ==> t.squashed == {}
    decreases |segments|
  {
    if segments != [] && |p| != MAX_DEPTH {
      var (next, child) := Step(t, p, segments[0], factor);
      SquashedStays(next, child, segments[1..], factor);
      assert p in Squash(AddChild(t, p, segments[0]), p).squashed;
    }
  }

  /** If a walk ends without a squash, it has only added names, and there was room. */
  lemma {:induction false} WalkUnsquashed(t: Trie, p: Path, segments: seq<string>, factor: int)
    requires Walk(t, p, segments, factor).0.squashed == {} && p in t.paths && |p| <= MAX_DEPTH && Roomy(t.paths, factor)
    ensures var end := Walk(t, p, segments, factor).0; end == Trie(t.paths + Along(p, segments), {}) && Roomy(end.paths, factor)
    decreases |segments|
  {
    hide Along, Roomy;
    SquashedStays(t, p, segments, factor);
    AlongStep(p, segments);
    if segments != [] && |p| < MAX_DEPTH {
      var (next, child) := Step(t, p, segments[0], factor);
      SquashedStays(next, child, segments[1..], factor);
      AlongStep(child, segments[1..]);
      assert p in Squash(AddChild(t, p, segments[0]), p).squashed;
      RoomAfterStep(t, p, segments[0], factor);
      WalkUnsquashed(next, child, segments[1..], factor);
    }
  }

  lemma RoomAfterStep(t: Trie, p: Path, segment: string, factor: int)
    requires t.squashed == {} && Roomy(t.paths, factor) && p in t.paths
    requires p != [] ==> !Exceeds(|Kids(AddChild(t, p, segment), p)|, factor, |p|)
    ensures Roomy(AddChild(t, p, segment).paths, factor)
  {
    hide Exceeds, Kids;
    var added := AddChild(t, p, segment);
    assert added == Trie(added.paths, {}) && t == Trie(t.paths, {});
    forall q: Path | q != []
      ensures !Exceeds(|Kids(Trie(added.paths, {}), q)|, factor, |q|)
    {
      if q != p {
        OtherKids(t, p, segment, q);
      }
    }
  }

  lemma OtherKids(t: Trie, p: Path, segment: string, q: Path)
    requires q != p
    ensures Kids(AddChild(t, p, segment), q) == Kids(t, q)
  {
    forall s
      ensures s in Kids(AddChild(t, p, segment), q) <==> s in Kids(t, q)
    {
      KidIff(AddChild(t, p, segment), q, s);
      KidIff(t, q, s);
      SameParent(q, s, p, segment);
    }
  }

  lemma SameParent(q: Path, s: string, p: Path, segment: string)
    ensures q + [s] == p + [segment] ==> q == p
  {
    assert Parent(q + [s]) == q && Parent(p + [segment]) == p;
  }

  lemma FirstSegmentsAlong(segments: seq<string>)
    ensures Along([], segments) == set k | 0 <= k <= |segments| && k <= 5 :: segments[..k]
  {
    forall k | 0 <= k <= |segments|
      ensures [] + segments[..k] == segments[..k]
    {
    }
  }

  lemma {:induction false} RoomyRun(urls: seq<seq<string>>, factor: int)
    requires Roomy(LiteralPaths(urls), factor)
    ensures Run(urls, factor) == Trie(LiteralPaths(urls), {}) && [] in LiteralPaths(urls)
    decreases |urls|
  {
    hide Along;
    if urls != [] {
      var most := urls[..|urls| - 1];
      LessIsRoomy(LiteralPaths(most), LiteralPaths(urls), factor);
      RoomyRun(most, factor);
      WalkWithRoom(Run(most, factor), [], urls[|urls| - 1], factor, LiteralPaths(urls));
    }
  }

  lemma LessIsRoomy(few: set<Path>, many: set<Path>, factor: int)
    requires few <= many && Roomy(many, factor)
    ensures Roomy(few, factor)
  {
    hide Exceeds, Kids;
    forall q: Path | q != []
      ensures !Exceeds(|Kids(Trie(few, {}), q)|, factor, |q|)
    {
      FewerKids(few, many, q, factor, |q|);
    }
  }

  lemma {:induction false} UnsquashedRun(urls: seq<seq<string>>, factor: int)
    requires Run(urls, factor).squashed == {}
    ensures Run(urls, factor) == Trie(LiteralPaths(urls), {}) && [] in LiteralPaths(urls) && Roomy(LiteralPaths(urls), factor)
    decreases |urls|
  {
    if urls != [] {
      hide Along, Roomy;
      var most, last := urls[..|urls| - 1], urls[|urls| - 1];
      SquashedStays(Run(most, factor), [], last, factor);
      UnsquashedRun(most, factor);
      WalkUnsquashed(Run(most, factor), [], last, factor);
    } else {
      assert forall q :: Kids(Trie({[]}, {}), q) == {};
    }
  }

  /**
   Nothing is ever squashed exactly if no node but the root would have too many children among
   the URLs taken literally, and then the tree is just their prefixes.
   */
  lemma NothingSquashedExactly(urls: seq<seq<string>>, factor: int)
    ensures Run(urls, factor).squashed == {} <==> Roomy(LiteralPaths(urls), factor)
    ensures Run(urls, factor).squashed == {} ==> Run(urls, factor).paths == LiteralPaths(urls)
  {
    hide Roomy;
    if Run(urls, factor).squashed == {} {
      UnsquashedRun(urls, factor);
    }
    if Roomy(LiteralPaths(urls), factor) {
      RoomyRun(urls, factor);
    }
  }

  // ----- Patterns -----

  predicate IsLeaf(t: Trie, p: Path) {
    forall x | x in t.paths :: !(p < x)
  }

  ghost predicate HasPattern(t: Trie, p: Path) {
    p != [] && p in t.paths && IsLeaf(t, p) && HasSquashedPrefix(t, p, |p|)
  }

  /** A pattern is anchored at the first segment and ignores what follows its last one. */
  predicate PatternMatches(pattern: Path, segments: seq<string>) {
    |pattern| <= |segments| && Matches(pattern, segments[..|pattern|])
  }

  /** An added URL of five segments or more is matched by the pattern of any squashed path covering it. */
  lemma CoveredUrlHasPattern(urls: seq<seq<string>>, factor: int, i: nat)
    requires i < |urls| && MAX_DEPTH <= |urls[i]|
    ensures var t := Run(urls, factor);
            && Covers(t, FirstSegments(urls[i]))
            && forall x | x in t.paths && Matches(x, FirstSegments(urls[i])) && HasSquashedPrefix(t, x, |x|) ::
                 HasPattern(t, x) && PatternMatches(x, urls[i])
  {
    RunCoversEveryUrl(urls, factor, i);
    RunIsWellFormed(urls, factor);
    var t := Run(urls, factor);
    forall x | x in t.paths && Matches(x, FirstSegments(urls[i]))
      ensures IsLeaf(t, x)
    {
      DepthBound(t);
    }
  }
}
