/**
 The mutable tree behind a path squasher. Its nodes are updated in place; the ghost map `at`
 says which node each name path leads to, and every operation is proved to change the tree
 exactly as the corresponding operation of `PathTrie` changes the trie that `at` stands for.
 */
module UrlSquasher {
  import opened PathTrie
  import UrlTokens

  class Node {
    const name: string
    var parent: Node?
    var squashed: bool
    // a hash set of children, keyed by their names; in use until the children are squashed
    var children: map<string, Node>
    // in use once they are
    var squashedChild: Node?

    constructor (name: string)
      ensures this.name == name && parent == null && !squashed
      ensures children == map[] && squashedChild == null
    {
      this.name := name;
      parent, squashed, children, squashedChild := null, false, map[], null;
    }
  }

  type NodeMap = map<Path, Node>

  /** `up` holds `n` as its child called `segment`. */
  predicate HoldsChild(up: Node, segment: string, n: Node)
    reads up
  {
    if up.squashed then segment == WILD && up.squashedChild == n
    else segment in up.children && up.children[segment] == n
  }

  ghost predicate UpOk(at: NodeMap, p: Path)
    requires p in at
    reads at.Values
  {
    p != [] ==>
      && Parent(p) in at && at[p].parent == at[Parent(p)] && at[p].name == Last(p)
      && HoldsChild(at[Parent(p)], Last(p), at[p])
  }

  /** The pointers of the node at `p`, up and down, agree with `at`. */
  ghost predicate LinkOk(at: NodeMap, p: Path)
    requires p in at
    reads at.Values
  {
    && UpOk(at, p)
    && (if at[p].squashed then p + [WILD] in at else forall s | s in at[p].children :: p + [s] in at)
  }

  ghost predicate Linked(at: NodeMap)
    reads at.Values
  {
    && (forall p, q | p in at && q in at && at[p] == at[q] :: p == q)
    && (forall p {:trigger LinkOk(at, p)} | p in at :: LinkOk(at, p))
  }

  ghost function TrieOf(at: NodeMap): Trie
    reads at.Values
  {
    Trie(at.Keys, set p | p in at && at[p].squashed)
  }

  ghost predicate Extends(bigger: NodeMap, smaller: NodeMap) {
    smaller.Keys <= bigger.Keys && forall p | p in smaller :: bigger[p] == smaller[p]
  }

  /** Create a child of the node at `p` and put it in its children. */
  method PutChild(parent: Node, segment: string, ghost at: NodeMap, ghost p: Path)
    returns (child: Node, ghost now: NodeMap)
    requires Linked(at) && p in at && at[p] == parent && !parent.squashed && segment !in parent.children
    modifies parent`children
    ensures Linked(now) && Extends(now, at) && now.Keys == at.Keys + {p + [segment]}
    ensures child == now[p + [segment]] && fresh(child) && !child.squashed && p + [segment] !in at
  {
    NotYetThere(at, p, segment);
    child := new Node(segment);
    child.parent := parent;
    parent.children := parent.children[segment := child];
    ghost var y := p + [segment];
    now := at[y := child];
    assert Parent(y) == p && Last(y) == segment;
    forall q | q in at && q != p
      ensures LinkOk(now, q)
    {
      assert old(LinkOk(at, q)) && at[q] != parent;
    }
    assert LinkOk(now, p) by {
      assert old(LinkOk(at, p));
    }
    assert LinkOk(now, y);
  }

  method MaybeAddChild(parent: Node, segment: string, ghost at: NodeMap, ghost p: Path)
    returns (child: Node, ghost now: NodeMap)
    requires Linked(at) && p in at && at[p] == parent
    modifies parent`children
    ensures Linked(now) && Extends(now, at)
    ensures forall q | q in now && q !in at :: fresh(now[q])
    ensures parent.squashed ==> now == at && p + [WILD] in at && child == at[p + [WILD]]
    ensures !parent.squashed ==> p + [segment] in now && child == now[p + [segment]]
    ensures !parent.squashed ==> TrieOf(now) == AddChild(old(TrieOf(at)), p, segment)
  {
    now := at;
    assert LinkOk(at, p);
    if parent.squashed {
      HeldChild(at, p, WILD);
      child := parent.squashedChild;
    } else if segment in parent.children {
      HeldChild(at, p, segment);
      child := parent.children[segment];
      assert AddChild(TrieOf(at), p, segment) == TrieOf(at);
    } else {
      child, now := PutChild(parent, segment, at, p);
      assert TrieOf(now).squashed == old(TrieOf(at)).squashed;
    }
  }

  lemma NotYetThere(at: NodeMap, p: Path, segment: string)
    requires Linked(at) && p in at && !at[p].squashed && segment !in at[p].children
    ensures p + [segment] !in at
  {
    if p + [segment] in at {
      HeldChild(at, p, segment);
    }
  }

  lemma HeldChild(at: NodeMap, p: Path, s: string)
    requires Linked(at) && p in at && p + [s] in at
    ensures HoldsChild(at[p], s, at[p + [s]])
  {
    assert LinkOk(at, p + [s]);
    assert Parent(p + [s]) == p;
  }

  /** Below `p`, `at` leads on through a child that the node at `p` holds. */
  lemma LinkedOnPath(at: NodeMap, p: Path, x: Path)
    requires Linked(at) && p in at && x in at && p < x
    ensures p + [x[|p|]] in at && p + [x[|p|]] <= x && HoldsChild(at[p], x[|p|], at[p + [x[|p|]]])
    decreases |x|
  {
    assert LinkOk(at, x);
    if Parent(x) == p {
      assert x == p + [Last(x)];
    } else {
      LinkedOnPath(at, p, Parent(x));
    }
    HeldChild(at, p, x[|p|]);
  }

  // ----- Merging -----

  /** The paths strictly below `p`, re-rooted at `q`; `GraftExcept` leaves out the children in `todo`. */
  ghost function Graft(src: set<Path>, p: Path, q: Path): set<Path> {
    set x | x in src && p < x :: q + x[|p|..]
  }

  ghost function GraftExcept(src: set<Path>, p: Path, q: Path, todo: set<string>): set<Path> {
    set x | x in src && p < x && x[|p|] !in todo :: q + x[|p|..]
  }

  /** The paths at and below `p`, re-rooted so that the node at `p` becomes a child of `q`. */
  ghost function GraftWhole(src: set<Path>, p: Path, q: Path): set<Path>
    requires p != []
  {
    set x | x in src && p <= x :: q + x[|p| - 1..]
  }

  lemma GraftWholeIsChildAndBelow(src: set<Path>, p: Path, q: Path)
    requires p != [] && p in src
    ensures GraftWhole(src, p, q) == {q + [Last(p)]} + Graft(src, p, q + [Last(p)])
  {
    assert p[|p| - 1..] == [Last(p)];
    forall x | x in src && p <= x
      ensures q + x[|p| - 1..] == q + [Last(p)] + x[|p|..]
    {
      assert x[|p| - 1..] == [Last(p)] + x[|p|..];
    }
    assert forall y | y in GraftWhole(src, p, q) :: y == q + [Last(p)] || y in Graft(src, p, q + [Last(p)]);
    assert forall y | y in Graft(src, p, q + [Last(p)]) :: y in GraftWhole(src, p, q);
  }

  lemma GraftOneMore(src: set<Path>, p: Path, q: Path, todo: set<string>, name: string)
    requires name in todo
    ensures GraftExcept(src, p, q, todo - {name}) == GraftExcept(src, p, q, todo) + GraftWhole(src, p + [name], q)
  {
    assert forall x: Path | p < x && x[|p|] == name :: p + [name] <= x;
    assert forall x: Path | p + [name] <= x :: p < x && x[|p|] == name && |p + [name]| - 1 == |p|;
  }

  /** The tree `src`, whose nodes are only read, and the tree `dst` it is merged into. */
  ghost predicate Mergeable(dst: NodeMap, src: NodeMap)
    reads dst.Values, src.Values
  {
    && Linked(dst) && TrieOf(dst).squashed == {}
    && Linked(src) && (forall x | x in src :: |x| <= MAX_DEPTH)
    && dst.Values !! src.Values
  }

  lemma ChildrenAreNextOnPaths(at: NodeMap, p: Path)
    requires Linked(at) && p in at
    ensures forall x | x in at && p < x :: p + [x[|p|]] in at && HoldsChild(at[p], x[|p|], at[p + [x[|p|]]])
    ensures at[p].squashed ==> p + [WILD] in at && at[p].squashedChild == at[p + [WILD]]
    ensures at[p].squashed ==> forall q :: Graft(at.Keys, p, q) == GraftWhole(at.Keys, p + [WILD], q)
    ensures !at[p].squashed ==> forall s | s in at[p].children :: p + [s] in at && at[p].children[s] == at[p + [s]]
    ensures !at[p].squashed ==> forall q :: GraftExcept(at.Keys, p, q, at[p].children.Keys) == {}
    ensures forall q :: GraftExcept(at.Keys, p, q, {}) == Graft(at.Keys, p, q)
  {
    assert LinkOk(at, p);
    forall x | x in at && p < x
      ensures p + [x[|p|]] in at && HoldsChild(at[p], x[|p|], at[p + [x[|p|]]])
    {
      LinkedOnPath(at, p, x);
    }
    if at[p].squashed {
      HeldChild(at, p, WILD);
      forall q
        ensures Graft(at.Keys, p, q) == GraftWhole(at.Keys, p + [WILD], q)
      {
        GraftOneMore(at.Keys, p, q, {WILD}, WILD);
        assert GraftExcept(at.Keys, p, q, {WILD}) == {};
        assert GraftExcept(at.Keys, p, q, {WILD} - {WILD}) == Graft(at.Keys, p, q);
      }
    } else {
      forall s | s in at[p].children
        ensures p + [s] in at && at[p].children[s] == at[p + [s]]
      {
        HeldChild(at, p, s);
      }
    }
  }

  /** Merge the subtrees of all children of `from`, in any order, into those of `parent`. */
  method AddChildrenOf(parent: Node, from: Node, ghost dst: NodeMap, ghost q: Path, ghost src: NodeMap, ghost p: Path)
    returns (ghost now: NodeMap)
    requires Mergeable(dst, src) && q in dst && dst[q] == parent && p in src && src[p] == from
    modifies dst.Values
    ensures Mergeable(now, src) && Extends(now, dst)
    ensures forall x | x in now && x !in dst :: fresh(now[x])
    ensures now.Keys == dst.Keys + Graft(src.Keys, p, q)
    decreases MAX_DEPTH - |p|, 0
  {
    hide Linked, Graft, GraftExcept, GraftWhole;
    ChildrenAreNextOnPaths(src, p);
    if from.squashed {
      now := RecurseAddChildren(parent, from.squashedChild, dst, q, src, p + [WILD]);
    } else {
      now := dst;
      var todo := from.children.Keys;
      while todo != {}
        invariant todo <= from.children.Keys
        invariant Mergeable(now, src) && Extends(now, dst)
        invariant forall x | x in now && x !in dst :: fresh(now[x])
        invariant now.Keys == dst.Keys + GraftExcept(src.Keys, p, q, todo)
        decreases todo
      {
        var name :| name in todo;
        now := RecurseAddChildren(parent, from.children[name], now, q, src, p + [name]);
        GraftOneMore(src.Keys, p, q, todo, name);
        todo := todo - {name};
      }
    }
  }

  /** Merge `child` and everything below it into the children of `parent`. */
  method RecurseAddChildren(parent: Node, child: Node, ghost dst: NodeMap, ghost q: Path, ghost src: NodeMap, ghost p: Path)
    returns (ghost now: NodeMap)
    requires Mergeable(dst, src) && q in dst && dst[q] == parent && p in src && src[p] == child && p != []
    modifies dst.Values
    ensures Mergeable(now, src) && Extends(now, dst)
    ensures forall x | x in now && x !in dst :: fresh(now[x])
    ensures now.Keys == dst.Keys + GraftWhole(src.Keys, p, q)
    decreases MAX_DEPTH - |p|, 1
  {
    assert LinkOk(src, p);
    assert q !in TrieOf(dst).squashed;
    var foo;
    foo, now := MaybeAddChild(parent, child.name, dst, q);
    now := AddChildrenOf(foo, child, now, q + [child.name], src, p);
    GraftWholeIsChildAndBelow(src.Keys, p, q);
  }

  // ----- Squashing -----

  /** What has been merged under the new child once only the old children in `todo` are left. */
  ghost function MergedExcept(src: set<Path>, p: Path, todo: set<string>): set<Path> {
    {[]} + set x | x in src && p < x && x[|p|] !in todo :: x[|p| + 1..]
  }

  lemma MergedOneMore(src: set<Path>, p: Path, todo: set<string>, name: string)
    requires name in todo
    ensures MergedExcept(src, p, todo - {name}) == MergedExcept(src, p, todo) + Graft(src, p + [name], [])
  {
    assert forall x: Path | p < x && x[|p|] == name :: p + [name] <= x && |p + [name]| == |p| + 1;
    assert forall x: Path | p + [name] < x :: p < x && x[|p|] == name && [] + x[|p + [name]|..] == x[|p| + 1..];
    assert forall x: Path | p < x && x[|p|] == name :: p + [name] < x || x[|p| + 1..] == [];
  }

  lemma NothingMergedYet(at: NodeMap, p: Path)
    requires Linked(at) && p in at && !at[p].squashed
    ensures MergedExcept(at.Keys, p, at[p].children.Keys) == {[]}
    ensures forall s | s in at[p].children :: p + [s] in at && at[p].children[s] == at[p + [s]]
  {
    ChildrenAreNextOnPaths(at, p);
  }

  ghost function RegrownPaths(at: set<Path>, p: Path, dst: set<Path>): set<Path> {
    (set x | x in at && !(p < x)) + (set y | y in dst :: p + [WILD] + y)
  }

  /** `at` with everything below `p` replaced by the tree `dst`, hung below `p` as the child `{...}`. */
  ghost function Regrown(at: NodeMap, p: Path, dst: NodeMap): NodeMap {
    map x | x in RegrownPaths(at.Keys, p, dst.Keys) :: if p < x then dst[x[|p| + 1..]] else at[x]
  }

  lemma RegrownPathsAreSquashed(t: Trie, p: Path, kid: string)
    requires p + [kid] in t.paths
    ensures RegrownPaths(t.paths, p, MergedExcept(t.paths, p, {})) == Squash(t, p).paths
  {
    var dst := MergedExcept(t.paths, p, {});
    assert (p + [kid])[|p| + 1..] == [];
    forall x
      ensures x in RegrownPaths(t.paths, p, dst) <==> x in Squash(t, p).paths
    {
      if x in RegrownPaths(t.paths, p, dst) && !(x in t.paths && !(p < x)) {
        var y :| y in dst && x == p + [WILD] + y;
        if y == [] {
          SquashMoves(t, p, p + [kid]);
        } else {
          var z :| z in t.paths && p < z && y == z[|p| + 1..];
          SquashMoves(t, p, z);
        }
      }
    }
  }

  /** Where a node of the regrown tree comes from. */
  lemma RegrownOrigin(at: NodeMap, p: Path, dst: NodeMap, x: Path) returns (y: Path)
    requires x in Regrown(at, p, dst)
    ensures if p < x then y in dst && x == p + [WILD] + y && Regrown(at, p, dst)[x] == dst[y]
            else x in at && Regrown(at, p, dst)[x] == at[x]
  {
    y := [];
    if p < x {
      y :| y in dst && x == p + [WILD] + y;
    }
  }

  lemma RegrownHas(at: NodeMap, p: Path, dst: NodeMap)
    ensures forall y {:trigger y in dst} | y in dst ::
              p + [WILD] + y in Regrown(at, p, dst) && Regrown(at, p, dst)[p + [WILD] + y] == dst[y]
    ensures forall x {:trigger x in at} | x in at && !(p < x) :: x in Regrown(at, p, dst) && Regrown(at, p, dst)[x] == at[x]
  {
    forall y | y in dst
      ensures p + [WILD] + y in Regrown(at, p, dst) && Regrown(at, p, dst)[p + [WILD] + y] == dst[y]
    {
      var x := p + [WILD] + y;
      assert x in RegrownPaths(at.Keys, p, dst.Keys);
      assert p < x && x[|p| + 1..] == y;
    }
  }

  lemma RegrownNewLink(at: NodeMap, p: Path, dst: NodeMap, y: Path)
    requires p in at && Linked(dst) && [] in dst && y in dst
    requires at[p].squashed && at[p].squashedChild == dst[[]] && dst[[]].name == WILD && dst[[]].parent == at[p]
    ensures p + [WILD] + y in Regrown(at, p, dst) && LinkOk(Regrown(at, p, dst), p + [WILD] + y)
  {
    hide Regrown;
    RegrownHas(at, p, dst);
    var x := p + [WILD] + y;
    assert LinkOk(dst, y);
    if y == [] {
      assert Parent(x) == p && Last(x) == WILD;
    } else {
      assert Parent(y) in dst;
      assert Parent(x) == p + [WILD] + Parent(y) && Last(x) == Last(y);
    }
    forall s | y + [s] in dst
      ensures x + [s] in Regrown(at, p, dst)
    {
      assert x + [s] == p + [WILD] + (y + [s]);
    }
  }

  lemma RegrownKeptLink(at: NodeMap, p: Path, dst: NodeMap, x: Path)
    requires p in at && x in at && !(p <= x) && LinkOk(at, x)
    ensures x in Regrown(at, p, dst) && LinkOk(Regrown(at, p, dst), x)
  {
    hide Regrown;
    RegrownHas(at, p, dst);
    assert x != [] ==> !(p < Parent(x));
    forall s | x + [s] in at
      ensures x + [s] in Regrown(at, p, dst)
    {
      assert !(p < x + [s]);
    }
  }

  lemma RegrownIsLinked(at: NodeMap, p: Path, dst: NodeMap)
    requires p in at && Linked(dst) && [] in dst && dst.Values !! at.Values
    requires forall x, y | x in at && y in at && at[x] == at[y] :: x == y
    requires forall x {:trigger LinkOk(at, x)} | x in at && !(p <= x) :: LinkOk(at, x)
    requires UpOk(at, p) && at[p].squashed && at[p].squashedChild == dst[[]]
    requires dst[[]].name == WILD && dst[[]].parent == at[p]
    ensures Linked(Regrown(at, p, dst))
  {
    hide Regrown, LinkOk;
    var now := Regrown(at, p, dst);
    forall x | x in now
      ensures LinkOk(now, x)
    {
      var y := RegrownOrigin(at, p, dst, x);
      if p < x {
        RegrownNewLink(at, p, dst, y);
      } else if x == p {
        RegrownTopLink(at, p, dst);
      } else {
        assert LinkOk(at, x);
        RegrownKeptLink(at, p, dst, x);
      }
    }
    forall x, z | x in now && z in now && now[x] == now[z]
      ensures x == z
    {
      var xFrom := RegrownOrigin(at, p, dst, x);
      var zFrom := RegrownOrigin(at, p, dst, z);
      assert forall y | y in dst :: dst[y] in dst.Values;
      assert forall y | y in at :: at[y] in at.Values;
    }
  }

  lemma RegrownTopLink(at: NodeMap, p: Path, dst: NodeMap)
    requires p in at && [] in dst && UpOk(at, p) && at[p].squashed
    ensures p in Regrown(at, p, dst) && LinkOk(Regrown(at, p, dst), p)
  {
    hide Regrown;
    RegrownHas(at, p, dst);
    assert p + [WILD] + [] == p + [WILD];
    assert p != [] ==> !(p < Parent(p));
  }

  lemma RegrownTrie(at: NodeMap, p: Path, dst: NodeMap)
    requires p in at && at[p].squashed && TrieOf(dst).squashed == {}
    ensures TrieOf(Regrown(at, p, dst)) ==
              Trie(RegrownPaths(at.Keys, p, dst.Keys), (set x | x in TrieOf(at).squashed && !(p <= x)) + {p})
  {
    RegrownHas(at, p, dst);
    var now := Regrown(at, p, dst);
    forall x | x in now && now[x].squashed
      ensures x == p || (x in at && !(p <= x) && at[x].squashed)
    {
      var y := RegrownOrigin(at, p, dst, x);
      assert p < x ==> y in TrieOf(dst).squashed;
    }
  }

  /** Once the pointers are set, the regrown tree stands for the squashed trie. */
  lemma RegrownIsSquashed(at: NodeMap, p: Path, dst: NodeMap, t: Trie)
    requires p in at && Linked(dst) && [] in dst && dst.Values !! at.Values && TrieOf(dst).squashed == {}
    requires forall x, y | x in at && y in at && at[x] == at[y] :: x == y
    requires forall x {:trigger LinkOk(at, x)} | x in at && !(p <= x) :: LinkOk(at, x)
    requires UpOk(at, p) && at[p].squashed && at[p].squashedChild == dst[[]]
    requires dst[[]].name == WILD && dst[[]].parent == at[p]
    requires t.paths == at.Keys && TrieOf(at).squashed == t.squashed + {p}
    requires dst.Keys == MergedExcept(at.Keys, p, {}) && Kids(t, p) != {}
    ensures var now := Regrown(at, p, dst);
            && Linked(now) && TrieOf(now) == Squash(t, p)
            && p + [WILD] in now && now[p + [WILD]] == dst[[]]
    ensures forall x | x in Regrown(at, p, dst) ::
              (x in at && Regrown(at, p, dst)[x] == at[x]) || Regrown(at, p, dst)[x] in dst.Values
    ensures forall x {:trigger x in at} | x in at && !(p < x) :: x in Regrown(at, p, dst) && Regrown(at, p, dst)[x] == at[x]
  {
    hide Regrown, RegrownPaths, MergedExcept, LinkOk, UpOk;
    RegrownIsLinked(at, p, dst);
    RegrownTrie(at, p, dst);
    StillSquashedOutside(t.squashed, p);
    var kid :| kid in Kids(t, p);
    KidIff(t, p, kid);
    RegrownPathsAreSquashed(t, p, kid);
    assert p + [WILD] + [] == p + [WILD];
    RegrownHas(at, p, dst);
    forall x | x in Regrown(at, p, dst)
      ensures (x in at && Regrown(at, p, dst)[x] == at[x]) || Regrown(at, p, dst)[x] in dst.Values
    {
      var y := RegrownOrigin(at, p, dst, x);
    }
  }

  /** Build the merged child of `parent`; nothing that exists already is changed. */
  method MergeChildren(parent: Node, ghost at: NodeMap, ghost p: Path)
    returns (newChild: Node, ghost dst: NodeMap)
    requires Linked(at) && (forall x | x in at :: |x| <= MAX_DEPTH)
    requires p in at && at[p] == parent && !parent.squashed
    ensures Mergeable(dst, at) && [] in dst && dst[[]] == newChild
    ensures newChild.name == WILD
    ensures forall x | x in dst :: fresh(dst[x])
    ensures dst.Keys == MergedExcept(at.Keys, p, {})
  {
    hide MergedExcept, Graft;
    newChild := new Node(WILD);
    dst := map[[] := newChild];
    NothingMergedYet(at, p);
    var todo := parent.children.Keys;
    while todo != {}
      invariant todo <= parent.children.Keys
      invariant Mergeable(dst, at) && [] in dst && dst[[]] == newChild
      invariant forall x | x in dst :: fresh(dst[x])
      invariant dst.Keys == MergedExcept(at.Keys, p, todo)
      decreases todo
    {
      var name :| name in todo;
      dst := AddChildrenOf(newChild, parent.children[name], dst, [], at, p + [name]);
      MergedOneMore(at.Keys, p, todo, name);
      todo := todo - {name};
    }
  }

  lemma StillSquashedOutside(squashed: set<Path>, p: Path)
    ensures (set x | x in squashed + {p} && !(p <= x)) == (set x | x in squashed && !(p <= x))
  {
  }

  method Adopt(parent: Node, child: Node, ghost dst: NodeMap)
    requires Linked(dst) && [] in dst && dst[[]] == child
    modifies child`parent
    ensures Linked(dst) && child.parent == parent && TrieOf(dst) == old(TrieOf(dst))
  {
    child.parent := parent;
    forall y | y in dst
      ensures LinkOk(dst, y)
    {
      assert old(LinkOk(dst, y));
    }
  }

  /** Everything but the links below `p` survives. */
  method SetSquashedChild(parent: Node, child: Node, ghost at: NodeMap, ghost p: Path)
    requires Linked(at) && p in at && at[p] == parent && !parent.squashed
    modifies parent`squashed, parent`squashedChild, parent`children
    ensures parent.squashed && parent.squashedChild == child
    ensures UpOk(at, p) && forall x {:trigger LinkOk(at, x)} | x in at && !(p <= x) :: LinkOk(at, x)
    ensures TrieOf(at).squashed == old(TrieOf(at)).squashed + {p}
  {
    assert LinkOk(at, p);
    assert forall x | x in at && x != p :: at[x] != parent;
    parent.squashed, parent.squashedChild, parent.children := true, child, map[];
    assert TrieOf(at).squashed == old(TrieOf(at)).squashed + {p};
    assert UpOk(at, p);
    forall x | x in at && !(p <= x)
      ensures LinkOk(at, x)
    {
      assert old(LinkOk(at, x));
      if x != [] {
        assert Parent(x) != p;
      }
    }
  }

  lemma ChildrenAreKids(at: NodeMap, p: Path)
    requires Linked(at) && p in at && !at[p].squashed
    ensures at[p].children.Keys == Kids(TrieOf(at), p)
    ensures |at[p].children| == |Kids(TrieOf(at), p)|
  {
    ChildrenAreNextOnPaths(at, p);
    forall s
      ensures s in at[p].children <==> s in Kids(TrieOf(at), p)
    {
      KidIff(TrieOf(at), p, s);
      if p + [s] in at {
        HeldChild(at, p, s);
      }
    }
    assert |at[p].children| == |at[p].children.Keys|;
  }

  /** Replace all children of `parent` by one `{...}` that has all their children merged below it. */
  method SquashChildren(parent: Node, ghost at: NodeMap, ghost p: Path)
    returns (newChild: Node, ghost now: NodeMap)
    requires Linked(at) && (forall x | x in at :: |x| <= MAX_DEPTH)
    requires p in at && at[p] == parent && !parent.squashed && parent.children != map[]
    modifies parent
    ensures Linked(now)
    ensures TrieOf(now) == Squash(old(TrieOf(at)), p)
    ensures p + [WILD] in now && now[p + [WILD]] == newChild
    ensures forall x | x in now :: (x in at && now[x] == at[x]) || fresh(now[x])
    ensures forall x {:trigger x in at} | x in at && !(p < x) :: x in now && now[x] == at[x]
  {
    hide Regrown, MergedExcept, LinkOk, UpOk, Squash, Kids;
    ghost var t := TrieOf(at);
    ChildrenAreKids(at, p);
    ghost var dst;
    newChild, dst := MergeChildren(parent, at, p);
    Adopt(parent, newChild, dst);
    SetSquashedChild(parent, newChild, at, p);
    now := Regrown(at, p, dst);
    RegrownIsSquashed(at, p, dst, t);
  }

  // ----- The squasher -----

  class PathSquasher {
    const root: Node
    const cardinalityFactor: int
    var addedPathCount: nat
    // which node each name path leads to, and the segments of every URL added so far
    ghost var at: NodeMap
    ghost var added: seq<seq<string>>

    ghost predicate Rooted(at: NodeMap)
      reads at.Values, root
    {
      Linked(at) && [] in at && at[[]] == root && root.parent == null
    }

    /** The tree is the one that `PathTrie.Run` builds from everything added so far. */
    ghost predicate Valid()
      reads this, at.Values, root
    {
      && Rooted(at)
      && TrieOf(at) == Run(added, cardinalityFactor)
      && addedPathCount == |added|
    }

    constructor (cardinalityFactor: int)
      ensures Valid() && added == [] && this.cardinalityFactor == cardinalityFactor
      ensures forall x | x in at :: fresh(at[x])
    {
      var node := new Node("<ROOT>");
      root, this.cardinalityFactor, addedPathCount := node, cardinalityFactor, 0;
      at, added := map[[] := node], [];
      new;
      assert LinkOk(at, []);
    }

    method AddPath(url: string)
      requires Valid()
      modifies this, at.Values
      ensures Valid() && added == old(added) + [UrlTokens.Tokens(UrlTokens.StripNewline(url))]
      ensures forall segments | UrlTokens.IsUrlOf(url, segments) ::
                added == old(added) + [segments] && Covers(TrieOf(at), FirstSegments(segments))
      ensures forall x | x in at :: at[x] in old(at.Values) || fresh(at[x])
    {
      hide Rooted, Run, Insert, Covers, FirstSegments;
      addedPathCount := addedPathCount + 1;
      var segments := UrlTokens.Tokens(UrlTokens.StripNewline(url));
      RunIsWellFormed(added, cardinalityFactor);
      RunOneMore(added, segments, cardinalityFactor);
      at := AddSegments(segments);
      added := added + [segments];
      RunCoversEveryUrl(added, cardinalityFactor, |added| - 1);
      forall other | UrlTokens.IsUrlOf(url, other)
        ensures other == segments
      {
        UrlTokens.SegmentsOfUrl(url, other);
      }
    }

    method AddSegments(segments: seq<string>) returns (ghost now: NodeMap)
      requires Rooted(at) && WellFormed(TrieOf(at))
      modifies at.Values
      ensures Rooted(now) && TrieOf(now) == Insert(old(TrieOf(at)), segments, cardinalityFactor)
      ensures forall x | x in now :: now[x] in at.Values || fresh(now[x])
    {
      hide Linked, WellFormed, Step;
      ghost var before := TrieOf(at);
      var parent, depth := root, 0;
      ghost var p: Path := [];
      now := at;
      assert segments[0..] == segments;
      assert WellFormed(before);
      while depth < |segments|
        invariant depth <= |segments| && depth == |p| < MAX_DEPTH
        invariant Rooted(now) && p in now && now[p] == parent && WellFormed(TrieOf(now))
        invariant forall x | x in now :: now[x] in at.Values || fresh(now[x])
        invariant Walk(TrieOf(now), p, segments[depth..], cardinalityFactor).0 == Insert(before, segments, cardinalityFactor)
      {
        StepKeepsStructure(TrieOf(now), p, segments[depth], cardinalityFactor);
        var child;
        child, now, p := Descend(parent, segments[depth], depth, now, p);
        assert segments[depth..][1..] == segments[depth + 1..];
        depth := depth + 1;
        if depth == MAX_DEPTH {
          break;
        }
        parent := child;
      }
    }

    /** One turn of the insertion loop. */
    method Descend(parent: Node, segment: string, depth: nat, ghost at: NodeMap, ghost p: Path)
      returns (child: Node, ghost now: NodeMap, ghost end: Path)
      requires Rooted(at) && WellFormed(TrieOf(at))
      requires p in at && at[p] == parent && depth == |p| < MAX_DEPTH
      modifies parent
      ensures Rooted(now)
      ensures forall x | x in now :: (x in at && now[x] == at[x]) || fresh(now[x])
      ensures var step := Step(old(TrieOf(at)), p, segment, cardinalityFactor); TrieOf(now) == step.0 && end == step.1
      ensures end in now && now[end] == child
    {
      ghost var t := TrieOf(at);
      child, now := MaybeAddChild(parent, segment, at, p);
      end := if parent.squashed then p + [WILD] else p + [segment];
      assert parent == root <==> p == [];
      if !parent.squashed {
        ChildrenAreKids(now, p);
        if Exceeds(|parent.children|, cardinalityFactor, depth) && parent != root {
          AddChildKeepsStructure(t, p, segment);
          DepthBound(TrieOf(now));
          child, now := SquashChildren(parent, now, p);
          end := p + [WILD];
        }
      }
    }

    // ----- Extraction -----

    /** The nodes on the stack, none of which lies below another. */
    ghost predicate OnStack(stack: seq<Node>, paths: seq<Path>)
      reads this
    {
      && |stack| == |paths|
      && (forall i | 0 <= i < |paths| :: paths[i] != [] && paths[i] in at && stack[i] == at[paths[i]])
      && forall i, j | 0 <= i < |paths| && 0 <= j < |paths| && i != j :: !(paths[i] <= paths[j])
    }

    /** Still to be reached from the stack. */
    ghost predicate Pending(paths: seq<Path>, x: Path) {
      exists i :: 0 <= i < |paths| && paths[i] <= x
    }

    lemma PendingPush(paths: seq<Path>, p: Path, s: string)
      ensures forall x: Path :: Pending(paths + [p + [s]], x) <==> Pending(paths, x) || (p < x && x[|p|] == s)
    {
      var more := paths + [p + [s]];
      forall x: Path
        ensures Pending(more, x) <==> Pending(paths, x) || (p < x && x[|p|] == s)
      {
        assert p + [s] <= x <==> p < x && x[|p|] == s;
        assert more[|paths|] == p + [s];
        assert forall i | 0 <= i < |paths| :: more[i] == paths[i];
      }
    }

    /**
     Push the children of a node on the stack, in the order the hash set yields them. A node
     without children pushes nothing and is the end of the line; a squashed node has a child.
     */
    method PushChildren(node: Node, stack: seq<Node>, ghost paths: seq<Path>, ghost p: Path)
      returns (pushed: seq<Node>, ghost pushedPaths: seq<Path>, endOfLine: bool)
      requires Linked(at) && OnStack(stack, paths) && p in at && at[p] == node
      requires forall i | 0 <= i < |paths| :: !(paths[i] <= p) && !(p <= paths[i])
      ensures OnStack(pushed, pushedPaths) && |pushed| == |pushedPaths|
      ensures endOfLine <==> IsLeaf(TrieOf(at), p)
      ensures node.squashed ==> node.squashedChild != null
      ensures forall x | x in at :: Pending(pushedPaths, x) <==> Pending(paths, x) || p < x
    {
      hide Linked, Pending;
      ChildrenAreNextOnPaths(at, p);
      pushed, pushedPaths, endOfLine := stack, paths, false;
      if node.squashed {
        if node.squashedChild == null {
          endOfLine := true;
        } else {
          PendingPush(pushedPaths, p, WILD);
          pushed, pushedPaths := pushed + [node.squashedChild], pushedPaths + [p + [WILD]];
        }
      } else if |node.children| == 0 {
        endOfLine := true;
      } else {
        pushed, pushedPaths := PushEach(node, stack, paths, p);
      }
    }

    method PushEach(node: Node, stack: seq<Node>, ghost paths: seq<Path>, ghost p: Path)
      returns (pushed: seq<Node>, ghost pushedPaths: seq<Path>)
      requires Linked(at) && OnStack(stack, paths) && p in at && at[p] == node && !node.squashed
      requires forall i | 0 <= i < |paths| :: !(paths[i] <= p) && !(p <= paths[i])
      ensures OnStack(pushed, pushedPaths) && |pushed| == |pushedPaths|
      ensures forall x | x in at :: Pending(pushedPaths, x) <==> Pending(paths, x) || p < x
    {
      hide Linked, Pending;
      ChildrenAreNextOnPaths(at, p);
      pushed, pushedPaths := stack, paths;
      var todo := node.children.Keys;
      while todo != {}
        invariant todo <= node.children.Keys
        invariant OnStack(pushed, pushedPaths)
        invariant forall s | s in todo, i | 0 <= i < |pushedPaths| :: !(pushedPaths[i] <= p + [s]) && !(p + [s] <= pushedPaths[i])
        invariant forall x | x in at :: Pending(pushedPaths, x) <==> Pending(paths, x) || (p < x && x[|p|] !in todo)
        decreases todo
      {
        var name :| name in todo;
        PendingPush(pushedPaths, p, name);
        pushed, pushedPaths := pushed + [node.children[name]], pushedPaths + [p + [name]];
        todo := todo - {name};
      }
    }

    lemma PrefixIsThere(p: Path, k: nat)
      requires Linked(at) && p in at && k <= |p|
      ensures p[..k] in at && LinkOk(at, p[..k])
      decreases |p| - k
    {
      if k == |p| {
        assert p[..k] == p;
      } else {
        PrefixIsThere(p, k + 1);
        assert Parent(p[..k + 1]) == p[..k];
      }
    }

    /** Climb from a leaf to the root, then read the names back on the way down. */
    method PatternOf(node: Node, ghost p: Path) returns (produce: bool, pattern: Path)
      requires Rooted(at) && p in at && at[p] == node
      ensures pattern == p
      ensures produce <==> HasSquashedPrefix(TrieOf(at), p, |p|)
    {
      var n: Node?, chain: seq<Node> := node, [];
      produce := false;
      ghost var k := |p| + 1;
      assert p[..|p|] == p;
      while n != null
        invariant 0 <= k <= |p| + 1 && |chain| == |p| + 1 - k
        invariant if k == 0 then n == null else p[..k - 1] in at && n == at[p[..k - 1]]
        invariant forall m | k <= m <= |p| :: p[..m] in at && chain[m - k] == at[p[..m]]
        invariant produce <==> exists j :: k <= j <= |p| && p[..j] in TrieOf(at).squashed
        decreases k
      {
        PrefixIsThere(p, k - 1);
        if n.squashed {
          produce := true;
        }
        chain := [n] + chain;
        n := n.parent;
        k := k - 1;
        if k > 0 {
          assert Parent(p[..k]) == p[..k - 1];
        }
      }
      pattern := NamesOf(chain, p);
    }

    method NamesOf(chain: seq<Node>, ghost p: Path) returns (names: Path)
      requires Rooted(at) && p in at && |chain| == |p| + 1
      requires forall m | 0 <= m <= |p| :: p[..m] in at && chain[m] == at[p[..m]]
      ensures names == p
    {
      names := [];
      var i := 0;
      while i < |chain|
        invariant 0 <= i <= |chain|
        invariant names == if i == 0 then [] else p[..i - 1]
      {
        PrefixIsThere(p, i);
        assert chain[i] == root <==> p[..i] == [];
        if chain[i] != root {
          names := names + [chain[i].name];
        }
        i := i + 1;
      }
    }

    lemma EmptyStack()
      ensures OnStack([], []) && forall x :: !Pending([], x)
    {
    }

    lemma PendingPop(stack: seq<Node>, paths: seq<Path>)
      requires OnStack(stack, paths) && paths != []
      ensures var rest, p := paths[..|paths| - 1], paths[|paths| - 1];
              && |stack| == |paths| && OnStack(stack[..|paths| - 1], rest)
              && (forall i | 0 <= i < |rest| :: !(rest[i] <= p) && !(p <= rest[i]))
              && p in at && at[p] == stack[|paths| - 1] && p != []
              && (forall x: Path :: Pending(paths, x) && x != p <==> Pending(rest, x) || p < x)
              && Pending(paths, p)
    {
      var rest, p := paths[..|paths| - 1], paths[|paths| - 1];
      forall x: Path
        ensures Pending(paths, x) && x != p <==> Pending(rest, x) || p < x
      {
        if Pending(rest, x) {
          var i :| 0 <= i < |rest| && rest[i] <= x;
          assert paths[i] <= x;
        }
        if Pending(paths, x) && !(p <= x) {
          var i :| 0 <= i < |paths| && paths[i] <= x;
          assert rest[i] <= x;
        }
        if p < x {
          assert paths[|paths| - 1] <= x;
        }
      }
      assert paths[|paths| - 1] <= p;
    }

    /** One pattern for each leaf below a squashed node that is not still pending. */
    ghost predicate Collected(t: Trie, patterns: seq<Path>, pending: set<Path>) {
      && (forall x :: x in patterns <==> HasPattern(t, x) && x !in pending)
      && (forall i, j | 0 <= i < j < |patterns| :: patterns[i] != patterns[j])
    }

    lemma NothingCollected()
      requires Valid()
      ensures Collected(TrieOf(at), [], at.Keys - {[]})
    {
      hide Run;
      assert [] !in TrieOf(at).squashed by {
        RunIsWellFormed(added, cardinalityFactor);
      }
    }

    /** Take the pattern of a node at the end of its line. */
    method Collect(node: Node, endOfLine: bool, patterns: seq<Path>, ghost p: Path, ghost pending: set<Path>)
      returns (more: seq<Path>)
      requires Rooted(at) && p != [] && p in at && at[p] == node && p in pending
      requires endOfLine <==> IsLeaf(TrieOf(at), p)
      requires Collected(TrieOf(at), patterns, pending)
      ensures Collected(TrieOf(at), more, pending - {p})
    {
      hide Rooted, HasSquashedPrefix;
      more := patterns;
      if endOfLine {
        var produce, pattern := PatternOf(node, p);
        if produce {
          more := more + [pattern];
        }
      }
    }

    /** Take a node off the stack and push its children. */
    method PopAndPush(stack: seq<Node>, ghost paths: seq<Path>)
      returns (node: Node, rest: seq<Node>, endOfLine: bool, ghost p: Path, ghost restPaths: seq<Path>)
      requires Linked(at) && OnStack(stack, paths) && stack != []
      ensures OnStack(rest, restPaths)
      ensures p != [] && p in at && at[p] == node && Pending(paths, p)
      ensures endOfLine <==> IsLeaf(TrieOf(at), p)
      ensures forall x | x in at :: Pending(restPaths, x) <==> Pending(paths, x) && x != p
    {
      hide Linked, Pending;
      p := paths[|paths| - 1];
      node := stack[|stack| - 1];
      PendingPop(stack, paths);
      rest, restPaths, endOfLine := PushChildren(node, stack[..|stack| - 1], paths[..|paths| - 1], p);
    }

    /** One pattern for each leaf below a squashed node, and no others. */
    method GetRegexes() returns (patterns: seq<Path>)
      requires Valid()
      ensures forall x :: x in patterns <==> HasPattern(Run(added, cardinalityFactor), x)
      ensures forall i, j | 0 <= i < j < |patterns| :: patterns[i] != patterns[j]
    {
      hide Linked, Pending, Run, HasPattern, IsLeaf;
      NothingCollected();
      patterns := [];
      var stack, endOfLine, node;
      ghost var p, paths, pending := [], [], at.Keys - {[]};
      EmptyStack();
      stack, paths, endOfLine := PushChildren(root, [], [], []);
      while stack != []
        invariant OnStack(stack, paths) && pending <= at.Keys
        invariant forall x | x in at :: Pending(paths, x) <==> x in pending
        invariant Collected(TrieOf(at), patterns, pending)
        decreases pending
      {
        node, stack, endOfLine, p, paths := PopAndPush(stack, paths);
        patterns := Collect(node, endOfLine, patterns, p, pending);
        pending := pending - {p};
      }
      EmptyStack();
      assert paths == [];
      assert pending == {};
    }
  }

  lemma RunOneMore(urls: seq<seq<string>>, segments: seq<string>, factor: int)
    ensures Run(urls + [segments], factor) == Insert(Run(urls, factor), segments, factor)
  {
    assert (urls + [segments])[..|urls|] == urls;
  }
}
