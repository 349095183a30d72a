/**
 buildItemForest: one build when the forest is shallow, otherwise one build per
 window of 32 levels, each window's roots appended to their parents' children.
 Either way the graph is the one a single build of the whole input would give.
 */
module ForestWindows {
  import opened Wrappers
  import opened Forest

  function Window(depth: nat): nat
    requires depth >= 1
  {
    (depth - 1) / MAX_SDK_DEPTH
  }

  predicate InWindow(d: map<string, nat>, g: nat, x: string) {
    x in d && d[x] >= 1 && Window(d[x]) == g
  }

  /** The members of window g, in input order. */
  function Group(order: seq<string>, d: map<string, nat>, g: nat): seq<string> {
    Filtered(order, Inside(d, g))
  }

  function Inside(d: map<string, nat>, g: nat): string -> bool { x => InWindow(d, g, x) }

  function AtDepth(d: map<string, nat>, n: nat): string -> bool { x => x in d && d[x] == n }

  function NoId(): string -> bool { x => false }

  /** Parents inside window g; an id whose parent is in another window becomes a root. */
  function CutParents(parents: Parents, d: map<string, nat>, g: nat): Parents {
    map x | x in parents && InWindow(d, g, x) ::
      if parents[x].Some? && InWindow(d, g, parents[x].value) then parents[x] else None
  }

  function LinksOf(order: seq<string>, parents: Parents): (r: seq<Link>)
    requires forall x | x in order :: x in parents
    ensures |r| == |order| && forall i | 0 <= i < |order| :: r[i] == Link(order[i], parents[order[i]])
  {
    seq(|order|, i requires 0 <= i < |order| => Link(order[i], parents[order[i]]))
  }

  lemma LinksRoundTrip(order: seq<string>, parents: Parents)
    requires Covers(order, parents) && "" !in order
    ensures var links := LinksOf(order, parents);
            UniqueIds(links) && Ids(links) == order && ParentsOf(links) == parents
  {
    var links := LinksOf(order, parents);
    ParentsCovered(links);
    assert Ids(links) == order;
    forall x | x in ParentsOf(links)
      ensures x in parents && ParentsOf(links)[x] == parents[x]
    {
      var i :| 0 <= i < |links| && links[i].id == x;
    }
    forall x | x in parents
      ensures x in ParentsOf(links)
    {
      var i :| 0 <= i < |order| && order[i] == x;
      assert links[i].id == x;
    }
  }

  /** The level inside its window, from 1 to 32. */
  function Level(depth: nat): nat
    requires depth >= 1
  {
    (depth - 1) % MAX_SDK_DEPTH + 1
  }

  lemma CutLevel(parents: Parents, d: map<string, nat>, g: nat, x: string)
    requires IsDepthMap(parents, d) && x in CutParents(parents, d, g)
    ensures match CutParents(parents, d, g)[x]
            case None => Level(d[x]) == 1
            case Some(p) => p in CutParents(parents, d, g) && Level(d[x]) == Level(d[p]) + 1
  {
    DepthsAtLeastOne(parents, d);
    match parents[x] {
      case None =>
      case Some(p) =>
        assert p in d && d[x] == d[p] + 1;
        NextLevel(d[p]);
    }
  }

  lemma WindowCovers(order: seq<string>, parents: Parents, d: map<string, nat>, g: nat)
    requires Covers(order, parents)
    ensures Covers(Group(order, d, g), CutParents(parents, d, g))
  {
    FilteredDistinct(order, Inside(d, g));
    FilteredMembers(order, Inside(d, g));
    var group := Group(order, d, g);
    forall i | 0 <= i < |group|
      ensures group[i] in CutParents(parents, d, g)
    {
      assert group[i] in group;
      assert group[i] in order;
    }
  }

  /** A window on its own is a forest of at most 32 levels. */
  lemma WindowIsForest(parents: Parents, d: map<string, nat>, g: nat)
    requires IsDepthMap(parents, d)
    ensures IsForestWithin(CutParents(parents, d, g), MAX_SDK_DEPTH)
  {
    var cut := CutParents(parents, d, g);
    var e := map x | x in cut :: Level(d[x]);
    forall x | x in cut
      ensures match cut[x] case None => e[x] == 1 case Some(p) => p in e && e[x] == e[p] + 1
      ensures e[x] <= MAX_SDK_DEPTH
    {
      CutLevel(parents, d, g, x);
      LevelBound(d[x]);
    }
    assert IsDepthMap(cut, e);
  }

  lemma LevelBound(depth: nat)
    requires depth >= 1
    ensures Level(depth) <= MAX_SDK_DEPTH
  {}

  /** One level down is the same window, or the first level of the next. */
  lemma NextLevel(depth: nat)
    requires depth >= 1
    ensures if depth % MAX_SDK_DEPTH == 0 then
              Window(depth + 1) == Window(depth) + 1 && depth % MAX_SDK_DEPTH + 1 == 1
            else Window(depth + 1) == Window(depth) && depth % MAX_SDK_DEPTH == (depth - 1) % MAX_SDK_DEPTH + 1
  {}

  // ---- The graph after some windows -----------------------------------------

  /** Levels up to 32g are linked: every child list is complete above the last of them and empty on it. */
  function Upto(order: seq<string>, parents: Parents, d: map<string, nat>, g: nat): map<string, seq<string>>
    requires d.Keys == parents.Keys
  {
    map x | x in parents && d[x] <= MAX_SDK_DEPTH * g ::
      if d[x] < MAX_SDK_DEPTH * g then Kids(order, parents, Some(x)) else []
  }

  /** What one window's build yields, in terms of the whole input. */
  ghost predicate IsPartial(order: seq<string>, parents: Parents, d: map<string, nat>, g: nat, partial: Graph) {
    && partial.roots == TopOf(order, d, g)
    && (forall x :: x in partial.children <==> x in parents && InWindow(d, g, x))
    && forall x | x in partial.children ::
         partial.children[x] == if d[x] < MAX_SDK_DEPTH * (g + 1) then Kids(order, parents, Some(x)) else []
  }

  /** The first level of window g, in input order. */
  function TopOf(order: seq<string>, d: map<string, nat>, g: nat): seq<string> {
    Filtered(order, AtDepth(d, MAX_SDK_DEPTH * g + 1))
  }

  lemma RootInside(parents: Parents, d: map<string, nat>, g: nat, x: string)
    requires IsDepthMap(parents, d) && x in parents
    ensures Both(Inside(d, g), HasParent(CutParents(parents, d, g), None))(x) == AtDepth(d, MAX_SDK_DEPTH * g + 1)(x)
  {
    CutRootDepth(parents, d, g, x);
  }

  lemma PartialRoots(order: seq<string>, parents: Parents, d: map<string, nat>, g: nat)
    requires Covers(order, parents) && IsDepthMap(parents, d)
    ensures Kids(Group(order, d, g), CutParents(parents, d, g), None) == TopOf(order, d, g)
  {
    var cut := CutParents(parents, d, g);
    var inside, root := Inside(d, g), HasParent(cut, None);
    FilteredTwice(order, inside, root);
    forall x | x in order
      ensures Both(inside, root)(x) == AtDepth(d, MAX_SDK_DEPTH * g + 1)(x)
    {
      RootInside(parents, d, g, x);
    }
    FilteredSame(order, Both(inside, root), AtDepth(d, MAX_SDK_DEPTH * g + 1));
  }

  lemma PartialGraph(order: seq<string>, parents: Parents, d: map<string, nat>, g: nat)
    requires Covers(order, parents) && IsDepthMap(parents, d)
    ensures IsPartial(order, parents, d, g, Whole(Group(order, d, g), CutParents(parents, d, g)))
  {
    var partial := Whole(Group(order, d, g), CutParents(parents, d, g));
    PartialRoots(order, parents, d, g);
    forall x | x in partial.children
      ensures partial.children[x] == if d[x] < MAX_SDK_DEPTH * (g + 1) then Kids(order, parents, Some(x)) else []
    {
      PartialKids(order, parents, d, g, x);
    }
  }

  lemma DepthsAtLeastOne(parents: Parents, d: map<string, nat>)
    requires IsDepthMap(parents, d)
    ensures forall x | x in d :: d[x] >= 1
  {
    forall x | x in d ensures d[x] >= 1 {
      assert parents[x] == parents[x];
    }
  }

  lemma CutRootDepth(parents: Parents, d: map<string, nat>, g: nat, x: string)
    requires IsDepthMap(parents, d) && x in parents
    ensures var cut := CutParents(parents, d, g);
            (InWindow(d, g, x) && x in cut && cut[x] == None) == (d[x] == MAX_SDK_DEPTH * g + 1)
  {
    DepthsAtLeastOne(parents, d);
    match parents[x] {
      case None =>
      case Some(p) =>
        assert p in d && d[x] == d[p] + 1;
        NextLevel(d[p]);
    }
  }

  lemma ChildInside(parents: Parents, d: map<string, nat>, g: nat, p: string, x: string)
    requires IsDepthMap(parents, d) && p in parents && x in parents && InWindow(d, g, p)
    ensures Both(Inside(d, g), HasParent(CutParents(parents, d, g), Some(p)))(x)
            == (d[p] < MAX_SDK_DEPTH * (g + 1) && HasParent(parents, Some(p))(x))
  {
    assert parents[x] == parents[x];
    if parents[x] == Some(p) {
      assert d[x] == d[p] + 1;
      NextLevel(d[p]);
    }
  }

  lemma PartialKids(order: seq<string>, parents: Parents, d: map<string, nat>, g: nat, p: string)
    requires Covers(order, parents) && IsDepthMap(parents, d) && p in parents && InWindow(d, g, p)
    ensures Kids(Group(order, d, g), CutParents(parents, d, g), Some(p))
            == if d[p] < MAX_SDK_DEPTH * (g + 1) then Kids(order, parents, Some(p)) else []
  {
    var cut := CutParents(parents, d, g);
    var inside, child := Inside(d, g), HasParent(cut, Some(p));
    FilteredTwice(order, inside, child);
    forall x | x in order
      ensures Both(inside, child)(x) == (d[p] < MAX_SDK_DEPTH * (g + 1) && HasParent(parents, Some(p))(x))
    {
      ChildInside(parents, d, g, p, x);
    }
    if d[p] < MAX_SDK_DEPTH * (g + 1) {
      FilteredSame(order, Both(inside, child), HasParent(parents, Some(p)));
    } else {
      FilteredSame(order, Both(inside, child), NoId());
      NothingFiltered(order);
    }
  }

  lemma {:induction false} NothingFiltered(order: seq<string>)
    ensures Filtered(order, NoId()) == []
    decreases |order|
  {
    if order == [] {
    } else {
      NothingFiltered(order[1..]);
    }
  }

  // ---- Registering the nodes of one window ----------------------------------

  /** The explicit-stack traversal: what was visited, and what waits on the stack. */
  ghost predicate Visiting(order: seq<string>, parents: Parents, stack: seq<string>, seen: set<string>) {
    && Distinct(stack)
    && (forall x | x in stack :: x in parents && x !in seen)
    && seen <= parents.Keys
    && (forall x | x in stack || x in seen :: x in parents && (parents[x].Some? ==> parents[x].value in seen))
    && (forall x | x in parents :: Reached(parents, seen, x) ==> x in stack || x in seen)
  }

  /** A root, or a child of a visited node. */
  predicate Reached(parents: Parents, seen: set<string>, x: string)
    requires x in parents
  {
    parents[x].None? || parents[x].value in seen
  }

  lemma VisitStart(order: seq<string>, parents: Parents)
    requires Covers(order, parents)
    ensures Visiting(order, parents, Kids(order, parents, None), {})
  {
    FilteredDistinct(order, HasParent(parents, None));
    FilteredMembers(order, HasParent(parents, None));
    var roots := Kids(order, parents, None);
    assert forall x | x in roots :: x in order && x in parents && parents[x] == None;
  }

  lemma DistinctConcat(a: seq<string>, b: seq<string>)
    requires Distinct(a) && Distinct(b) && forall x | x in b :: x !in a
    ensures Distinct(a + b)
  {
    var s := a + b;
    forall i, j | 0 <= i < j < |s|
      ensures s[i] != s[j]
    {
      if j >= |a| { assert s[j] in b; }
      if i < |a| { assert s[i] in a; }
    }
  }

  /** The children of a node on the stack are still to be seen, and not on the stack yet. */
  lemma NewKids(order: seq<string>, parents: Parents, stack: seq<string>, seen: set<string>, n: string)
    requires Covers(order, parents) && Visiting(order, parents, stack, seen) && n in stack
    ensures Distinct(Kids(order, parents, Some(n)))
    ensures forall x | x in Kids(order, parents, Some(n)) ::
        x in parents && parents[x] == Some(n) && x !in stack && x !in seen && x != n
    ensures forall x | x in parents && parents[x] == Some(n) :: x in Kids(order, parents, Some(n))
  {
    FilteredDistinct(order, HasParent(parents, Some(n)));
    FilteredMembers(order, HasParent(parents, Some(n)));
  }

  lemma Popped(stack: seq<string>)
    requires Distinct(stack) && stack != []
    ensures var below := stack[..|stack| - 1];
            && Distinct(below) && stack[|stack| - 1] !in below
            && forall x :: x in stack <==> x in below || x == stack[|stack| - 1]
  {
    var below, n := stack[..|stack| - 1], stack[|stack| - 1];
    assert stack == below + [n];
  }

  lemma VisitStep(order: seq<string>, parents: Parents, stack: seq<string>, seen: set<string>)
    requires Covers(order, parents) && Visiting(order, parents, stack, seen) && stack != []
    ensures var n := stack[|stack| - 1];
            && n in parents
            && Visiting(order, parents, stack[..|stack| - 1] + Kids(order, parents, Some(n)), seen + {n})
            && parents.Keys - (seen + {n}) < parents.Keys - seen
  {
    var n := stack[|stack| - 1];
    Popped(stack);
    NewKids(order, parents, stack, seen, n);
    DistinctConcat(stack[..|stack| - 1], Kids(order, parents, Some(n)));
    StillVisiting(order, parents, stack, seen, stack[..|stack| - 1], n, Kids(order, parents, Some(n)));
    assert n in parents.Keys - seen;
  }

  lemma StillVisiting(order: seq<string>, parents: Parents, stack: seq<string>, seen: set<string>,
          below: seq<string>, n: string, kids: seq<string>)
    requires Visiting(order, parents, stack, seen) && Distinct(below + kids)
    requires n !in below && forall x :: x in stack <==> x in below || x == n
    requires forall x | x in kids :: x in parents && parents[x] == Some(n) && x !in stack && x !in seen && x != n
    requires forall x | x in parents && parents[x] == Some(n) :: x in kids
    ensures Visiting(order, parents, below + kids, seen + {n})
  {
    var now, done := below + kids, seen + {n};
    assert n in stack;
    assert forall x :: x in now <==> x in below || x in kids;
    forall x | x in parents && Reached(parents, done, x)
      ensures x in now || x in done
    {
      if !Reached(parents, seen, x) { assert parents[x] == Some(n); }
    }
    forall x | x in now || x in done
      ensures x in parents && (parents[x].Some? ==> parents[x].value in done)
    {
      if x !in kids { assert x in stack || x in seen; }
    }
  }

  lemma {:induction false} VisitedAll(order: seq<string>, parents: Parents, d: map<string, nat>, seen: set<string>,
          x: string)
    requires Visiting(order, parents, [], seen) && IsDepthMap(parents, d) && x in parents
    ensures x in seen
    decreases d[x]
  {
    if parents[x].Some? {
      var p := parents[x].value;
      assert p in d && d[x] == d[p] + 1;
      VisitedAll(order, parents, d, seen, p);
    }
    assert Reached(parents, seen, x);
  }

  /** Every node of a built window, by an explicit stack from its roots. */
  method Register(order: seq<string>, parents: Parents, partial: Graph) returns (seen: set<string>)
    requires Covers(order, parents) && IsForest(parents) && partial == Whole(order, parents)
    ensures seen == parents.Keys
  {
    seen := {};
    var stack := partial.roots;
    VisitStart(order, parents);
    while |stack| > 0
      invariant Visiting(order, parents, stack, seen)
      decreases parents.Keys - seen
    {
      VisitStep(order, parents, stack, seen);
      var last := |stack| - 1;
      var node := stack[last];
      stack, seen := stack[..last] + partial.children[node], seen + {node};
    }
    assert stack == [];
    EveryNodeVisited(order, parents, seen);
  }

  lemma EveryNodeVisited(order: seq<string>, parents: Parents, seen: set<string>)
    requires Visiting(order, parents, [], seen) && IsForest(parents)
    ensures seen == parents.Keys
  {
    var d :| IsDepthMap(parents, d);
    forall x | x in parents ensures x in seen {
      VisitedAll(order, parents, d, seen, x);
    }
  }

  // ---- Stitching ------------------------------------------------------------

  /** Each root of a later window is appended to its parent's children, in order. */
  method Stitch(roots: seq<string>, parents: Parents, nodes: set<string>, children: map<string, seq<string>>)
    returns (ok: bool, now: map<string, seq<string>>)
    requires nodes <= children.Keys
    ensures ok <==> forall i | 0 <= i < |roots| :: Hangs(parents, nodes, roots[i])
    ensures ok ==> now == Appended(children, parents, roots)
  {
    now := children;
    StitchStart(children, parents, roots);
    for i := 0 to |roots|
      invariant forall j | 0 <= j < i :: Hangs(parents, nodes, roots[j])
      invariant StitchedSoFar(children, parents, roots, i, now)
    {
      var root := roots[i];
      if !Hangs(parents, nodes, root) { return false, children; }
      var parent := parents[root].value;
      StitchStep(children, parents, roots, i, now);
      now := now[parent := now[parent] + [root]];
    }
    assert roots[..|roots|] == roots;
    ok := true;
  }

  /** The id has a parent, and that parent is among the nodes. */
  predicate Hangs(parents: Parents, nodes: set<string>, x: string) {
    x in parents && parents[x].Some? && parents[x].value in nodes
  }

  ghost predicate StitchedSoFar(children: map<string, seq<string>>, parents: Parents, roots: seq<string>, n: nat,
          now: map<string, seq<string>>)
  {
    n <= |roots| && now.Keys == children.Keys && now == Appended(children, parents, roots[..n])
  }

  lemma StitchStart(children: map<string, seq<string>>, parents: Parents, roots: seq<string>)
    ensures StitchedSoFar(children, parents, roots, 0, children)
  {
    assert roots[..0] == [];
    AppendNone(children, parents);
  }

  lemma StitchStep(children: map<string, seq<string>>, parents: Parents, roots: seq<string>, i: nat,
          now: map<string, seq<string>>)
    requires i < |roots| && StitchedSoFar(children, parents, roots, i, now)
    requires roots[i] in parents && parents[roots[i]].Some? && parents[roots[i]].value in children
    ensures var p := parents[roots[i]].value;
            p in now && StitchedSoFar(children, parents, roots, i + 1, now[p := now[p] + [roots[i]]])
  {
    AppendOne(children, parents, roots, i);
  }

  function Appended(children: map<string, seq<string>>, parents: Parents,
          roots: seq<string>): map<string, seq<string>>
  {
    map x | x in children :: children[x] + Kids(roots, parents, Some(x))
  }

  lemma AppendNone(children: map<string, seq<string>>, parents: Parents)
    ensures Appended(children, parents, []) == children
  {
    forall x | x in children
      ensures children[x] + Kids([], parents, Some(x)) == children[x]
    {
      assert Kids([], parents, Some(x)) == [];
    }
  }

  lemma AppendOne(children: map<string, seq<string>>, parents: Parents, roots: seq<string>, i: nat)
    requires i < |roots| && roots[i] in parents && parents[roots[i]].Some? && parents[roots[i]].value in children
    ensures var before := Appended(children, parents, roots[..i]);
            var p := parents[roots[i]].value;
            Appended(children, parents, roots[..i + 1]) == before[p := before[p] + [roots[i]]]
  {
    var before, after := Appended(children, parents, roots[..i]), Appended(children, parents, roots[..i + 1]);
    var p := parents[roots[i]].value;
    assert roots[..i + 1] == roots[..i] + [roots[i]];
    forall x | x in children
      ensures after[x] == if x == p then before[x] + [roots[i]] else before[x]
    {
      AppendOneAt(parents, roots, i, x, children[x]);
    }
    AppendedKeys(children, parents, roots[..i]);
    AppendedKeys(children, parents, roots[..i + 1]);
  }

  lemma AppendOneAt(parents: Parents, roots: seq<string>, i: nat, x: string, own: seq<string>)
    requires i < |roots|
    ensures own + Kids(roots[..i + 1], parents, Some(x))
            == if HasParent(parents, Some(x))(roots[i]) then (own + Kids(roots[..i], parents, Some(x))) + [roots[i]]
               else own + Kids(roots[..i], parents, Some(x))
  {
    assert roots[..i + 1] == roots[..i] + [roots[i]];
    FilteredSnoc(roots[..i], roots[i], HasParent(parents, Some(x)));
  }

  /** Stitching window g under the levels above and adding its own links completes window g. */
  lemma StitchedUpto(order: seq<string>, parents: Parents, d: map<string, nat>, g: nat, partial: Graph)
    requires Covers(order, parents) && IsDepthMap(parents, d) && IsPartial(order, parents, d, g, partial)
    ensures Appended(Upto(order, parents, d, g), parents, partial.roots) + partial.children
        == Upto(order, parents, d, g + 1)
  {
    var sum := Appended(Upto(order, parents, d, g), parents, partial.roots) + partial.children;
    var whole := Upto(order, parents, d, g + 1);
    forall x | x in parents
      ensures (x in sum <==> x in whole) && (x in sum ==> sum[x] == whole[x])
    {
      StitchedOne(order, parents, d, g, partial, x);
    }
    SameMap(sum, whole, parents.Keys);
  }

  lemma SameMap(a: map<string, seq<string>>, b: map<string, seq<string>>, keys: set<string>)
    requires a.Keys <= keys && b.Keys <= keys
    requires forall x | x in keys :: (x in a <==> x in b) && (x in a ==> a[x] == b[x])
    ensures a == b
  {}

  lemma StitchedOne(order: seq<string>, parents: Parents, d: map<string, nat>, g: nat, partial: Graph, x: string)
    requires Covers(order, parents) && IsDepthMap(parents, d) && IsPartial(order, parents, d, g, partial)
    requires x in parents
    ensures var sum := Appended(Upto(order, parents, d, g), parents, partial.roots) + partial.children;
            var whole := Upto(order, parents, d, g + 1);
            (x in sum <==> x in whole) && (x in sum ==> sum[x] == whole[x])
  {
    DepthsAtLeastOne(parents, d);
    WindowEdges(d[x], g);
    var before := Upto(order, parents, d, g);
    var stitched := Appended(before, parents, partial.roots);
    if d[x] <= MAX_SDK_DEPTH * g {
      StitchedKids(order, parents, d, g, x);
      assert x !in partial.children;
      assert x in before && stitched[x] == before[x] + Kids(partial.roots, parents, Some(x));
    } else {
      assert x !in before && x !in stitched;
    }
  }

  lemma WindowEdges(depth: nat, g: nat)
    requires depth >= 1
    ensures Window(depth) == g <==> MAX_SDK_DEPTH * g < depth <= MAX_SDK_DEPTH * (g + 1)
  {}

  /** Every root of a later window hangs under a node that is already there. */
  lemma RootsHaveParents(order: seq<string>, parents: Parents, d: map<string, nat>, g: nat, roots: seq<string>, i: nat)
    requires Covers(order, parents) && IsDepthMap(parents, d) && roots == TopOf(order, d, g)
    requires g > 0 && i < |roots|
    ensures roots[i] in parents && parents[roots[i]].Some? && parents[roots[i]].value in Upto(order, parents, d, g)
  {
    var root := roots[i];
    FilteredMembers(order, AtDepth(d, MAX_SDK_DEPTH * g + 1));
    assert root in roots;
    assert root in order && root in d && d[root] == MAX_SDK_DEPTH * g + 1;
    assert parents[root] == parents[root];
  }

  lemma ChildOfTop(parents: Parents, d: map<string, nat>, g: nat, p: string, x: string)
    requires IsDepthMap(parents, d) && p in parents && x in parents && d[p] <= MAX_SDK_DEPTH * g
    ensures Both(AtDepth(d, MAX_SDK_DEPTH * g + 1), HasParent(parents, Some(p)))(x)
            == (d[p] == MAX_SDK_DEPTH * g && HasParent(parents, Some(p))(x))
  {
    assert parents[x] == parents[x];
  }

  lemma TopKids(order: seq<string>, parents: Parents, d: map<string, nat>, g: nat, p: string)
    requires Covers(order, parents) && IsDepthMap(parents, d) && p in parents && d[p] <= MAX_SDK_DEPTH * g
    ensures Kids(TopOf(order, d, g), parents, Some(p))
        == if d[p] == MAX_SDK_DEPTH * g then Kids(order, parents, Some(p)) else []
  {
    var top, child := AtDepth(d, MAX_SDK_DEPTH * g + 1), HasParent(parents, Some(p));
    FilteredTwice(order, top, child);
    forall x | x in order
      ensures Both(top, child)(x) == (d[p] == MAX_SDK_DEPTH * g && HasParent(parents, Some(p))(x))
    {
      ChildOfTop(parents, d, g, p, x);
    }
    if d[p] == MAX_SDK_DEPTH * g {
      FilteredSame(order, Both(top, child), HasParent(parents, Some(p)));
    } else {
      FilteredSame(order, Both(top, child), NoId());
      NothingFiltered(order);
    }
  }

  lemma StitchedKids(order: seq<string>, parents: Parents, d: map<string, nat>, g: nat, p: string)
    requires Covers(order, parents) && IsDepthMap(parents, d) && p in parents && d[p] <= MAX_SDK_DEPTH * g
    ensures Upto(order, parents, d, g)[p] + Kids(TopOf(order, d, g), parents, Some(p)) == Kids(order, parents, Some(p))
  {
    TopKids(order, parents, d, g, p);
  }

  lemma LastLevelHasNoKids(order: seq<string>, parents: Parents, d: map<string, nat>, p: string)
    requires Covers(order, parents) && IsDepthMap(parents, d) && p in parents
    requires forall x | x in d :: d[x] <= d[p]
    ensures Kids(order, parents, Some(p)) == []
  {
    forall x | x in order
      ensures HasParent(parents, Some(p))(x) == NoId()(x)
    {
      assert parents[x] == parents[x];
    }
    FilteredSame(order, HasParent(parents, Some(p)), NoId());
    NothingFiltered(order);
  }

  lemma AllLevels(order: seq<string>, parents: Parents, d: map<string, nat>, g: nat)
    requires Covers(order, parents) && IsDepthMap(parents, d)
    requires forall x | x in d :: d[x] <= MAX_SDK_DEPTH * g
    ensures Upto(order, parents, d, g) == Whole(order, parents).children
  {
    forall p | p in parents && d[p] == MAX_SDK_DEPTH * g
      ensures Kids(order, parents, Some(p)) == []
    {
      LastLevelHasNoKids(order, parents, d, p);
    }
  }

  lemma FirstLevel(order: seq<string>, parents: Parents, d: map<string, nat>)
    requires Covers(order, parents) && IsDepthMap(parents, d)
    ensures TopOf(order, d, 0) == Kids(order, parents, None)
  {
    forall x | x in order
      ensures AtDepth(d, 1)(x) == HasParent(parents, None)(x)
    {
      DepthOneIsRoot(parents, d, x);
    }
    FilteredSame(order, AtDepth(d, 1), HasParent(parents, None));
    assert MAX_SDK_DEPTH * 0 + 1 == 1;
  }

  lemma DepthOneIsRoot(parents: Parents, d: map<string, nat>, x: string)
    requires IsDepthMap(parents, d) && x in parents
    ensures d[x] == 1 <==> parents[x] == None
  {
    if parents[x].Some? {
      var p := parents[x].value;
      assert parents[x] == Some(p) && d[x] == d[p] + 1;
      assert parents[p] == parents[p];
      assert d[p] >= 1;
    }
  }

  // ---- The whole algorithm --------------------------------------------------

  /** Groups of ids by window, each in input order. */
  method SplitWindows(order: seq<string>, d: map<string, nat>, count: nat) returns (groups: seq<seq<string>>)
    requires forall x | x in order :: x in d && d[x] >= 1 && Window(d[x]) < count
    ensures |groups| == count && forall g | 0 <= g < count :: groups[g] == Group(order, d, g)
  {
    groups := seq(count, _ => []);
    for i := 0 to |order|
      invariant |groups| == count && forall g | 0 <= g < count :: groups[g] == Group(order[..i], d, g)
    {
      var x := order[i];
      assert x in order;
      var group := Window(d[x]);
      assert order[..i + 1] == order[..i] + [x];
      forall g | 0 <= g < count
        ensures Group(order[..i + 1], d, g) == if g == group then groups[g] + [x] else groups[g]
      {
        FilteredSnoc(order[..i], x, Inside(d, g));
      }
      groups := groups[group := groups[group] + [x]];
    }
    assert order[..|order|] == order;
  }

  ghost predicate WindowsDone(order: seq<string>, parents: Parents, d: map<string, nat>, g: nat,
                              forest: seq<string>, nodes: set<string>, children: map<string, seq<string>>)
  {
    && d.Keys == parents.Keys
    && children == Upto(order, parents, d, g)
    && nodes == children.Keys
    && (g > 0 ==> forest == TopOf(order, d, 0))
  }

  /** One window: build it, hang its roots under their parents, and register its nodes. */
  method AddWindow(order: seq<string>, parents: Parents, d: map<string, nat>, g: nat, group: seq<string>,
          forest: seq<string>, nodes: set<string>, children: map<string, seq<string>>)
    returns (ok: bool, forest': seq<string>, nodes': set<string>, children': map<string, seq<string>>)
    requires Covers(order, parents) && "" !in order && IsDepthMap(parents, d) && group == Group(order, d, g)
    requires WindowsDone(order, parents, d, g, forest, nodes, children)
    ensures ok && WindowsDone(order, parents, d, g + 1, forest', nodes', children')
  {
    forest', nodes', children' := forest, nodes, children;
    var built := BuildWindow(order, parents, d, g, group);
    if built.None? { return false, forest', nodes', children'; }
    var partial := built.value;
    if g == 0 {
      forest' := partial.roots;
    } else {
      WindowRootsHaveParents(order, parents, d, g, partial.roots, nodes);
      ok, children' := Stitch(partial.roots, parents, nodes, children);
      if !ok { return; }
    }
    WindowCovers(order, parents, d, g);
    WindowIsForest(parents, d, g);
    var registered := Register(group, CutParents(parents, d, g), partial);
    nodes' := nodes + registered;
    AddWindowDone(order, parents, d, g, partial, forest', nodes', children, children');
    children' := children' + partial.children;
    ok := true;
  }

  method BuildWindow(order: seq<string>, parents: Parents, d: map<string, nat>, g: nat,
          group: seq<string>) returns (built: Option<Graph>)
    requires Covers(order, parents) && "" !in order && IsDepthMap(parents, d) && group == Group(order, d, g)
    ensures built == Some(Whole(group, CutParents(parents, d, g)))
    ensures IsPartial(order, parents, d, g, built.value)
  {
    WindowCovers(order, parents, d, g);
    WindowIsForest(parents, d, g);
    PartialGraph(order, parents, d, g);
    var cut := CutParents(parents, d, g);
    FilteredMembers(order, Inside(d, g));
    assert forall x | x in group :: x in cut && x in order;
    LinksRoundTrip(group, cut);
    built := Build(LinksOf(group, cut));
  }

  lemma WindowRootsHaveParents(order: seq<string>, parents: Parents, d: map<string, nat>, g: nat,
          roots: seq<string>, nodes: set<string>)
    requires Covers(order, parents) && IsDepthMap(parents, d) && roots == TopOf(order, d, g)
    requires g > 0 && nodes == Upto(order, parents, d, g).Keys
    ensures forall i | 0 <= i < |roots| :: Hangs(parents, nodes, roots[i])
  {
    forall i | 0 <= i < |roots|
      ensures Hangs(parents, nodes, roots[i])
    {
      RootsHaveParents(order, parents, d, g, roots, i);
    }
  }

  lemma AddWindowDone(order: seq<string>, parents: Parents, d: map<string, nat>, g: nat, partial: Graph,
          forest: seq<string>, nodes: set<string>, before: map<string, seq<string>>,
          stitched: map<string, seq<string>>)
    requires Covers(order, parents) && IsDepthMap(parents, d)
    requires partial == Whole(Group(order, d, g), CutParents(parents, d, g))
    requires IsPartial(order, parents, d, g, partial)
    requires before == Upto(order, parents, d, g)
    requires if g == 0 then stitched == before else stitched == Appended(before, parents, partial.roots)
    requires forest == TopOf(order, d, 0)
    requires nodes == before.Keys + CutParents(parents, d, g).Keys
    ensures WindowsDone(order, parents, d, g + 1, forest, nodes, stitched + partial.children)
  {
    if g == 0 {
      NothingBelow(order, parents, d, partial.roots);
    }
    AppendedKeys(before, parents, partial.roots);
    StitchedUpto(order, parents, d, g, partial);
    SumKeys(stitched, before, partial, CutParents(parents, d, g));
    WholeKeys(Group(order, d, g), CutParents(parents, d, g));
  }

  lemma AppendedKeys(children: map<string, seq<string>>, parents: Parents, roots: seq<string>)
    ensures Appended(children, parents, roots).Keys == children.Keys
  {}

  lemma WholeKeys(order: seq<string>, parents: Parents)
    ensures Whole(order, parents).children.Keys == parents.Keys
  {}

  lemma SumKeys(stitched: map<string, seq<string>>, before: map<string, seq<string>>, partial: Graph, cut: Parents)
    requires stitched.Keys == before.Keys
    ensures partial.children.Keys == cut.Keys ==> (stitched + partial.children).Keys == before.Keys + cut.Keys
  {}

  lemma NothingBelow(order: seq<string>, parents: Parents, d: map<string, nat>, roots: seq<string>)
    requires IsDepthMap(parents, d)
    ensures Upto(order, parents, d, 0) == map[]
    ensures Appended(Upto(order, parents, d, 0), parents, roots) == map[]
  {
    DepthsAtLeastOne(parents, d);
  }

  /** Some exactly for a forest of at most 512 levels with unique, non-empty ids. */
  ghost predicate Acceptable(links: seq<Link>) {
    UniqueIds(links) && IsForestWithin(ParentsOf(links), MAX_TREE_DEPTH)
  }

  predicate NoParents(links: seq<Link>, n: nat)
    requires n <= |links|
  {
    forall i | 0 <= i < n :: links[i].parent == None
  }

  lemma AllRootsAcceptable(links: seq<Link>)
    requires NoParents(links, |links|)
    ensures Acceptable(links) <==> ValidLinks(links)
  {
    if UniqueIds(links) {
      ParentsCovered(links);
      var parents := ParentsOf(links);
      var d: map<string, nat> := map x | x in parents :: 1;
      forall x | x in parents ensures parents[x] == None {
        var i :| 0 <= i < |links| && links[i].id == x;
      }
      assert IsDepthMap(parents, d);
    }
  }

  lemma ShallowAcceptable(links: seq<Link>, d: map<string, nat>, maxDepth: nat)
    requires UniqueIds(links) && IsDepthMap(ParentsOf(links), d) && Bounds(d, maxDepth)
    ensures ValidLinks(links)
    ensures Acceptable(links) <==> maxDepth <= MAX_TREE_DEPTH
  {
    DepthLimit(ParentsOf(links), d);
  }

  lemma EmptyIdRejected(links: seq<Link>, i: nat)
    requires i < |links| && links[i].id == ""
    ensures !UniqueIds(links)
  {}

  lemma NoEmptyId(links: seq<Link>)
    requires UniqueIds(links)
    ensures "" !in Ids(links)
  {}

  /**
   The source's forest builder.  It fails exactly on an empty or repeated id, a missing
   parent, a cycle or a 513th level; otherwise, shallow or windowed, its roots and
   every child list are those of the input, in input order.
   */
  method BuildItemForest(links: seq<Link>) returns (r: Option<Graph>)
    ensures r.Some? <==> Acceptable(links)
    ensures r.Some? ==> r.value == Whole(Ids(links), ParentsOf(links))
  {
    var allRoots := true;
    var i := 0;
    while i < |links| && allRoots
      invariant 0 <= i <= |links|
      invariant allRoots ==> NoParents(links, i)
    {
      if links[i].id == "" {
        EmptyIdRejected(links, i);
        return None;
      }
      if links[i].parent.Some? { allRoots := false; }
      i := i + 1;
    }
    if allRoots {
      AllRootsAcceptable(links);
      r := Build(links);
      return;
    }
    var unique, parents := CollectParents(links);
    if !unique { return None; }
    ParentsCovered(links);
    NoEmptyId(links);
    var resolved, depths, maxDepth := ResolveDepths(Ids(links), parents);
    if !resolved { return None; }
    ShallowAcceptable(links, depths, maxDepth);
    if maxDepth > MAX_TREE_DEPTH { return None; }
    if maxDepth <= MAX_SDK_DEPTH {
      r := Build(links);
      return;
    }
    r := BuildWindows(Ids(links), parents, depths, maxDepth);
  }

  method BuildWindows(order: seq<string>, parents: Parents, d: map<string, nat>,
          maxDepth: nat) returns (r: Option<Graph>)
    requires Covers(order, parents) && "" !in order && IsDepthMap(parents, d)
    requires maxDepth > 0 && forall x | x in d :: d[x] <= maxDepth
    ensures r == Some(Whole(order, parents))
  {
    var count := (maxDepth + MAX_SDK_DEPTH - 1) / MAX_SDK_DEPTH;
    DepthsAtLeastOne(parents, d);
    forall x | x in order ensures x in d && Window(d[x]) < count {
      WindowBound(d[x], maxDepth);
    }
    var groups := SplitWindows(order, d, count);
    var forest, nodes, children: map<string, seq<string>> := [], {}, map[];
    assert WindowsDone(order, parents, d, 0, forest, nodes, children) by {
      assert Upto(order, parents, d, 0) == map[];
    }
    for g := 0 to count
      invariant WindowsDone(order, parents, d, g, forest, nodes, children)
    {
      var ok;
      ok, forest, nodes, children := AddWindow(order, parents, d, g, groups[g], forest, nodes, children);
      if !ok { return None; }
    }
    AllLevels(order, parents, d, count);
    FirstLevel(order, parents, d);
    r := Some(Graph(forest, children));
  }

  lemma WindowBound(depth: nat, maxDepth: nat)
    requires 1 <= depth <= maxDepth
    ensures var count := (maxDepth + MAX_SDK_DEPTH - 1) / MAX_SDK_DEPTH;
            Window(depth) < count && maxDepth <= MAX_SDK_DEPTH * count && count > 0
  {}
}
