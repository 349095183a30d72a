/**
 Parent links and the forest they describe, and buildItemForest of
 internal/dictionary/service.go: depths by three-colour marking, then either one
 build or one build per 32-level window with the windows stitched together.

 A node pointer is modelled by its id; the node's Children slice by an entry of a
 map from id to child ids, which the stitching loop updates in place.
 */
module Forest {
  import opened Wrappers

  const MAX_TREE_DEPTH: nat := 512
  const MAX_SDK_DEPTH: nat := 32

  /** Each id with its parent id, if any. */
  type Parents = map<string, Option<string>>

  /** Depths of a forest: roots at 1, every other id one below its parent. */
  ghost predicate IsDepthMap(parents: Parents, d: map<string, nat>) {
    && d.Keys == parents.Keys
    && forall x {:trigger parents[x]} | x in parents ::
         match parents[x]
         case None => d[x] == 1
         case Some(p) => p in d && d[x] == d[p] + 1
  }

  /** The links are a forest: no missing parent and no cycle. */
  ghost predicate IsForest(parents: Parents) {
    exists d :: IsDepthMap(parents, d)
  }

  ghost predicate IsForestWithin(parents: Parents, limit: nat) {
    exists d :: IsDepthMap(parents, d) && forall x | x in d :: d[x] <= limit
  }

  lemma {:induction false} DepthPositive(parents: Parents, d: map<string, nat>, x: string)
    requires IsDepthMap(parents, d) && x in d
    ensures d[x] >= 1
  {
    assert parents[x] == parents[x];
  }

  /** A forest has one depth map only. */
  lemma {:induction false} DepthUnique(parents: Parents, d: map<string, nat>, e: map<string, nat>, x: string)
    requires IsDepthMap(parents, d) && IsDepthMap(parents, e) && x in parents
    ensures d[x] == e[x]
    decreases d[x]
  {
    if parents[x].Some? {
      DepthUnique(parents, d, e, parents[x].value);
    }
  }

  /** The one depth map decides whether a forest is shallow enough. */
  lemma DepthLimit(parents: Parents, d: map<string, nat>)
    requires IsDepthMap(parents, d)
    ensures IsForestWithin(parents, MAX_TREE_DEPTH) <==> forall x | x in d :: d[x] <= MAX_TREE_DEPTH
  {
    if e :| IsDepthMap(parents, e) && forall x | x in e :: e[x] <= MAX_TREE_DEPTH {
      forall x | x in d
        ensures d[x] <= MAX_TREE_DEPTH
      {
        DepthUnique(parents, d, e, x);
      }
    }
  }

  // ---- The forest as a graph ------------------------------------------------

  datatype Graph = Graph(roots: seq<string>, children: map<string, seq<string>>)

  predicate Distinct(ids: seq<string>) {
    forall i, j | 0 <= i < j < |ids| :: ids[i] != ids[j]
  }

  /** The members of `order` that satisfy `keep`, in order. */
  function Filtered(order: seq<string>, keep: string -> bool): seq<string> {
    if order == [] then [] else (if keep(order[0]) then [order[0]] else []) + Filtered(order[1..], keep)
  }

  lemma {:induction false} FilteredMembers(order: seq<string>, keep: string -> bool)
    ensures forall x :: x in Filtered(order, keep) <==> x in order && keep(x)
    decreases |order|
  {
    if order == [] {
    } else {
      FilteredMembers(order[1..], keep);
    }
  }

  lemma {:induction false} FilteredSame(order: seq<string>, f: string -> bool, g: string -> bool)
    requires forall x | x in order :: f(x) == g(x)
    ensures Filtered(order, f) == Filtered(order, g)
    decreases |order|
  {
    if order == [] {
    } else {
      FilteredSame(order[1..], f, g);
    }
  }

  function Both(f: string -> bool, g: string -> bool): string -> bool { x => f(x) && g(x) }

  lemma {:induction false} FilteredTwice(order: seq<string>, f: string -> bool, g: string -> bool)
    ensures Filtered(Filtered(order, f), g) == Filtered(order, Both(f, g))
    decreases |order|
  {
    if order == [] {
    } else {
      FilteredTwice(order[1..], f, g);
      var rest := Filtered(order[1..], f);
      if f(order[0]) {
        assert ([order[0]] + rest)[1..] == rest;
      } else {
        assert [] + rest == rest;
      }
    }
  }

  lemma {:induction false} FilteredSnoc(order: seq<string>, last: string, keep: string -> bool)
    ensures Filtered(order + [last], keep) == Filtered(order, keep) + (if keep(last) then [last] else [])
    decreases |order|
  {
    if order == [] {
      assert [] + [last] == [last] && [last][1..] == [];
    } else {
      assert (order + [last])[1..] == order[1..] + [last];
      FilteredSnoc(order[1..], last, keep);
    }
  }

  lemma {:induction false} FilteredDistinct(order: seq<string>, keep: string -> bool)
    requires Distinct(order)
    ensures Distinct(Filtered(order, keep))
    decreases |order|
  {
    if order == [] {
    } else {
      FilteredDistinct(order[1..], keep);
      FilteredMembers(order[1..], keep);
      assert order[0] !in order[1..];
    }
  }

  /** The ids of `order` whose parent is `p`, in order. */
  function Kids(order: seq<string>, parents: Parents, p: Option<string>): seq<string> {
    Filtered(order, HasParent(parents, p))
  }

  function HasParent(parents: Parents, p: Option<string>): string -> bool {
    x => x in parents && parents[x] == p
  }

  /** Roots and children in the order of the input. */
  function Whole(order: seq<string>, parents: Parents): Graph {
    Graph(Kids(order, parents, None), map x | x in parents :: Kids(order, parents, Some(x)))
  }

  predicate Covers(order: seq<string>, parents: Parents) {
    && Distinct(order)
    && (forall i | 0 <= i < |order| :: order[i] in parents)
    && (forall x | x in parents :: x in order)
  }

  // ---- Depths by three-colour marking ---------------------------------------

  /** Following parents along a path. */
  predicate IsPath(parents: Parents, path: seq<string>) {
    && (forall i | 0 <= i < |path| :: path[i] in parents)
    && forall i | 0 <= i < |path| - 1 :: parents[path[i]] == Some(path[i + 1])
  }

  lemma {:induction false} PathDepth(parents: Parents, d: map<string, nat>, path: seq<string>, i: nat, j: nat)
    requires IsDepthMap(parents, d) && IsPath(parents, path) && i <= j < |path|
    ensures d[path[i]] == d[path[j]] + (j - i)
    decreases j - i
  {
    if i < j {
      PathDepth(parents, d, path, i + 1, j);
    }
  }

  /** A path that leads back to one of its own ids. */
  lemma CycleIsNoForest(parents: Parents, path: seq<string>, k: nat)
    requires IsPath(parents, path) && k < |path| && parents[path[|path| - 1]] == Some(path[k])
    ensures !IsForest(parents)
  {
    if d :| IsDepthMap(parents, d) {
      PathDepth(parents, d, path, k, |path| - 1);
      assert false;
    }
  }

  lemma MissingIsNoForest(parents: Parents, x: string, p: string)
    requires x in parents && parents[x] == Some(p) && p !in parents
    ensures !IsForest(parents)
  {
    if d :| IsDepthMap(parents, d) {
      assert false;
    }
  }

  /** Depths known so far: closed under parents and right. */
  ghost predicate PartialDepths(parents: Parents, d: map<string, nat>) {
    && d.Keys <= parents.Keys
    && forall x {:trigger parents[x]} | x in d ::
         match parents[x]
         case None => d[x] == 1
         case Some(p) => p in d && d[x] == d[p] + 1
  }

  datatype Colour = Checking | Done

  /** Marks and path agree: what is being checked is on the path, what is done has a depth. */
  ghost predicate Walking(parents: Parents, depths: map<string, nat>, state: map<string, Colour>, path: seq<string>,
          current: string)
  {
    && current in parents && IsPath(parents, path) && Distinct(path)
    && (path != [] ==> parents[path[|path| - 1]] == Some(current))
    && (forall i | 0 <= i < |path| :: path[i] in state && state[path[i]] == Checking)
    && (forall x | x in state :: if state[x] == Checking then x in path else x in depths)
    && (forall x | x in depths :: x in state && state[x] == Done)
    && state.Keys <= parents.Keys
  }

  /** The path so far, ended by `current` when that is a new id. */
  ghost predicate Walked(parents: Parents, depths: map<string, nat>, start: string, path: seq<string>) {
    && path != [] && path[0] == start && IsPath(parents, path) && Distinct(path)
    && forall i | 0 <= i < |path| :: path[i] !in depths
  }

  lemma WalkStep(parents: Parents, depths: map<string, nat>, state: map<string, Colour>, path: seq<string>,
          current: string)
    requires Walking(parents, depths, state, path, current) && current !in state
    ensures var now, longer := state[current := Checking], path + [current];
            && IsPath(parents, longer) && Distinct(longer)
            && (forall i | 0 <= i < |longer| :: longer[i] !in depths)
            && (forall p | parents[current] == Some(p) && p in parents :: Walking(parents, depths, now, longer, p))
            && parents.Keys - now.Keys < parents.Keys - state.Keys
  {
    var now, longer := state[current := Checking], path + [current];
    assert current !in path;
    assert current in parents.Keys - state.Keys && current !in parents.Keys - now.Keys;
    forall x | x in now && now[x] == Checking
      ensures x in longer
    {
      if x == current { assert longer[|path|] == x; } else { assert x in path; }
    }
  }

  /** The path from an unresolved id up to a root or to a resolved id. */
  method WalkUp(parents: Parents, depths: map<string, nat>, start: string) returns (ok: bool, path: seq<string>,
          base: nat)
    requires start in parents && start !in depths && PartialDepths(parents, depths)
    ensures ok ==> Walked(parents, depths, start, path)
    ensures ok ==> match parents[path[|path| - 1]]
                   case None => base == 0
                   case Some(p) => p in depths && base == depths[p]
    ensures !ok ==> !IsForest(parents)
  {
    var state: map<string, Colour> := map x | x in depths :: Done;
    path, base := [], 0;
    var current := start;
    while true
      invariant Walking(parents, depths, state, path, current)
      invariant path == [] ==> current == start
      invariant path != [] ==> Walked(parents, depths, start, path)
      decreases parents.Keys - state.Keys
    {
      if current in state && state[current] == Checking {
        var k :| 0 <= k < |path| && path[k] == current;
        CycleIsNoForest(parents, path, k);
        return false, [], 0;
      }
      if current in state {
        return true, path, depths[current];
      }
      WalkStep(parents, depths, state, path, current);
      state := state[current := Checking];
      path := path + [current];
      if parents[current].None? {
        return true, path, 0;
      }
      var parent := parents[current].value;
      if parent !in parents {
        MissingIsNoForest(parents, current, parent);
        return false, [], 0;
      }
      current := parent;
    }
  }

  ghost predicate Bounds(depths: map<string, nat>, maxDepth: nat) {
    && (forall x | x in depths :: depths[x] <= maxDepth)
    && (maxDepth == 0 || exists x | x in depths :: depths[x] == maxDepth)
  }

  lemma OneMoreDepth(parents: Parents, depths: map<string, nat>, bound: nat, x: string, base: nat)
    requires PartialDepths(parents, depths) && Bounds(depths, bound)
    requires x in parents && x !in depths && base > 0
    requires match parents[x] case None => base == 1 case Some(p) => p in depths && base == depths[p] + 1
    ensures PartialDepths(parents, depths[x := base])
    ensures Bounds(depths[x := base], if base > bound then base else bound)
  {
    var now := depths[x := base];
    assert now[x] == base;
    if base <= bound {
      var y :| y in depths && depths[y] == bound;
      assert now[y] == bound;
    }
  }

  /** Back down the path, one level at a time. */
  method AssignDepths(parents: Parents, known: map<string, nat>, path: seq<string>, start: nat, bound: nat)
    returns (depths: map<string, nat>, maxDepth: nat)
    requires PartialDepths(parents, known) && Bounds(known, bound)
    requires path != [] && Walked(parents, known, path[0], path)
    requires match parents[path[|path| - 1]]
             case None => start == 0
             case Some(p) => p in known && start == known[p]
    ensures PartialDepths(parents, depths) && Bounds(depths, maxDepth)
    ensures known.Keys <= depths.Keys && path[0] in depths
  {
    depths, maxDepth := known, bound;
    var base := start;
    var k := |path|;
    while k > 0
      invariant 0 <= k <= |path|
      invariant PartialDepths(parents, depths) && Bounds(depths, maxDepth)
      invariant k < |path| ==> path[k] in depths && depths[path[k]] == base
      invariant k == |path| ==> depths == known && base == start
      invariant forall j | 0 <= j < k :: path[j] !in depths
      invariant known.Keys <= depths.Keys
    {
      k := k - 1;
      base := base + 1;
      assert k < |path| - 1 ==> parents[path[k]] == Some(path[k + 1]);
      OneMoreDepth(parents, depths, maxDepth, path[k], base);
      depths := depths[path[k] := base];
      if base > maxDepth { maxDepth := base; }
    }
  }

  method ResolveOne(parents: Parents, known: map<string, nat>, bound: nat, x: string)
    returns (ok: bool, depths: map<string, nat>, maxDepth: nat)
    requires x in parents && PartialDepths(parents, known) && Bounds(known, bound)
    ensures ok ==> PartialDepths(parents, depths) && Bounds(depths, maxDepth)
    ensures ok ==> known.Keys <= depths.Keys && x in depths
    ensures !ok ==> !IsForest(parents)
  {
    if x in known { return true, known, bound; }
    var walked, path, base := WalkUp(parents, known, x);
    if !walked { return false, map[], 0; }
    depths, maxDepth := AssignDepths(parents, known, path, base, bound);
    ok := true;
  }

  method ResolveDepths(order: seq<string>, parents: Parents) returns (ok: bool, depths: map<string, nat>, maxDepth: nat)
    requires Covers(order, parents)
    ensures ok <==> IsForest(parents)
    ensures ok ==> IsDepthMap(parents, depths)
    ensures ok ==> Bounds(depths, maxDepth)
  {
    depths, maxDepth := map[], 0;
    var i := 0;
    while i < |order|
      invariant 0 <= i <= |order|
      invariant PartialDepths(parents, depths) && Bounds(depths, maxDepth)
      invariant ResolvedUpTo(order, i, depths)
    {
      assert order[i] in order;
      var resolved, more, bound := ResolveOne(parents, depths, maxDepth, order[i]);
      if !resolved { return false, map[], 0; }
      ResolvedGrows(order, i, depths, more);
      depths, maxDepth := more, bound;
      i := i + 1;
    }
    AllResolved(order, parents, depths);
    ok := true;
  }

  ghost predicate ResolvedUpTo(order: seq<string>, n: nat, depths: map<string, nat>) {
    n <= |order| && forall j | 0 <= j < n :: order[j] in depths
  }

  lemma ResolvedGrows(order: seq<string>, n: nat, known: map<string, nat>, depths: map<string, nat>)
    requires n < |order| && ResolvedUpTo(order, n, known)
    requires known.Keys <= depths.Keys && order[n] in depths
    ensures ResolvedUpTo(order, n + 1, depths)
  {
    assert forall j | 0 <= j < n :: order[j] in known.Keys;
  }

  lemma AllResolved(order: seq<string>, parents: Parents, depths: map<string, nat>)
    requires Covers(order, parents) && PartialDepths(parents, depths)
    requires ResolvedUpTo(order, |order|, depths)
    ensures IsDepthMap(parents, depths) && IsForest(parents)
  {
    forall x | x in parents
      ensures x in depths
    {
      assert x in order;
    }
  }

  // ---- One build ------------------------------------------------------------

  /** One input item: its id and its parent's. */
  datatype Link = Link(id: string, parent: Option<string>)

  function Ids(links: seq<Link>): (r: seq<string>)
    ensures |r| == |links| && forall i | 0 <= i < |links| :: r[i] == links[i].id
  {
    seq(|links|, i requires 0 <= i < |links| => links[i].id)
  }

  /** The parents of the first n links; a later link overrides an earlier one with its id. */
  function ParentsUpTo(links: seq<Link>, n: nat): Parents
    requires n <= |links|
  {
    if n == 0 then map[] else ParentsUpTo(links, n - 1)[links[n - 1].id := links[n - 1].parent]
  }

  function ParentsOf(links: seq<Link>): Parents { ParentsUpTo(links, |links|) }

  lemma {:induction false} ParentsKeys(links: seq<Link>, n: nat)
    requires n <= |links|
    ensures ParentsUpTo(links, n).Keys == set i | 0 <= i < n :: links[i].id
    decreases n
  {
    if n == 0 {
    } else {
      ParentsKeys(links, n - 1);
    }
  }

  predicate UniqueUpTo(links: seq<Link>, n: nat)
    requires n <= |links|
  {
    && (forall i | 0 <= i < n :: links[i].id != "")
    && forall i, j | 0 <= i < j < n :: links[i].id != links[j].id
  }

  predicate UniqueIds(links: seq<Link>) { UniqueUpTo(links, |links|) }

  ghost predicate Collected(links: seq<Link>, n: nat, parents: Parents) {
    n <= |links| && UniqueUpTo(links, n) && parents == ParentsUpTo(links, n)
  }

  lemma CollectStep(links: seq<Link>, n: nat, parents: Parents)
    requires n < |links| && Collected(links, n, parents)
    ensures links[n].id == "" || links[n].id in parents ==> !UniqueIds(links)
    ensures !(links[n].id == "" || links[n].id in parents) ==>
        Collected(links, n + 1, parents[links[n].id := links[n].parent])
  {
    ParentsKeys(links, n);
  }

  /** No later link overrides link i. */
  lemma {:induction false} ParentsAt(links: seq<Link>, n: nat, i: nat)
    requires i < n <= |links| && forall j | i < j < n :: links[j].id != links[i].id
    ensures links[i].id in ParentsUpTo(links, n) && ParentsUpTo(links, n)[links[i].id] == links[i].parent
    decreases n
  {
    if i < n - 1 {
      ParentsAt(links, n - 1, i);
      assert links[n - 1].id != links[i].id;
    }
  }

  lemma ParentsCovered(links: seq<Link>)
    requires UniqueIds(links)
    ensures Covers(Ids(links), ParentsOf(links))
    ensures forall i | 0 <= i < |links| ::
        links[i].id in ParentsOf(links) && ParentsOf(links)[links[i].id] == links[i].parent
  {
    forall i | 0 <= i < |links|
      ensures links[i].id in ParentsOf(links) && ParentsOf(links)[links[i].id] == links[i].parent
    {
      ParentsAt(links, |links|, i);
    }
    forall x | x in ParentsOf(links)
      ensures x in Ids(links)
    {
      ParentsKeys(links, |links|);
      var i :| 0 <= i < |links| && links[i].id == x;
      assert Ids(links)[i] == x;
    }
  }

  ghost predicate ValidLinks(links: seq<Link>) {
    UniqueIds(links) && IsForest(ParentsOf(links))
  }

  /** The parents table, unless an id is empty or occurs twice. */
  method CollectParents(links: seq<Link>) returns (ok: bool, parents: Parents)
    ensures ok <==> UniqueIds(links)
    ensures ok ==> parents == ParentsOf(links)
  {
    parents := map[];
    for i := 0 to |links|
      invariant Collected(links, i, parents)
    {
      CollectStep(links, i, parents);
      if links[i].id == "" || links[i].id in parents { return false, map[]; }
      parents := parents[links[i].id := links[i].parent];
    }
    ok := true;
  }

  /**
   What the source asks of the SDK's tree builder, whose own code is not part of this
   model: it rejects an empty or repeated id, a missing parent and a cycle, and keeps
   the input order among roots and among siblings.
   */
  method Build(links: seq<Link>) returns (r: Option<Graph>)
    ensures r.Some? <==> ValidLinks(links)
    ensures r.Some? ==> r.value == Whole(Ids(links), ParentsOf(links))
  {
    var ok, parents := CollectParents(links);
    if !ok { return None; }
    ParentsCovered(links);
    var resolved, depths, maxDepth := ResolveDepths(Ids(links), parents);
    if !resolved { return None; }
    r := Some(Whole(Ids(links), parents));
  }
}
