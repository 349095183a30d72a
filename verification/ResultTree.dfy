/**
 The trees a graph of parent links stands for, and why a forest lists every item once.
 */
module ResultTree {
  import opened Wrappers
  import opened Forest
  import opened TreeItems
  import opened TreeFilter
  import opened TreeCopy

  /** The trees hanging at `ids`, `levels` levels of them. */
  function Grow(g: Graph, byId: Items, ids: seq<string>, levels: nat): seq<Tree<Item>>
    decreases levels, |ids|
  {
    if levels == 0 || ids == [] || ids[0] !in byId then []
    else
      var kids := if ids[0] in g.children then g.children[ids[0]] else [];
      [Node(byId[ids[0]], Grow(g, byId, kids, levels - 1))] + Grow(g, byId, ids[1..], levels)
  }

  /** All items, parents before their children. */
  function Flatten(ts: seq<Tree<Item>>): seq<Item> {
    if ts == [] then [] else [ts[0].item] + Flatten(ts[0].children) + Flatten(ts[1..])
  }

  function FlattenIds(ts: seq<Tree<Item>>): seq<string> {
    if ts == [] then [] else [ts[0].item.id] + FlattenIds(ts[0].children) + FlattenIds(ts[1..])
  }

  lemma {:induction false} FlattenIdsOf(ts: seq<Tree<Item>>)
    ensures |FlattenIds(ts)| == |Flatten(ts)| && forall i | 0 <= i < |Flatten(ts)| ::
        FlattenIds(ts)[i] == Flatten(ts)[i].id
    decreases ts
  {
    if ts == [] {
    } else {
      FlattenIdsOf(ts[0].children);
      FlattenIdsOf(ts[1..]);
    }
  }

  // ---- Every id once --------------------------------------------------------

  /** The ancestor of y at depth n, or y itself when it is no deeper. */
  ghost function AncestorAt(parents: Parents, d: map<string, nat>, y: string, n: nat): string
    requires IsDepthMap(parents, d) && y in parents
    decreases d[y]
  {
    if d[y] <= n || parents[y].None? then y else AncestorAt(parents, d, parents[y].value, n)
  }

  /** y hangs at or below one of `ids`, which are all at depth n. */
  ghost predicate Under(parents: Parents, d: map<string, nat>, ids: seq<string>, n: nat, y: string)
    requires IsDepthMap(parents, d)
  {
    y in parents && d[y] >= n && AncestorAt(parents, d, y, n) in ids
  }

  /** Different ids, all at depth n. */
  ghost predicate Layer(parents: Parents, d: map<string, nat>, ids: seq<string>, n: nat) {
    ids == [] ||
    (ids[0] !in ids[1..] && ids[0] in parents && ids[0] in d && d[ids[0]] == n && Layer(parents, d, ids[1..], n))
  }

  lemma {:induction false} LayerOf(parents: Parents, d: map<string, nat>, ids: seq<string>, n: nat)
    requires Distinct(ids) && forall x | x in ids :: x in parents && x in d && d[x] == n
    ensures Layer(parents, d, ids, n)
    decreases |ids|
  {
    if ids == [] {
    } else {
      assert ids[0] !in ids[1..];
      LayerOf(parents, d, ids[1..], n);
    }
  }

  ghost predicate Grounded(order: seq<string>, parents: Parents, d: map<string, nat>, byId: Items, limit: nat) {
    && Covers(order, parents) && IsDepthMap(parents, d)
    && (forall x | x in parents :: x in byId && byId[x].id == x && d[x] <= limit)
  }

  lemma KidsLayer(order: seq<string>, parents: Parents, d: map<string, nat>, x: string, n: nat)
    requires Covers(order, parents) && IsDepthMap(parents, d) && x in parents && d[x] + 1 == n
    ensures Layer(parents, d, Kids(order, parents, Some(x)), n)
  {
    FilteredDistinct(order, HasParent(parents, Some(x)));
    KidsDepth(order, parents, d, x);
    LayerOf(parents, d, Kids(order, parents, Some(x)), n);
  }

  lemma KidsDepth(order: seq<string>, parents: Parents, d: map<string, nat>, x: string)
    requires IsDepthMap(parents, d) && x in parents
    ensures forall y | y in Kids(order, parents, Some(x)) :: y in parents && y in d && d[y] == d[x] + 1
  {
    FilteredMembers(order, HasParent(parents, Some(x)));
    forall y | y in Kids(order, parents, Some(x))
      ensures y in parents && d[y] == d[x] + 1
    {
      assert parents[y] == Some(x);
    }
  }

  /** One step further down: below x is x itself or below one of its children. */
  lemma {:induction false} UnderOne(order: seq<string>, parents: Parents, d: map<string, nat>, x: string, n: nat,
          y: string)
    requires Covers(order, parents) && IsDepthMap(parents, d) && x in parents && y in parents && d[y] >= d[x] == n
    ensures AncestorAt(parents, d, y, n) == x <==> y == x || Under(parents, d, Kids(order, parents, Some(x)), n + 1, y)
    decreases d[y]
  {
    var kids := Kids(order, parents, Some(x));
    FilteredMembers(order, HasParent(parents, Some(x)));
    DepthPositive(parents, d, x);
    if d[y] > n {
      assert parents[y].Some?;
      var p := parents[y].value;
      if d[y] == n + 1 {
        assert AncestorAt(parents, d, y, n + 1) == y;
        assert AncestorAt(parents, d, p, n) == p;
      } else {
        UnderOne(order, parents, d, x, n, p);
      }
    }
  }

  function Once(b: bool): nat { if b then 1 else 0 }

  ghost predicate Unrolled(ids: seq<string>) { true }

  /** The graph is the forest's; folded, so that it only comes into play where the order is `Unrolled`. */
  ghost predicate IsWhole(g: Graph, order: seq<string>, parents: Parents) {
    forall o {:trigger Unrolled(o)} | Unrolled(o) && o == order :: g == Whole(o, parents)
  }

  /** Growing a layer lists every id at or below it exactly once; folded in the same way. */
  ghost predicate GrowsOnce(g: Graph, parents: Parents, d: map<string, nat>, byId: Items, ids: seq<string>, n: nat,
          levels: nat)
    requires IsDepthMap(parents, d)
  {
    forall layer {:trigger Unrolled(layer)} | Unrolled(layer) && layer == ids ::
      forall y {:trigger Listed(g, byId, layer, levels, y)} ::
        Listed(g, byId, layer, levels, y) == Once(Under(parents, d, layer, n, y))
  }

  lemma {:induction false} GrowOnce(g: Graph, order: seq<string>, parents: Parents, d: map<string, nat>, byId: Items,
          limit: nat, ids: seq<string>, n: nat, levels: nat)
    requires Grounded(order, parents, d, byId, limit) && IsWhole(g, order, parents)
    requires Layer(parents, d, ids, n) && n + levels == limit + 1
    ensures GrowsOnce(g, parents, d, byId, ids, n, levels)
    decreases levels, |ids|
  {
    if ids == [] {
      GrowsNothing(g, parents, d, byId, ids, n, levels);
    } else {
      LayerDown(order, parents, d, byId, limit, ids, n);
      var kids, next, below: nat := Kids(order, parents, Some(ids[0])), n + 1, levels - 1;
      GrowOnce(g, order, parents, d, byId, limit, kids, next, below);
      GrowOnce(g, order, parents, d, byId, limit, ids[1..], n, levels);
      GrowsCons(g, order, parents, d, byId, limit, ids, kids, n, levels, next, below);
    }
  }

  lemma GrowsNothing(g: Graph, parents: Parents, d: map<string, nat>, byId: Items, ids: seq<string>, n: nat,
          levels: nat)
    requires IsDepthMap(parents, d) && ids == []
    ensures GrowsOnce(g, parents, d, byId, ids, n, levels)
  {
    forall y { NothingUnder(g, parents, d, byId, ids, n, levels, y); }
  }

  lemma GrowsCons(g: Graph, order: seq<string>, parents: Parents, d: map<string, nat>, byId: Items, limit: nat,
          ids: seq<string>, kids: seq<string>, n: nat, levels: nat, next: nat, below: nat)
    requires Grounded(order, parents, d, byId, limit) && IsWhole(g, order, parents)
    requires Layer(parents, d, ids, n) && ids != [] && kids == Kids(order, parents, Some(ids[0]))
    requires next == n + 1 && levels == below + 1
    requires GrowsOnce(g, parents, d, byId, kids, next, below) && GrowsOnce(g, parents, d, byId, ids[1..], n, levels)
    ensures GrowsOnce(g, parents, d, byId, ids, n, levels)
  {
    forall y { GrowCons(g, order, parents, d, byId, limit, ids, kids, n, levels, next, below, y); }
  }

  lemma GrewOnce(g: Graph, parents: Parents, d: map<string, nat>, byId: Items, ids: seq<string>, n: nat, levels: nat,
          y: string)
    requires IsDepthMap(parents, d) && GrowsOnce(g, parents, d, byId, ids, n, levels)
    ensures Listed(g, byId, ids, levels, y) == Once(Under(parents, d, ids, n, y))
  {
    assert Unrolled(ids);
  }

  lemma WholeKids(g: Graph, order: seq<string>, parents: Parents, x: string)
    requires IsWhole(g, order, parents) && x in parents
    ensures x in g.children && g.children[x] == Kids(order, parents, Some(x))
  {
    assert Unrolled(order);
  }

  lemma GrowCons(g: Graph, order: seq<string>, parents: Parents, d: map<string, nat>, byId: Items, limit: nat,
          ids: seq<string>, kids: seq<string>, n: nat, levels: nat, next: nat, below: nat, y: string)
    requires Grounded(order, parents, d, byId, limit) && IsWhole(g, order, parents)
    requires Layer(parents, d, ids, n) && ids != [] && kids == Kids(order, parents, Some(ids[0]))
    requires next == n + 1 && levels == below + 1
    requires GrowsOnce(g, parents, d, byId, kids, next, below) && GrowsOnce(g, parents, d, byId, ids[1..], n, levels)
    ensures Listed(g, byId, ids, levels, y) == Once(Under(parents, d, ids, n, y))
  {
    WholeKids(g, order, parents, ids[0]);
    GrewOnce(g, parents, d, byId, kids, next, below, y);
    GrewOnce(g, parents, d, byId, ids[1..], n, levels, y);
    ListedStep(g, byId, ids, levels, below, kids, y);
    UnderCons(order, parents, d, ids, kids, n, next, y);
  }

  /** How often an id is listed in what grows from `ids`. */
  ghost function Listed(g: Graph, byId: Items, ids: seq<string>, levels: nat, y: string): nat {
    multiset(FlattenIds(Grow(g, byId, ids, levels)))[y]
  }

  lemma NothingUnder(g: Graph, parents: Parents, d: map<string, nat>, byId: Items, ids: seq<string>, n: nat,
          levels: nat, y: string)
    requires IsDepthMap(parents, d) && ids == []
    ensures Listed(g, byId, ids, levels, y) == Once(Under(parents, d, ids, n, y))
  {
    assert !Under(parents, d, ids, n, y);
    assert Grow(g, byId, ids, levels) == [];
  }

  lemma ListedStep(g: Graph, byId: Items, ids: seq<string>, levels: nat, below: nat, kids: seq<string>, y: string)
    requires levels == below + 1 && ids != [] && ids[0] in byId && byId[ids[0]].id == ids[0]
    requires ids[0] in g.children && g.children[ids[0]] == kids
    ensures Listed(g, byId, ids, levels, y)
        == Once(ids[0] == y) + Listed(g, byId, kids, below, y) + Listed(g, byId, ids[1..], levels, y)
  {
    GrowStep(g, byId, ids, levels, below, kids);
    CountThree(ids[0], FlattenIds(Grow(g, byId, kids, below)), FlattenIds(Grow(g, byId, ids[1..], levels)), y);
  }

  lemma LayerDown(order: seq<string>, parents: Parents, d: map<string, nat>, byId: Items, limit: nat,
          ids: seq<string>, n: nat)
    requires Grounded(order, parents, d, byId, limit) && Layer(parents, d, ids, n) && ids != []
    ensures Layer(parents, d, ids[1..], n) && Layer(parents, d, Kids(order, parents, Some(ids[0])), n + 1) && n <= limit
  {
    KidsLayer(order, parents, d, ids[0], n + 1);
  }

  lemma CountThree(x: string, a: seq<string>, b: seq<string>, y: string)
    ensures multiset([x] + a + b)[y] == Once(x == y) + multiset(a)[y] + multiset(b)[y]
  {
    assert multiset([x] + a + b) == multiset{x} + multiset(a) + multiset(b);
  }

  /** Below a layer: its first id, or below that id's children, or below the rest; never two of these. */
  lemma UnderCons(order: seq<string>, parents: Parents, d: map<string, nat>, ids: seq<string>, kids: seq<string>,
          n: nat, next: nat, y: string)
    requires Covers(order, parents) && IsDepthMap(parents, d) && Layer(parents, d, ids, n) && ids != []
    requires kids == Kids(order, parents, Some(ids[0])) && next == n + 1
    ensures Once(Under(parents, d, ids, n, y))
         == Once(ids[0] == y) + Once(Under(parents, d, kids, next, y)) + Once(Under(parents, d, ids[1..], n, y))
  {
    if y in parents && d[y] >= n { UnderOne(order, parents, d, ids[0], n, y); }
    UnderSplit(parents, d, ids, kids, n, y);
  }

  lemma UnderSplit(parents: Parents, d: map<string, nat>, ids: seq<string>, kids: seq<string>, n: nat, y: string)
    requires IsDepthMap(parents, d) && ids != [] && ids[0] !in ids[1..] && ids[0] in parents && d[ids[0]] == n
    requires y in parents && d[y] >= n ==>
        (AncestorAt(parents, d, y, n) == ids[0] <==> y == ids[0] || Under(parents, d, kids, n + 1, y))
    ensures Once(Under(parents, d, ids, n, y))
         == Once(ids[0] == y) + Once(Under(parents, d, kids, n + 1, y)) + Once(Under(parents, d, ids[1..], n, y))
  {
    if y in parents && d[y] >= n { HeadOrRest(ids, AncestorAt(parents, d, y, n)); }
  }

  lemma HeadOrRest(ids: seq<string>, a: string)
    requires ids != []
    ensures a in ids <==> a == ids[0] || a in ids[1..]
  {}

  lemma GrowStep(g: Graph, byId: Items, ids: seq<string>, levels: nat, below: nat, kids: seq<string>)
    requires levels == below + 1 && ids != [] && ids[0] in byId && byId[ids[0]].id == ids[0]
    requires ids[0] in g.children && g.children[ids[0]] == kids
    ensures FlattenIds(Grow(g, byId, ids, levels))
            == [ids[0]] + FlattenIds(Grow(g, byId, kids, below)) + FlattenIds(Grow(g, byId, ids[1..], levels))
  {
    var down, across := Grow(g, byId, kids, below), Grow(g, byId, ids[1..], levels);
    var all := Grow(g, byId, ids, levels);
    assert all == [Node(byId[ids[0]], down)] + across;
    assert all[0] == Node(byId[ids[0]], down) && all[1..] == across;
  }

  lemma {:induction false} UnderRoots(parents: Parents, d: map<string, nat>, y: string)
    requires IsDepthMap(parents, d) && y in parents
    ensures d[y] >= 1 && AncestorAt(parents, d, y, 1) in parents && parents[AncestorAt(parents, d, y, 1)] == None
    decreases d[y]
  {
    assert parents[y] == parents[y];
    if parents[y].Some? {
      var p := parents[y].value;
      assert p in d && d[y] == d[p] + 1;
      UnderRoots(parents, d, p);
    }
  }

  /** The whole forest lists the ids of the input, each exactly once. */
  lemma ForestIsPermutation(order: seq<string>, parents: Parents, d: map<string, nat>, byId: Items, limit: nat)
    requires Grounded(order, parents, d, byId, limit)
    ensures multiset(FlattenIds(Grow(Whole(order, parents), byId, Kids(order, parents, None), limit)))
        == multiset(order)
  {
    var roots := Kids(order, parents, None);
    var ids := FlattenIds(Grow(Whole(order, parents), byId, roots, limit));
    RootsLayer(order, parents, d);
    forall y
      ensures multiset(ids)[y] == multiset(order)[y]
    {
      ListedAsGiven(order, parents, d, byId, limit, y);
    }
    SameMultiset(multiset(ids), multiset(order));
  }

  lemma SameMultiset(a: multiset<string>, b: multiset<string>)
    requires forall y :: a[y] == b[y]
    ensures a == b
  {}

  lemma ListedAsGiven(order: seq<string>, parents: Parents, d: map<string, nat>, byId: Items, limit: nat, y: string)
    requires Grounded(order, parents, d, byId, limit)
    ensures Listed(Whole(order, parents), byId, Kids(order, parents, None), limit, y) == multiset(order)[y]
  {
    RootsLayer(order, parents, d);
    GrowOnce(Whole(order, parents), order, parents, d, byId, limit, Kids(order, parents, None), 1, limit);
    assert Unrolled(Kids(order, parents, None));
    DistinctOnce(order, y);
    CoveredOnce(order, parents, d, y);
  }

  lemma RootsLayer(order: seq<string>, parents: Parents, d: map<string, nat>)
    requires Covers(order, parents) && IsDepthMap(parents, d)
    ensures Layer(parents, d, Kids(order, parents, None), 1)
  {
    FilteredDistinct(order, HasParent(parents, None));
    FilteredMembers(order, HasParent(parents, None));
    assert forall x | x in Kids(order, parents, None) :: parents[x] == None;
    LayerOf(parents, d, Kids(order, parents, None), 1);
  }

  lemma CoveredOnce(order: seq<string>, parents: Parents, d: map<string, nat>, y: string)
    requires Covers(order, parents) && IsDepthMap(parents, d)
    ensures Under(parents, d, Kids(order, parents, None), 1, y) <==> y in order
  {
    FilteredMembers(order, HasParent(parents, None));
    if y in parents { UnderRoots(parents, d, y); }
  }

  lemma {:induction false} DistinctOnce(ids: seq<string>, y: string)
    requires Distinct(ids)
    ensures multiset(ids)[y] == if y in ids then 1 else 0
    decreases |ids|
  {
    if ids == [] {
    } else {
      DistinctOnce(ids[1..], y);
      assert ids == [ids[0]] + ids[1..];
      assert ids[0] !in ids[1..];
    }
  }
}
