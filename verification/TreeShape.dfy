/** Why the tree grown from kept, sorted items passes the result validator. */
module TreeShape {
  import opened Wrappers
  import opened Forest
  import opened TreeItems
  import opened TreeFilter
  import opened TreeCopy
  import opened ResultTree
  import opened ResultValidator

  ghost predicate SortedIds(rules: seq<SortRule>, byId: Items, ids: seq<string>) {
    && (forall i | 0 <= i < |ids| :: ids[i] in byId)
    && forall i, j | 0 <= i < j < |ids| :: !Less(rules, byId[ids[j]], byId[ids[i]])
  }

  lemma {:induction false} FilteredSorted(rules: seq<SortRule>, byId: Items, order: seq<string>, keep: string -> bool)
    requires SortedIds(rules, byId, order)
    ensures SortedIds(rules, byId, Filtered(order, keep))
    decreases |order|
  {
    if order == [] {
    } else {
      assert forall i | 0 <= i < |order[1..]| :: order[1..][i] == order[i + 1];
      FilteredSorted(rules, byId, order[1..], keep);
      FilteredMembers(order[1..], keep);
      var rest := Filtered(order[1..], keep);
      if keep(order[0]) {
        forall j | 0 <= j < |rest|
          ensures !Less(rules, byId[rest[j]], byId[order[0]])
        {
          assert rest[j] in rest;
          var k :| 0 <= k < |order[1..]| && order[1..][k] == rest[j];
          assert order[k + 1] == rest[j];
        }
      }
    }
  }

  /** Growing keeps one tree per id, in order. */
  lemma {:induction false} GrowAt(g: Graph, byId: Items, ids: seq<string>, levels: nat, i: nat)
    requires levels > 0 && i < |ids| && forall k | 0 <= k < |ids| :: ids[k] in byId
    ensures |Grow(g, byId, ids, levels)| == |ids|
    ensures Grow(g, byId, ids, levels)[i]
         == Node(byId[ids[i]], Grow(g, byId, if ids[i] in g.children then g.children[ids[i]] else [], levels - 1))
    decreases |ids|
  {
    assert forall k | 0 <= k < |ids[1..]| :: ids[1..][k] == ids[k + 1];
    if |ids| > 1 {
      GrowAt(g, byId, ids[1..], levels, if i == 0 then 0 else i - 1);
    } else {
      assert Grow(g, byId, ids[1..], levels) == [];
    }
  }

  /** A kept item: its own checks hold, and it matches or has a kept child. */
  ghost predicate KeptItem(rules: Rules, q: Query, order: seq<string>, parents: Parents, byId: Items, x: string) {
    && x in parents && x in byId
    && rules.fieldsOk(byId[x]) && Enabled(q, byId[x]) && byId[x].parent == parents[x]
    && (Matches(rules.lower, q, byId[x]) || Kids(order, parents, Some(x)) != [])
  }

  /** The forest of kept items, at most 512 levels deep, in sorted order. */
  ghost predicate KeptForest(rules: Rules, q: Query, order: seq<string>, parents: Parents, d: map<string, nat>,
          byId: Items)
  {
    && Grounded(order, parents, d, byId, MAX_TREE_DEPTH)
    && SortedIds(q.sort, byId, order)
    && forall x {:trigger KeptItem(rules, q, order, parents, byId, x)} | x in parents ::
       KeptItem(rules, q, order, parents, byId, x)
  }

  ghost predicate Unfolded(order: seq<string>) { true }

  /** The same, folded: its quantifiers only come into play where `Unfolded` is mentioned. */
  ghost predicate Folded(rules: Rules, q: Query, order: seq<string>, parents: Parents, d: map<string, nat>,
          byId: Items)
  {
    forall o {:trigger Unfolded(o)} | Unfolded(o) && o == order :: KeptForest(rules, q, o, parents, d, byId)
  }

  /** The level at which the children of p hang. */
  ghost predicate HangAt(parents: Parents, d: map<string, nat>, p: Option<string>, n: nat) {
    match p
    case None => n == 1
    case Some(x) => x in parents && x in d && n == d[x] + 1
  }

  lemma KidAt(rules: Rules, q: Query, order: seq<string>, parents: Parents, d: map<string, nat>, byId: Items,
          p: Option<string>, n: nat, i: nat)
    requires Folded(rules, q, order, parents, d, byId) && HangAt(parents, d, p, n) && i < |Kids(order, parents, p)|
    ensures var x := Kids(order, parents, p)[i];
            && x in parents && parents[x] == p && x in d && d[x] == n <= MAX_TREE_DEPTH
            && KeptItem(rules, q, order, parents, byId, x) && byId[x].id == x
  {
    assert Unfolded(order);
    FilteredMembers(order, HasParent(parents, p));
    var x := Kids(order, parents, p)[i];
    assert x in Kids(order, parents, p);
    assert parents[x] == p;
    assert KeptItem(rules, q, order, parents, byId, x);
  }

  lemma KidsInById(rules: Rules, q: Query, order: seq<string>, parents: Parents, d: map<string, nat>, byId: Items,
          p: Option<string>, n: nat)
    requires Folded(rules, q, order, parents, d, byId) && HangAt(parents, d, p, n)
    ensures forall k | 0 <= k < |Kids(order, parents, p)| :: Kids(order, parents, p)[k] in byId
    ensures Kids(order, parents, p) != [] ==> n <= MAX_TREE_DEPTH
  {
    var kids := Kids(order, parents, p);
    forall k | 0 <= k < |kids|
      ensures kids[k] in byId
    {
      KidAt(rules, q, order, parents, d, byId, p, n, k);
    }
    if kids != [] { KidAt(rules, q, order, parents, d, byId, p, n, 0); }
  }

  lemma GrowKidsAt(rules: Rules, q: Query, order: seq<string>, parents: Parents, d: map<string, nat>, byId: Items,
          p: Option<string>, n: nat, levels: nat, i: nat)
    requires Folded(rules, q, order, parents, d, byId) && HangAt(parents, d, p, n) && n + levels == MAX_TREE_DEPTH + 1
    requires i < |Kids(order, parents, p)|
    ensures levels > 0
    ensures var kids := Kids(order, parents, p);
            var ts := Grow(Whole(order, parents), byId, kids, levels);
            && |ts| == |kids| && kids[i] in byId
            && ts[i] == Node(byId[kids[i]],
                   Grow(Whole(order, parents), byId, Kids(order, parents, Some(kids[i])), levels - 1))
  {
    KidsInById(rules, q, order, parents, d, byId, p, n);
    KidAt(rules, q, order, parents, d, byId, p, n, i);
    GrowAt(Whole(order, parents), byId, Kids(order, parents, p), levels, i);
  }

  lemma GrowNoKids(g: Graph, byId: Items, levels: nat)
    ensures Grow(g, byId, [], levels) == []
  {}

  /** As many trees as children. */
  lemma GrowKidsCount(rules: Rules, q: Query, order: seq<string>, parents: Parents, d: map<string, nat>,
          byId: Items, p: Option<string>, n: nat, levels: nat)
    requires Folded(rules, q, order, parents, d, byId) && HangAt(parents, d, p, n) && n + levels == MAX_TREE_DEPTH + 1
    ensures |Grow(Whole(order, parents), byId, Kids(order, parents, p), levels)| == |Kids(order, parents, p)|
  {
    if Kids(order, parents, p) == [] {
      GrowNoKids(Whole(order, parents), byId, levels);
    } else {
      GrowKidsAt(rules, q, order, parents, d, byId, p, n, levels, 0);
    }
  }

  lemma SiblingsSorted(rules: Rules, q: Query, order: seq<string>, parents: Parents, d: map<string, nat>,
          byId: Items, p: Option<string>)
    requires Folded(rules, q, order, parents, d, byId)
    ensures SortedIds(q.sort, byId, Kids(order, parents, p))
  {
    assert Unfolded(order);
    FilteredSorted(q.sort, byId, order, HasParent(parents, p));
  }

  lemma GrownNodeSound(rules: Rules, q: Query, order: seq<string>, parents: Parents, d: map<string, nat>,
          byId: Items, p: Option<string>, n: nat, levels: nat, i: nat)
    requires Folded(rules, q, order, parents, d, byId) && HangAt(parents, d, p, n) && n + levels == MAX_TREE_DEPTH + 1
    requires i < |Kids(order, parents, p)| == |Grow(Whole(order, parents), byId, Kids(order, parents, p), levels)|
    ensures NodeSound(rules, q, TreeKind, Grow(Whole(order, parents), byId, Kids(order, parents, p), levels), i, p)
  {
    var kids := Kids(order, parents, p);
    KidAt(rules, q, order, parents, d, byId, p, n, i);
    GrowKidsAt(rules, q, order, parents, d, byId, p, n, levels, i);
    if i > 0 {
      SiblingsSorted(rules, q, order, parents, d, byId, p);
      GrowKidsAt(rules, q, order, parents, d, byId, p, n, levels, i - 1);
    }
    GrowKidsCount(rules, q, order, parents, d, byId, Some(kids[i]), n + 1, levels - 1);
  }

  ghost predicate GrownBelow(order: seq<string>, parents: Parents, byId: Items, p: Option<string>, levels: nat,
          ts: seq<Tree<Item>>)
  {
    ts == Grow(Whole(order, parents), byId, Kids(order, parents, p), levels)
  }

  /** Everything grown below p is sound for p. */
  lemma {:induction false} GrownSound(rules: Rules, q: Query, order: seq<string>, parents: Parents,
          d: map<string, nat>, byId: Items, p: Option<string>, n: nat, levels: nat, ts: seq<Tree<Item>>)
    requires Folded(rules, q, order, parents, d, byId) && HangAt(parents, d, p, n) && n + levels == MAX_TREE_DEPTH + 1
    requires GrownBelow(order, parents, byId, p, levels, ts)
    ensures Sound(rules, q, TreeKind, ts, p, n)
    decreases levels
  {
    GrownNodes(rules, q, order, parents, d, byId, p, n, levels, ts);
    forall i | 0 <= i < |ts|
      ensures Sound(rules, q, TreeKind, ts[i].children, Some(ts[i].item.id), n + 1)
    {
      KidTree(rules, q, order, parents, d, byId, p, n, levels, ts, i);
      GrownSound(rules, q, order, parents, d, byId, Some(ts[i].item.id), n + 1, levels - 1, ts[i].children);
    }
  }

  lemma GrownNodes(rules: Rules, q: Query, order: seq<string>, parents: Parents, d: map<string, nat>, byId: Items,
          p: Option<string>, n: nat, levels: nat, ts: seq<Tree<Item>>)
    requires Folded(rules, q, order, parents, d, byId) && HangAt(parents, d, p, n) && n + levels == MAX_TREE_DEPTH + 1
    requires GrownBelow(order, parents, byId, p, levels, ts)
    ensures |ts| == |Kids(order, parents, p)| && (ts == [] || n <= MAX_TREE_DEPTH)
    ensures forall i {:trigger NodeSound(rules, q, TreeKind, ts, i, p)} | 0 <= i < |ts| ::
        NodeSound(rules, q, TreeKind, ts, i, p)
  {
    GrowKidsCount(rules, q, order, parents, d, byId, p, n, levels);
    KidsInById(rules, q, order, parents, d, byId, p, n);
    forall i | 0 <= i < |ts|
      ensures NodeSound(rules, q, TreeKind, ts, i, p)
    {
      GrownNodeSound(rules, q, order, parents, d, byId, p, n, levels, i);
    }
  }

  lemma KidTree(rules: Rules, q: Query, order: seq<string>, parents: Parents, d: map<string, nat>, byId: Items,
          p: Option<string>, n: nat, levels: nat, ts: seq<Tree<Item>>, i: nat)
    requires Folded(rules, q, order, parents, d, byId) && HangAt(parents, d, p, n) && n + levels == MAX_TREE_DEPTH + 1
    requires GrownBelow(order, parents, byId, p, levels, ts) && i < |ts| == |Kids(order, parents, p)|
    ensures levels > 0 && HangAt(parents, d, Some(ts[i].item.id), n + 1)
    ensures GrownBelow(order, parents, byId, Some(ts[i].item.id), levels - 1, ts[i].children)
  {
    KidAt(rules, q, order, parents, d, byId, p, n, i);
    GrowKidsAt(rules, q, order, parents, d, byId, p, n, levels, i);
  }

  // ---- The items of the tree are the items of the input ---------------------

  /** Growing only uses the items on file. */
  lemma {:induction false} GrownFrom(g: Graph, byId: Items, ids: seq<string>, levels: nat)
    requires forall x | x in byId :: byId[x].id == x
    ensures forall item | item in Flatten(Grow(g, byId, ids, levels)) :: item.id in byId && byId[item.id] == item
    decreases levels, |ids|
  {
    if levels > 0 && ids != [] && ids[0] in byId {
      var kids := if ids[0] in g.children then g.children[ids[0]] else [];
      GrownFrom(g, byId, kids, levels - 1);
      GrownFrom(g, byId, ids[1..], levels);
      var down, across := Grow(g, byId, kids, levels - 1), Grow(g, byId, ids[1..], levels);
      var all := Grow(g, byId, ids, levels);
      assert all == [Node(byId[ids[0]], down)] + across;
      assert all[0] == Node(byId[ids[0]], down) && all[1..] == across;
    }
  }

  function IdsOf(items: seq<Item>): (r: seq<string>)
    ensures |r| == |items| && forall i | 0 <= i < |items| :: r[i] == items[i].id
  {
    if items == [] then [] else [items[0].id] + IdsOf(items[1..])
  }

  /** An item occurs as often as its id. */
  lemma {:induction false} CountById(byId: Items, items: seq<Item>, z: Item)
    requires forall item | item in items :: item.id in byId && byId[item.id] == item
    ensures multiset(items)[z] == if z.id in byId && byId[z.id] == z then multiset(IdsOf(items))[z.id] else 0
    decreases |items|
  {
    if items == [] {
    } else {
      CountById(byId, items[1..], z);
      assert items == [items[0]] + items[1..];
      assert items[0] in items;
      assert IdsOf(items) == [items[0].id] + IdsOf(items[1..]);
    }
  }

  lemma SameBag(byId: Items, a: seq<Item>, b: seq<Item>)
    requires forall item | item in a :: item.id in byId && byId[item.id] == item
    requires forall item | item in b :: item.id in byId && byId[item.id] == item
    requires multiset(IdsOf(a)) == multiset(IdsOf(b))
    ensures multiset(a) == multiset(b)
  {
    forall z: Item
      ensures multiset(a)[z] == multiset(b)[z]
    {
      CountById(byId, a, z);
      CountById(byId, b, z);
    }
  }

  // ---- What a reordering keeps ----------------------------------------------

  lemma {:induction false} SizeOfBag(rules: Rules, a: seq<Item>, b: seq<Item>)
    requires multiset(a) == multiset(b)
    ensures |a| == |b| && TotalSize(rules, a) == TotalSize(rules, b)
    decreases |a|
  {
    assert |multiset(a)| == |a| && |multiset(b)| == |b|;
    if a == [] {
    } else {
      assert a[0] in multiset(b);
      var k :| 0 <= k < |b| && b[k] == a[0];
      Without(rules, a, 0);
      Without(rules, b, k);
      SizeOfBag(rules, a[..0] + a[1..], b[..k] + b[k + 1..]);
    }
  }

  lemma Without(rules: Rules, b: seq<Item>, k: nat)
    requires k < |b|
    ensures multiset(b[..k] + b[k + 1..]) == multiset(b) - multiset{b[k]}
    ensures TotalSize(rules, b) == rules.size(b[k]) + TotalSize(rules, b[..k] + b[k + 1..])
  {
    var rest := [b[k]] + b[k + 1..];
    assert b == b[..k] + rest;
    assert multiset(b) == multiset(b[..k]) + multiset{b[k]} + multiset(b[k + 1..]);
    SizeConcat2(rules, b[..k], rest);
    SizeConcat2(rules, b[..k], b[k + 1..]);
    assert rest[1..] == b[k + 1..];
  }

  lemma {:induction false} SizeConcat2(rules: Rules, a: seq<Item>, b: seq<Item>)
    ensures TotalSize(rules, a + b) == TotalSize(rules, a) + TotalSize(rules, b)
    decreases |a|
  {
    if a == [] {
      assert a + b == b;
    } else {
      assert (a + b)[1..] == a[1..] + b;
      SizeConcat2(rules, a[1..], b);
    }
  }

  /** The same without positions: every item once, and no two share an id, a code or a value. */
  ghost predicate DifferentBag(bag: multiset<Item>) {
    && (forall x | x in bag :: bag[x] == 1)
    && forall x, y | x in bag && y in bag ::
       x.id == y.id || x.code == y.code || Selectable(x) == Selectable(y) ==> x == y
  }

  lemma {:induction false} TwiceIn(items: seq<Item>, i: nat, j: nat)
    requires i < j < |items| && items[i] == items[j]
    ensures multiset(items)[items[i]] >= 2
  {
    assert items == items[..j] + [items[j]] + items[j + 1..];
    assert items[i] in items[..j];
  }

  lemma {:induction false} OnceIn(items: seq<Item>, x: Item)
    requires AllDifferent(items)
    ensures multiset(items)[x] <= 1
    decreases |items|
  {
    if items == [] {
    } else {
      assert forall i | 0 <= i < |items[1..]| :: items[1..][i] == items[i + 1];
      OnceIn(items[1..], x);
      assert items == [items[0]] + items[1..];
      if x in items[1..] { assert x != items[0]; }
    }
  }

  lemma BagDifferent(items: seq<Item>)
    ensures AllDifferent(items) <==> DifferentBag(multiset(items))
  {
    if AllDifferent(items) {
      forall x | x in multiset(items)
        ensures multiset(items)[x] == 1
      {
        OnceIn(items, x);
      }
    }
    if DifferentBag(multiset(items)) {
      forall i, j | 0 <= i < j < |items|
        ensures items[i].id != items[j].id && items[i].code != items[j].code
            && Selectable(items[i]) != Selectable(items[j])
      {
        assert items[i] in multiset(items) && items[j] in multiset(items);
        if items[i] == items[j] { TwiceIn(items, i, j); }
      }
    }
  }

  /** A reordering of different items is accepted by the counters when the original is. */
  lemma ReorderedDifferent(rules: Rules, a: seq<Item>, b: seq<Item>)
    requires multiset(a) == multiset(b)
    ensures AllDifferent(a) <==> AllDifferent(b)
    ensures |a| == |b| && TotalSize(rules, a) == TotalSize(rules, b)
  {
    BagDifferent(a);
    BagDifferent(b);
    SizeOfBag(rules, a, b);
  }
}
