/**
 The static tree query of internal/dictionary/service.go: load the enabled rows, filter,
 sort, build and copy.  Its answer always passes the validator that guards cached results.
 */
module TreeQuery {
  import opened Wrappers
  import opened Forest
  import opened ForestWindows
  import opened TreeItems
  import opened TreeFilter
  import opened TreeSelection
  import opened TreeCopy
  import opened ResultTree
  import opened ResultValidator
  import opened TreeShape

  type Answer = ResultValidator.Result

  datatype Outcome = Answered(result: Answer) | TooLarge | TooMany | Invalid

  /** The rows the query selects: disabled ones only on request. */
  function Rows(q: Query, stored: seq<Item>): seq<Item> {
    if stored == [] then [] else (if Enabled(q, stored[0]) then [stored[0]] else []) + Rows(q, stored[1..])
  }

  /** Rows a static dictionary may hold: fields as the item checks require, ids, codes and values unique. */
  ghost predicate WellFormed(rules: Rules, stored: seq<Item>) {
    && AllDifferent(stored)
    && (forall i | 0 <= i < |stored| :: rules.fieldsOk(stored[i]))
    && forall item: Item :: rules.fieldsOk(item) ==> item.id != "" && rules.rowFits(item)
  }

  lemma {:induction false} RowsSelected(q: Query, stored: seq<Item>, item: Item)
    ensures item in Rows(q, stored) ==> item in stored && Enabled(q, item)
    decreases |stored|
  {
    if stored == [] {
    } else {
      RowsSelected(q, stored[1..], item);
    }
  }

  lemma DifferentCons(item: Item, items: seq<Item>)
    requires AllDifferent(items)
    requires forall x | x in items :: item.id != x.id && item.code != x.code && Selectable(item) != Selectable(x)
    ensures AllDifferent([item] + items)
  {
    var all := [item] + items;
    forall i, j | 0 <= i < j < |all|
      ensures all[i].id != all[j].id && all[i].code != all[j].code && Selectable(all[i]) != Selectable(all[j])
    {
      assert all[j] == items[j - 1];
      if i > 0 { assert all[i] == items[i - 1]; }
    }
  }

  lemma {:induction false} RowsDifferent(q: Query, stored: seq<Item>)
    requires AllDifferent(stored)
    ensures AllDifferent(Rows(q, stored))
    decreases |stored|
  {
    if stored == [] {
    } else {
      var rest := stored[1..];
      assert forall i | 0 <= i < |rest| :: rest[i] == stored[i + 1];
      RowsDifferent(q, rest);
      forall x | x in Rows(q, rest)
        ensures stored[0].id != x.id && stored[0].code != x.code && Selectable(stored[0]) != Selectable(x)
      {
        RowsSelected(q, rest, x);
      }
      DifferentCons(stored[0], Rows(q, rest));
    }
  }

  lemma RowsWellFormed(rules: Rules, q: Query, stored: seq<Item>)
    requires WellFormed(rules, stored)
    ensures WellFormed(rules, Rows(q, stored)) && forall item | item in Rows(q, stored) ::
        item in stored && Enabled(q, item)
  {
    RowsDifferent(q, stored);
    forall item | item in Rows(q, stored)
      ensures item in stored && Enabled(q, item)
    {
      RowsSelected(q, stored, item);
    }
  }

  // ---- Kept items form a forest ---------------------------------------------

  lemma {:induction false} KeptIsSome(lower: Lower, byId: Items, q: Query, items: seq<Item>, item: Item)
    ensures item in KeptItems(lower, byId, q, items) <==> item in items && Kept(lower, byId, q, item.id)
    decreases |items|
  {
    if items == [] {
    } else {
      KeptIsSome(lower, byId, q, items[1..], item);
      assert items == [items[0]] + items[1..];
    }
  }

  lemma {:induction false} KeptSize(rules: Rules, byId: Items, q: Query, items: seq<Item>)
    ensures var kept := KeptItems(rules.lower, byId, q, items);
            |kept| <= |items| && TotalSize(rules, kept) <= TotalSize(rules, items)
    decreases |items|
  {
    if items == [] {
    } else {
      var kept := KeptItems(rules.lower, byId, q, items[1..]);
      KeptSize(rules, byId, q, items[1..]);
      assert ([items[0]] + kept)[1..] == kept && [] + kept == kept;
      assert TotalSize(rules, [items[0]] + kept) == rules.size(items[0]) + TotalSize(rules, kept);
    }
  }

  lemma DifferentTail(items: seq<Item>)
    requires AllDifferent(items) && items != []
    ensures AllDifferent(items[1..])
    ensures forall x | x in items[1..] ::
        items[0].id != x.id && items[0].code != x.code && Selectable(items[0]) != Selectable(x)
  {
    assert forall i | 0 <= i < |items[1..]| :: items[1..][i] == items[i + 1];
  }

  lemma {:induction false} KeptDifferent(lower: Lower, byId: Items, q: Query, items: seq<Item>)
    requires AllDifferent(items)
    ensures AllDifferent(KeptItems(lower, byId, q, items))
    decreases |items|
  {
    if items == [] {
    } else {
      var rest := items[1..];
      DifferentTail(items);
      KeptDifferent(lower, byId, q, rest);
      forall x | x in KeptItems(lower, byId, q, rest)
        ensures x in rest
      {
        KeptIsSome(lower, byId, q, rest, x);
      }
      DifferentCons(items[0], KeptItems(lower, byId, q, rest));
    }
  }

  lemma KeptMembers(rules: Rules, byId: Items, q: Query, items: seq<Item>)
    requires AllDifferent(items)
    ensures var kept := KeptItems(rules.lower, byId, q, items);
            && (forall item :: item in kept <==> item in items && Kept(rules.lower, byId, q, item.id))
            && AllDifferent(kept) && |kept| <= |items| && TotalSize(rules, kept) <= TotalSize(rules, items)
  {
    KeptDifferent(rules.lower, byId, q, items);
    KeptSize(rules, byId, q, items);
    forall item: Item
      ensures item in KeptItems(rules.lower, byId, q, items) <==> item in items && Kept(rules.lower, byId, q, item.id)
    {
      KeptIsSome(rules.lower, byId, q, items, item);
    }
  }

  ghost function PathOf(byId: Items, q: Query, x: string): (p: seq<string>)
    requires Rooted(byId, q, x)
    ensures RootPath(byId, q, p) && p[0] == x
  {
    var p :| RootPath(byId, q, p) && p[0] == x;
    p
  }

  lemma KeptRooted(lower: Lower, byId: Items, q: Query, x: string)
    requires Kept(lower, byId, q, x)
    ensures Rooted(byId, q, x) && x in byId && Enabled(q, byId[x])
  {
    var p :| RootPath(byId, q, p) && x in p && Matches(lower, q, byId[p[0]]);
    var k :| 0 <= k < |p| && p[k] == x;
    RootPathTail(byId, q, p, k);
    assert p[k..][0] == x;
  }

  /** A kept item's parent is kept, one step nearer to the root. */
  lemma KeptParent(lower: Lower, byId: Items, q: Query, x: string)
    requires Kept(lower, byId, q, x) && x in byId
    ensures Rooted(byId, q, x)
    ensures match byId[x].parent
            case None => |PathOf(byId, q, x)| == 1
            case Some(p) =>
              Kept(lower, byId, q, p) && Rooted(byId, q, p) && |PathOf(byId, q, x)| == |PathOf(byId, q, p)| + 1
  {
    KeptRooted(lower, byId, q, x);
    FirstStep(byId, q, PathOf(byId, q, x));
    if byId[x].parent.Some? {
      var parent := byId[x].parent.value;
      var p :| RootPath(byId, q, p) && x in p && Matches(lower, q, byId[p[0]]);
      var k :| 0 <= k < |p| && p[k] == x;
      RootPathTail(byId, q, p, k);
      FirstStep(byId, q, p[k..]);
      assert p[k + 1] == parent;
      assert parent in p;
      ParentRooted(byId, q, x, parent);
      var longer := PathOf(byId, q, x);
      RootPathTail(byId, q, longer, 1);
      RootPathUnique(byId, q, longer[1..], PathOf(byId, q, parent));
    }
  }

  /** A kept item that does not match has a kept child. */
  lemma KeptChild(lower: Lower, byId: Items, q: Query, x: string) returns (kid: string)
    requires Kept(lower, byId, q, x) && x in byId && !Matches(lower, q, byId[x])
    ensures Kept(lower, byId, q, kid) && kid in byId && byId[kid].parent == Some(x)
  {
    var p :| RootPath(byId, q, p) && x in p && Matches(lower, q, byId[p[0]]);
    var k :| 0 <= k < |p| && p[k] == x;
    kid := p[k - 1];
    assert byId[p[k - 1]].parent == Some(p[k - 1 + 1]);
    assert kid in p;
  }

  /** Some item of the filtered tree sits below level 512. */
  ghost predicate TooDeep(lower: Lower, byId: Items, q: Query) {
    exists x :: x in byId && Kept(lower, byId, q, x) && PathDepth(byId, q, x) > MAX_TREE_DEPTH
  }

  function ItemLinks(items: seq<Item>): (r: seq<Link>)
    ensures |r| == |items| && forall i | 0 <= i < |items| :: r[i] == Link(items[i].id, items[i].parent)
  {
    seq(|items|, i requires 0 <= i < |items| => Link(items[i].id, items[i].parent))
  }

  /** The filtered items in sibling order. */
  ghost predicate SortedKept(rules: Rules, q: Query, rows: seq<Item>, sorted: seq<Item>) {
    && WellFormed(rules, rows) && (forall item | item in rows :: Enabled(q, item))
    && multiset(sorted) == multiset(KeptItems(rules.lower, ById(rows), q, rows))
    && Sorted(q.sort, sorted)
  }

  lemma SortedKeptMembers(rules: Rules, q: Query, rows: seq<Item>, sorted: seq<Item>)
    requires SortedKept(rules, q, rows, sorted)
    ensures AllDifferent(sorted) && UniqueItemIds(sorted) && UniqueItemIds(rows)
    ensures forall item :: item in sorted <==> item in rows && Kept(rules.lower, ById(rows), q, item.id)
    ensures |sorted| <= |rows| && TotalSize(rules, sorted) <= TotalSize(rules, rows)
  {
    var kept := KeptItems(rules.lower, ById(rows), q, rows);
    KeptMembers(rules, ById(rows), q, rows);
    ReorderedDifferent(rules, sorted, kept);
    forall item: Item
      ensures item in sorted <==> item in kept
    {
      assert item in multiset(sorted) <==> item in multiset(kept);
    }
  }

  ghost function PathDepth(byId: Items, q: Query, x: string): nat {
    if Rooted(byId, q, x) then |PathOf(byId, q, x)| else 0
  }

  ghost function PathDepths(byId: Items, q: Query, parents: Parents): map<string, nat> {
    map x | x in parents :: PathDepth(byId, q, x)
  }

  /** `parents` says of x what the kept items say. */
  ghost predicate KeptAt(lower: Lower, byId: Items, q: Query, parents: Parents, x: string) {
    && (x in parents <==> x in byId && Kept(lower, byId, q, x))
    && (x in parents ==> parents[x] == byId[x].parent)
  }

  ghost predicate KeptParents(lower: Lower, byId: Items, q: Query, parents: Parents) {
    forall x {:trigger KeptAt(lower, byId, q, parents, x)} :: KeptAt(lower, byId, q, parents, x)
  }

  /** The links of the sorted items: unique ids, and exactly the kept ids with their parents. */
  lemma SortedKeptLinks(rules: Rules, q: Query, rows: seq<Item>, sorted: seq<Item>)
    requires SortedKept(rules, q, rows, sorted)
    ensures UniqueIds(ItemLinks(sorted))
    ensures KeptParents(rules.lower, ById(rows), q, ParentsOf(ItemLinks(sorted)))
  {
    var byId, links := ById(rows), ItemLinks(sorted);
    SortedKeptMembers(rules, q, rows, sorted);
    forall i | 0 <= i < |links|
      ensures links[i].id != ""
    {
      assert sorted[i] in sorted;
    }
    forall x
      ensures KeptAt(rules.lower, byId, q, ParentsOf(links), x)
    {
      SortedKeptLinkAt(rules, q, rows, sorted, x);
    }
  }

  lemma LinkedIsKept(rules: Rules, q: Query, rows: seq<Item>, sorted: seq<Item>, x: string)
    requires SortedKept(rules, q, rows, sorted) && UniqueIds(ItemLinks(sorted)) && x in ParentsOf(ItemLinks(sorted))
    ensures x in ById(rows) && Kept(rules.lower, ById(rows), q, x)
        && ParentsOf(ItemLinks(sorted))[x] == ById(rows)[x].parent
  {
    var links := ItemLinks(sorted);
    SortedKeptMembers(rules, q, rows, sorted);
    ByIdIn(rows);
    ParentsCovered(links);
    ParentsKeys(links, |links|);
    var i :| 0 <= i < |links| && links[i].id == x;
    assert sorted[i] in sorted;
    var k :| 0 <= k < |rows| && rows[k] == sorted[i];
  }

  lemma KeptIsLinked(rules: Rules, q: Query, rows: seq<Item>, sorted: seq<Item>, x: string)
    requires SortedKept(rules, q, rows, sorted) && UniqueIds(ItemLinks(sorted))
    requires x in ById(rows) && Kept(rules.lower, ById(rows), q, x)
    ensures x in ParentsOf(ItemLinks(sorted))
  {
    var links := ItemLinks(sorted);
    SortedKeptMembers(rules, q, rows, sorted);
    ByIdIn(rows);
    assert ById(rows)[x] in sorted;
    var i :| 0 <= i < |sorted| && sorted[i] == ById(rows)[x];
    ParentsCovered(links);
    assert links[i].id == x;
  }

  lemma SortedKeptLinkAt(rules: Rules, q: Query, rows: seq<Item>, sorted: seq<Item>, x: string)
    requires SortedKept(rules, q, rows, sorted) && UniqueIds(ItemLinks(sorted))
    ensures KeptAt(rules.lower, ById(rows), q, ParentsOf(ItemLinks(sorted)), x)
  {
    if x in ParentsOf(ItemLinks(sorted)) { LinkedIsKept(rules, q, rows, sorted, x); }
    if x in ById(rows) && Kept(rules.lower, ById(rows), q, x) { KeptIsLinked(rules, q, rows, sorted, x); }
  }

  /** Kept items always form a forest; only its depth can be refused. */
  lemma SortedKeptForest(rules: Rules, q: Query, rows: seq<Item>, sorted: seq<Item>)
    requires SortedKept(rules, q, rows, sorted)
    ensures var parents := ParentsOf(ItemLinks(sorted));
            IsDepthMap(parents, PathDepths(ById(rows), q, parents))
    ensures Acceptable(ItemLinks(sorted)) <==> !TooDeep(rules.lower, ById(rows), q)
  {
    var byId, parents := ById(rows), ParentsOf(ItemLinks(sorted));
    SortedKeptLinks(rules, q, rows, sorted);
    PathDepthsOk(rules.lower, byId, q, parents);
    DepthLimit(parents, PathDepths(byId, q, parents));
    DeepPath(rules.lower, byId, q, parents);
  }

  lemma DeepPath(lower: Lower, byId: Items, q: Query, parents: Parents)
    requires KeptParents(lower, byId, q, parents)
    ensures var d := PathDepths(byId, q, parents);
            TooDeep(lower, byId, q) <==> exists x :: x in d && d[x] > MAX_TREE_DEPTH
  {
    var d := PathDepths(byId, q, parents);
    if x :| x in d && d[x] > MAX_TREE_DEPTH {
      assert KeptAt(lower, byId, q, parents, x);
    }
    if x :| x in byId && Kept(lower, byId, q, x) && PathDepth(byId, q, x) > MAX_TREE_DEPTH {
      assert KeptAt(lower, byId, q, parents, x);
      assert x in d && d[x] > MAX_TREE_DEPTH;
    }
  }

  lemma PathDepthsOk(lower: Lower, byId: Items, q: Query, parents: Parents)
    requires KeptParents(lower, byId, q, parents)
    ensures IsDepthMap(parents, PathDepths(byId, q, parents))
  {
    var d := PathDepths(byId, q, parents);
    forall x | x in parents
      ensures match parents[x] case None => d[x] == 1 case Some(p) => p in d && d[x] == d[p] + 1
    {
      PathDepthAt(lower, byId, q, parents, x);
    }
  }

  lemma PathDepthAt(lower: Lower, byId: Items, q: Query, parents: Parents, x: string)
    requires KeptParents(lower, byId, q, parents) && x in parents
    ensures match parents[x]
            case None => PathDepth(byId, q, x) == 1
            case Some(p) => p in parents && PathDepth(byId, q, x) == PathDepth(byId, q, p) + 1
  {
    assert KeptAt(lower, byId, q, parents, x);
    KeptParent(lower, byId, q, x);
    if parents[x].Some? {
      KeptRooted(lower, byId, q, parents[x].value);
      assert KeptAt(lower, byId, q, parents, parents[x].value);
    }
  }

  // ---- The tree of kept items -----------------------------------------------

  lemma SortedById(rules: Rules, q: Query, sorted: seq<Item>)
    requires UniqueItemIds(sorted) && Sorted(q.sort, sorted)
    ensures SortedIds(q.sort, ById(sorted), Ids(ItemLinks(sorted)))
  {
    ByIdIn(sorted);
  }

  lemma KeptHasMatch(rules: Rules, q: Query, rows: seq<Item>, sorted: seq<Item>, x: string)
    requires SortedKept(rules, q, rows, sorted) && x in ParentsOf(ItemLinks(sorted))
    ensures KeptItem(rules, q, Ids(ItemLinks(sorted)), ParentsOf(ItemLinks(sorted)), ById(sorted), x)
    ensures ById(sorted)[x].id == x
  {
    var links := ItemLinks(sorted);
    var parents, order := ParentsOf(links), Ids(links);
    SortedKeptMembers(rules, q, rows, sorted);
    SortedKeptLinks(rules, q, rows, sorted);
    ByIdIn(sorted);
    ByIdIn(rows);
    ParentsCovered(links);
    var i :| 0 <= i < |links| && links[i].id == x;
    assert sorted[i] in sorted;
    var item := sorted[i];
    var k :| 0 <= k < |rows| && rows[k] == item;
    assert KeptAt(rules.lower, ById(rows), q, parents, x);
    KeptRooted(rules.lower, ById(rows), q, x);
    if !Matches(rules.lower, q, item) {
      var kid := KeptChild(rules.lower, ById(rows), q, x);
      FilteredMembers(order, HasParent(parents, Some(x)));
      assert KeptAt(rules.lower, ById(rows), q, parents, kid);
      assert kid in order;
      assert kid in Kids(order, parents, Some(x));
    }
  }

  lemma SortedKeptShape(rules: Rules, q: Query, rows: seq<Item>, sorted: seq<Item>)
    requires SortedKept(rules, q, rows, sorted) && !TooDeep(rules.lower, ById(rows), q)
    ensures var links := ItemLinks(sorted);
            exists d :: KeptForest(rules, q, Ids(links), ParentsOf(links), d, ById(sorted))
  {
    var links := ItemLinks(sorted);
    var parents, order, byId := ParentsOf(links), Ids(links), ById(sorted);
    SortedKeptMembers(rules, q, rows, sorted);
    SortedKeptLinks(rules, q, rows, sorted);
    SortedKeptForest(rules, q, rows, sorted);
    ParentsCovered(links);
    var d := PathDepths(ById(rows), q, parents);
    SortedById(rules, q, sorted);
    forall x | x in parents
      ensures KeptItem(rules, q, order, parents, byId, x) && byId[x].id == x && d[x] <= MAX_TREE_DEPTH
    {
      KeptHasMatch(rules, q, rows, sorted, x);
      DepthOfKept(rules, q, rows, sorted, x);
    }
    assert KeptForest(rules, q, order, parents, d, byId);
  }

  lemma DepthOfKept(rules: Rules, q: Query, rows: seq<Item>, sorted: seq<Item>, x: string)
    requires SortedKept(rules, q, rows, sorted) && !TooDeep(rules.lower, ById(rows), q)
    requires x in ParentsOf(ItemLinks(sorted))
    ensures PathDepth(ById(rows), q, x) <= MAX_TREE_DEPTH
  {
    SortedKeptLinks(rules, q, rows, sorted);
    DeepPath(rules.lower, ById(rows), q, ParentsOf(ItemLinks(sorted)));
    assert PathDepths(ById(rows), q, ParentsOf(ItemLinks(sorted)))[x] == PathDepth(ById(rows), q, x);
  }

  /** The tree grown from the kept items is sound and holds each of them once. */
  lemma KeptTreeTrusted(rules: Rules, q: Query, rows: seq<Item>, sorted: seq<Item>, ts: seq<Tree<Item>>)
    requires SortedKept(rules, q, rows, sorted) && !TooDeep(rules.lower, ById(rows), q)
    requires var g := Whole(Ids(ItemLinks(sorted)), ParentsOf(ItemLinks(sorted)));
             ts == Grow(g, ById(sorted), g.roots, MAX_TREE_DEPTH)
    ensures Sound(rules, q, TreeKind, ts, None, 1) && multiset(Flatten(ts)) == multiset(sorted)
  {
    var links, byId := ItemLinks(sorted), ById(sorted);
    var order, parents := Ids(links), ParentsOf(links);
    SortedKeptShape(rules, q, rows, sorted);
    var d :| KeptForest(rules, q, order, parents, d, byId);
    GrownSound(rules, q, order, parents, d, byId, None, 1, MAX_TREE_DEPTH, ts);
    ForestIsPermutation(order, parents, d, byId, MAX_TREE_DEPTH);
    SortedKeptMembers(rules, q, rows, sorted);
    SameItems(sorted, order, parents, ts);
  }

  lemma SameItems(sorted: seq<Item>, order: seq<string>, parents: Parents, ts: seq<Tree<Item>>)
    requires UniqueItemIds(sorted) && order == Ids(ItemLinks(sorted))
    requires ts == Grow(Whole(order, parents), ById(sorted), Kids(order, parents, None), MAX_TREE_DEPTH)
    requires multiset(FlattenIds(ts)) == multiset(order)
    ensures multiset(Flatten(ts)) == multiset(sorted)
  {
    var byId := ById(sorted);
    ByIdIn(sorted);
    GrownFrom(Whole(order, parents), byId, Kids(order, parents, None), MAX_TREE_DEPTH);
    FlattenIdsOf(ts);
    SameIds(Flatten(ts), FlattenIds(ts));
    SameIds(sorted, order);
    SameBag(byId, Flatten(ts), sorted);
  }

  lemma SameIds(items: seq<Item>, ids: seq<string>)
    requires |items| == |ids| && forall i | 0 <= i < |items| :: ids[i] == items[i].id
    ensures IdsOf(items) == ids
  {}

  // ---- The query ------------------------------------------------------------

  function FirstRows(rows: seq<Item>, n: nat): seq<Item> { if |rows| <= n then rows else rows[..n] }

  /** No row has an overlong field and all together fit the size limit. */
  predicate Readable(rules: Rules, rows: seq<Item>) {
    (forall i | 0 <= i < |rows| :: rules.rowFits(rows[i])) && TotalSize(rules, rows) <= MAX_ITEMS_BYTES
  }

  /** Reads the rows of a statement and stops at an overlong field or the size limit. */
  method SelectQueryItems(rules: Rules, read: seq<Item>) returns (ok: bool)
    ensures ok <==> Readable(rules, read)
  {
    var itemBytes := 0;
    for i := 0 to |read|
      invariant forall j | 0 <= j < i :: rules.rowFits(read[j])
      invariant itemBytes == TotalSize(rules, read[..i]) <= MAX_ITEMS_BYTES
    {
      if !rules.rowFits(read[i]) { return false; }
      var encoded := rules.size(read[i]);
      assert read == read[..i + 1] + read[i + 1..];
      SizeConcat2(rules, read[..i + 1], read[i + 1..]);
      assert read[..i + 1] == read[..i] + [read[i]];
      SizeConcat2(rules, read[..i], [read[i]]);
      if encoded > MAX_ITEMS_BYTES - itemBytes { return false; }
      itemBytes := itemBytes + encoded;
    }
    assert read[..|read|] == read;
    ok := true;
  }

  lemma {:induction false} CopyIsSame(ts: seq<Tree<Item>>)
    ensures MapTrees((item: Item) => item, ts) == ts
    decreases ts
  {
    if ts == [] {
    } else {
      CopyIsSame(ts[0].children);
      CopyIsSame(ts[1..]);
      assert ts == [ts[0]] + ts[1..];
    }
  }

  method BuildResultTree(rules: Rules, q: Query, filtered: seq<Item>) returns (r: Option<seq<Tree<Item>>>)
    ensures var sorted := SortItems(q.sort, filtered);
            var g := Whole(Ids(ItemLinks(sorted)), ParentsOf(ItemLinks(sorted)));
            && (r.Some? <==> Acceptable(ItemLinks(sorted)))
            && (r.Some? ==> r.value == Grow(g, ById(sorted), g.roots, MAX_TREE_DEPTH))
  {
    var ordered := SortItems(q.sort, filtered);
    var forest := BuildItemForest(ItemLinks(ordered));
    if forest.None? { return None; }
    var source := Grow(forest.value, ById(ordered), forest.value.roots, MAX_TREE_DEPTH);
    var cells := CopyForest((item: Item) => item, source);
    CopyIsSame(source);
    r := Some(Read(cells, 0, |source|));
  }

  /** The answer as a function of the query and the stored items. */
  ghost function StaticAnswer(rules: Rules, q: Query, stored: seq<Item>): Outcome {
    var rows := Rows(q, stored);
    if !Readable(rules, FirstRows(rows, rules.maxNodes + 1)) then TooLarge
    else if |rows| > rules.maxNodes then TooMany
    else
      var kept := KeptItems(rules.lower, ById(rows), q, rows);
      var links := ItemLinks(SortItems(q.sort, kept));
      var g := Whole(Ids(links), ParentsOf(links));
      if !Acceptable(links) then Invalid
      else Answered(Result(TreeKind, true, Some(Grow(g, ById(SortItems(q.sort, kept)), g.roots, MAX_TREE_DEPTH)), 0, 0,
          |kept|))
  }

  ghost predicate Loadable(rules: Rules, rows: seq<Item>) {
    |rows| <= rules.maxNodes && TotalSize(rules, rows) <= MAX_ITEMS_BYTES
  }

  /** An answer is one the validator trusts and holds exactly the kept items; only size, count or depth refuse one. */
  lemma AnswerTrusted(rules: Rules, q: Query, stored: seq<Item>)
    requires WellFormed(rules, stored)
    ensures var r, rows := StaticAnswer(rules, q, stored), Rows(q, stored);
            && (r.Answered? <==> Loadable(rules, rows) && !TooDeep(rules.lower, ById(rows), q))
            && (r.Answered? ==>
                  && Trusted(rules, q, 0, 0, r.result) && r.result.items.Some?
                  && multiset(Flatten(r.result.items.value)) == multiset(KeptItems(rules.lower, ById(rows), q, rows)))
  {
    var r, rows := StaticAnswer(rules, q, stored), Rows(q, stored);
    RowsWellFormed(rules, q, stored);
    FirstRowsSmaller(rules, rows, rules.maxNodes + 1);
    var kept := KeptItems(rules.lower, ById(rows), q, rows);
    var sorted := SortItems(q.sort, kept);
    SortItemsSorted(q.sort, kept);
    SortedKeptForest(rules, q, rows, sorted);
    if r.Answered? {
      var ts := r.result.items.value;
      KeptTreeTrusted(rules, q, rows, sorted, ts);
      SortedKeptMembers(rules, q, rows, sorted);
      ReorderedDifferent(rules, Flatten(ts), sorted);
      KeptCount(rules, q, rows, kept, sorted, ts);
    }
  }

  lemma AnswerIsSelected(rules: Rules, q: Query, stored: seq<Item>, item: Item)
    requires WellFormed(rules, stored) && StaticAnswer(rules, q, stored).Answered?
    ensures var answer := StaticAnswer(rules, q, stored).result;
            answer.items.Some? &&
            (item in Flatten(answer.items.value) <==> OnSelectedPath(rules.lower, q, stored, item))
  {
    var rows, answer := Rows(q, stored), StaticAnswer(rules, q, stored).result;
    AnswerTrusted(rules, q, stored);
    RowsSeen(rules, q, stored);
    KeptIsSome(rules.lower, ById(rows), q, rows, item);
    assert item in Flatten(answer.items.value) <==> item in KeptItems(rules.lower, ById(rows), q, rows) by {
      assert item in multiset(Flatten(answer.items.value))
        <==> item in multiset(KeptItems(rules.lower, ById(rows), q, rows));
    }
    if item in rows {
      KeptIsOnSelectedPath(rules.lower, q, stored, rows, item);
    } else if OnSelectedPath(rules.lower, q, stored, item) {
      OnPathIsRow(rules.lower, q, stored, rows, item);
    }
  }

  /** An answer holds exactly the rows on the way up from one that the enumeration's clause selects. */
  ghost predicate ShowsSelected(rules: Rules, q: Query, stored: seq<Item>, r: Outcome) {
    r.Answered? ==>
      && r.result.items.Some?
      && forall item :: item in Flatten(r.result.items.value) <==> OnSelectedPath(rules.lower, q, stored, item)
  }

  lemma AnswerShowsSelected(rules: Rules, q: Query, stored: seq<Item>)
    requires WellFormed(rules, stored)
    ensures ShowsSelected(rules, q, stored, StaticAnswer(rules, q, stored))
  {
    if StaticAnswer(rules, q, stored).Answered? {
      forall item
        ensures var answer := StaticAnswer(rules, q, stored).result;
                answer.items.Some? &&
                (item in Flatten(answer.items.value) <==> OnSelectedPath(rules.lower, q, stored, item))
      {
        AnswerIsSelected(rules, q, stored, item);
      }
    }
  }

  lemma RowsSeen(rules: Rules, q: Query, stored: seq<Item>)
    requires WellFormed(rules, stored)
    ensures Sees(q, stored, Rows(q, stored))
  {
    RowsWellFormed(rules, q, stored);
    forall item | item in stored && Enabled(q, item)
      ensures item in Rows(q, stored)
    {
      EnabledIsRow(q, stored, item);
    }
  }

  lemma {:induction false} EnabledIsRow(q: Query, stored: seq<Item>, item: Item)
    requires item in stored && Enabled(q, item)
    ensures item in Rows(q, stored)
    decreases |stored|
  {
    if item != stored[0] { EnabledIsRow(q, stored[1..], item); }
  }

  /**
   The tree query: load the enabled rows, filter, sort, build, copy.  It answers exactly
   when the rows fit and no kept item sits below level 512; its answer holds exactly the
   kept items, the rows on the way up from one that the enumeration's clause selects, and is
   always one the validator trusts.
   */
  method QueryStaticTree(rules: Rules, q: Query, stored: seq<Item>) returns (r: Outcome)
    requires WellFormed(rules, stored)
    ensures r == StaticAnswer(rules, q, stored)
    ensures var rows := Rows(q, stored);
            r.Answered? <==> Loadable(rules, rows) && !TooDeep(rules.lower, ById(rows), q)
    ensures var rows := Rows(q, stored);
            r.Answered? ==>
              && Trusted(rules, q, 0, 0, r.result) && r.result.items.Some?
              && multiset(Flatten(r.result.items.value)) == multiset(KeptItems(rules.lower, ById(rows), q, rows))
    ensures ShowsSelected(rules, q, stored, r)
  {
    AnswerTrusted(rules, q, stored);
    AnswerShowsSelected(rules, q, stored);
    var rows := Rows(q, stored);
    RowsWellFormed(rules, q, stored);
    var fits := SelectQueryItems(rules, FirstRows(rows, rules.maxNodes + 1));
    if !fits { return TooLarge; }
    if |rows| > rules.maxNodes { return TooMany; }
    var filtered := FilterTreeItems(rules.lower, rows, q);
    var tree := BuildResultTree(rules, q, filtered);
    if tree.None? { return Invalid; }
    r := Answered(Result(TreeKind, true, Some(tree.value), 0, 0, |filtered|));
  }

  lemma KeptCount(rules: Rules, q: Query, rows: seq<Item>, filtered: seq<Item>, sorted: seq<Item>, ts: seq<Tree<Item>>)
    requires multiset(filtered) == multiset(sorted) == multiset(Flatten(ts))
    ensures |filtered| == |Flatten(ts)|
  {
    assert |multiset(filtered)| == |filtered| && |multiset(Flatten(ts))| == |Flatten(ts)|;
  }

  lemma FirstRowsSmaller(rules: Rules, rows: seq<Item>, n: nat)
    ensures TotalSize(rules, FirstRows(rows, n)) <= TotalSize(rules, rows)
  {
    if |rows| > n {
      assert rows == rows[..n] + rows[n..];
      SizeConcat2(rules, rows[..n], rows[n..]);
    }
  }
}
