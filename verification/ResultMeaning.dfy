/**
 What the validator of provided and cached results accepts, in terms of the result alone:
 its items, its shape, its order, and the database's clause at the ends of its branches.
 */
module ResultMeaning {
  import opened Wrappers
  import opened Forest
  import opened TreeItems
  import opened TreeCopy
  import opened ResultTree
  import opened ResultValidator
  import opened ItemClause
  import opened SiblingOrder

  /** Every item names the item above it as its parent. */
  predicate Parented(ts: seq<Tree<Item>>, parent: Option<string>)
    decreases ts
  {
    forall i | 0 <= i < |ts| :: ts[i].item.parent == parent && Parented(ts[i].children, Some(ts[i].item.id))
  }

  /** At most so many levels. */
  predicate Within(ts: seq<Tree<Item>>, levels: nat)
    decreases ts
  {
    ts == [] || (levels > 0 && forall i | 0 <= i < |ts| :: Within(ts[i].children, levels - 1))
  }

  /** The enumeration's clause selects every item without children. */
  predicate EndsSelected(lower: Lower, q: Query, ts: seq<Tree<Item>>)
    decreases ts
  {
    forall i | 0 <= i < |ts| ::
      && (ts[i].children == [] ==> Selects(lower, QueryWhere(lower, q), ts[i].item))
      && EndsSelected(lower, q, ts[i].children)
  }

  predicate ItemOk(rules: Rules, q: Query, item: Item) {
    rules.fieldsOk(item) && (item.disabled ==> q.includeDisabled)
  }

  predicate ItemsOk(rules: Rules, q: Query, ts: seq<Tree<Item>>) {
    forall item | item in Flatten(ts) :: ItemOk(rules, q, item)
  }

  predicate OneLevel(ts: seq<Tree<Item>>) { forall i | 0 <= i < |ts| :: ts[i].children == [] }

  lemma {:induction false} FlattenMembers(ts: seq<Tree<Item>>, item: Item)
    ensures item in Flatten(ts) <==>
            exists i | 0 <= i < |ts| :: item == ts[i].item || item in Flatten(ts[i].children)
    decreases |ts|
  {
    if ts != [] {
      FlattenMembers(ts[1..], item);
      assert Flatten(ts) == [ts[0].item] + Flatten(ts[0].children) + Flatten(ts[1..]);
      if item in Flatten(ts[1..]) {
        var i :| 0 <= i < |ts[1..]| && (item == ts[1..][i].item || item in Flatten(ts[1..][i].children));
        assert ts[1..][i] == ts[i + 1];
      }
      if i :| 0 < i < |ts| && (item == ts[i].item || item in Flatten(ts[i].children)) {
        assert ts[1..][i - 1] == ts[i];
      }
    }
  }

  lemma ItemsOkBelow(rules: Rules, q: Query, ts: seq<Tree<Item>>)
    ensures ItemsOk(rules, q, ts) <==>
            forall i | 0 <= i < |ts| :: ItemOk(rules, q, ts[i].item) && ItemsOk(rules, q, ts[i].children)
  {
    if ItemsOk(rules, q, ts) {
      forall i, item | 0 <= i < |ts| && (item == ts[i].item || item in Flatten(ts[i].children))
        ensures ItemOk(rules, q, item)
      {
        FlattenMembers(ts, item);
      }
    }
    if forall i | 0 <= i < |ts| :: ItemOk(rules, q, ts[i].item) && ItemsOk(rules, q, ts[i].children) {
      forall item | item in Flatten(ts)
        ensures ItemOk(rules, q, item)
      {
        FlattenMembers(ts, item);
      }
    }
  }

  /** One node and its place among its siblings. */
  lemma NodeMeans(rules: Rules, q: Query, kind: Kind, ts: seq<Tree<Item>>, i: nat, parent: Option<string>)
    requires i < |ts|
    ensures NodeSound(rules, q, kind, ts, i, parent) <==>
              && ItemOk(rules, q, ts[i].item) && ts[i].item.parent == parent
              && (i > 0 ==> InOrder(OrderOf(q.sort), ts[i - 1].item, ts[i].item))
              && (kind == Enum ==> ts[i].children == [])
              && (ts[i].children == [] ==> Selects(rules.lower, QueryWhere(rules.lower, q), ts[i].item))
  {
    FilterIsWhere(rules.lower, q, ts[i].item);
    if i > 0 { LessMeans(q.sort, ts[i - 1].item, ts[i].item); }
  }

  /** What is asked of a list of trees that start at this depth. */
  ghost predicate Wanted(rules: Rules, q: Query, kind: Kind, ts: seq<Tree<Item>>, parent: Option<string>, depth: nat) {
    && ItemsOk(rules, q, ts) && Parented(ts, parent) && SiblingsInOrder(q.sort, ts)
    && EndsSelected(rules.lower, q, ts) && (kind == Enum ==> OneLevel(ts))
    && Within(ts, if depth <= MAX_TREE_DEPTH then MAX_TREE_DEPTH + 1 - depth else 0)
  }

  /**
   The walk accepts exactly the lists whose items are valid and enabled for the query, name
   their parents, stand in the query's order, end in selected items, and are no deeper than
   512 levels, or one for an enumeration.
   */
  lemma {:induction false} SoundMeans(rules: Rules, q: Query, kind: Kind, ts: seq<Tree<Item>>,
          parent: Option<string>, depth: nat)
    ensures Sound(rules, q, kind, ts, parent, depth) <==> Wanted(rules, q, kind, ts, parent, depth)
    decreases ts
  {
    ItemsOkBelow(rules, q, ts);
    forall i | 0 <= i < |ts|
      ensures Sound(rules, q, kind, ts[i].children, Some(ts[i].item.id), depth + 1) <==>
              Wanted(rules, q, kind, ts[i].children, Some(ts[i].item.id), depth + 1)
    {
      SoundMeans(rules, q, kind, ts[i].children, Some(ts[i].item.id), depth + 1);
    }
    if Sound(rules, q, kind, ts, parent, depth) {
      SoundIsWanted(rules, q, kind, ts, parent, depth);
    }
    if Wanted(rules, q, kind, ts, parent, depth) {
      WantedIsSound(rules, q, kind, ts, parent, depth);
    }
  }

  lemma SoundIsWanted(rules: Rules, q: Query, kind: Kind, ts: seq<Tree<Item>>, parent: Option<string>, depth: nat)
    requires Sound(rules, q, kind, ts, parent, depth)
    requires forall i | 0 <= i < |ts| ::
               Wanted(rules, q, kind, ts[i].children, Some(ts[i].item.id), depth + 1)
    ensures Wanted(rules, q, kind, ts, parent, depth)
  {
    ItemsOkBelow(rules, q, ts);
    SoundInOrder(rules, q, kind, ts, parent, depth);
    forall i | 0 <= i < |ts|
      ensures NodeSound(rules, q, kind, ts, i, parent) && ItemOk(rules, q, ts[i].item)
      ensures ts[i].children == [] ==> Selects(rules.lower, QueryWhere(rules.lower, q), ts[i].item)
    {
      NodeMeans(rules, q, kind, ts, i, parent);
    }
  }

  lemma WantedIsSound(rules: Rules, q: Query, kind: Kind, ts: seq<Tree<Item>>, parent: Option<string>, depth: nat)
    requires Wanted(rules, q, kind, ts, parent, depth)
    requires forall i | 0 <= i < |ts| ::
               Wanted(rules, q, kind, ts[i].children, Some(ts[i].item.id), depth + 1) ==>
               Sound(rules, q, kind, ts[i].children, Some(ts[i].item.id), depth + 1)
    ensures Sound(rules, q, kind, ts, parent, depth)
  {
    ItemsOkBelow(rules, q, ts);
    forall i | 0 <= i < |ts|
      ensures NodeSound(rules, q, kind, ts, i, parent)
      ensures Sound(rules, q, kind, ts[i].children, Some(ts[i].item.id), depth + 1)
    {
      NodeMeans(rules, q, kind, ts, i, parent);
      assert Wanted(rules, q, kind, ts[i].children, Some(ts[i].item.id), depth + 1);
    }
  }

  /**
   A result is trusted exactly when its head is right, its trees are as wanted from the roots
   on, ids, codes and selectable values differ throughout, and it keeps both limits.
   */
  lemma TrustedMeans(rules: Rules, q: Query, page: int, pageSize: int, result: ResultValidator.Result)
    ensures Trusted(rules, q, page, pageSize, result) <==>
              && HeadSound(result, page, pageSize)
              && Wanted(rules, q, result.kind, result.items.value, None, 1)
              && AllDifferent(Flatten(result.items.value)) && |Flatten(result.items.value)| <= rules.maxNodes
              && TotalSize(rules, Flatten(result.items.value)) <= MAX_ITEMS_BYTES
              && (result.kind == TreeKind ==> result.total == |Flatten(result.items.value)|)
  {
    if result.items.Some? { SoundMeans(rules, q, result.kind, result.items.value, None, 1); }
  }
}
