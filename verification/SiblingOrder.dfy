/**
 What a list of sort rules means for the siblings of an answer: each rule in its own
 direction, where all rules before it tie, and the id in the end.
 */
module SiblingOrder {
  import opened Wrappers
  import opened Texts
  import opened TreeItems
  import opened TreeCopy
  import opened ResultTree
  import opened ResultValidator

  /** Alike up to `n`, where `a` ends or has the smaller character. */
  predicate AtMostAt(a: string, b: string, n: nat) {
    n <= |a| && n <= |b| && a[..n] == b[..n] && (n == |a| || (n < |b| && a[n] < b[n]))
  }

  /** `a` is `b`, begins it, or is smaller at the first character where they differ. */
  ghost predicate TextAtMost(a: string, b: string) { exists n: nat :: AtMostAt(a, b, n) }

  lemma AtMostLater(a: string, b: string, n: nat, m: nat)
    requires a != "" && b != "" && n == m + 1
    ensures AtMostAt(a, b, n) <==> a[0] == b[0] && AtMostAt(a[1..], b[1..], m)
  {
    if n <= |a| && n <= |b| {
      assert a[..n] == [a[0]] + a[1..][..m] && b[..n] == [b[0]] + b[1..][..m];
    }
  }

  lemma {:induction false} CompareTextMeans(a: string, b: string)
    ensures CompareText(a, b) <= 0 <==> TextAtMost(a, b)
    decreases |a|
  {
    assert AtMostAt(a, b, 0) <==> a == "" || (b != "" && a[0] < b[0]);
    if a != "" && b != "" {
      CompareTextMeans(a[1..], b[1..]);
      if n: nat :| AtMostAt(a, b, n) && n > 0 {
        AtMostLater(a, b, n, n - 1);
      }
      if m: nat :| AtMostAt(a[1..], b[1..], m) && a[0] == b[0] {
        AtMostLater(a, b, m + 1, m);
      }
    }
  }

  predicate Ties(field: SortField, a: Item, b: Item) {
    match field
    case BySortOrder => a.sortOrder == b.sortOrder
    case ByCode => a.code == b.code
    case ByName => a.name == b.name
  }

  /** The rule allows `a` ahead of `b`. */
  ghost predicate Follows(rule: SortRule, a: Item, b: Item) {
    match rule.field
    case BySortOrder => if rule.descending then a.sortOrder >= b.sortOrder else a.sortOrder <= b.sortOrder
    case ByCode => if rule.descending then TextAtMost(b.code, a.code) else TextAtMost(a.code, b.code)
    case ByName => if rule.descending then TextAtMost(b.name, a.name) else TextAtMost(a.name, b.name)
  }

  /** The first `k` rules tie. */
  predicate TiesUpTo(order: seq<SortRule>, k: nat, a: Item, b: Item)
    requires k <= |order|
  {
    forall j | 0 <= j < k :: Ties(order[j].field, a, b)
  }

  /** Every rule whose predecessors tie allows `a` ahead of `b`; where all tie, the ids decide. */
  ghost predicate InOrder(order: seq<SortRule>, a: Item, b: Item) {
    && (forall k | 0 <= k < |order| && TiesUpTo(order, k, a, b) :: Follows(order[k], a, b))
    && (TiesUpTo(order, |order|, a, b) ==> TextAtMost(a.id, b.id))
  }

  lemma RuleMeans(rule: SortRule, a: Item, b: Item)
    ensures CompareRule(rule, a, b) <= 0 <==> Follows(rule, a, b)
    ensures CompareRule(rule, a, b) == 0 <==> Ties(rule.field, a, b)
  {
    CompareTextMeans(a.code, b.code);
    CompareTextMeans(b.code, a.code);
    CompareTextMeans(a.name, b.name);
    CompareTextMeans(b.name, a.name);
    TextOrder(a.code, b.code, a.code);
    TextOrder(a.name, b.name, a.name);
  }

  /** The comparison that sorts is this order. */
  lemma {:induction false} CompareMeans(order: seq<SortRule>, a: Item, b: Item)
    ensures CompareRules(order, a, b) <= 0 <==> InOrder(order, a, b)
    decreases |order|
  {
    if order == [] {
      CompareTextMeans(a.id, b.id);
    } else {
      RuleMeans(order[0], a, b);
      CompareMeans(order[1..], a, b);
      if Ties(order[0].field, a, b) {
        TiesTail(order, a, b);
      } else {
        FirstDecides(order, a, b);
      }
    }
  }

  lemma FirstDecides(order: seq<SortRule>, a: Item, b: Item)
    requires order != [] && !Ties(order[0].field, a, b)
    ensures InOrder(order, a, b) <==> Follows(order[0], a, b)
  {
    assert TiesUpTo(order, 0, a, b);
    forall k | 0 < k <= |order|
      ensures !TiesUpTo(order, k, a, b)
    {
      assert !Ties(order[0].field, a, b);
    }
  }

  lemma TiesTail(order: seq<SortRule>, a: Item, b: Item)
    requires order != [] && Ties(order[0].field, a, b)
    ensures InOrder(order, a, b) <==> Follows(order[0], a, b) && InOrder(order[1..], a, b)
  {
    var rest := order[1..];
    forall k | 0 <= k <= |rest|
      ensures TiesUpTo(rest, k, a, b) <==> TiesUpTo(order, k + 1, a, b)
    {
      assert forall j | 0 <= j < k :: rest[j] == order[j + 1];
      if TiesUpTo(order, k + 1, a, b) {
        forall j | 0 <= j < k
          ensures Ties(rest[j].field, a, b)
        {
          assert rest[j] == order[j + 1];
        }
      }
    }
    assert TiesUpTo(order, 0, a, b);
    if InOrder(rest, a, b) && Follows(order[0], a, b) {
      forall k | 0 <= k < |order| && TiesUpTo(order, k, a, b)
        ensures Follows(order[k], a, b)
      {
        if k > 0 { assert TiesUpTo(rest, k - 1, a, b); }
      }
    }
    if InOrder(order, a, b) {
      forall k | 0 <= k < |rest| && TiesUpTo(rest, k, a, b)
        ensures Follows(rest[k], a, b)
      {
        assert TiesUpTo(order, k + 1, a, b);
      }
    }
  }

  /** The rules a query sorts by: its own, or sort order and then code. */
  function OrderOf(sort: seq<SortRule>): seq<SortRule> {
    if sort == [] then [SortRule(BySortOrder, false), SortRule(ByCode, false)] else sort
  }

  lemma LessMeans(sort: seq<SortRule>, a: Item, b: Item)
    ensures !Less(sort, b, a) <==> InOrder(OrderOf(sort), a, b)
  {
    CompareMeans(OrderOf(sort), a, b);
    RulesOrder(OrderOf(sort), a, b, a);
  }

  /** Everywhere in the trees, each sibling is in order with every later one. */
  ghost predicate SiblingsInOrder(sort: seq<SortRule>, ts: seq<Tree<Item>>)
    decreases ts
  {
    && (forall i, j | 0 <= i < j < |ts| :: InOrder(OrderOf(sort), ts[i].item, ts[j].item))
    && forall i | 0 <= i < |ts| :: SiblingsInOrder(sort, ts[i].children)
  }

  lemma NotLessFurther(sort: seq<SortRule>, a: Item, b: Item, c: Item)
    requires !Less(sort, b, a) && !Less(sort, c, b)
    ensures !Less(sort, c, a)
  {
    RulesOrder(OrderOf(sort), c, b, a);
  }

  /** No sibling is before an earlier one. */
  lemma {:induction false} SoundFar(rules: Rules, q: Query, kind: Kind, ts: seq<Tree<Item>>, parent: Option<string>,
          depth: nat, i: nat, j: nat)
    requires Sound(rules, q, kind, ts, parent, depth) && i < j < |ts|
    ensures !Less(q.sort, ts[j].item, ts[i].item)
    decreases j - i
  {
    assert NodeSound(rules, q, kind, ts, j, parent);
    if i + 1 < j {
      SoundFar(rules, q, kind, ts, parent, depth, i, j - 1);
      NotLessFurther(q.sort, ts[i].item, ts[j - 1].item, ts[j].item);
    }
  }

  /** The siblings of every accepted result are in the order that its query asks for. */
  lemma {:induction false} SoundInOrder(rules: Rules, q: Query, kind: Kind, ts: seq<Tree<Item>>,
          parent: Option<string>, depth: nat)
    requires Sound(rules, q, kind, ts, parent, depth)
    ensures SiblingsInOrder(q.sort, ts)
    decreases ts
  {
    forall i, j | 0 <= i < j < |ts|
      ensures InOrder(OrderOf(q.sort), ts[i].item, ts[j].item)
    {
      SoundFar(rules, q, kind, ts, parent, depth, i, j);
      LessMeans(q.sort, ts[i].item, ts[j].item);
    }
    forall i | 0 <= i < |ts|
      ensures SiblingsInOrder(q.sort, ts[i].children)
    {
      SoundInOrder(rules, q, kind, ts[i].children, Some(ts[i].item.id), depth + 1);
    }
  }

  /** So are the answers of both queries and every cached result that is believed. */
  lemma TrustedInOrder(rules: Rules, q: Query, page: int, pageSize: int,
          result: ResultValidator.Result)
    requires Trusted(rules, q, page, pageSize, result)
    ensures SiblingsInOrder(q.sort, result.items.value)
  {
    SoundInOrder(rules, q, result.kind, result.items.value, None, 1);
  }
}
