/**
 The enumeration branch of the static dictionary query: WHERE, ORDER BY, COUNT, LIMIT and
 OFFSET.  It finds what the in-memory filter of trees would, in the same order, page by page.
 */
module EnumQuery {
  import opened Wrappers
  import opened TreeItems
  import opened TreeCopy
  import opened ResultTree
  import opened ResultValidator
  import opened ItemClause
  import opened TreeShape
  import opened TreeQuery

  /** The rows for which the clause is true. */
  function SelectRows(lower: Lower, where: seq<Clause>, stored: seq<Item>): seq<Item> {
    if stored == [] then []
    else (if Selects(lower, where, stored[0]) then [stored[0]] else []) + SelectRows(lower, where, stored[1..])
  }

  /** The rows that are enabled for the query and pass the in-memory filter. */
  function Matching(lower: Lower, q: Query, stored: seq<Item>): seq<Item> {
    if stored == [] then []
    else
      (if Enabled(q, stored[0]) && Matches(lower, q, stored[0]) then [stored[0]] else [])
      + Matching(lower, q, stored[1..])
  }

  lemma {:induction false} SelectedIsMatching(lower: Lower, q: Query, stored: seq<Item>)
    ensures SelectRows(lower, QueryWhere(lower, q), stored) == Matching(lower, q, stored)
    decreases |stored|
  {
    if stored != [] {
      FilterIsWhere(lower, q, stored[0]);
      SelectedIsMatching(lower, q, stored[1..]);
    }
  }

  function Min(a: nat, b: nat): nat { if a < b then a else b }

  /** LIMIT and OFFSET of one page; pages count from 1. */
  function PageOf(items: seq<Item>, page: int, size: int): seq<Item>
    requires page >= 1 && size >= 1
  {
    Slice(items, Offset(page, size), size)
  }

  function Offset(page: int, size: int): nat
    requires page >= 1 && size >= 1
  {
    (page - 1) * size
  }

  function Slice(items: seq<Item>, from: nat, size: nat): seq<Item> {
    items[Min(from, |items|)..Min(from + size, |items|)]
  }

  function Leaves(items: seq<Item>): (ts: seq<Tree<Item>>)
    ensures |ts| == |items| && forall i | 0 <= i < |items| :: ts[i] == Node(items[i], [])
  {
    seq(|items|, i requires 0 <= i < |items| => Node(items[i], []))
  }

  lemma {:induction false} LeavesAre(items: seq<Item>)
    ensures Flatten(Leaves(items)) == items
    decreases |items|
  {
    if items != [] {
      var ts := Leaves(items);
      assert ts[1..] == Leaves(items[1..]);
      LeavesAre(items[1..]);
      assert Flatten(ts) == [items[0]] + [] + items[1..];
    }
  }

  // ---- Pages ----------------------------------------------------------------

  /** Pages 1 to `n`, one after the other. */
  function Pages(items: seq<Item>, size: int, n: nat): seq<Item>
    requires size >= 1
  {
    if n == 0 then [] else Pages(items, size, n - 1) + PageOf(items, n, size)
  }

  /** The first `n` pages are the first `n` times `size` items. */
  lemma {:induction false} PagesAre(items: seq<Item>, size: int, n: nat)
    requires size >= 1
    ensures Pages(items, size, n) == items[..Min(n * size, |items|)]
    decreases n
  {
    if n > 0 {
      PagesAre(items, size, n - 1);
      assert Offset(n, size) == (n - 1) * size && n * size == (n - 1) * size + size;
      NextSlice(items, (n - 1) * size, size);
    }
  }

  lemma NextSlice(items: seq<Item>, from: nat, size: nat)
    ensures items[..Min(from, |items|)] + Slice(items, from, size) == items[..Min(from + size, |items|)]
  {}

  lemma PagesAreAll(items: seq<Item>, size: int, n: nat)
    requires size >= 1 && n * size >= |items|
    ensures Pages(items, size, n) == items
  {
    PagesAre(items, size, n);
    assert items[..|items|] == items;
  }

  /** Enough pages hold every matching row once, in order. */
  lemma PagesHoldAll(rules: Rules, q: Query, stored: seq<Item>, size: int, n: nat)
    requires size >= 1 && n * size >= |Matching(rules.lower, q, stored)|
    ensures var all := Pages(SortItems(q.sort, Matching(rules.lower, q, stored)), size, n);
            multiset(all) == multiset(Matching(rules.lower, q, stored)) && Sorted(q.sort, all)
  {
    var matching := Matching(rules.lower, q, stored);
    SortItemsSorted(q.sort, matching);
    SameCount(SortItems(q.sort, matching), matching);
    PagesAreAll(SortItems(q.sort, matching), size, n);
  }

  lemma SameCount(a: seq<Item>, b: seq<Item>)
    requires multiset(a) == multiset(b)
    ensures |a| == |b|
  {
    assert |multiset(a)| == |a| && |multiset(b)| == |b|;
  }

  // ---- A page is trusted ----------------------------------------------------

  lemma {:induction false} MatchingMembers(lower: Lower, q: Query, stored: seq<Item>, item: Item)
    ensures item in Matching(lower, q, stored) <==> item in stored && Enabled(q, item) && Matches(lower, q, item)
    decreases |stored|
  {
    if stored != [] {
      MatchingMembers(lower, q, stored[1..], item);
      assert stored == [stored[0]] + stored[1..];
    }
  }

  lemma {:induction false} MatchingDifferent(lower: Lower, q: Query, stored: seq<Item>)
    requires AllDifferent(stored)
    ensures AllDifferent(Matching(lower, q, stored))
    decreases |stored|
  {
    if stored != [] {
      var rest := stored[1..];
      assert forall i | 0 <= i < |rest| :: rest[i] == stored[i + 1];
      MatchingDifferent(lower, q, rest);
      forall x | x in Matching(lower, q, rest)
        ensures stored[0].id != x.id && stored[0].code != x.code && Selectable(stored[0]) != Selectable(x)
      {
        MatchingMembers(lower, q, rest, x);
      }
      DifferentCons(stored[0], Matching(lower, q, rest));
    }
  }

  /** A page of a sorted list of different items is such a list itself. */
  lemma SlicePart(sort: seq<SortRule>, items: seq<Item>, from: nat, size: nat)
    requires AllDifferent(items) && Sorted(sort, items)
    ensures var part := Slice(items, from, size);
            AllDifferent(part) && Sorted(sort, part) && |part| <= size && forall item | item in part :: item in items
  {
    var part := Slice(items, from, size);
    assert forall i | 0 <= i < |part| :: part[i] == items[Min(from, |items|) + i];
  }

  /** Rows of an enumeration: well formed, and all of them roots. */
  ghost predicate Flat(rules: Rules, stored: seq<Item>) {
    WellFormed(rules, stored) && forall item | item in stored :: item.parent == None
  }

  lemma PageRows(rules: Rules, q: Query, stored: seq<Item>, page: int, size: int)
    requires Flat(rules, stored) && page >= 1 && size >= 1
    ensures var rows := PageOf(SortItems(q.sort, Matching(rules.lower, q, stored)), page, size);
            && AllDifferent(rows) && Sorted(q.sort, rows) && |rows| <= size
            && forall item | item in rows ::
                 rules.fieldsOk(item) && item.parent == None && Enabled(q, item) && Matches(rules.lower, q, item)
  {
    var matching := Matching(rules.lower, q, stored);
    var sorted := SortItems(q.sort, matching);
    SortItemsSorted(q.sort, matching);
    MatchingDifferent(rules.lower, q, stored);
    ReorderedDifferent(rules, matching, sorted);
    SlicePart(q.sort, sorted, Offset(page, size), size);
    forall item | item in PageOf(sorted, page, size)
      ensures rules.fieldsOk(item) && item.parent == None && Enabled(q, item) && Matches(rules.lower, q, item)
    {
      assert item in multiset(sorted);
      MatchingMembers(rules.lower, q, stored, item);
    }
  }

  /** The limits under which an enumeration's result is checked. */
  function EnumRules(rules: Rules): Rules { rules.(maxNodes := MAX_PAGE_SIZE) }

  lemma LeavesSound(rules: Rules, q: Query, rows: seq<Item>)
    requires Sorted(q.sort, rows)
    requires forall item | item in rows ::
               rules.fieldsOk(item) && item.parent == None && Enabled(q, item) && Matches(rules.lower, q, item)
    ensures Sound(EnumRules(rules), q, Enum, Leaves(rows), None, 1)
  {
    LeavesAre(rows);
    var ts := Leaves(rows);
    forall i | 0 <= i < |ts|
      ensures NodeSound(EnumRules(rules), q, Enum, ts, i, None)
      ensures Sound(EnumRules(rules), q, Enum, ts[i].children, Some(ts[i].item.id), 2)
    {
      assert rows[i] in rows;
    }
  }

  function PageResult(rows: seq<Item>, page: int, size: int, total: int): Answer {
    Result(Enum, true, Some(Leaves(rows)), page, size, total)
  }

  lemma {:induction false} SameSize(rules: Rules, items: seq<Item>)
    ensures TotalSize(EnumRules(rules), items) == TotalSize(rules, items)
    decreases |items|
  {
    if items != [] { SameSize(rules, items[1..]); }
  }

  lemma PageTrusted(rules: Rules, q: Query, stored: seq<Item>, page: int, pageSize: int)
    requires Flat(rules, stored) && Normalize(page, pageSize).Some?
    ensures var (p, size) := Normalize(page, pageSize).value;
            var matching := Matching(rules.lower, q, stored);
            var rows := PageOf(SortItems(q.sort, matching), p, size);
            TotalSize(rules, rows) <= MAX_ITEMS_BYTES ==>
              Trusted(EnumRules(rules), q, page, pageSize, PageResult(rows, p, size, |matching|))
  {
    var (p, size) := Normalize(page, pageSize).value;
    var rows := PageOf(SortItems(q.sort, Matching(rules.lower, q, stored)), p, size);
    PageRows(rules, q, stored, p, size);
    LeavesSound(rules, q, rows);
    LeavesAre(rows);
    SameSize(rules, rows);
  }

  /**
   The enumeration query.  It is refused exactly for a page out of range or a page too large
   to send.  Otherwise it counts the rows that pass the in-memory filter, holds the asked
   page of them in the order of the query, and is always a result the validator trusts.
   */
  method QueryStaticEnum(rules: Rules, q: Query, page: int, pageSize: int, stored: seq<Item>) returns (r: Outcome)
    requires Flat(rules, stored)
    ensures r == Invalid <==> Normalize(page, pageSize).None?
    ensures r.Answered? || r == Invalid || r == TooLarge
    ensures Normalize(page, pageSize).Some? ==>
              var (p, size) := Normalize(page, pageSize).value;
              var matching := Matching(rules.lower, q, stored);
              var rows := PageOf(SortItems(q.sort, matching), p, size);
              && (r.Answered? <==> TotalSize(rules, rows) <= MAX_ITEMS_BYTES)
              && (r.Answered? ==> r.result == PageResult(rows, p, size, |matching|))
    ensures r.Answered? ==> Trusted(EnumRules(rules), q, page, pageSize, r.result)
  {
    var where := RowsWhere(q);
    if q.keyword != "" { where := where + [KeywordClause(rules.lower, q.keyword)]; }
    where := AppendIn(where, Col(Id), q.ids);
    where := AppendIn(where, Col(Code), q.codes);
    where := AppendIn(where, SELECTABLE, q.values);
    assert RowsWhere(q) + [] == RowsWhere(q);
    assert where == QueryWhere(rules.lower, q);
    var n := Normalize(page, pageSize);
    if n.None? { return Invalid; }
    var (p, size) := n.value;
    var selected := SelectRows(rules.lower, where, stored);
    SelectedIsMatching(rules.lower, q, stored);
    var items := PageOf(SortItems(q.sort, selected), p, size);
    PageRows(rules, q, stored, p, size);
    PageTrusted(rules, q, stored, page, pageSize);
    var fits := SelectQueryItems(rules, items);
    if !fits { return TooLarge; }
    r := Answered(PageResult(items, p, size, |selected|));
  }
}
