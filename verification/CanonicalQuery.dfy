/** canonicalStaticCacheQuery of internal/dictionary/service.go: tree queries with one cache key have one answer. */
module CanonicalQuery {
  import opened Texts
  import opened TreeItems
  import opened TreeFilter
  import opened ResultValidator
  import opened TreeQuery
  import EnumQuery

  /** Sorted, without duplicates. */
  function CanonicalSet(values: seq<string>): seq<string> {
    if values == [] then [] else InsertText(values[0], CanonicalSet(values[1..]))
  }

  lemma {:induction false} CanonicalMembers(values: seq<string>)
    ensures StrictlySorted(CanonicalSet(values))
    ensures forall x :: x in CanonicalSet(values) <==> x in values
    decreases |values|
  {
    if values == [] {
    } else {
      CanonicalMembers(values[1..]);
      InsertTextSorted(values[0], CanonicalSet(values[1..]));
      InsertTextMembers(values[0], CanonicalSet(values[1..]));
      assert values == [values[0]] + values[1..];
    }
  }

  lemma HasMember(values: seq<string>)
    requires values != []
    ensures exists x :: x in values
  {
    assert values[0] in values;
  }

  /** Two strictly sorted lists with the same members are the same list. */
  lemma {:induction false} SortedSame(a: seq<string>, b: seq<string>)
    requires StrictlySorted(a) && StrictlySorted(b) && forall x :: x in a <==> x in b
    ensures a == b
    decreases |a|
  {
    if a == [] {
      if b != [] { HasMember(b); }
    } else {
      assert a[0] in b && (b != [] ==> b[0] in a);
      var i :| 0 <= i < |b| && b[i] == a[0];
      var j :| 0 <= j < |a| && a[j] == b[0];
      TextOrder(a[0], b[0], a[0]);
      assert a[0] == b[0];
      forall x
        ensures x in a[1..] <==> x in b[1..]
      {
        Tail(a, x);
        Tail(b, x);
      }
      SortedSame(a[1..], b[1..]);
      assert a == [a[0]] + a[1..] && b == [b[0]] + b[1..];
    }
  }

  lemma Tail(a: seq<string>, x: string)
    requires StrictlySorted(a) && a != []
    ensures x in a[1..] <==> x in a && x != a[0]
  {
    TextOrder(a[0], a[0], a[0]);
    if x in a && x != a[0] {
      var i :| 0 <= i < |a| && a[i] == x;
      assert a[1..][i - 1] == x;
    }
  }

  /** Equal canonical lists are exactly equal sets. */
  lemma CanonicalSetExact(a: seq<string>, b: seq<string>)
    ensures CanonicalSet(a) == CanonicalSet(b) <==> forall x :: x in a <==> x in b
  {
    CanonicalMembers(a);
    CanonicalMembers(b);
    if forall x :: x in a <==> x in b { SortedSame(CanonicalSet(a), CanonicalSet(b)); }
  }

  /** The part of a tree query the cache key depends on. */
  function Canonical(lower: Lower, q: Query): Query {
    Query(lower(q.keyword), CanonicalSet(q.ids), CanonicalSet(q.codes), CanonicalSet(q.values),
        q.includeDisabled, q.sort)
  }

  lemma SameMatches(lower: Lower, a: Query, b: Query, item: Item)
    requires Canonical(lower, a) == Canonical(lower, b)
    ensures Matches(lower, a, item) == Matches(lower, b, item) && Enabled(a, item) == Enabled(b, item)
  {
    SameFilter(a.ids, b.ids, item.id);
    SameFilter(a.codes, b.codes, item.code);
    SameFilter(a.values, b.values, Selectable(item));
  }

  lemma SameFilter(a: seq<string>, b: seq<string>, x: string)
    requires CanonicalSet(a) == CanonicalSet(b)
    ensures (a == [] || x in a) == (b == [] || x in b)
  {
    CanonicalSetExact(a, b);
    if a != [] { assert a[0] in a; }
    if b != [] { assert b[0] in b; }
  }

  lemma SameKept(lower: Lower, byId: Items, a: Query, b: Query, x: string)
    requires Canonical(lower, a) == Canonical(lower, b)
    ensures Kept(lower, byId, a, x) == Kept(lower, byId, b, x)
  {
    if Kept(lower, byId, a, x) { KeptToo(lower, byId, a, b, x); }
    if Kept(lower, byId, b, x) { KeptToo(lower, byId, b, a, x); }
  }

  lemma KeptToo(lower: Lower, byId: Items, a: Query, b: Query, x: string)
    requires Canonical(lower, a) == Canonical(lower, b) && Kept(lower, byId, a, x)
    ensures Kept(lower, byId, b, x)
  {
    var p :| RootPath(byId, a, p) && x in p && Matches(lower, a, byId[p[0]]);
    SameMatches(lower, a, b, byId[p[0]]);
    assert RootPath(byId, b, p);
  }

  lemma {:induction false} SameKeptItems(lower: Lower, byId: Items, a: Query, b: Query, items: seq<Item>)
    requires Canonical(lower, a) == Canonical(lower, b)
    ensures KeptItems(lower, byId, a, items) == KeptItems(lower, byId, b, items)
    decreases |items|
  {
    if items == [] {
    } else {
      SameKept(lower, byId, a, b, items[0].id);
      SameKeptItems(lower, byId, a, b, items[1..]);
    }
  }

  lemma {:induction false} SameRows(a: Query, b: Query, stored: seq<Item>)
    requires a.includeDisabled == b.includeDisabled
    ensures Rows(a, stored) == Rows(b, stored)
    decreases |stored|
  {
    if stored == [] {
    } else {
      SameRows(a, b, stored[1..]);
    }
  }

  /** Queries with one canonical form have one answer. */
  lemma SameAnswer(rules: Rules, a: Query, b: Query, stored: seq<Item>)
    requires Canonical(rules.lower, a) == Canonical(rules.lower, b)
    ensures StaticAnswer(rules, a, stored) == StaticAnswer(rules, b, stored)
  {
    SameRows(a, b, stored);
    var rows := Rows(a, stored);
    SameKeptItems(rules.lower, ById(rows), a, b, rows);
    assert a.sort == b.sort;
    assert KeptItems(rules.lower, ById(Rows(b, stored)), b, Rows(b, stored))
        == KeptItems(rules.lower, ById(rows), a, rows);
  }

  // ---- Enumerations ---------------------------------------------------------

  /** The page of an enumeration's cache key. */
  function CanonicalPage(page: int, pageSize: int): (int, int) {
    (if page == 0 then 1 else page, if pageSize == 0 then DEFAULT_PAGE_SIZE else pageSize)
  }

  lemma {:induction false} SameMatching(lower: Lower, a: Query, b: Query, stored: seq<Item>)
    requires Canonical(lower, a) == Canonical(lower, b)
    ensures EnumQuery.Matching(lower, a, stored) == EnumQuery.Matching(lower, b, stored)
    decreases |stored|
  {
    if stored != [] {
      SameMatches(lower, a, b, stored[0]);
      SameMatching(lower, a, b, stored[1..]);
    }
  }

  /** With one canonical page too they have one page and one total of an enumeration, or both no page at all. */
  lemma SameEnumPage(lower: Lower, a: Query, b: Query, pageA: int, sizeA: int, pageB: int, sizeB: int,
          stored: seq<Item>)
    requires Canonical(lower, a) == Canonical(lower, b) && CanonicalPage(pageA, sizeA) == CanonicalPage(pageB, sizeB)
    ensures Normalize(pageA, sizeA) == Normalize(pageB, sizeB)
    ensures Normalize(pageA, sizeA).Some? ==>
              var (p, size) := Normalize(pageA, sizeA).value;
              var matching := EnumQuery.Matching(lower, a, stored);
              && |EnumQuery.Matching(lower, b, stored)| == |matching|
              && EnumQuery.PageOf(SortItems(b.sort, EnumQuery.Matching(lower, b, stored)), p, size)
                 == EnumQuery.PageOf(SortItems(a.sort, matching), p, size)
  {
    SameMatching(lower, a, b, stored);
    assert a.sort == b.sort;
  }
}
