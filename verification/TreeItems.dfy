/** Dictionary items, queries and the sibling order, internal/dictionary/model.go and itemLess. */
module TreeItems {
  import opened Texts
  import opened Wrappers

  datatype Kind = Enum | TreeKind

  datatype Item = Item(id: string, parent: Option<string>, code: string, name: string, value: string,
                       disabled: bool, sortOrder: int, extension: string)

  datatype SortField = BySortOrder | ByCode | ByName

  datatype SortRule = SortRule(field: SortField, descending: bool)

  /** `lower` is the platform's case mapping, applied to keyword, code and name alike. */
  datatype Query = Query(keyword: string, ids: seq<string>, codes: seq<string>, values: seq<string>,
                         includeDisabled: bool, sort: seq<SortRule>)

  /** A case mapping leaves the empty text empty. */
  type Lower = f: string -> string | f("") == "" witness (s: string) => s

  function Selectable(item: Item): string {
    if item.value == "" then item.id else item.value
  }

  /** The filter both the tree query and the result validator apply to one item. */
  predicate Matches(lower: Lower, q: Query, item: Item) {
    var keyword := lower(q.keyword);
    && (keyword == "" || Contains(lower(item.code), keyword) || Contains(lower(item.name), keyword))
    && (q.ids == [] || item.id in q.ids)
    && (q.codes == [] || item.code in q.codes)
    && (q.values == [] || Selectable(item) in q.values)
  }

  predicate Enabled(q: Query, item: Item) { q.includeDisabled || !item.disabled }

  // ---- The sibling order ----------------------------------------------------

  function CompareInt(a: int, b: int): int { if a < b then -1 else if a > b then 1 else 0 }

  function CompareField(field: SortField, a: Item, b: Item): int {
    match field
    case BySortOrder => CompareInt(a.sortOrder, b.sortOrder)
    case ByCode => CompareText(a.code, b.code)
    case ByName => CompareText(a.name, b.name)
  }

  function CompareRule(rule: SortRule, a: Item, b: Item): int {
    if rule.descending then -CompareField(rule.field, a, b) else CompareField(rule.field, a, b)
  }

  /** The first rule that separates the items decides; ids break ties. */
  function CompareRules(rules: seq<SortRule>, a: Item, b: Item): int {
    if rules == [] then CompareText(a.id, b.id)
    else if CompareRule(rules[0], a, b) != 0 then CompareRule(rules[0], a, b)
    else CompareRules(rules[1..], a, b)
  }

  const DEFAULT_SORT: seq<SortRule> := [SortRule(BySortOrder, false), SortRule(ByCode, false)]

  function Compare(rules: seq<SortRule>, a: Item, b: Item): int {
    CompareRules(if rules == [] then DEFAULT_SORT else rules, a, b)
  }

  /** `itemLess`. */
  predicate Less(rules: seq<SortRule>, a: Item, b: Item) { Compare(rules, a, b) < 0 }

  /** What a three-way comparison must satisfy to sort by. */
  ghost predicate Ordered3(ab: int, ba: int, bc: int, ac: int) {
    && ab == -ba
    && (ab <= 0 && bc <= 0 ==> ac <= 0)
    && (ab <= 0 && bc <= 0 && ac == 0 ==> ab == 0 && bc == 0)
    && (ab >= 0 && bc >= 0 ==> ac >= 0)
    && (ab >= 0 && bc >= 0 && ac == 0 ==> ab == 0 && bc == 0)
  }

  lemma RuleOrder(rule: SortRule, a: Item, b: Item, c: Item)
    ensures Ordered3(CompareRule(rule, a, b), CompareRule(rule, b, a), CompareRule(rule, b, c), CompareRule(rule, a, c))
  {
    match rule.field {
      case BySortOrder =>
      case ByCode => TextOrders(a.code, b.code, c.code);
      case ByName => TextOrders(a.name, b.name, c.name);
    }
  }

  lemma TextOrders(a: string, b: string, c: string)
    ensures Ordered3(CompareText(a, b), CompareText(b, a), CompareText(b, c), CompareText(a, c))
  {
    TextOrder(a, b, c);
    TextOrder(c, b, a);
    TextOrder(a, c, b);
    TextOrder(b, c, a);
  }

  /** Any list of rules, with the id as tie break, orders items totally. */
  lemma {:induction false} RulesOrder(rules: seq<SortRule>, a: Item, b: Item, c: Item)
    ensures Ordered3(CompareRules(rules, a, b), CompareRules(rules, b, a), CompareRules(rules, b, c),
        CompareRules(rules, a, c))
    ensures CompareRules(rules, a, b) == 0 ==> a.id == b.id
    decreases |rules|
  {
    if rules == [] {
      TextOrders(a.id, b.id, c.id);
      TextOrder(a.id, b.id, c.id);
    } else {
      RuleOrder(rules[0], a, b, c);
      RulesOrder(rules[1..], a, b, c);
    }
  }

  // ---- Stable sorting -------------------------------------------------------

  predicate Sorted(rules: seq<SortRule>, items: seq<Item>) {
    forall i, j | 0 <= i < j < |items| :: !Less(rules, items[j], items[i])
  }

  function Insert(rules: seq<SortRule>, item: Item, items: seq<Item>): seq<Item> {
    if items == [] || Less(rules, item, items[0]) then [item] + items
    else [items[0]] + Insert(rules, item, items[1..])
  }

  /** What `sort.SliceStable` with `itemLess` yields. */
  function SortItems(rules: seq<SortRule>, items: seq<Item>): seq<Item> {
    if items == [] then [] else Insert(rules, items[|items| - 1], SortItems(rules, items[..|items| - 1]))
  }

  lemma ConsSorted(rules: seq<SortRule>, first: Item, rest: seq<Item>)
    requires Sorted(rules, rest) && forall j | 0 <= j < |rest| :: !Less(rules, rest[j], first)
    ensures Sorted(rules, [first] + rest)
  {
    var result := [first] + rest;
    forall i, j | 0 <= i < j < |result|
      ensures !Less(rules, result[j], result[i])
    {
      assert result[j] == rest[j - 1];
    }
  }

  /** An item before the first of a sorted list is before all of it. */
  lemma BeforeAll(rules: seq<SortRule>, item: Item, items: seq<Item>, j: nat)
    requires Sorted(rules, items) && j < |items| && Less(rules, item, items[0])
    ensures !Less(rules, items[j], item)
  {
    var order := if rules == [] then DEFAULT_SORT else rules;
    RulesOrder(order, item, items[0], items[j]);
    RulesOrder(order, items[0], items[j], items[0]);
    RulesOrder(order, item, items[j], item);
  }

  lemma {:induction false} InsertCounts(rules: seq<SortRule>, item: Item, items: seq<Item>)
    ensures multiset(Insert(rules, item, items)) == multiset(items) + multiset{item}
    decreases |items|
  {
    if items != [] && !Less(rules, item, items[0]) {
      InsertCounts(rules, item, items[1..]);
      assert items == [items[0]] + items[1..];
    }
  }

  lemma Inserted(rules: seq<SortRule>, item: Item, items: seq<Item>, j: nat)
    requires j < |Insert(rules, item, items)|
    ensures Insert(rules, item, items)[j] == item || Insert(rules, item, items)[j] in items
  {
    InsertCounts(rules, item, items);
    assert Insert(rules, item, items)[j] in multiset(Insert(rules, item, items));
  }

  lemma {:induction false} InsertSorted(rules: seq<SortRule>, item: Item, items: seq<Item>)
    requires Sorted(rules, items)
    ensures Sorted(rules, Insert(rules, item, items))
    decreases |items|
  {
    if items == [] {
      ConsSorted(rules, item, items);
    } else if Less(rules, item, items[0]) {
      forall j | 0 <= j < |items|
        ensures !Less(rules, items[j], item)
      {
        BeforeAll(rules, item, items, j);
      }
      ConsSorted(rules, item, items);
    } else {
      var rest := Insert(rules, item, items[1..]);
      InsertSorted(rules, item, items[1..]);
      forall j | 0 <= j < |rest|
        ensures !Less(rules, rest[j], items[0])
      {
        Inserted(rules, item, items[1..], j);
      }
      ConsSorted(rules, items[0], rest);
    }
  }

  lemma {:induction false} SortItemsSorted(rules: seq<SortRule>, items: seq<Item>)
    ensures Sorted(rules, SortItems(rules, items)) && multiset(SortItems(rules, items)) == multiset(items)
    decreases |items|
  {
    if items == [] {
    } else {
      var n := |items| - 1;
      SortItemsSorted(rules, items[..n]);
      InsertSorted(rules, items[n], SortItems(rules, items[..n]));
      InsertCounts(rules, items[n], SortItems(rules, items[..n]));
      assert items == items[..n] + [items[n]];
    }
  }
}
