/**
 What the item transactions guarantee to the tree query: every committed static dictionary
 can be answered, whatever the filter, as long as it fits the size and node limits.
 */
module StoredQuery {
  import opened Wrappers
  import Forest
  import Stored = StoredTree
  import Store = DictionaryStore
  import opened TreeItems
  import opened TreeFilter
  import opened ResultValidator
  import opened TreeQuery
  import EnumQuery

  /** A row as the query reads it. */
  function ItemOf(id: string, row: Stored.Row): Item {
    Item(id, row.parent, row.code, row.fields.name, row.fields.value, row.fields.disabled, row.fields.sortOrder,
        row.fields.extension)
  }

  /** The live rows of one dictionary, each once, in some order. */
  ghost predicate Lists(items: Stored.Table, dictionary: string, stored: seq<Item>) {
    && UniqueItemIds(stored)
    && (forall i | 0 <= i < |stored| ::
          Stored.LiveIn(items, dictionary, stored[i].id) && stored[i] == ItemOf(stored[i].id, items[stored[i].id]))
    && forall x | x in items && Stored.LiveIn(items, dictionary, x) :: ItemOf(x, items[x]) in stored
  }

  /** Fields that the item transactions accept also pass the checks of a query result. */
  ghost predicate Compatible(limits: Store.Limits, rules: Rules) {
    && (forall id, row: Stored.Row {:trigger ItemOf(id, row)}
           | limits.idOk(id) && limits.codeOk(row.code) && limits.fieldsOk(row.fields) ::
          rules.fieldsOk(ItemOf(id, row)))
    && forall item: Item :: rules.fieldsOk(item) ==> item.id != "" && rules.rowFits(item)
  }

  lemma ListedFieldsOk(limits: Store.Limits, rules: Rules, s: Store.State, dictionary: string,
      stored: seq<Item>, i: nat)
    requires Store.Committed(limits, s) && Compatible(limits, rules) && Lists(s.items, dictionary, stored)
        && i < |stored|
    ensures rules.fieldsOk(stored[i])
  {
    Store.OneRow(limits, s, stored[i].id);
  }

  lemma ListedIsWellFormed(limits: Store.Limits, rules: Rules, s: Store.State, dictionary: string, stored: seq<Item>)
    requires Store.Committed(limits, s) && Compatible(limits, rules) && Lists(s.items, dictionary, stored)
    ensures WellFormed(rules, stored)
  {
    var items := s.items;
    Store.OneDictionary(limits, s, dictionary);
    forall i, j | 0 <= i < j < |stored|
      ensures stored[i].id != stored[j].id && stored[i].code != stored[j].code
          && Selectable(stored[i]) != Selectable(stored[j])
    {
      assert Stored.SelectableOf(items, stored[i].id) == Selectable(stored[i]);
      assert Stored.SelectableOf(items, stored[j].id) == Selectable(stored[j]);
    }
    forall i | 0 <= i < |stored|
      ensures rules.fieldsOk(stored[i])
    {
      ListedFieldsOk(limits, rules, s, dictionary, stored, i);
    }
  }

  /** A committed enumeration has only roots, so its query has a trusted answer for every page in range. */
  lemma CommittedEnumIsFlat(limits: Store.Limits, rules: Rules, s: Store.State, dictionary: string, stored: seq<Item>)
    requires Store.Committed(limits, s) && Compatible(limits, rules) && Lists(s.items, dictionary, stored)
    requires dictionary in s.definitions && s.definitions[dictionary].kind == Enum
    ensures EnumQuery.Flat(rules, stored)
  {
    ListedIsWellFormed(limits, rules, s, dictionary, stored);
    forall item | item in stored
      ensures item.parent == None
    {
      Store.OneRow(limits, s, item.id);
    }
  }

  /** A path to a root among the rows is as long as the row is deep. */
  lemma {:induction false} PathIsDepth(items: Stored.Table, dictionary: string, d: map<string, nat>, byId: Items,
          q: Query, p: seq<string>, k: nat)
    requires Forest.IsDepthMap(Stored.LiveParents(items, dictionary), d)
    requires ReadFrom(items, dictionary, byId)
    requires RootPath(byId, q, p) && k < |p|
    ensures p[k] in d && d[p[k]] == |p| - k
    decreases |p| - k
  {
    var parents := Stored.LiveParents(items, dictionary);
    assert parents[p[k]] == byId[p[k]].parent;
    if k + 1 < |p| {
      PathIsDepth(items, dictionary, d, byId, q, p, k + 1);
      assert byId[p[k]].parent == Some(p[k + 1]);
    }
  }

  lemma ListedRows(items: Stored.Table, dictionary: string, q: Query, rules: Rules, stored: seq<Item>, x: string)
    requires WellFormed(rules, stored) && Lists(items, dictionary, stored) && x in ById(Rows(q, stored))
    ensures Stored.LiveIn(items, dictionary, x) && ById(Rows(q, stored))[x].parent == items[x].parent
  {
    RowsWellFormed(rules, q, stored);
    ByIdIn(Rows(q, stored));
    var item := ById(Rows(q, stored))[x];
    var i :| 0 <= i < |stored| && stored[i] == item;
  }

  /** The rows a query reads are live rows of the dictionary, with their parents. */
  ghost predicate ReadFrom(items: Stored.Table, dictionary: string, byId: Items) {
    forall x | x in byId :: Stored.LiveIn(items, dictionary, x) && byId[x].parent == items[x].parent
  }

  lemma KeptShallow(lower: Lower, items: Stored.Table, dictionary: string, d: map<string, nat>, byId: Items, q: Query,
          x: string)
    requires Forest.IsDepthMap(Stored.LiveParents(items, dictionary), d) && ReadFrom(items, dictionary, byId)
    requires Kept(lower, byId, q, x)
    ensures x in d && PathDepth(byId, q, x) == d[x]
  {
    KeptRooted(lower, byId, q, x);
    PathIsDepth(items, dictionary, d, byId, q, PathOf(byId, q, x), 0);
  }

  lemma NeverTooDeep(rules: Rules, items: Stored.Table, dictionary: string, q: Query, stored: seq<Item>)
    requires Stored.Sound(items, dictionary) && Lists(items, dictionary, stored) && WellFormed(rules, stored)
    ensures !TooDeep(rules.lower, ById(Rows(q, stored)), q)
  {
    var byId, parents := ById(Rows(q, stored)), Stored.LiveParents(items, dictionary);
    var d :| Forest.IsDepthMap(parents, d) && forall x | x in d :: d[x] <= Forest.MAX_TREE_DEPTH;
    AllReadFrom(rules, items, dictionary, q, stored);
    forall x | x in byId && Kept(rules.lower, byId, q, x)
      ensures PathDepth(byId, q, x) <= Forest.MAX_TREE_DEPTH
    {
      KeptShallow(rules.lower, items, dictionary, d, byId, q, x);
    }
  }

  lemma AllReadFrom(rules: Rules, items: Stored.Table, dictionary: string, q: Query, stored: seq<Item>)
    requires Lists(items, dictionary, stored) && WellFormed(rules, stored)
    ensures ReadFrom(items, dictionary, ById(Rows(q, stored)))
  {
    forall x | x in ById(Rows(q, stored))
      ensures Stored.LiveIn(items, dictionary, x) && ById(Rows(q, stored))[x].parent == items[x].parent
    {
      ListedRows(items, dictionary, q, rules, stored, x);
    }
  }

  /**
   Every query on a committed static tree is answered exactly when the enabled rows fit the
   limits, and is refused for no other reason than size or count.
   */
  lemma CommittedTreeAnswers(limits: Store.Limits, rules: Rules, s: Store.State, dictionary: string, q: Query,
          stored: seq<Item>)
    requires Store.Committed(limits, s) && Compatible(limits, rules) && Lists(s.items, dictionary, stored)
    ensures StaticAnswer(rules, q, stored).Answered? <==> Loadable(rules, Rows(q, stored))
    ensures StaticAnswer(rules, q, stored) != Invalid
  {
    ListedIsWellFormed(limits, rules, s, dictionary, stored);
    Store.OneDictionary(limits, s, dictionary);
    NeverTooDeep(rules, s.items, dictionary, q, stored);
    AnswerTrusted(rules, q, stored);
    InvalidIsTooDeep(rules, q, stored);
  }

  /** The tree is refused only when a kept item sits below level 512. */
  lemma InvalidIsTooDeep(rules: Rules, q: Query, stored: seq<Item>)
    requires WellFormed(rules, stored)
    ensures StaticAnswer(rules, q, stored) == Invalid ==> TooDeep(rules.lower, ById(Rows(q, stored)), q)
  {
    AnswerTrusted(rules, q, stored);
  }
}
