/**
 Dictionary transactions in terms of what readers see and of the whole tree afterwards:
 what each changes about a dictionary's items, when exactly it is accepted, and that no
 edit prepared on an old version is ever accepted.
 */
module StoreHistory {
  import opened Wrappers
  import opened Forest
  import opened StoredTree
  import opened DictionaryStore
  import TreeItems
  import opened StoredQuery

  // ---- What readers see -----------------------------------------------------

  /** The items of a dictionary, as a query reads them. */
  function Shown(items: Table, dictionary: string): set<TreeItems.Item> {
    set x | x in items && LiveIn(items, dictionary, x) :: ItemOf(x, items[x])
  }

  function ItemWith(id: string, parent: Option<string>, code: string, fields: Fields): TreeItems.Item {
    TreeItems.Item(id, parent, code, fields.name, fields.value, fields.disabled, fields.sortOrder, fields.extension)
  }

  function If(shown: bool, item: TreeItems.Item): set<TreeItems.Item> { if shown then {item} else {} }

  lemma PutShown(items: Table, id: string, row: Row, dictionary: string)
    ensures Shown(items[id := row], dictionary)
        == Shown(items, dictionary) - (if LiveIn(items, dictionary, id) then {ItemOf(id, items[id])} else {})
           + If(row.live && row.dictionary == dictionary, ItemOf(id, row))
  {
    var after := items[id := row];
    var taken := if LiveIn(items, dictionary, id) then {ItemOf(id, items[id])} else {};
    forall item
      ensures item in Shown(after, dictionary) <==>
              item in Shown(items, dictionary) - taken + If(row.live && row.dictionary == dictionary, ItemOf(id, row))
    {
      ShownIs(items, dictionary, item);
      ShownIs(after, dictionary, item);
    }
  }

  lemma ShownIs(items: Table, dictionary: string, item: TreeItems.Item)
    ensures item in Shown(items, dictionary) <==>
            LiveIn(items, dictionary, item.id) && item == ItemOf(item.id, items[item.id])
  {
    if LiveIn(items, dictionary, item.id) && item == ItemOf(item.id, items[item.id]) {
      assert item.id in items;
    }
  }

  /**
   A create adds its item, an update replaces it under its old code, a delete takes it away;
   nothing else that readers see changes.
   */
  lemma ShownAfter(limits: Limits, s: State, change: Change, dictionary: string)
    requires Accepts(limits, s, change)
    ensures var before, after := Shown(s.items, dictionary), Shown(Applied(limits, s, change).items, dictionary);
            match change
            case CreateItem(id, d, parent, code, fields) =>
              after == before + If(d == dictionary, ItemWith(id, parent, code, fields))
            case UpdateItem(id, parent, fields, _) =>
              var row := s.items[id];
              after == before - If(row.dictionary == dictionary, ItemOf(id, row))
                       + If(row.dictionary == dictionary, ItemWith(id, parent, row.code, fields))
            case DeleteItem(id, _) =>
              var row := s.items[id];
              after == before - If(row.dictionary == dictionary, ItemOf(id, row))
            case _ => after == before
  {
    match change {
      case CreateItem(id, d, parent, code, fields) =>
        PutShown(s.items, id, CreatedRow(d, parent, code, fields), dictionary);
      case UpdateItem(id, parent, fields, _) =>
        PutShown(s.items, id, UpdatedRow(s.items[id], parent, fields), dictionary);
      case DeleteItem(id, _) => PutShown(s.items, id, DeletedRow(s.items[id]), dictionary);
      case _ =>
    }
  }

  /**
   What each change does to a definition: one is added, its status is replaced, it is deleted,
   or an item of it changed; only the version tells the last.
   */
  lemma DefinitionAfter(limits: Limits, s: State, change: Change, dictionary: string)
    requires Accepts(limits, s, change)
    ensures var after := Applied(limits, s, change).definitions;
            match change
            case CreateDefinition(d, code, kind, source, active) =>
              if d == dictionary then d in after && after[d] == Definition(code, kind, source, active, true, 1)
              else SameDefinition(s.definitions, after, dictionary)
            case UpdateDefinition(d, active, version) =>
              if d != dictionary then SameDefinition(s.definitions, after, dictionary)
              else
                var was := s.definitions[d];
                d in after && after[d] == Definition(was.code, was.kind, was.source, active, true, version + 1)
            case DeleteDefinition(d, version) =>
              if d != dictionary then SameDefinition(s.definitions, after, dictionary)
              else d in after && !after[d].live && after[d].version == version + 1
            case CreateItem(_, d, _, _, _) => ItemChanged(s.definitions, after, dictionary, d)
            case UpdateItem(id, _, _, _) => ItemChanged(s.definitions, after, dictionary, s.items[id].dictionary)
            case DeleteItem(id, _) => ItemChanged(s.definitions, after, dictionary, s.items[id].dictionary)
  {}

  predicate SameDefinition(before: Definitions, after: Definitions, dictionary: string) {
    && (dictionary in after <==> dictionary in before)
    && (dictionary in before ==> after[dictionary] == before[dictionary])
  }

  predicate ItemChanged(before: Definitions, after: Definitions, dictionary: string, changed: string) {
    if dictionary != changed then SameDefinition(before, after, dictionary)
    else
      dictionary in before && dictionary in after
      && after[dictionary] == before[dictionary].(version := before[dictionary].version + 1)
  }

  // ---- When a change is accepted --------------------------------------------

  lemma FreeInSound(items: Table, id: string, row: Row)
    requires row.live && DistinctValues(items[id := row], row.dictionary)
    ensures ValueFree(items, row.dictionary, id, row.fields.value) && CodeFree(items, row.dictionary, id, row.code)
  {
    var now := items[id := row];
    forall x | x in items && LiveIn(items, row.dictionary, x) && x != id
      ensures SelectableOf(items, x) != (if row.fields.value == "" then id else row.fields.value)
      ensures items[x].code != row.code
    {
      assert LiveIn(now, row.dictionary, x) && LiveIn(now, row.dictionary, id);
    }
  }

  /** The checks of a create besides those of the tree and its values. */
  predicate Proper(limits: Limits, s: State, id: string, row: Row) {
    && limits.idOk(id) && limits.codeOk(row.code) && limits.fieldsOk(row.fields) && Editable(s, row.dictionary)
    && (s.definitions[row.dictionary].kind == TreeItems.Enum ==> row.parent == None)
  }

  /** A new item is accepted exactly if there is room for one more and the dictionary is sound with it. */
  lemma CreateExactly(limits: Limits, s: State, id: string, row: Row)
    requires Committed(limits, s) && id !in s.items && row.live && Proper(limits, s, id, row)
    ensures CanCreate(limits, s, id, row.dictionary, row.parent, row.code, row.fields) <==>
              && (s.definitions[row.dictionary].kind == TreeItems.TreeKind ==>
                    |LiveParents(s.items, row.dictionary)| < limits.maxTreeNodes)
              && Sound(s.items[id := row], row.dictionary)
  {
    OneDictionary(limits, s, row.dictionary);
    if Sound(s.items[id := row], row.dictionary) {
      FreeInSound(s.items, id, row);
      ParentStays(s.items, id, row);
      CreateFits(s.items, id, row);
    }
    if CanCreate(limits, s, id, row.dictionary, row.parent, row.code, row.fields) {
      CreateKeeps(limits, s, id, row);
      OneDictionary(limits, State(Touched(s.definitions, row.dictionary), s.items[id := row]), row.dictionary);
    }
  }

  /** In a forest the parent of a new item is one that was there. */
  lemma ParentStays(items: Table, id: string, row: Row)
    requires id !in items && row.live && IsForestWithin(LiveParents(items[id := row], row.dictionary), MAX_TREE_DEPTH)
    ensures row.parent.Some? ==> LiveIn(items, row.dictionary, row.parent.value)
  {
    var after := LiveParents(items[id := row], row.dictionary);
    assert after[id] == row.parent;
    var d :| IsDepthMap(after, d) && forall x | x in d :: d[x] <= MAX_TREE_DEPTH;
    if row.parent.Some? { assert row.parent.value in after && d[id] == d[row.parent.value] + 1; }
  }

  /** An edit of the current version is accepted exactly if the dictionary is sound with it. */
  lemma UpdateExactly(limits: Limits, s: State, id: string, parent: Option<string>, fields: Fields)
    requires Committed(limits, s) && id in s.items && s.items[id].live
    requires Proper(limits, s, id, UpdatedRow(s.items[id], parent, fields))
    ensures CanUpdate(limits, s, id, parent, fields, s.items[id].version) <==>
            Sound(s.items[id := UpdatedRow(s.items[id], parent, fields)], s.items[id].dictionary)
  {
    var row := UpdatedRow(s.items[id], parent, fields);
    OneDictionary(limits, s, row.dictionary);
    UpdateFits(s.items, id, row);
    if Sound(s.items[id := row], row.dictionary) { FreeInSound(s.items, id, row); }
    if CanUpdate(limits, s, id, parent, fields, s.items[id].version) {
      UpdateKeeps(limits, s, id, row);
      OneDictionary(limits, State(Touched(s.definitions, row.dictionary), s.items[id := row]), row.dictionary);
    }
  }

  lemma DeleteExactly(limits: Limits, s: State, id: string)
    requires Committed(limits, s) && id in s.items && s.items[id].live
    ensures CanDelete(s, id, s.items[id].version) <==>
            Sound(s.items[id := DeletedRow(s.items[id])], s.items[id].dictionary)
  {
    var dictionary, after := s.items[id].dictionary, s.items[id := DeletedRow(s.items[id])];
    OneDictionary(limits, s, dictionary);
    OneRow(limits, s, id);
    if Childless(s.items, id) {
      DeleteKeeps(limits, s, id);
      OneDictionary(limits, State(Touched(s.definitions, dictionary), after), dictionary);
    }
    if Sound(after, dictionary) {
      forall x | x in s.items && s.items[x].live
        ensures s.items[x].parent != Some(id)
      {
        if s.items[x].parent == Some(id) { OrphanUnsound(limits, s, id, x); }
      }
    }
  }

  /** In a forest every parent is a node, and no node its own. */
  lemma ParentInForest(parents: Parents, x: string, parent: string)
    requires IsForestWithin(parents, MAX_TREE_DEPTH) && x in parents && parents[x] == Some(parent)
    ensures parent in parents && parent != x
  {
    var d :| IsDepthMap(parents, d) && forall x | x in d :: d[x] <= MAX_TREE_DEPTH;
    assert parents[x].Some? && d[x] == d[parent] + 1;
  }

  lemma OrphanUnsound(limits: Limits, s: State, id: string, x: string)
    requires Committed(limits, s) && id in s.items && s.items[id].live
    requires x in s.items && s.items[x].live && s.items[x].parent == Some(id)
    ensures !Sound(s.items[id := DeletedRow(s.items[id])], s.items[id].dictionary)
  {
    OneDictionary(limits, s, s.items[x].dictionary);
    ParentInForest(LiveParents(s.items, s.items[x].dictionary), x, id);
    if Sound(s.items[id := DeletedRow(s.items[id])], s.items[id].dictionary) {
      ParentInForest(LiveParents(s.items[id := DeletedRow(s.items[id])], s.items[id].dictionary), x, id);
      assert false;
    }
  }

  // ---- Versions along a history ---------------------------------------------

  /** Each change is applied if it is accepted, and otherwise changes nothing. */
  ghost predicate History(limits: Limits, states: seq<State>, changes: seq<Change>) {
    && |states| == |changes| + 1
    && forall i | 0 <= i < |changes| :: Step(limits, states[i], changes[i], states[i + 1])
  }

  ghost predicate Step(limits: Limits, s: State, change: Change, t: State) {
    t == if Accepts(limits, s, change) then Applied(limits, s, change) else s
  }

  /** The row that an edit is about, and the version it was prepared on. */
  datatype Edit = ItemEdit(id: string, version: nat) | DefinitionEdit(dictionary: string, version: nat)

  function EditOf(change: Change): Option<Edit> {
    match change
    case UpdateItem(id, _, _, version) => Some(ItemEdit(id, version))
    case DeleteItem(id, version) => Some(ItemEdit(id, version))
    case UpdateDefinition(dictionary, _, version) => Some(DefinitionEdit(dictionary, version))
    case DeleteDefinition(dictionary, version) => Some(DefinitionEdit(dictionary, version))
    case _ => None
  }

  /** The row has moved on from this version. */
  predicate Past(s: State, e: Edit) {
    match e
    case ItemEdit(id, version) => id in s.items && s.items[id].version > version
    case DefinitionEdit(dictionary, version) =>
      dictionary in s.definitions && s.definitions[dictionary].version > version
  }

  lemma PastStays(limits: Limits, s: State, change: Change, t: State, e: Edit)
    requires Step(limits, s, change, t) && Past(s, e)
    ensures Past(t, e)
  {}

  lemma {:induction false} PastStaysAlong(limits: Limits, states: seq<State>, changes: seq<Change>, m: nat, n: nat,
          e: Edit)
    requires History(limits, states, changes) && m <= n < |states| && Past(states[m], e)
    ensures Past(states[n], e)
    decreases n - m
  {
    if m < n {
      assert Step(limits, states[m], changes[m], states[m + 1]);
      PastStays(limits, states[m], changes[m], states[m + 1], e);
      PastStaysAlong(limits, states, changes, m + 1, n, e);
    }
  }

  lemma EditMovesOn(limits: Limits, s: State, change: Change, t: State, e: Edit)
    requires Step(limits, s, change, t) && Accepts(limits, s, change) && EditOf(change) == Some(e)
    ensures Past(t, e)
  {}

  lemma PastRefused(limits: Limits, s: State, change: Change, e: Edit)
    requires EditOf(change) == Some(e) && Past(s, e)
    ensures !Accepts(limits, s, change)
  {}

  predicate SameRow(a: Edit, b: Edit) {
    match a
    case ItemEdit(id, _) => b.ItemEdit? && b.id == id
    case DefinitionEdit(dictionary, _) => b.DefinitionEdit? && b.dictionary == dictionary
  }

  /**
   No update is lost.  Along any history, once an edit of an item or a definition was
   accepted, no edit prepared on the same or an older version of that row is accepted.
   */
  lemma NoLostUpdate(limits: Limits, states: seq<State>, changes: seq<Change>, m: nat, n: nat, a: Edit, b: Edit)
    requires History(limits, states, changes) && m < n < |changes|
    requires Accepts(limits, states[m], changes[m]) && EditOf(changes[m]) == Some(a)
    requires EditOf(changes[n]) == Some(b) && SameRow(a, b) && b.version <= a.version
    ensures !Accepts(limits, states[n], changes[n])
  {
    assert Step(limits, states[m], changes[m], states[m + 1]);
    EditMovesOn(limits, states[m], changes[m], states[m + 1], a);
    PastStaysAlong(limits, states, changes, m + 1, n, a);
    PastRefused(limits, states[n], changes[n], b);
  }
}
