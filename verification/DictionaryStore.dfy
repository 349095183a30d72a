/**
 Static dictionaries under their transactions: create, update and delete of items and of
 definitions in internal/dictionary/service.go, one method call each, with the version that
 migrations/mysql/000024_data_dictionaries.up.sql raises on every update.
 */
module DictionaryStore {
  import opened Wrappers
  import opened Forest
  import opened TreeItems
  import opened TreeMoves
  import opened StoredTree

  datatype Source = Static | Provider

  /** A definition row; deleted rows stay with `live` false. */
  datatype Definition = Definition(code: string, kind: Kind, source: Source, active: bool, live: bool, version: nat)

  type Definitions = map<string, Definition>

  datatype State = State(definitions: Definitions, items: Table)

  datatype Failure = NotFound | InvalidInput | Conflict | StaleVersion | NotRegistered

  /** The configured tree size and the platform's checks of identifiers, codes and the other fields. */
  datatype Limits = Limits(maxTreeNodes: nat, idOk: string -> bool, codeOk: string -> bool, fieldsOk: Fields -> bool)

  // ---- What every committed state keeps -------------------------------------

  ghost predicate RowOk(limits: Limits, definitions: Definitions, id: string, row: Row) {
    && row.dictionary in definitions
    && (row.live ==>
          && var d := definitions[row.dictionary];
          && d.live && d.source == Static && (d.kind == Enum ==> row.parent == None)
          && limits.idOk(id) && limits.codeOk(row.code) && limits.fieldsOk(row.fields))
  }

  /** No two live definitions have one code. */
  ghost predicate DistinctCodes(definitions: Definitions) {
    forall a, b | a in definitions && b in definitions && a != b && definitions[a].live && definitions[b].live ::
      definitions[a].code != definitions[b].code
  }

  ghost predicate SoundState(limits: Limits, s: State) {
    && DistinctCodes(s.definitions)
    && (forall dictionary {:trigger Sound(s.items, dictionary)} :: Sound(s.items, dictionary))
    && forall id | id in s.items :: RowOk(limits, s.definitions, id, s.items[id])
  }

  ghost predicate Opened(s: State) { true }

  /** `SoundState`, folded: its quantifiers only come into play where `Opened` is mentioned. */
  ghost predicate Committed(limits: Limits, s: State) {
    forall t {:trigger Opened(t)} | Opened(t) && t == s :: SoundState(limits, t)
  }

  // ---- The transactions -----------------------------------------------------

  datatype Change =
    | CreateItem(id: string, dictionary: string, parent: Option<string>, code: string, fields: Fields)
    | UpdateItem(id: string, parent: Option<string>, fields: Fields, version: nat)
    | DeleteItem(id: string, version: nat)
    | CreateDefinition(dictionary: string, code: string, kind: Kind, source: Source, active: bool)
    | UpdateDefinition(dictionary: string, active: bool, version: nat)
    | DeleteDefinition(dictionary: string, version: nat)

  predicate Editable(s: State, dictionary: string) {
    dictionary in s.definitions && s.definitions[dictionary].live && s.definitions[dictionary].source == Static
  }

  predicate Current(s: State, dictionary: string, version: nat) {
    dictionary in s.definitions && s.definitions[dictionary].live && s.definitions[dictionary].version == version
  }

  /** The unique index on the codes of live definitions. */
  predicate DefinitionCodeFree(definitions: Definitions, code: string) {
    forall d | d in definitions && definitions[d].live :: definitions[d].code != code
  }

  predicate Childless(items: Table, id: string) {
    forall x | x in items && items[x].live :: items[x].parent != Some(id)
  }

  predicate NoLiveItems(items: Table, dictionary: string) {
    forall x | x in items :: !LiveIn(items, dictionary, x)
  }

  /** When a create commits: of the tree, only room below the new parent is asked for. */
  ghost predicate CanCreate(limits: Limits, s: State, id: string, dictionary: string, parent: Option<string>,
          code: string, fields: Fields)
  {
    && id !in s.items && limits.idOk(id) && limits.codeOk(code) && limits.fieldsOk(fields)
    && Editable(s, dictionary)
    && (parent.Some? ==> LiveIn(s.items, dictionary, parent.value))
    && ValueFree(s.items, dictionary, id, fields.value) && CodeFree(s.items, dictionary, id, code)
    && match s.definitions[dictionary].kind
       case Enum => parent == None
       case TreeKind =>
         |LiveParents(s.items, dictionary)| < limits.maxTreeNodes && HasRoom(LiveParents(s.items, dictionary), parent)
  }

  /** When an update commits: the item and all below it must fit below the new parent, which is none of them. */
  ghost predicate CanUpdate(limits: Limits, s: State, id: string, parent: Option<string>, fields: Fields,
      version: nat) {
    && limits.fieldsOk(fields)
    && id in s.items && s.items[id].live && s.items[id].version == version
    && var dictionary := s.items[id].dictionary;
    && Editable(s, dictionary)
    && ValueFree(s.items, dictionary, id, fields.value)
    && match s.definitions[dictionary].kind
       case Enum => parent == None
       case TreeKind => Movable(LiveParents(s.items, dictionary), id, parent)
  }

  predicate CanDelete(s: State, id: string, version: nat) {
    id in s.items && s.items[id].live && s.items[id].version == version && Childless(s.items, id)
  }

  ghost predicate Accepts(limits: Limits, s: State, change: Change) {
    match change
    case CreateItem(id, dictionary, parent, code, fields) => CanCreate(limits, s, id, dictionary, parent, code, fields)
    case UpdateItem(id, parent, fields, version) => CanUpdate(limits, s, id, parent, fields, version)
    case DeleteItem(id, version) => CanDelete(s, id, version) && s.items[id].dictionary in s.definitions
    case CreateDefinition(dictionary, code, _, _, _) =>
      dictionary !in s.definitions && limits.codeOk(code) && DefinitionCodeFree(s.definitions, code)
    case UpdateDefinition(dictionary, _, version) => Current(s, dictionary, version)
    case DeleteDefinition(dictionary, version) => Current(s, dictionary, version) && NoLiveItems(s.items, dictionary)
  }

  /** The audit trigger raises the version with every update of a definition. */
  function Touched(definitions: Definitions, dictionary: string): Definitions
    requires dictionary in definitions
  {
    definitions[dictionary := definitions[dictionary].(version := definitions[dictionary].version + 1)]
  }

  function CreatedRow(dictionary: string, parent: Option<string>, code: string, fields: Fields): Row {
    Row(dictionary, parent, code, fields, true, 1)
  }

  function UpdatedRow(row: Row, parent: Option<string>, fields: Fields): Row {
    row.(parent := parent, fields := fields, version := row.version + 1)
  }

  function DeletedRow(row: Row): Row { row.(live := false, version := row.version + 1) }

  ghost function Applied(limits: Limits, s: State, change: Change): State
    requires Accepts(limits, s, change)
  {
    match change
    case CreateItem(id, dictionary, parent, code, fields) =>
      State(Touched(s.definitions, dictionary), s.items[id := CreatedRow(dictionary, parent, code, fields)])
    case UpdateItem(id, parent, fields, _) =>
      State(Touched(s.definitions, s.items[id].dictionary), s.items[id := UpdatedRow(s.items[id], parent, fields)])
    case DeleteItem(id, _) =>
      State(Touched(s.definitions, s.items[id].dictionary), s.items[id := DeletedRow(s.items[id])])
    case CreateDefinition(dictionary, code, kind, source, active) =>
      s.(definitions := s.definitions[dictionary := Definition(code, kind, source, active, true, 1)])
    case UpdateDefinition(dictionary, active, version) =>
      s.(definitions :=
          s.definitions[dictionary := s.definitions[dictionary].(active := active, version := version + 1)])
    case DeleteDefinition(dictionary, version) =>
      s.(definitions := s.definitions[dictionary := s.definitions[dictionary].(live := false, version := version + 1)])
  }

  // ---- Every transaction keeps the state sound ------------------------------

  lemma PutLive(items: Table, id: string, row: Row)
    requires row.live && (id in items ==> items[id].dictionary == row.dictionary)
    ensures LiveParents(items[id := row], row.dictionary) == LiveParents(items, row.dictionary)[id := row.parent]
  {}

  /** A row can be put when its own dictionary stays sound and the row suits its definition. */
  lemma RowPut(limits: Limits, s: State, id: string, row: Row)
    requires Committed(limits, s) && (id in s.items ==> s.items[id].dictionary == row.dictionary)
    requires Sound(s.items[id := row], row.dictionary) && RowOk(limits, s.definitions, id, row)
    ensures Committed(limits, State(Touched(s.definitions, row.dictionary), s.items[id := row]))
  {
    var t := State(Touched(s.definitions, row.dictionary), s.items[id := row]);
    TouchedCodes(limits, s, row.dictionary);
    AllStaySound(limits, s, id, row);
    forall x | x in t.items
      ensures RowOk(limits, t.definitions, x, t.items[x])
    {
      if x != id { OneRow(limits, s, x); }
    }
    assert SoundState(limits, t);
  }

  lemma TouchedCodes(limits: Limits, s: State, dictionary: string)
    requires Committed(limits, s) && dictionary in s.definitions
    ensures DistinctCodes(Touched(s.definitions, dictionary))
  {
    assert Opened(s);
  }

  lemma OneRow(limits: Limits, s: State, id: string)
    requires Committed(limits, s) && id in s.items
    ensures RowOk(limits, s.definitions, id, s.items[id])
  {
    assert Opened(s);
  }

  lemma OneDictionary(limits: Limits, s: State, dictionary: string)
    requires Committed(limits, s)
    ensures Sound(s.items, dictionary)
  {
    assert Opened(s);
  }

  lemma AllStaySound(limits: Limits, s: State, id: string, row: Row)
    requires Committed(limits, s) && (id in s.items ==> s.items[id].dictionary == row.dictionary)
    requires Sound(s.items[id := row], row.dictionary)
    ensures forall dictionary {:trigger Sound(s.items[id := row], dictionary)} :: Sound(s.items[id := row], dictionary)
  {
    forall dictionary {:trigger Sound(s.items[id := row], dictionary)}
      ensures Sound(s.items[id := row], dictionary)
    {
      OneDictionary(limits, s, dictionary);
      if dictionary != row.dictionary { OthersUntouched(s.items, id, row, dictionary); }
    }
  }

  /** What the check of the whole new tree says about a created item. */
  lemma CreateFits(items: Table, id: string, row: Row)
    requires Sound(items, row.dictionary) && id !in items && row.live
    requires row.parent.Some? ==> LiveIn(items, row.dictionary, row.parent.value)
    ensures IsForestWithin(LiveParents(items[id := row], row.dictionary), MAX_TREE_DEPTH)
            <==> HasRoom(LiveParents(items, row.dictionary), row.parent)
  {
    PutLive(items, id, row);
    NewLeafFits(LiveParents(items, row.dictionary), id, row.parent);
  }

  /** What the check of the whole new tree says about a moved item. */
  lemma UpdateFits(items: Table, id: string, row: Row)
    requires Sound(items, row.dictionary) && LiveIn(items, row.dictionary, id) && row.live
    ensures IsForestWithin(LiveParents(items[id := row], row.dictionary), MAX_TREE_DEPTH)
            <==> Movable(LiveParents(items, row.dictionary), id, row.parent)
  {
    PutLive(items, id, row);
    MoveFits(LiveParents(items, row.dictionary), id, row.parent);
  }

  lemma EnumStaysFlat(limits: Limits, s: State, id: string, row: Row)
    requires Committed(limits, s) && row.dictionary in s.definitions && s.definitions[row.dictionary].kind == Enum
        && row.parent == None
    ensures IsForestWithin(LiveParents(s.items[id := row], row.dictionary), MAX_TREE_DEPTH)
  {
    var now := s.items[id := row];
    forall x | x in now && LiveIn(now, row.dictionary, x)
      ensures now[x].parent == None
    {
      if x != id { OneRow(limits, s, x); }
    }
    FlatIsForest(now, row.dictionary);
  }

  /** After the other checks of a create, the check of the whole new tree decides. */
  lemma CreateDecided(limits: Limits, s: State, id: string, row: Row)
    requires Committed(limits, s) && id !in s.items && row.live && Editable(s, row.dictionary)
    requires limits.idOk(id) && limits.codeOk(row.code) && limits.fieldsOk(row.fields)
    requires row.parent.Some? ==> LiveIn(s.items, row.dictionary, row.parent.value)
    requires ValueFree(s.items, row.dictionary, id, row.fields.value) && CodeFree(s.items, row.dictionary, id, row.code)
    requires match s.definitions[row.dictionary].kind
             case Enum => row.parent == None
             case TreeKind => |LiveParents(s.items, row.dictionary)| < limits.maxTreeNodes
    ensures CanCreate(limits, s, id, row.dictionary, row.parent, row.code, row.fields) <==>
            (s.definitions[row.dictionary].kind == TreeKind ==>
               IsForestWithin(LiveParents(s.items[id := row], row.dictionary), MAX_TREE_DEPTH))
  {
    OneDictionary(limits, s, row.dictionary);
    CreateFits(s.items, id, row);
  }

  lemma CreateKeeps(limits: Limits, s: State, id: string, row: Row)
    requires Committed(limits, s)
    requires CanCreate(limits, s, id, row.dictionary, row.parent, row.code, row.fields) && row.live
    ensures Committed(limits, State(Touched(s.definitions, row.dictionary), s.items[id := row]))
  {
    OneDictionary(limits, s, row.dictionary);
    CreateFits(s.items, id, row);
    if s.definitions[row.dictionary].kind == Enum { EnumStaysFlat(limits, s, id, row); }
    ValuesStayDistinct(s.items, id, row);
    RowPut(limits, s, id, row);
  }

  lemma UpdateKeeps(limits: Limits, s: State, id: string, row: Row)
    requires Committed(limits, s) && id in s.items
        && CanUpdate(limits, s, id, row.parent, row.fields, s.items[id].version)
    requires row == UpdatedRow(s.items[id], row.parent, row.fields)
    ensures Committed(limits, State(Touched(s.definitions, row.dictionary), s.items[id := row]))
  {
    OneDictionary(limits, s, row.dictionary);
    OneRow(limits, s, id);
    UpdateFits(s.items, id, row);
    if s.definitions[row.dictionary].kind == Enum { EnumStaysFlat(limits, s, id, row); }
    OwnCodeFree(s.items, id, row);
    ValuesStayDistinct(s.items, id, row);
    RowPut(limits, s, id, row);
  }

  lemma DeleteKeeps(limits: Limits, s: State, id: string)
    requires Committed(limits, s) && id in s.items && CanDelete(s, id, s.items[id].version)
    requires s.items[id].dictionary in s.definitions
    ensures Committed(limits,
        State(Touched(s.definitions, s.items[id].dictionary), s.items[id := DeletedRow(s.items[id])]))
  {
    var row := DeletedRow(s.items[id]);
    OneDictionary(limits, s, row.dictionary);
    OneRow(limits, s, id);
    LeafRemoved(s.items, id, row);
    RowPut(limits, s, id, row);
  }

  /** A definition keeps its code or takes a free one. */
  lemma DefinitionCodes(limits: Limits, s: State, dictionary: string, d: Definition)
    requires Committed(limits, s)
    requires d.live ==>
               DefinitionCodeFree(s.definitions, d.code)
               || (dictionary in s.definitions && s.definitions[dictionary].live
                  && s.definitions[dictionary].code == d.code)
    ensures DistinctCodes(s.definitions[dictionary := d])
  {
    assert Opened(s);
  }

  /** A definition may change as long as every live row still suits it. */
  lemma DefinitionKeeps(limits: Limits, s: State, dictionary: string, d: Definition)
    requires Committed(limits, s) && DistinctCodes(s.definitions[dictionary := d])
    requires dictionary in s.definitions && !NoLiveItems(s.items, dictionary) ==>
               d.live && d.kind == s.definitions[dictionary].kind && d.source == s.definitions[dictionary].source
    ensures Committed(limits, s.(definitions := s.definitions[dictionary := d]))
  {
    var t := s.(definitions := s.definitions[dictionary := d]);
    forall x | x in t.items
      ensures RowOk(limits, t.definitions, x, t.items[x])
    {
      OneRow(limits, s, x);
      if t.items[x].live && t.items[x].dictionary == dictionary { assert LiveIn(s.items, dictionary, x); }
    }
    forall other
      ensures Sound(t.items, other)
    {
      OneDictionary(limits, s, other);
    }
    assert SoundState(limits, t);
  }

  /** Every accepted transaction leads from a sound state to a sound state. */
  lemma StepKeeps(limits: Limits, s: State, change: Change)
    requires Committed(limits, s) && Accepts(limits, s, change)
    ensures Committed(limits, Applied(limits, s, change))
  {
    match change
    case CreateItem(id, dictionary, parent, code, fields) =>
      CreateKeeps(limits, s, id, CreatedRow(dictionary, parent, code, fields));
    case UpdateItem(id, parent, fields, version) => UpdateKeeps(limits, s, id, UpdatedRow(s.items[id], parent, fields));
    case DeleteItem(id, version) => DeleteKeeps(limits, s, id);
    case CreateDefinition(dictionary, code, kind, source, active) =>
      DefinitionCodes(limits, s, dictionary, Definition(code, kind, source, active, true, 1));
      DefinitionKeeps(limits, s, dictionary, Definition(code, kind, source, active, true, 1));
    case UpdateDefinition(dictionary, active, version) =>
      DefinitionCodes(limits, s, dictionary, s.definitions[dictionary].(active := active, version := version + 1));
      DefinitionKeeps(limits, s, dictionary, s.definitions[dictionary].(active := active, version := version + 1));
    case DeleteDefinition(dictionary, version) =>
      DefinitionCodes(limits, s, dictionary, s.definitions[dictionary].(live := false, version := version + 1));
      DefinitionKeeps(limits, s, dictionary, s.definitions[dictionary].(live := false, version := version + 1));
  }

  lemma EmptyCommitted(limits: Limits)
    ensures Committed(limits, State(map[], map[]))
  {
    forall dictionary
      ensures Sound(map[], dictionary)
    {
      EmptySound(dictionary);
    }
    assert SoundState(limits, State(map[], map[]));
  }

  lemma EmptySound(dictionary: string)
    ensures Sound(map[], dictionary)
  {
    FlatIsForest(map[], dictionary);
  }

  // ---- The service ----------------------------------------------------------

  class Service {
    const limits: Limits
    var definitions: Definitions
    var items: Table

    function Stored(): State
      reads this
    {
      State(definitions, items)
    }

    ghost predicate Valid()
      reads this
    {
      Committed(limits, Stored())
    }

    constructor (limits: Limits)
      ensures Valid() && this.limits == limits && Stored() == State(map[], map[])
    {
      this.limits, definitions, items := limits, map[], map[];
      EmptyCommitted(limits);
    }

    /** `id` is the generated identifier. */
    method CreateItem(id: string, dictionary: string, parent: Option<string>, code: string,
            fields: Fields) returns (r: Option<Failure>)
      requires Valid() && id !in items && limits.idOk(id)
      modifies this
      ensures Valid()
      ensures r.None? <==> CanCreate(limits, old(Stored()), id, dictionary, parent, code, fields)
      ensures Stored()
          == if r.None? then Applied(limits, old(Stored()), Change.CreateItem(id, dictionary, parent, code, fields))
              else old(Stored())
    {
      if !limits.codeOk(code) || !limits.fieldsOk(fields) { return Some(InvalidInput); }
      if dictionary !in definitions || !definitions[dictionary].live { return Some(NotFound); }
      var definition := definitions[dictionary];
      if definition.source != Static || (definition.kind == Enum && parent.Some?) { return Some(InvalidInput); }
      if definition.kind == TreeKind && |LiveParents(items, dictionary)| >= limits.maxTreeNodes {
        return Some(Conflict);
      }
      if parent.Some? && !LiveIn(items, dictionary, parent.value) { return Some(InvalidInput); }
      if !ValueFree(items, dictionary, id, fields.value) { return Some(Conflict); }
      if !CodeFree(items, dictionary, id, code) { return Some(Conflict); }
      var row := CreatedRow(dictionary, parent, code, fields);
      CreateDecided(limits, Stored(), id, row);
      if definition.kind == TreeKind {
        var ok := ValidateStoredTreeDepth(items[id := row], dictionary);
        if !ok { return Some(InvalidInput); }
      }
      StepKeeps(limits, Stored(), Change.CreateItem(id, dictionary, parent, code, fields));
      items := items[id := row];
      definitions := Touched(definitions, dictionary);
      r := None;
    }

    method UpdateItem(id: string, parent: Option<string>, fields: Fields, version: nat) returns (r: Option<Failure>)
      requires Valid()
      modifies this
      ensures Valid()
      ensures r.None? <==> CanUpdate(limits, old(Stored()), id, parent, fields, version)
      ensures Stored()
          == if r.None? then Applied(limits, old(Stored()), Change.UpdateItem(id, parent, fields, version))
              else old(Stored())
    {
      if !limits.fieldsOk(fields) { return Some(InvalidInput); }
      if parent == Some(id) {
        OwnParentRefused(limits, Stored(), id, fields, version);
        return Some(InvalidInput);
      }
      if id !in items || !items[id].live { return Some(NotFound); }
      OneRow(limits, Stored(), id);
      var dictionary := items[id].dictionary;
      var definition := definitions[dictionary];
      var row := UpdatedRow(items[id], parent, fields);
      if definition.source != Static || (definition.kind == Enum && parent.Some?) { return Some(InvalidInput); }
      OneDictionary(limits, Stored(), dictionary);
      UpdateFits(items, id, row);
      if parent.Some? {
        var chained := ValidateItemParentChain(items, dictionary, id, parent.value);
        if !chained {
          NotChainedIsNoForest(items, dictionary, id, row, parent.value);
          return Some(InvalidInput);
        }
      }
      if !ValueFree(items, dictionary, id, fields.value) { return Some(Conflict); }
      if items[id].version != version { return Some(StaleVersion); }
      if definition.kind == TreeKind {
        var ok := ValidateStoredTreeDepth(items[id := row], dictionary);
        if !ok { return Some(InvalidInput); }
      }
      StepKeeps(limits, Stored(), Change.UpdateItem(id, parent, fields, version));
      items := items[id := row];
      definitions := Touched(definitions, dictionary);
      r := None;
    }

    method DeleteItem(id: string, version: nat) returns (r: Option<Failure>)
      requires Valid()
      modifies this
      ensures Valid()
      ensures r.None? <==> Accepts(limits, old(Stored()), Change.DeleteItem(id, version))
      ensures Stored()
          == if r.None? then Applied(limits, old(Stored()), Change.DeleteItem(id, version)) else old(Stored())
    {
      if id !in items || !items[id].live { return Some(NotFound); }
      OneRow(limits, Stored(), id);
      if !Childless(items, id) { return Some(Conflict); }
      if items[id].version != version { return Some(StaleVersion); }
      StepKeeps(limits, Stored(), Change.DeleteItem(id, version));
      definitions := Touched(definitions, items[id].dictionary);
      items := items[id := DeletedRow(items[id])];
      r := None;
    }

    /** `fieldsOk` are the checks of name, description and extension; `registered`: a provider serves this code. */
    method CreateDefinition(dictionary: string, code: string, kind: Kind, source: Source, active: bool,
            fieldsOk: bool, registered: bool) returns (r: Option<Failure>)
      requires Valid() && dictionary !in definitions
      modifies this
      ensures Valid()
      ensures r.None? <==>
              && fieldsOk && (source == Provider ==> registered)
              && Accepts(limits, old(Stored()), Change.CreateDefinition(dictionary, code, kind, source, active))
      ensures Stored()
          == if r.None? then Applied(limits, old(Stored()),
              Change.CreateDefinition(dictionary, code, kind, source, active)) else old(Stored())
    {
      if !limits.codeOk(code) || !fieldsOk { return Some(InvalidInput); }
      if source == Provider && !registered { return Some(NotRegistered); }
      if !DefinitionCodeFree(definitions, code) { return Some(Conflict); }
      StepKeeps(limits, Stored(), Change.CreateDefinition(dictionary, code, kind, source, active));
      definitions := definitions[dictionary := Definition(code, kind, source, active, true, 1)];
      r := None;
    }

    method UpdateDefinition(dictionary: string, active: bool, version: nat, fieldsOk: bool) returns (r: Option<Failure>)
      requires Valid()
      modifies this
      ensures Valid()
      ensures r.None? <==>
          fieldsOk && Accepts(limits, old(Stored()), Change.UpdateDefinition(dictionary, active, version))
      ensures Stored()
          == if r.None? then Applied(limits, old(Stored()), Change.UpdateDefinition(dictionary, active, version))
              else old(Stored())
    {
      if !fieldsOk { return Some(InvalidInput); }
      if !Current(Stored(), dictionary, version) { return Some(StaleVersion); }
      StepKeeps(limits, Stored(), Change.UpdateDefinition(dictionary, active, version));
      definitions := definitions[dictionary := definitions[dictionary].(active := active, version := version + 1)];
      r := None;
    }

    method DeleteDefinition(dictionary: string, version: nat) returns (r: Option<Failure>)
      requires Valid()
      modifies this
      ensures Valid()
      ensures r.None? <==> Accepts(limits, old(Stored()), Change.DeleteDefinition(dictionary, version))
      ensures Stored()
          == if r.None? then Applied(limits, old(Stored()), Change.DeleteDefinition(dictionary, version))
              else old(Stored())
    {
      if dictionary !in definitions || !definitions[dictionary].live { return Some(NotFound); }
      if definitions[dictionary].version != version { return Some(StaleVersion); }
      if !NoLiveItems(items, dictionary) { return Some(Conflict); }
      StepKeeps(limits, Stored(), Change.DeleteDefinition(dictionary, version));
      definitions := definitions[dictionary := definitions[dictionary].(live := false, version := version + 1)];
      r := None;
    }
  }

  lemma OwnParentRefused(limits: Limits, s: State, id: string, fields: Fields, version: nat)
    requires Committed(limits, s)
    ensures !CanUpdate(limits, s, id, Some(id), fields, version)
  {
    if CanUpdate(limits, s, id, Some(id), fields, version) {
      var parents := LiveParents(s.items, s.items[id].dictionary);
      assert Under(parents, DepthsOf(parents), id, id);
      assert false;
    }
  }
}
