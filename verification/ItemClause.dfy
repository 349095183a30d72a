/**
 The WHERE clause of the static dictionary query as the database reads it, and what the
 in-memory filter has to do with it.
 */
module ItemClause {
  import opened Wrappers
  import opened Texts
  import opened TreeItems
  import LikePattern

  datatype Column = Id | Code | Name | ValueColumn

  datatype Expr =
    | Col(column: Column)
    | LowerCase(e: Expr)
    | NullIf(e: Expr, text: string)
    | Coalesce(e: Expr, other: Expr)

  /** The conjuncts of a clause; `Either` is an OR in brackets. */
  datatype Clause =
    | NotDisabled
    | LikeClause(e: Expr, pattern: string)
    | InClause(e: Expr, values: seq<string>)
    | Either(left: Clause, right: Clause)

  /** The text of an expression for one row; None is NULL. */
  function TextOf(lower: Lower, item: Item, e: Expr): Option<string> {
    match e
    case Col(Id) => Some(item.id)
    case Col(Code) => Some(item.code)
    case Col(Name) => Some(item.name)
    case Col(ValueColumn) => Some(item.value)
    case LowerCase(x) =>
      var t := TextOf(lower, item, x);
      if t.None? then None else Some(lower(t.value))
    case NullIf(x, text) => if TextOf(lower, item, x) == Some(text) then None else TextOf(lower, item, x)
    case Coalesce(x, y) => if TextOf(lower, item, x).Some? then TextOf(lower, item, x) else TextOf(lower, item, y)
  }

  /** The clause is true of the row; a comparison with NULL is not. */
  predicate IsTrue(lower: Lower, item: Item, c: Clause) {
    match c
    case NotDisabled => !item.disabled
    case LikeClause(e, pattern) =>
      var t := TextOf(lower, item, e);
      t.Some? && LikePattern.Like(t.value, pattern)
    case InClause(e, values) =>
      var t := TextOf(lower, item, e);
      t.Some? && t.value in values
    case Either(a, b) => IsTrue(lower, item, a) || IsTrue(lower, item, b)
  }

  /** All conjuncts are true of the row. */
  predicate Selects(lower: Lower, where: seq<Clause>, item: Item) {
    forall i | 0 <= i < |where| :: IsTrue(lower, item, where[i])
  }

  // ---- The clause of a query ------------------------------------------------

  /** The rows of the dictionary that any query sees. */
  function RowsWhere(q: Query): seq<Clause> { if q.includeDisabled then [] else [NotDisabled] }

  function KeywordClause(lower: Lower, keyword: string): Clause {
    var pattern := LikePattern.LikeContainsPattern(lower(keyword));
    Either(LikeClause(LowerCase(Col(Code)), pattern), LikeClause(LowerCase(Col(Name)), pattern))
  }

  function AppendIn(where: seq<Clause>, e: Expr, values: seq<string>): seq<Clause> {
    if values == [] then where else where + [InClause(e, values)]
  }

  const SELECTABLE: Expr := Coalesce(NullIf(Col(ValueColumn), ""), Col(Id))

  function QueryWhere(lower: Lower, q: Query): seq<Clause> {
    var where := RowsWhere(q) + if q.keyword != "" then [KeywordClause(lower, q.keyword)] else [];
    AppendIn(AppendIn(AppendIn(where, Col(Id), q.ids), Col(Code), q.codes), SELECTABLE, q.values)
  }

  lemma SelectsMore(lower: Lower, where: seq<Clause>, more: seq<Clause>, item: Item)
    ensures Selects(lower, where + more, item) <==> Selects(lower, where, item) && Selects(lower, more, item)
  {
    var all := where + more;
    assert forall i | 0 <= i < |where| :: all[i] == where[i];
    assert forall i | 0 <= i < |more| :: all[|where| + i] == more[i];
  }

  lemma AppendedIn(lower: Lower, where: seq<Clause>, e: Expr, values: seq<string>, item: Item)
    ensures Selects(lower, AppendIn(where, e, values), item) <==>
            Selects(lower, where, item)
            && (values == [] || (TextOf(lower, item, e).Some? && TextOf(lower, item, e).value in values))
  {
    SelectsMore(lower, where, [InClause(e, values)], item);
    assert [InClause(e, values)][0] == InClause(e, values);
  }

  lemma SelectableIs(lower: Lower, item: Item)
    ensures TextOf(lower, item, SELECTABLE) == Some(Selectable(item))
  {
    assert TextOf(lower, item, Col(ValueColumn)) == Some(item.value);
    assert TextOf(lower, item, NullIf(Col(ValueColumn), "")) == if item.value == "" then None else Some(item.value);
  }

  lemma KeywordMeans(lower: Lower, keyword: string, item: Item)
    ensures IsTrue(lower, item, KeywordClause(lower, keyword)) <==>
        Contains(lower(item.code), lower(keyword)) || Contains(lower(item.name), lower(keyword))
  {
    var pattern := LikePattern.LikeContainsPattern(lower(keyword));
    assert TextOf(lower, item, LowerCase(Col(Code))) == Some(lower(item.code));
    assert TextOf(lower, item, LowerCase(Col(Name))) == Some(lower(item.name));
    assert IsTrue(lower, item, LikeClause(LowerCase(Col(Code)), pattern))
        == LikePattern.Like(lower(item.code), pattern);
    assert IsTrue(lower, item, LikeClause(LowerCase(Col(Name)), pattern))
        == LikePattern.Like(lower(item.name), pattern);
    LikePattern.ContainsExactly(lower(item.code), lower(keyword));
    LikePattern.ContainsExactly(lower(item.name), lower(keyword));
  }

  lemma RowsWhereMeans(lower: Lower, q: Query, item: Item)
    ensures Selects(lower, RowsWhere(q), item) <==> Enabled(q, item)
  {
    if !q.includeDisabled { assert RowsWhere(q)[0] == NotDisabled; }
  }

  lemma KeywordPart(lower: Lower, q: Query, item: Item)
    ensures Selects(lower, RowsWhere(q) + if q.keyword != "" then [KeywordClause(lower, q.keyword)] else [], item) <==>
        Enabled(q, item) && (q.keyword != "" ==> IsTrue(lower, item, KeywordClause(lower, q.keyword)))
  {
    var more := if q.keyword != "" then [KeywordClause(lower, q.keyword)] else [];
    SelectsMore(lower, RowsWhere(q), more, item);
    RowsWhereMeans(lower, q, item);
    if q.keyword != "" { assert more[0] == KeywordClause(lower, q.keyword); }
  }

  lemma ContainsEmpty(text: string)
    ensures Contains(text, "")
  {
    assert "" <= text[0..];
  }

  /** A row is enabled and passes the in-memory filter exactly when the database's clause is true of it. */
  lemma FilterIsWhere(lower: Lower, q: Query, item: Item)
    ensures Enabled(q, item) && Matches(lower, q, item) <==> Selects(lower, QueryWhere(lower, q), item)
  {
    var where := RowsWhere(q) + if q.keyword != "" then [KeywordClause(lower, q.keyword)] else [];
    var ids := AppendIn(where, Col(Id), q.ids);
    var codes := AppendIn(ids, Col(Code), q.codes);
    KeywordPart(lower, q, item);
    KeywordMeans(lower, q.keyword, item);
    ContainsEmpty(lower(item.code));
    AppendedIn(lower, where, Col(Id), q.ids, item);
    AppendedIn(lower, ids, Col(Code), q.codes, item);
    AppendedIn(lower, codes, SELECTABLE, q.values, item);
    SelectableIs(lower, item);
  }
}
