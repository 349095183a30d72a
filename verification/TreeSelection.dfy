/**
 The rows a tree query shows, told by the database's clauses: a row the enumeration query
 would select, and everything on its way up to a root.
 */
module TreeSelection {
  import opened Wrappers
  import opened TreeItems
  import opened TreeFilter
  import opened ItemClause

  /** A row and its ancestors up to a root, all among the rows that the query sees. */
  ghost predicate WayUp(lower: Lower, q: Query, stored: seq<Item>, p: seq<Item>) {
    && p != []
    && (forall i | 0 <= i < |p| :: p[i] in stored && Selects(lower, RowsWhere(q), p[i]))
    && (forall i | 0 <= i < |p| - 1 :: p[i].parent == Some(p[i + 1].id))
    && p[|p| - 1].parent == None
  }

  /** The row lies on the way up from one that the enumeration's clause selects. */
  ghost predicate OnSelectedPath(lower: Lower, q: Query, stored: seq<Item>, item: Item) {
    exists p :: WayUp(lower, q, stored, p) && item in p && Selects(lower, QueryWhere(lower, q), p[0])
  }

  /** `rows` are the stored rows that the query sees. */
  ghost predicate Sees(q: Query, stored: seq<Item>, rows: seq<Item>) {
    UniqueItemIds(rows) && forall item :: item in rows <==> item in stored && Enabled(q, item)
  }

  function ItemsAt(byId: Items, p: seq<string>): (r: seq<Item>)
    requires forall i | 0 <= i < |p| :: p[i] in byId
    ensures |r| == |p| && forall i | 0 <= i < |p| :: r[i] == byId[p[i]]
  {
    seq(|p|, i requires 0 <= i < |p| => byId[p[i]])
  }

  function PathIds(p: seq<Item>): (r: seq<string>)
    ensures |r| == |p| && forall i | 0 <= i < |p| :: r[i] == p[i].id
  {
    seq(|p|, i requires 0 <= i < |p| => p[i].id)
  }

  lemma ItemsOfPath(lower: Lower, q: Query, stored: seq<Item>, rows: seq<Item>, p: seq<string>)
    requires Sees(q, stored, rows) && RootPath(ById(rows), q, p)
    ensures WayUp(lower, q, stored, ItemsAt(ById(rows), p))
  {
    ByIdIn(rows);
    var items := ItemsAt(ById(rows), p);
    forall i | 0 <= i < |items|
      ensures items[i] in stored && Selects(lower, RowsWhere(q), items[i])
      ensures items[i].id == p[i]
    {
      RowsWhereMeans(lower, q, items[i]);
    }
  }

  lemma KnownRow(lower: Lower, q: Query, stored: seq<Item>, rows: seq<Item>, item: Item)
    requires Sees(q, stored, rows) && item in stored && Selects(lower, RowsWhere(q), item)
    ensures item.id in ById(rows) && ById(rows)[item.id] == item && Enabled(q, item)
  {
    RowsWhereMeans(lower, q, item);
    ByIdIn(rows);
    var i :| 0 <= i < |rows| && rows[i] == item;
    assert rows[i].id in ById(rows);
  }

  lemma PathOfItems(lower: Lower, q: Query, stored: seq<Item>, rows: seq<Item>, p: seq<Item>)
    requires Sees(q, stored, rows) && WayUp(lower, q, stored, p)
    ensures RootPath(ById(rows), q, PathIds(p))
    ensures ById(rows)[p[0].id] == p[0]
  {
    forall i | 0 <= i < |p|
      ensures p[i].id in ById(rows) && ById(rows)[p[i].id] == p[i] && Enabled(q, p[i])
    {
      KnownRow(lower, q, stored, rows, p[i]);
    }
  }

  /** The in-memory filter keeps exactly the rows on the way up from a selected one. */
  lemma KeptIsOnSelectedPath(lower: Lower, q: Query, stored: seq<Item>, rows: seq<Item>, item: Item)
    requires Sees(q, stored, rows) && item in rows
    ensures Kept(lower, ById(rows), q, item.id) <==> OnSelectedPath(lower, q, stored, item)
  {
    ByIdIn(rows);
    if Kept(lower, ById(rows), q, item.id) {
      var p :| RootPath(ById(rows), q, p) && item.id in p && Matches(lower, q, ById(rows)[p[0]]);
      var items := ItemsAt(ById(rows), p);
      ItemsOfPath(lower, q, stored, rows, p);
      FilterIsWhere(lower, q, items[0]);
      var i :| 0 <= i < |p| && p[i] == item.id;
      RowsWhereMeans(lower, q, item);
      KnownRow(lower, q, stored, rows, item);
      assert items[i] == item;
    }
    if OnSelectedPath(lower, q, stored, item) {
      var p :| WayUp(lower, q, stored, p) && item in p && Selects(lower, QueryWhere(lower, q), p[0]);
      var ids := PathIds(p);
      PathOfItems(lower, q, stored, rows, p);
      FilterIsWhere(lower, q, p[0]);
      var i :| 0 <= i < |p| && p[i] == item;
      assert ids[i] == item.id;
    }
  }

  /** Whatever lies on such a way is itself a row that the query sees. */
  lemma OnPathIsRow(lower: Lower, q: Query, stored: seq<Item>, rows: seq<Item>, item: Item)
    requires Sees(q, stored, rows) && OnSelectedPath(lower, q, stored, item)
    ensures item in rows
  {
    RowsWhereMeans(lower, q, item);
  }
}
