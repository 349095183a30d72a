/**
 The rows of static dictionaries and what is checked about them: validateItemParentChain
 and validateStoredTreeDepth of internal/dictionary/service.go, and what one changed row
 does to a dictionary's tree and values.
 */
module StoredTree {
  import opened Wrappers
  import opened Forest
  import opened TreeMoves

  /** What an update can change about an item besides its parent. */
  datatype Fields = Fields(name: string, value: string, disabled: bool, sortOrder: int, extension: string)

  /** A stored row; deleted rows stay with `live` false. */
  datatype Row = Row(dictionary: string, parent: Option<string>, code: string, fields: Fields, live: bool, version: nat)

  type Table = map<string, Row>

  predicate LiveIn(items: Table, dictionary: string, id: string) {
    id in items && items[id].live && items[id].dictionary == dictionary
  }

  /** The parent links of one dictionary's live rows. */
  function LiveParents(items: Table, dictionary: string): Parents {
    map id | id in items && LiveIn(items, dictionary, id) :: items[id].parent
  }

  /** The value a caller selects the row by. */
  function SelectableOf(items: Table, id: string): string
    requires id in items
  {
    if items[id].fields.value == "" then id else items[id].fields.value
  }

  ghost predicate DistinctValues(items: Table, dictionary: string) {
    forall a, b | LiveIn(items, dictionary, a) && LiveIn(items, dictionary, b) && a != b ::
      SelectableOf(items, a) != SelectableOf(items, b) && items[a].code != items[b].code
  }

  /** What every committed state keeps of each dictionary. */
  ghost predicate Sound(items: Table, dictionary: string) {
    IsForestWithin(LiveParents(items, dictionary), MAX_TREE_DEPTH) && DistinctValues(items, dictionary)
  }

  // ---- The reachable-equals-total check -------------------------------------

  /** The ids one level below `level`. */
  function Below(parents: Parents, level: set<string>): set<string> {
    set x | x in parents && parents[x].Some? && parents[x].value in level
  }

  function Roots(parents: Parents): set<string> {
    set x | x in parents && parents[x].None?
  }

  /** After n levels: what has been reached is exactly what sits at depth n or above it, and `level` comes next. */
  ghost predicate Levels(parents: Parents, d: map<string, nat>, level: set<string>, n: nat) {
    && PartialDepths(parents, d)
    && (forall x | x in d :: 1 <= d[x] <= n)
    && (forall x {:trigger NextLevel(parents, d, x)} :: x in level <==> NextLevel(parents, d, x))
    && (forall x {:trigger x in level} | x in level ::
       NextLevel(parents, d, x) && if parents[x].None? then n == 0 else d[parents[x].value] == n)
  }

  /** Not reached yet, but a root or directly below something reached. */
  predicate NextLevel(parents: Parents, d: map<string, nat>, x: string) {
    x in parents && x !in d && (parents[x].None? || parents[x].value in d)
  }

  lemma LevelStart(parents: Parents)
    ensures Levels(parents, map[], Roots(parents), 0)
  {}

  function Deepen(d: map<string, nat>, level: set<string>, n: nat): map<string, nat> {
    map x | x in d.Keys + level :: if x in d then d[x] else n
  }

  lemma LevelStep(parents: Parents, d: map<string, nat>, level: set<string>, n: nat)
    requires Levels(parents, d, level, n)
    ensures Levels(parents, Deepen(d, level, n + 1), Below(parents, level), n + 1)
    ensures Deepen(d, level, n + 1).Keys == d.Keys + level && d.Keys !! level
  {
    LevelDepths(parents, d, level, n);
    LevelNexts(parents, d, level, n);
    LevelBounds(parents, d, level, n);
  }

  lemma LevelBounds(parents: Parents, d: map<string, nat>, level: set<string>, n: nat)
    requires Levels(parents, d, level, n)
    ensures var e := Deepen(d, level, n + 1); forall x | x in e :: 1 <= e[x] <= n + 1
    ensures Deepen(d, level, n + 1).Keys == d.Keys + level && d.Keys !! level
  {
    forall x | x in level
      ensures x !in d
    {
      assert NextLevel(parents, d, x);
    }
  }

  lemma LevelNexts(parents: Parents, d: map<string, nat>, level: set<string>, n: nat)
    requires Levels(parents, d, level, n)
    ensures var e, next := Deepen(d, level, n + 1), Below(parents, level);
            && (forall x {:trigger NextLevel(parents, e, x)} :: x in next <==> NextLevel(parents, e, x))
            && forall x {:trigger x in next} | x in next ::
               NextLevel(parents, e, x) && parents[x].Some? && e[parents[x].value] == n + 1
  {
    var e, next := Deepen(d, level, n + 1), Below(parents, level);
    forall x
      ensures x in next <==> NextLevel(parents, e, x)
      ensures x in next ==> parents[x].Some? && e[parents[x].value] == n + 1
    {
      LevelNext(parents, d, level, n, x);
    }
  }

  lemma LevelDepths(parents: Parents, d: map<string, nat>, level: set<string>, n: nat)
    requires Levels(parents, d, level, n)
    ensures PartialDepths(parents, Deepen(d, level, n + 1))
  {
    var e := Deepen(d, level, n + 1);
    forall x {:trigger parents[x]} | x in e
      ensures x in parents && match parents[x] case None => e[x] == 1 case Some(p) => p in e && e[x] == e[p] + 1
    {
      if x in d {
        assert parents[x] == parents[x];
      } else {
        assert x in level;
        assert NextLevel(parents, d, x);
      }
    }
  }

  lemma LevelNext(parents: Parents, d: map<string, nat>, level: set<string>, n: nat, x: string)
    requires Levels(parents, d, level, n)
    ensures x in Below(parents, level) <==> NextLevel(parents, Deepen(d, level, n + 1), x)
    ensures x in Below(parents, level) ==>
        parents[x].value in level && Deepen(d, level, n + 1)[parents[x].value] == n + 1
  {
    assert x in level <==> NextLevel(parents, d, x);
    if x in parents && parents[x].Some? {
      assert parents[x].value in level <==> NextLevel(parents, d, parents[x].value);
    }
  }

  /** In a forest, n levels reach everything of depth at most n, at its depth. */
  lemma {:induction false} LevelsReach(parents: Parents, e: map<string, nat>, d: map<string, nat>,
          level: set<string>, n: nat, x: string)
    requires IsDepthMap(parents, e) && Levels(parents, d, level, n) && x in parents
    requires e[x] <= n || level == {}
    ensures x in d && d[x] == e[x]
    decreases e[x]
  {
    assert parents[x] == parents[x];
    if parents[x].Some? {
      DepthPositive(parents, e, parents[x].value);
      LevelsReach(parents, e, d, level, n, parents[x].value);
    }
    assert x in level <==> NextLevel(parents, d, x);
  }

  /** The walk down is over: counting decides. */
  lemma ReachedDecides(parents: Parents, d: map<string, nat>, level: set<string>, n: nat)
    requires Levels(parents, d, level, n) && (level == {} || n == MAX_TREE_DEPTH + 1)
    ensures (|d| == |parents| && forall x | x in d :: d[x] <= MAX_TREE_DEPTH) <==>
        IsForestWithin(parents, MAX_TREE_DEPTH)
  {
    assert d.Keys <= parents.Keys && |d| == |d.Keys| && |parents| == |parents.Keys|;
    if |d| == |parents| && forall x | x in d :: d[x] <= MAX_TREE_DEPTH {
      SubsetCard(d.Keys, parents.Keys);
      assert IsDepthMap(parents, d);
    }
    if e :| IsDepthMap(parents, e) && forall x | x in e :: e[x] <= MAX_TREE_DEPTH {
      forall x | x in parents
        ensures x in d && d[x] == e[x]
      {
        LevelsReach(parents, e, d, level, n, x);
      }
      assert d.Keys == parents.Keys;
    }
  }

  lemma {:induction false} SubsetCard(a: set<string>, b: set<string>)
    requires a <= b
    ensures |a| <= |b| && (|a| == |b| ==> a == b)
    decreases |a|
  {
    if a == {} {
      assert |b| == 0 ==> b == {};
    } else {
      var x :| x in a;
      SubsetCard(a - {x}, b - {x});
      assert a == (a - {x}) + {x} && b == (b - {x}) + {x};
    }
  }

  /**
   Reachable equals total and no level beyond 512, level by level from the roots:
   sound and complete for a forest of at most 512 levels.
   */
  method ValidateStoredTreeDepth(items: Table, dictionary: string) returns (ok: bool)
    ensures ok <==> IsForestWithin(LiveParents(items, dictionary), MAX_TREE_DEPTH)
  {
    var parents := LiveParents(items, dictionary);
    var level, depth := Roots(parents), 0;
    var reachable: nat, maxDepth: nat := 0, 0;
    ghost var d: map<string, nat> := map[];
    DescendStart(parents);
    while level != {} && depth < MAX_TREE_DEPTH + 1
      invariant Descended(parents, d, level, depth, reachable, maxDepth) && depth <= MAX_TREE_DEPTH + 1
      decreases MAX_TREE_DEPTH + 1 - depth
    {
      DescendStep(parents, d, level, depth, reachable, maxDepth);
      depth := depth + 1;
      reachable := reachable + |level|;
      maxDepth := depth;
      d := Deepen(d, level, depth);
      level := Below(parents, level);
    }
    DescendDecides(parents, d, level, depth, reachable, maxDepth);
    ok := reachable == |parents| && maxDepth <= MAX_TREE_DEPTH;
  }

  ghost predicate Unfolded(d: map<string, nat>) { true }

  /** The loop's invariant, folded: its quantifiers only come into play where `Unfolded` is mentioned. */
  ghost predicate Descended(parents: Parents, d: map<string, nat>, level: set<string>, depth: nat, reachable: nat,
          maxDepth: nat)
  {
    forall e {:trigger Unfolded(e)} | Unfolded(e) && e == d ::
      Levels(parents, e, level, depth) && reachable == |e.Keys| && Deepest(e, maxDepth)
  }

  lemma DescendStart(parents: Parents)
    ensures Descended(parents, map[], Roots(parents), 0, 0, 0)
  {
    LevelStart(parents);
  }

  lemma DescendStep(parents: Parents, d: map<string, nat>, level: set<string>, depth: nat, reachable: nat,
          maxDepth: nat)
    requires Descended(parents, d, level, depth, reachable, maxDepth) && level != {}
    ensures Descended(parents, Deepen(d, level, depth + 1), Below(parents, level), depth + 1, reachable + |level|,
        depth + 1)
  {
    assert Unfolded(d);
    LevelStep(parents, d, level, depth);
    DeepestStep(d, level, maxDepth, depth);
  }

  lemma DescendDecides(parents: Parents, d: map<string, nat>, level: set<string>, depth: nat, reachable: nat,
          maxDepth: nat)
    requires Descended(parents, d, level, depth, reachable, maxDepth) && (level == {} || depth == MAX_TREE_DEPTH + 1)
    ensures reachable == |parents| && maxDepth <= MAX_TREE_DEPTH <==> IsForestWithin(parents, MAX_TREE_DEPTH)
  {
    assert Unfolded(d);
    ReachedDecides(parents, d, level, depth);
    assert |d| == |d.Keys|;
    if exists x :: x in d && d[x] == maxDepth {
      var x :| x in d && d[x] == maxDepth;
    }
  }

  ghost predicate Deepest(d: map<string, nat>, maxDepth: nat) {
    (forall x | x in d :: d[x] <= maxDepth) && (maxDepth == 0 || exists x :: x in d && d[x] == maxDepth)
  }

  lemma DeepestStep(d: map<string, nat>, level: set<string>, maxDepth: nat, depth: nat)
    requires level != {} && level !! d.Keys && forall x | x in d :: d[x] <= depth
    ensures Deepest(Deepen(d, level, depth + 1), depth + 1)
    ensures |Deepen(d, level, depth + 1).Keys| == |d.Keys| + |level|
  {
    var x :| x in level;
    assert x in Deepen(d, level, depth + 1);
    assert Deepen(d, level, depth + 1).Keys == d.Keys + level;
  }

  // ---- The new parent's chain -----------------------------------------------

  /** From `start` up to a root, at most 512 live rows of the dictionary, `item` not among them. */
  ghost predicate GoodChain(items: Table, dictionary: string, item: string, p: seq<string>) {
    && p != [] && |p| <= MAX_TREE_DEPTH && item !in p
    && (forall i | 0 <= i < |p| :: LiveIn(items, dictionary, p[i]))
    && (forall i | 0 <= i < |p| - 1 :: items[p[i]].parent == Some(p[i + 1]))
    && items[p[|p| - 1]].parent == None
  }

  ghost predicate Chained(items: Table, dictionary: string, item: string, start: string) {
    exists p :: p != [] && p[0] == start && GoodChain(items, dictionary, item, p)
  }

  /** The rows the recursive query returns: live ancestors, in any dictionary, at most 513 of them. */
  ghost predicate Ancestors(items: Table, start: string, p: seq<string>) {
    && (forall i | 0 <= i < |p| :: p[i] in items && items[p[i]].live)
    && (forall i | 0 <= i < |p| - 1 :: items[p[i]].parent == Some(p[i + 1]))
    && (p != [] ==> p[0] == start)
  }

  /** A good chain is the whole of what the query returns. */
  lemma {:induction false} ChainIsAncestors(items: Table, dictionary: string, item: string, start: string,
          p: seq<string>, rows: seq<string>, i: nat)
    requires p != [] && p[0] == start && GoodChain(items, dictionary, item, p) && Ancestors(items, start, rows)
        && i < |rows|
    ensures i < |p| && p[i] == rows[i]
    decreases i
  {
    if i == 0 {
    } else {
      ChainIsAncestors(items, dictionary, item, start, p, rows, i - 1);
      assert items[rows[i - 1]].parent == Some(rows[i]);
    }
  }

  method ValidateItemParentChain(items: Table, dictionary: string, item: string, parent: string) returns (ok: bool)
    ensures ok <==> Chained(items, dictionary, item, parent)
  {
    var ancestors := LoadAncestors(items, parent);
    if |ancestors| == 0 || |ancestors| > MAX_TREE_DEPTH {
      ChainLength(items, dictionary, item, parent, ancestors);
      return false;
    }
    for index := 0 to |ancestors|
      invariant forall k | 0 <= k < index :: ancestors[k] != item && LiveIn(items, dictionary, ancestors[k])
    {
      if ancestors[index] == item || items[ancestors[index]].dictionary != dictionary {
        ChainMember(items, dictionary, item, parent, ancestors, index);
        return false;
      }
    }
    ok := items[ancestors[|ancestors| - 1]].parent.None?;
    if ok {
      assert GoodChain(items, dictionary, item, ancestors);
    } else {
      ChainLength(items, dictionary, item, parent, ancestors);
    }
  }

  /** Loaded until a root, a missing row or the 513th. */
  ghost predicate Loaded(items: Table, start: string, p: seq<string>) {
    && Ancestors(items, start, p) && |p| <= MAX_TREE_DEPTH + 1
    && (p == [] ==> start !in items || !items[start].live)
    && (p != [] && |p| <= MAX_TREE_DEPTH && items[p[|p| - 1]].parent.Some? ==>
          var up := items[p[|p| - 1]].parent.value; up !in items || !items[up].live)
  }

  method LoadAncestors(items: Table, start: string) returns (p: seq<string>)
    ensures Loaded(items, start, p)
  {
    p := [];
    var current := start;
    while current in items && items[current].live && |p| < MAX_TREE_DEPTH + 1
      invariant Ancestors(items, start, p) && |p| <= MAX_TREE_DEPTH + 1
      invariant p == [] ==> current == start
      invariant p != [] ==> items[p[|p| - 1]].parent == Some(current)
      decreases MAX_TREE_DEPTH + 1 - |p|
    {
      p := p + [current];
      if items[current].parent.None? { return; }
      current := items[current].parent.value;
    }
  }

  lemma ChainGoesOn(items: Table, dictionary: string, item: string, p: seq<string>, i: nat)
    requires GoodChain(items, dictionary, item, p) && i < |p| && items[p[i]].parent.Some?
    ensures i + 1 < |p| && items[p[i]].parent == Some(p[i + 1]) && LiveIn(items, dictionary, p[i + 1])
  {}

  lemma ChainLength(items: Table, dictionary: string, item: string, start: string, rows: seq<string>)
    requires Loaded(items, start, rows)
    requires |rows| == 0 || |rows| > MAX_TREE_DEPTH || items[rows[|rows| - 1]].parent.Some?
    ensures !Chained(items, dictionary, item, start)
  {
    if p :| p != [] && p[0] == start && GoodChain(items, dictionary, item, p) {
      if rows != [] {
        var last := |rows| - 1;
        ChainIsAncestors(items, dictionary, item, start, p, rows, last);
        if items[p[last]].parent.Some? { ChainGoesOn(items, dictionary, item, p, last); }
      }
      assert false;
    }
  }

  lemma ChainMember(items: Table, dictionary: string, item: string, start: string, rows: seq<string>, i: nat)
    requires Loaded(items, start, rows) && i < |rows|
    requires rows[i] == item || items[rows[i]].dictionary != dictionary
    ensures !Chained(items, dictionary, item, start)
  {
    if p :| p != [] && p[0] == start && GoodChain(items, dictionary, item, p) {
      ChainIsAncestors(items, dictionary, item, start, p, rows, i);
      assert false;
    }
  }

  /** The chain check never refuses what the depth check would accept. */
  lemma {:induction false} DeepEnoughChain(items: Table, dictionary: string, item: string, d: map<string, nat>,
          x: string) returns (p: seq<string>)
    requires IsDepthMap(LiveParents(items, dictionary), d) && x in d && item != x && item in d && d[x] < d[item]
        && d[x] <= MAX_TREE_DEPTH
    ensures p != [] && p[0] == x && GoodChain(items, dictionary, item, p) && |p| == d[x]
    decreases d[x]
  {
    var parents := LiveParents(items, dictionary);
    assert parents[x] == items[x].parent;
    if items[x].parent.None? {
      p := [x];
    } else {
      var rest := DeepEnoughChain(items, dictionary, item, d, items[x].parent.value);
      p := [x] + rest;
      assert p[|p| - 1] == rest[|rest| - 1];
    }
  }

  /** If hanging the item below `parent` gives a good tree, the old chain of `parent` is good. */
  lemma AcceptedIsChained(items: Table, dictionary: string, item: string, row: Row, parent: string)
    requires LiveIn(items, dictionary, item) && row.live && row.dictionary == dictionary && row.parent == Some(parent)
    requires IsForestWithin(LiveParents(items[item := row], dictionary), MAX_TREE_DEPTH)
    ensures Chained(items, dictionary, item, parent)
  {
    var now := items[item := row];
    var parents := LiveParents(now, dictionary);
    var d :| IsDepthMap(parents, d) && forall x | x in d :: d[x] <= MAX_TREE_DEPTH;
    assert parents[item] == Some(parent);
    var p := DeepEnoughChain(now, dictionary, item, d, parent);
    forall i | 0 <= i < |p|
      ensures LiveIn(items, dictionary, p[i]) && items[p[i]] == now[p[i]]
    {
      assert p[i] in p;
    }
    assert GoodChain(items, dictionary, item, p);
  }

  // ---- What one changed row does --------------------------------------------

  lemma OthersUntouched(items: Table, id: string, row: Row, dictionary: string)
    requires row.dictionary != dictionary && (id in items ==> items[id].dictionary != dictionary)
    ensures LiveParents(items[id := row], dictionary) == LiveParents(items, dictionary)
    ensures Sound(items, dictionary) ==> Sound(items[id := row], dictionary)
  {
    var now := items[id := row];
    assert LiveParents(now, dictionary) == LiveParents(items, dictionary);
    forall x
      ensures LiveIn(now, dictionary, x) ==> LiveIn(items, dictionary, x) && items[x] == now[x]
    {
    }
  }

  /** No live row of the dictionary other than `id` has this value. */
  predicate ValueFree(items: Table, dictionary: string, id: string, value: string) {
    forall x | x in items && LiveIn(items, dictionary, x) && x != id ::
        SelectableOf(items, x) != (if value == "" then id else value)
  }

  predicate CodeFree(items: Table, dictionary: string, id: string, code: string) {
    forall x | x in items && LiveIn(items, dictionary, x) && x != id :: items[x].code != code
  }

  lemma ValuesStayDistinct(items: Table, id: string, row: Row)
    requires DistinctValues(items, row.dictionary)
    requires ValueFree(items, row.dictionary, id, row.fields.value) && CodeFree(items, row.dictionary, id, row.code)
    ensures DistinctValues(items[id := row], row.dictionary)
  {
    var now := items[id := row];
    forall a, b | LiveIn(now, row.dictionary, a) && LiveIn(now, row.dictionary, b) && a != b
      ensures SelectableOf(now, a) != SelectableOf(now, b) && now[a].code != now[b].code
    {
      if a != id { assert LiveIn(items, row.dictionary, a); }
      if b != id { assert LiveIn(items, row.dictionary, b); }
    }
  }

  lemma FlatIsForest(items: Table, dictionary: string)
    requires forall id | id in items && LiveIn(items, dictionary, id) :: items[id].parent == None
    ensures IsForestWithin(LiveParents(items, dictionary), MAX_TREE_DEPTH)
  {
    var parents := LiveParents(items, dictionary);
    var d: map<string, nat> := map x | x in parents :: 1;
    assert IsDepthMap(parents, d);
  }

  lemma LeafGone(items: Table, id: string, row: Row, x: string)
    requires id in items && items[id].live && !row.live && row.dictionary == items[id].dictionary
    requires forall y | y in items && items[y].live :: items[y].parent != Some(id)
    ensures var before, after := LiveParents(items, row.dictionary), LiveParents(items[id := row], row.dictionary);
            && (x in after ==> x in before && before[x] == after[x] && after[x] != Some(id) && x != id)
            && (x in before && x != id ==> x in after)
  {}

  /** Removing a row without live children leaves a forest, no deeper. */
  lemma LeafRemoved(items: Table, id: string, row: Row)
    requires id in items && items[id].live && !row.live && row.dictionary == items[id].dictionary
    requires Sound(items, row.dictionary)
    requires forall x | x in items && items[x].live :: items[x].parent != Some(id)
    ensures Sound(items[id := row], row.dictionary)
  {
    var before, after := LiveParents(items, row.dictionary), LiveParents(items[id := row], row.dictionary);
    forall x {:trigger after[x]} | x in after
      ensures x in before && before[x] == after[x] && after[x] != Some(id) && x != id
    {
      LeafGone(items, id, row, x);
    }
    forall x | x in before && x != id
      ensures x in after
    {
      LeafGone(items, id, row, x);
    }
    LeafDropped(before, after, id);
    ValuesLeft(items, id, row);
  }

  lemma ValuesLeft(items: Table, id: string, row: Row)
    requires DistinctValues(items, row.dictionary) && !row.live
    ensures DistinctValues(items[id := row], row.dictionary)
  {
    var now := items[id := row];
    forall a, b | LiveIn(now, row.dictionary, a) && LiveIn(now, row.dictionary, b) && a != b
      ensures SelectableOf(now, a) != SelectableOf(now, b) && now[a].code != now[b].code
    {
      assert LiveIn(items, row.dictionary, a) && LiveIn(items, row.dictionary, b);
    }
  }

  lemma NotChainedIsNoForest(items: Table, dictionary: string, item: string, row: Row, parent: string)
    requires LiveIn(items, dictionary, item) && row.live && row.dictionary == dictionary && row.parent == Some(parent)
    requires !Chained(items, dictionary, item, parent)
    ensures !IsForestWithin(LiveParents(items[item := row], dictionary), MAX_TREE_DEPTH)
  {
    if IsForestWithin(LiveParents(items[item := row], dictionary), MAX_TREE_DEPTH) {
      AcceptedIsChained(items, dictionary, item, row, parent);
      assert false;
    }
  }

  lemma OwnCodeFree(items: Table, id: string, row: Row)
    requires id in items && items[id].live && items[id].dictionary == row.dictionary && items[id].code == row.code
    requires DistinctValues(items, row.dictionary)
    ensures CodeFree(items, row.dictionary, id, row.code)
  {
    assert LiveIn(items, row.dictionary, id);
  }
}
