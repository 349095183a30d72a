/**
 filterTreeItems: keep each matching item that has an unbroken enabled path to a
 root, together with that path.  Each id's ancestry is resolved once.
 */
module TreeFilter {
  import opened Wrappers
  import opened TreeItems

  type Items = map<string, Item>

  function ById(items: seq<Item>): Items {
    if items == [] then map[] else ById(items[..|items| - 1])[items[|items| - 1].id := items[|items| - 1]]
  }

  predicate UniqueItemIds(items: seq<Item>) {
    forall i, j | 0 <= i < j < |items| :: items[i].id != items[j].id
  }

  lemma {:induction false} ByIdIn(items: seq<Item>)
    ensures forall x | x in ById(items) :: ById(items)[x].id == x && ById(items)[x] in items
    ensures forall i | 0 <= i < |items| :: items[i].id in ById(items)
    ensures UniqueItemIds(items) ==> forall i | 0 <= i < |items| :: ById(items)[items[i].id] == items[i]
    decreases |items|
  {
    if items == [] {
    } else {
      ByIdIn(items[..|items| - 1]);
    }
  }

  // ---- Paths to a root ------------------------------------------------------

  /** From an id up to a root through items that exist and are enabled for the query. */
  ghost predicate RootPath(byId: Items, q: Query, p: seq<string>) {
    && p != []
    && (forall i | 0 <= i < |p| :: p[i] in byId && Enabled(q, byId[p[i]]))
    && (forall i | 0 <= i < |p| - 1 :: byId[p[i]].parent == Some(p[i + 1]))
    && byId[p[|p| - 1]].parent == None
  }

  ghost predicate Rooted(byId: Items, q: Query, x: string) {
    exists p :: RootPath(byId, q, p) && p[0] == x
  }

  /** The item is kept: it lies on the root path of an item that matches. */
  ghost predicate Kept(lower: Lower, byId: Items, q: Query, x: string) {
    exists p :: RootPath(byId, q, p) && x in p && Matches(lower, q, byId[p[0]])
  }

  lemma RootPathTail(byId: Items, q: Query, p: seq<string>, k: nat)
    requires RootPath(byId, q, p) && k < |p|
    ensures RootPath(byId, q, p[k..])
  {
    var t := p[k..];
    assert forall i | 0 <= i < |t| :: t[i] == p[k + i];
  }

  lemma ParentRooted(byId: Items, q: Query, x: string, p: string)
    requires Rooted(byId, q, x) && x in byId && byId[x].parent == Some(p)
    ensures Rooted(byId, q, p)
  {
    var path :| RootPath(byId, q, path) && path[0] == x;
    RootPathTail(byId, q, path, 1);
    assert path[1..][0] == p;
  }

  lemma ChildRooted(byId: Items, q: Query, x: string, p: string)
    requires Rooted(byId, q, p) && x in byId && Enabled(q, byId[x]) && byId[x].parent == Some(p)
    ensures Rooted(byId, q, x)
  {
    var path :| RootPath(byId, q, path) && path[0] == p;
    var longer := [x] + path;
    assert RootPath(byId, q, longer);
    assert longer[0] == x;
  }

  lemma RootItselfRooted(byId: Items, q: Query, x: string)
    requires x in byId && Enabled(q, byId[x]) && byId[x].parent == None
    ensures Rooted(byId, q, x)
  {
    assert RootPath(byId, q, [x]);
    assert [x][0] == x;
  }

  lemma FirstStep(byId: Items, q: Query, p: seq<string>)
    requires RootPath(byId, q, p)
    ensures byId[p[0]].parent == if |p| == 1 then None else Some(p[1])
  {
    if |p| > 1 { assert byId[p[0]].parent == Some(p[0 + 1]); }
  }

  /** There is at most one way up. */
  lemma {:induction false} RootPathUnique(byId: Items, q: Query, a: seq<string>, b: seq<string>)
    requires RootPath(byId, q, a) && RootPath(byId, q, b) && a[0] == b[0]
    ensures a == b
    decreases |a|
  {
    assert a == [a[0]] + a[1..] && b == [b[0]] + b[1..];
    FirstStep(byId, q, a);
    FirstStep(byId, q, b);
    if |a| > 1 && |b| > 1 {
      RootPathTail(byId, q, a, 1);
      RootPathTail(byId, q, b, 1);
      RootPathUnique(byId, q, a[1..], b[1..]);
    }
  }

  /** Consecutive ids, each the parent of the one before, all enabled. */
  ghost predicate Climb(byId: Items, q: Query, path: seq<string>) {
    && (forall i | 0 <= i < |path| :: path[i] in byId && Enabled(q, byId[path[i]]))
    && forall i | 0 <= i < |path| - 1 :: byId[path[i]].parent == Some(path[i + 1])
  }

  /** If the end of a climb is rooted, so is every step; if it is not, no step is. */
  lemma {:induction false} ClimbRooted(byId: Items, q: Query, path: seq<string>, i: nat)
    requires Climb(byId, q, path) && i < |path|
    ensures Rooted(byId, q, path[i]) <==> Rooted(byId, q, path[|path| - 1])
    decreases |path| - i
  {
    if i < |path| - 1 {
      ClimbRooted(byId, q, path, i + 1);
      if Rooted(byId, q, path[i]) { ParentRooted(byId, q, path[i], path[i + 1]); }
      if Rooted(byId, q, path[i + 1]) { ChildRooted(byId, q, path[i], path[i + 1]); }
    }
  }

  /** Climbing from a rooted id stays on its root path. */
  lemma {:induction false} ClimbFollows(byId: Items, q: Query, path: seq<string>, root: seq<string>, i: nat)
    requires Climb(byId, q, path) && RootPath(byId, q, root) && path != [] && path[0] == root[0] && i < |path|
    ensures i < |root| && root[i] == path[i]
    decreases i
  {
    if i == 0 {
    } else {
      ClimbFollows(byId, q, path, root, i - 1);
      assert byId[path[i - 1]].parent == Some(path[i]);
    }
  }

  /** No id on a climb that returns to itself is rooted. */
  lemma CycleNotRooted(byId: Items, q: Query, path: seq<string>, k: nat)
    requires Climb(byId, q, path) && k < |path| && byId[path[|path| - 1]].parent == Some(path[k])
    ensures !Rooted(byId, q, path[|path| - 1])
  {
    var last := |path| - 1;
    if Rooted(byId, q, path[last]) {
      ClimbRooted(byId, q, path, k);
      var root :| RootPath(byId, q, root) && root[0] == path[k];
      var loop := path[k..];
      assert forall i | 0 <= i < |loop| :: loop[i] == path[k + i];
      assert Climb(byId, q, loop);
      ClimbFollows(byId, q, loop, root, |loop| - 1);
      assert root[|loop|] == path[k];
      RootPathTail(byId, q, root, |loop|);
      RootPathUnique(byId, q, root, root[|loop|..]);
      assert false;
    }
  }

  lemma BrokenNotRooted(byId: Items, q: Query, x: string)
    requires x in byId && byId[x].parent.Some?
    requires byId[x].parent.value !in byId || !Enabled(q, byId[byId[x].parent.value])
    ensures !Rooted(byId, q, x)
  {
    if Rooted(byId, q, x) {
      ParentRooted(byId, q, x, byId[x].parent.value);
      assert false;
    }
  }

  // ---- Resolving each ancestry once -----------------------------------------

  datatype Status = Checking | ValidPath | InvalidPath

  type Statuses = map<string, Status>

  /** What a record says about one id. */
  ghost predicate RecordedAt(lower: Lower, byId: Items, q: Query, status: Statuses, x: string)
    requires x in status
  {
    && x in byId
    && match status[x]
       case Checking => false
       case InvalidPath => !Rooted(byId, q, x)
       case ValidPath =>
         && Rooted(byId, q, x) && Kept(lower, byId, q, x)
         && (byId[x].parent.Some? ==> byId[x].parent.value in status && status[byId[x].parent.value] == ValidPath)
  }

  /** What the recorded statuses mean between two walks. */
  ghost predicate Recorded(lower: Lower, byId: Items, q: Query, status: Statuses) {
    forall x | x in status :: RecordedAt(lower, byId, q, status, x)
  }

  /** During a walk: the ids on the path are being checked, the others are as recorded. */
  ghost predicate Climbing(byId: Items, q: Query, before: Statuses, now: Statuses, path: seq<string>, current: string) {
    && current in byId && Enabled(q, byId[current])
    && Climb(byId, q, path)
    && (path != [] ==> byId[path[|path| - 1]].parent == Some(current))
    && (forall x | x in now ::
       x in byId && (if x in path then x !in before && now[x] == Checking else x in before && now[x] == before[x]))
    && (forall x | x in before :: x in now && x !in path)
    && (forall i | 0 <= i < |path| :: path[i] in now)
  }

  lemma ClimbOn(byId: Items, q: Query, before: Statuses, now: Statuses, path: seq<string>, current: string)
    requires Climbing(byId, q, before, now, path, current) && current !in now
    ensures Climb(byId, q, path + [current])
    ensures forall i | 0 <= i < |path + [current]| :: (path + [current])[i] !in before
    ensures forall x :: x in path + [current] <==> x in path || x == current
  {
    assert (path + [current])[|path|] == current;
  }

  lemma ClimbStep(byId: Items, q: Query, before: Statuses, now: Statuses, path: seq<string>, current: string)
    requires Climbing(byId, q, before, now, path, current) && current !in now
    ensures Climb(byId, q, path + [current])
    ensures forall p | byId[current].parent == Some(p) && p in byId && Enabled(q, byId[p]) ::
              Climbing(byId, q, before, now[current := Checking], path + [current], p)
    ensures forall i | 0 <= i < |path + [current]| :: (path + [current])[i] !in before
    ensures byId.Keys - (now.Keys + {current}) < byId.Keys - now.Keys
  {
    ClimbOn(byId, q, before, now, path, current);
    assert current in byId.Keys - now.Keys;
  }

  /** Statuses of one item's unresolved ancestry: its path, and whether it leads to a root. */
  method Resolve(byId: Items, q: Query, status: Statuses, start: string, ghost lower: Lower) returns (valid: bool,
          path: seq<string>)
    requires Recorded(lower, byId, q, status) && start in byId && Enabled(q, byId[start])
    ensures Climb(byId, q, path) && (forall i | 0 <= i < |path| :: path[i] !in status)
    ensures if start in status then path == [] && valid == (status[start] == ValidPath)
        else path != [] && path[0] == start
    ensures valid <==> Rooted(byId, q, start)
    ensures valid && path != [] ==>
              match byId[path[|path| - 1]].parent
              case None => true
              case Some(p) => p in status && status[p] == ValidPath
  {
    path, valid := [], true;
    var now := status;
    var current := start;
    while true
      invariant Climbing(byId, q, status, now, path, current)
      invariant path == [] ==> current == start
      invariant path != [] ==> path[0] == start && start !in status
      decreases byId.Keys - now.Keys
    {
      if current in now && now[current] != ValidPath {
        NotRootedHere(lower, byId, q, status, now, path, current);
        return false, path;
      }
      if current in now {
        RootedHere(lower, byId, q, status, now, path, current);
        return true, path;
      }
      ClimbStep(byId, q, status, now, path, current);
      assert now.Keys + {current} == now[current := Checking].Keys;
      now := now[current := Checking];
      path := path + [current];
      ClimbRooted(byId, q, path, 0);
      if byId[current].parent.None? {
        RootItselfRooted(byId, q, current);
        return true, path;
      }
      var parent := byId[current].parent.value;
      if parent !in byId || !Enabled(q, byId[parent]) {
        BrokenNotRooted(byId, q, current);
        return false, path;
      }
      current := parent;
    }
  }

  lemma NotRootedHere(lower: Lower, byId: Items, q: Query, status: Statuses, now: Statuses, path: seq<string>,
          current: string)
    requires Recorded(lower, byId, q, status) && Climbing(byId, q, status, now, path, current)
    requires current in now && now[current] != ValidPath
    ensures !Rooted(byId, q, if path == [] then current else path[0])
  {
    if current in path {
      var k :| 0 <= k < |path| && path[k] == current;
      CycleNotRooted(byId, q, path, k);
      ClimbRooted(byId, q, path, 0);
    } else if path != [] {
      ClimbRooted(byId, q, path, 0);
      if Rooted(byId, q, path[|path| - 1]) {
        ParentRooted(byId, q, path[|path| - 1], current);
      }
    }
  }

  lemma RootedHere(lower: Lower, byId: Items, q: Query, status: Statuses, now: Statuses, path: seq<string>,
          current: string)
    requires Recorded(lower, byId, q, status) && Climbing(byId, q, status, now, path, current)
    requires current in now && now[current] == ValidPath
    ensures Rooted(byId, q, if path == [] then current else path[0])
    ensures current in status && status[current] == ValidPath
  {
    if path != [] {
      ClimbRooted(byId, q, path, 0);
      ChildRooted(byId, q, path[|path| - 1], current);
    }
  }

  function Marked(status: Statuses, path: seq<string>, s: Status): Statuses {
    if path == [] then status else Marked(status, path[..|path| - 1], s)[path[|path| - 1] := s]
  }

  lemma {:induction false} MarkedAt(status: Statuses, path: seq<string>, s: Status)
    ensures var now := Marked(status, path, s);
            && (forall x :: x in now <==> x in status || x in path)
            && (forall x | x in now :: now[x] == if x in path then s else status[x])
    decreases |path|
  {
    if path == [] {
    } else {
      var n := |path| - 1;
      MarkedAt(status, path[..n], s);
      assert path == path[..n] + [path[n]];
    }
  }

  /** After the path of a matching item is marked, the record is right and covers the item. */
  lemma MarkedRecorded(lower: Lower, byId: Items, q: Query, status: Statuses, path: seq<string>, start: string,
          valid: bool)
    requires Recorded(lower, byId, q, status) && Climb(byId, q, path)
    requires forall i | 0 <= i < |path| :: path[i] !in status
    requires path != [] && path[0] == start && (valid <==> Rooted(byId, q, start))
    requires start in byId && Matches(lower, q, byId[start])
    requires valid ==> match byId[path[|path| - 1]].parent
                       case None => true
                       case Some(p) => p in status && status[p] == ValidPath
    ensures Recorded(lower, byId, q, Marked(status, path, if valid then ValidPath else InvalidPath))
  {
    var s := if valid then ValidPath else InvalidPath;
    var now := Marked(status, path, s);
    MarkedAt(status, path, s);
    forall x | x in now
      ensures RecordedAt(lower, byId, q, now, x)
    {
      if x in path {
        var i :| 0 <= i < |path| && path[i] == x;
        OnMarkedPath(lower, byId, q, path, valid, i);
      } else {
        assert RecordedAt(lower, byId, q, status, x);
      }
    }
  }

  lemma OnMarkedPath(lower: Lower, byId: Items, q: Query, path: seq<string>, valid: bool, i: nat)
    requires Climb(byId, q, path) && i < |path| && (valid <==> Rooted(byId, q, path[0]))
    requires Matches(lower, q, byId[path[0]])
    ensures Rooted(byId, q, path[i]) <==> valid
    ensures valid ==> Kept(lower, byId, q, path[i])
    ensures i < |path| - 1 ==> byId[path[i]].parent == Some(path[i + 1]) && path[i + 1] in path
  {
    ClimbRooted(byId, q, path, 0);
    ClimbRooted(byId, q, path, i);
    if valid {
      var root :| RootPath(byId, q, root) && root[0] == path[0];
      ClimbFollows(byId, q, path, root, i);
      assert root[i] in root;
    }
  }

  method Mark(status: Statuses, path: seq<string>, s: Status) returns (now: Statuses)
    ensures now == Marked(status, path, s)
  {
    now := status;
    for i := 0 to |path|
      invariant now == Marked(status, path[..i], s)
    {
      now := now[path[i] := s];
      assert path[..i + 1] == path[..i] + [path[i]];
    }
    assert path[..|path|] == path;
  }

  ghost predicate Covered(lower: Lower, q: Query, items: seq<Item>, n: nat, status: Statuses) {
    n <= |items| && forall i | 0 <= i < n && Enabled(q, items[i]) && Matches(lower, q, items[i]) ::
        items[i].id in status
  }

  /** One matching item: walk up, then mark what the walk found. */
  method ResolveItem(lower: Lower, byId: Items, q: Query, before: Statuses, id: string) returns (status: Statuses)
    requires Recorded(lower, byId, q, before)
    requires id in byId && Enabled(q, byId[id]) && Matches(lower, q, byId[id])
    ensures Recorded(lower, byId, q, status) && id in status && before.Keys <= status.Keys
  {
    var valid, path := Resolve(byId, q, before, id, lower);
    if path == [] { return before; }
    status := Mark(before, path, if valid then ValidPath else InvalidPath);
    MarkedAt(before, path, if valid then ValidPath else InvalidPath);
    MarkedRecorded(lower, byId, q, before, path, id, valid);
    assert path[0] in path;
  }

  /** The loop over all items: every matching one's ancestry is resolved, at most once each. */
  method ResolveAll(lower: Lower, items: seq<Item>, q: Query) returns (status: Statuses)
    requires UniqueItemIds(items)
    ensures Recorded(lower, ById(items), q, status) && Covered(lower, q, items, |items|, status)
  {
    var byId := ById(items);
    status := map[];
    for i := 0 to |items|
      invariant Recorded(lower, byId, q, status) && Covered(lower, q, items, i, status)
    {
      var item := items[i];
      ghost var before := status;
      if Enabled(q, item) && Matches(lower, q, item) {
        ByIdIn(items);
        status := ResolveItem(lower, byId, q, status, item.id);
      }
      CoveredStep(lower, q, items, i, before, status);
    }
  }

  lemma CoveredStep(lower: Lower, q: Query, items: seq<Item>, i: nat, before: Statuses, status: Statuses)
    requires i < |items| && Covered(lower, q, items, i, before) && before.Keys <= status.Keys
    requires Enabled(q, items[i]) && Matches(lower, q, items[i]) ==> items[i].id in status
    ensures Covered(lower, q, items, i + 1, status)
  {
    forall j | 0 <= j < i && Enabled(q, items[j]) && Matches(lower, q, items[j])
      ensures items[j].id in status
    {
      assert items[j].id in before.Keys;
    }
  }

  function Selected(items: seq<Item>, status: Statuses): seq<Item> {
    if items == [] then []
    else
      (if items[0].id in status && status[items[0].id] == ValidPath then [items[0]] else [])
      + Selected(items[1..], status)
  }

  /** Once all ancestries are resolved, valid means kept. */
  lemma ValidIsKept(lower: Lower, items: seq<Item>, q: Query, status: Statuses, x: string)
    requires UniqueItemIds(items) && x in ById(items)
    requires Recorded(lower, ById(items), q, status) && Covered(lower, q, items, |items|, status)
    ensures (x in status && status[x] == ValidPath) <==> Kept(lower, ById(items), q, x)
  {
    var byId := ById(items);
    ByIdIn(items);
    if p :| RootPath(byId, q, p) && x in p && Matches(lower, q, byId[p[0]]) {
      assert byId[p[0]] in items;
      var i :| 0 <= i < |items| && items[i] == byId[p[0]];
      assert items[i].id == p[0] && Enabled(q, items[i]);
      assert Rooted(byId, q, p[0]);
      var k :| 0 <= k < |p| && p[k] == x;
      ValidAlongPath(lower, byId, q, status, p, k);
    }
  }

  lemma {:induction false} ValidAlongPath(lower: Lower, byId: Items, q: Query, status: Statuses, p: seq<string>, k: nat)
    requires Recorded(lower, byId, q, status) && RootPath(byId, q, p) && k < |p|
    requires p[0] in status && status[p[0]] == ValidPath
    ensures p[k] in status && status[p[k]] == ValidPath
    decreases k
  {
    if k == 0 {
    } else {
      ValidAlongPath(lower, byId, q, status, p, k - 1);
      assert RecordedAt(lower, byId, q, status, p[k - 1]);
      assert byId[p[k - 1]].parent == Some(p[k]);
    }
  }

  /** The items that are kept, in input order. */
  ghost function KeptItems(lower: Lower, byId: Items, q: Query, items: seq<Item>): seq<Item> {
    if items == [] then []
    else (if Kept(lower, byId, q, items[0].id) then [items[0]] else []) + KeptItems(lower, byId, q, items[1..])
  }

  lemma {:induction false} SelectedIsKept(lower: Lower, byId: Items, q: Query, items: seq<Item>, status: Statuses)
    requires forall i | 0 <= i < |items| ::
        (items[i].id in status && status[items[i].id] == ValidPath) <==> Kept(lower, byId, q, items[i].id)
    ensures Selected(items, status) == KeptItems(lower, byId, q, items)
    decreases |items|
  {
    if items == [] {
    } else {
      assert forall i | 0 <= i < |items[1..]| :: items[1..][i] == items[i + 1];
      SelectedIsKept(lower, byId, q, items[1..], status);
    }
  }

  method SelectValid(items: seq<Item>, status: Statuses) returns (filtered: seq<Item>)
    ensures filtered == Selected(items, status)
  {
    filtered := [];
    assert items[0..] == items;
    for i := 0 to |items|
      invariant filtered + Selected(items[i..], status) == Selected(items, status)
    {
      assert items[i..][0] == items[i] && items[i..][1..] == items[i + 1..];
      if items[i].id in status && status[items[i].id] == ValidPath {
        filtered := filtered + [items[i]];
      }
    }
  }

  /** The source's tree filter keeps exactly the items on the root path of a matching item. */
  method FilterTreeItems(lower: Lower, items: seq<Item>, q: Query) returns (filtered: seq<Item>)
    requires UniqueItemIds(items)
    ensures filtered == KeptItems(lower, ById(items), q, items)
  {
    var status := ResolveAll(lower, items, q);
    filtered := SelectValid(items, status);
    forall i | 0 <= i < |items|
      ensures (items[i].id in status && status[items[i].id] == ValidPath) <==> Kept(lower, ById(items), q, items[i].id)
    {
      ByIdIn(items);
      ValidIsKept(lower, items, q, status, items[i].id);
    }
    SelectedIsKept(lower, ById(items), q, items, status);
  }
}
