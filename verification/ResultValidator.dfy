/** validProviderResult of internal/dictionary/service.go: the recursive check of a provided or cached result. */
module ResultValidator {
  import opened Wrappers
  import opened Forest
  import opened TreeItems
  import opened TreeCopy
  import opened ResultTree

  const MAX_ITEMS_BYTES: nat := 8388608
  const DEFAULT_PAGE_SIZE: nat := 20
  const MAX_PAGE_SIZE: nat := 200
  const MAX_PAGE: nat := 1000000

  /**
   The configured limits and the platform's parts: `fieldsOk` are the checks of a single
   item's fields, `rowFits` the length limits of a stored row's fields, and `size` is the
   length of its shallow JSON encoding.
   */
  datatype Rules = Rules(lower: Lower, fieldsOk: Item -> bool, rowFits: Item -> bool, size: Item -> nat, maxNodes: nat)

  /** `headOk` stands for the checks of name and extension; `items` is None for a missing list. */
  datatype Result = Result(kind: Kind, headOk: bool, items: Option<seq<Tree<Item>>>, page: int, pageSize: int,
                           total: int)

  // ---- What is counted along the walk ---------------------------------------

  datatype Tally = Tally(count: nat, bytes: nat, ids: set<string>, codes: set<string>, values: set<string>)

  const NOTHING := Tally(0, 0, {}, {}, {})

  function Take(rules: Rules, s: Tally, item: Item): Option<Tally> {
    if s.count + 1 > rules.maxNodes || s.bytes + rules.size(item) > MAX_ITEMS_BYTES
       || item.id in s.ids || item.code in s.codes || Selectable(item) in s.values
    then None
    else Some(Tally(s.count + 1, s.bytes + rules.size(item), s.ids + {item.id}, s.codes + {item.code},
        s.values + {Selectable(item)}))
  }

  function TakeAll(rules: Rules, s: Tally, items: seq<Item>): Option<Tally>
    decreases |items|
  {
    if items == [] then Some(s)
    else match Take(rules, s, items[0])
      case None => None
      case Some(next) => TakeAll(rules, next, items[1..])
  }

  lemma {:induction false} TakeAllConcat(rules: Rules, s: Tally, a: seq<Item>, b: seq<Item>)
    ensures TakeAll(rules, s, a + b)
        == match TakeAll(rules, s, a) case None => None case Some(next) => TakeAll(rules, next, b)
    decreases |a|
  {
    if a == [] {
      assert a + b == b;
    } else {
      assert (a + b)[0] == a[0] && (a + b)[1..] == a[1..] + b;
      match Take(rules, s, a[0])
      case None =>
      case Some(next) => TakeAllConcat(rules, next, a[1..], b);
    }
  }

  function TotalSize(rules: Rules, items: seq<Item>): nat {
    if items == [] then 0 else rules.size(items[0]) + TotalSize(rules, items[1..])
  }

  ghost predicate AllDifferent(items: seq<Item>) {
    forall i, j | 0 <= i < j < |items| ::
      items[i].id != items[j].id && items[i].code != items[j].code && Selectable(items[i]) != Selectable(items[j])
  }

  ghost predicate Unseen(s: Tally, items: seq<Item>) {
    forall i | 0 <= i < |items| ::
        items[i].id !in s.ids && items[i].code !in s.codes && Selectable(items[i]) !in s.values
  }

  lemma UnseenCons(rules: Rules, s: Tally, items: seq<Item>)
    requires items != []
    ensures var now := Tally(s.count, s.bytes, s.ids + {items[0].id}, s.codes + {items[0].code},
        s.values + {Selectable(items[0])});
            AllDifferent(items) && Unseen(s, items)
            <==> Unseen(s, [items[0]]) && AllDifferent(items[1..]) && Unseen(now, items[1..])
  {
    var rest := items[1..];
    var now :=
        Tally(s.count, s.bytes, s.ids + {items[0].id}, s.codes + {items[0].code}, s.values + {Selectable(items[0])});
    assert forall i | 0 <= i < |rest| :: rest[i] == items[i + 1];
    if AllDifferent(items) && Unseen(s, items) {
      assert Unseen(now, rest);
    }
    if Unseen(s, [items[0]]) && AllDifferent(rest) && Unseen(now, rest) {
      assert [items[0]][0] == items[0];
      forall i, j | 0 <= i < j < |items|
        ensures items[i].id != items[j].id && items[i].code != items[j].code
            && Selectable(items[i]) != Selectable(items[j])
      {
        assert items[j] == rest[j - 1];
        if i > 0 { assert items[i] == rest[i - 1]; }
      }
      forall i | 0 <= i < |items|
        ensures items[i].id !in s.ids && items[i].code !in s.codes && Selectable(items[i]) !in s.values
      {
        if i > 0 { assert items[i] == rest[i - 1]; }
      }
    }
  }

  /** Counting succeeds exactly when nothing repeats and both limits hold. */
  lemma {:induction false} TakeAllMeans(rules: Rules, s: Tally, items: seq<Item>)
    requires s.count <= rules.maxNodes && s.bytes <= MAX_ITEMS_BYTES
    ensures TakeAll(rules, s, items).Some? <==>
              && AllDifferent(items) && Unseen(s, items)
              && s.count + |items| <= rules.maxNodes && s.bytes + TotalSize(rules, items) <= MAX_ITEMS_BYTES
    ensures TakeAll(rules, s, items).Some? ==> TakeAll(rules, s, items).value.count == s.count + |items|
    decreases |items|
  {
    if items == [] {
    } else {
      UnseenCons(rules, s, items);
      match Take(rules, s, items[0])
      case None =>
        if s.count + 1 <= rules.maxNodes && s.bytes + rules.size(items[0]) <= MAX_ITEMS_BYTES {
          assert [items[0]][0] == items[0];
        }
      case Some(next) =>
        TakeAllMeans(rules, next, items[1..]);
        assert Unseen(next, items[1..]) <==>
               Unseen(Tally(s.count, s.bytes, next.ids, next.codes, next.values), items[1..]);
    }
  }

  // ---- What must hold at each node ------------------------------------------

  /** One node under its parent and beside its previous sibling. */
  predicate Enterable(rules: Rules, q: Query, kind: Kind, ts: seq<Tree<Item>>, i: nat, parent: Option<string>)
    requires i < |ts|
  {
    var item := ts[i].item;
    && rules.fieldsOk(item) && Enabled(q, item) && item.parent == parent
    && (i > 0 ==> !Less(q.sort, item, ts[i - 1].item))
    && (kind == Enum ==> ts[i].children == [])
  }

  predicate NodeSound(rules: Rules, q: Query, kind: Kind, ts: seq<Tree<Item>>, i: nat, parent: Option<string>)
    requires i < |ts|
  {
    Enterable(rules, q, kind, ts, i, parent) && (Matches(rules.lower, q, ts[i].item) || ts[i].children != [])
  }

  predicate Sound(rules: Rules, q: Query, kind: Kind, ts: seq<Tree<Item>>, parent: Option<string>, depth: nat)
    decreases ts
  {
    ts == [] || (
      && depth <= MAX_TREE_DEPTH
      && forall i | 0 <= i < |ts| ::
           && NodeSound(rules, q, kind, ts, i, parent)
           && Sound(rules, q, kind, ts[i].children, Some(ts[i].item.id), depth + 1)
    )
  }

  ghost predicate MatchWithin(rules: Rules, q: Query, t: Tree<Item>) {
    exists item | item in Flatten([t]) :: Matches(rules.lower, q, item)
  }

  lemma FlattenOne(t: Tree<Item>)
    ensures Flatten([t]) == [t.item] + Flatten(t.children)
  {
    assert Flatten([t][1..]) == [];
    assert [t][0] == t;
  }

  lemma {:induction false} FlattenConcat(a: seq<Tree<Item>>, b: seq<Tree<Item>>)
    ensures Flatten(a + b) == Flatten(a) + Flatten(b)
    decreases |a|
  {
    if a == [] {
      assert a + b == b;
    } else {
      assert (a + b)[0] == a[0] && (a + b)[1..] == a[1..] + b;
      FlattenConcat(a[1..], b);
    }
  }

  /** Every node of a sound result matches the query or has a match below it. */
  lemma {:induction false} SoundMatches(rules: Rules, q: Query, kind: Kind, ts: seq<Tree<Item>>,
          parent: Option<string>, depth: nat, i: nat)
    requires Sound(rules, q, kind, ts, parent, depth) && i < |ts|
    ensures MatchWithin(rules, q, ts[i])
    decreases ts
  {
    var t := ts[i];
    FlattenOne(t);
    if Matches(rules.lower, q, t.item) {
      assert t.item in Flatten([t]);
    } else {
      SoundMatches(rules, q, kind, t.children, Some(t.item.id), depth + 1, 0);
      var item :| item in Flatten([t.children[0]]) && Matches(rules.lower, q, item);
      FlattenConcat([t.children[0]], t.children[1..]);
      assert t.children == [t.children[0]] + t.children[1..];
      assert item in Flatten([t]);
    }
  }

  // ---- The walk -------------------------------------------------------------

  class Walker {
    const rules: Rules
    const q: Query
    const kind: Kind
    var count: nat
    var itemBytes: nat
    var seen: set<string>
    var seenCodes: set<string>
    var seenValues: set<string>

    constructor (rules: Rules, q: Query, kind: Kind)
      ensures this.rules == rules && this.q == q && this.kind == kind && State() == NOTHING
    {
      this.rules, this.q, this.kind := rules, q, kind;
      count, itemBytes, seen, seenCodes, seenValues := 0, 0, {}, {}, {};
    }

    ghost function State(): Tally
      reads this
    {
      Tally(count, itemBytes, seen, seenCodes, seenValues)
    }

    /** The part of the loop body before the children: one item against its siblings and all items seen. */
    method Enter(items: seq<Tree<Item>>, index: nat, parent: Option<string>) returns (ok: bool)
      requires index < |items|
      modifies this
      ensures ok <==>
          Enterable(rules, q, kind, items, index, parent) && Take(rules, old(State()), items[index].item).Some?
      ensures ok ==> Some(State()) == Take(rules, old(State()), items[index].item)
    {
      var item := items[index].item;
      count := count + 1;
      if count > rules.maxNodes || !rules.fieldsOk(item) || !Enabled(q, item) { return false; }
      var encoded := rules.size(item);
      if encoded > MAX_ITEMS_BYTES - itemBytes { return false; }
      itemBytes := itemBytes + encoded;
      if item.parent != parent { return false; }
      if index > 0 && Less(q.sort, item, items[index - 1].item) { return false; }
      if item.id in seen { return false; }
      seen := seen + {item.id};
      if item.code in seenCodes { return false; }
      seenCodes := seenCodes + {item.code};
      if Selectable(item) in seenValues { return false; }
      seenValues := seenValues + {Selectable(item)};
      if kind == Enum && items[index].children != [] { return false; }
      ok := true;
    }

    /** One node with everything below it. */
    method Visit(items: seq<Tree<Item>>, index: nat, parent: Option<string>, depth: nat) returns (ok: bool)
      requires index < |items|
      modifies this
      ensures ok <==> NodeTally(rules, q, kind, items, index, parent, depth, old(State())).Some?
      ensures ok ==> Some(State()) == NodeTally(rules, q, kind, items, index, parent, depth, old(State()))
      decreases items, 0
    {
      var item := items[index];
      var entered := Enter(items, index, parent);
      if !entered { return false; }
      var childMatch, valid := Walk(item.children, Some(item.item.id), depth + 1);
      ok := valid && (Matches(rules.lower, q, item.item) || childMatch);
    }

    /** The walk accepts exactly the sound lists whose items fit the tally so far. */
    method Walk(items: seq<Tree<Item>>, parent: Option<string>, depth: nat) returns (matched: bool, ok: bool)
      modifies this
      ensures ok <==> Accepts(rules, q, kind, items, parent, depth, old(State()))
      ensures ok ==> Some(State()) == TakeAll(rules, old(State()), Flatten(items)) && (matched <==> items != [])
      decreases items, 1
    {
      if items == [] { return false, true; }
      if depth > MAX_TREE_DEPTH { return false, false; }
      matched := false;
      ghost var start := State();
      for index := 0 to |items|
        invariant WalkedTo(rules, q, kind, items, parent, depth, index, start, State())
        invariant matched <==> index > 0
      {
        NodeStep(rules, q, kind, items, parent, depth, index, start, State());
        var valid := Visit(items, index, parent, depth);
        if !valid { return false, false; }
        matched := true;
      }
      WalkedAll(rules, q, kind, items, parent, depth, start, State());
      ok := true;
    }
  }

  /** The tally after one node and everything below it, if all of that is acceptable. */
  ghost function NodeTally(rules: Rules, q: Query, kind: Kind, ts: seq<Tree<Item>>, i: nat, parent: Option<string>,
          depth: nat, s: Tally): Option<Tally>
    requires i < |ts|
  {
    var next := Take(rules, s, ts[i].item);
    if next.Some? && NodeSound(rules, q, kind, ts, i, parent)
        && Sound(rules, q, kind, ts[i].children, Some(ts[i].item.id), depth + 1)
    then TakeAll(rules, next.value, Flatten(ts[i].children))
    else None
  }

  ghost predicate Accepts(rules: Rules, q: Query, kind: Kind, ts: seq<Tree<Item>>, parent: Option<string>,
          depth: nat, s: Tally)
  {
    Sound(rules, q, kind, ts, parent, depth) && TakeAll(rules, s, Flatten(ts)).Some?
  }

  ghost predicate WalkedTo(rules: Rules, q: Query, kind: Kind, ts: seq<Tree<Item>>, parent: Option<string>,
          depth: nat, n: nat, s: Tally, now: Tally)
  {
    && SoundUpTo(rules, q, kind, ts, parent, depth, n)
    && TakeAll(rules, s, Flatten(ts[..n])) == Some(now)
  }

  lemma WalkedAll(rules: Rules, q: Query, kind: Kind, ts: seq<Tree<Item>>, parent: Option<string>, depth: nat,
          s: Tally, now: Tally)
    requires depth <= MAX_TREE_DEPTH && WalkedTo(rules, q, kind, ts, parent, depth, |ts|, s, now)
    ensures Accepts(rules, q, kind, ts, parent, depth, s) && TakeAll(rules, s, Flatten(ts)) == Some(now)
  {
    assert ts[..|ts|] == ts;
  }

  /** One round of the loop: a rejected node rejects the list, an accepted one is one node further. */
  lemma NodeStep(rules: Rules, q: Query, kind: Kind, ts: seq<Tree<Item>>, parent: Option<string>, depth: nat,
          i: nat, s: Tally, now: Tally)
    requires i < |ts| && WalkedTo(rules, q, kind, ts, parent, depth, i, s, now)
    ensures match NodeTally(rules, q, kind, ts, i, parent, depth, now)
            case None => !Accepts(rules, q, kind, ts, parent, depth, s)
            case Some(next) => WalkedTo(rules, q, kind, ts, parent, depth, i + 1, s, next)
  {
    TakeNode(rules, s, ts, i, now);
    if Accepts(rules, q, kind, ts, parent, depth, s) {
      assert NodeSound(rules, q, kind, ts, i, parent);
    }
  }

  ghost predicate SoundUpTo(rules: Rules, q: Query, kind: Kind, ts: seq<Tree<Item>>, parent: Option<string>,
          depth: nat, n: nat)
  {
    n <= |ts| && forall i | 0 <= i < n ::
      NodeSound(rules, q, kind, ts, i, parent) && Sound(rules, q, kind, ts[i].children, Some(ts[i].item.id), depth + 1)
  }

  /** Counting up to the next sibling: its own item, then everything below it; a failure there is final. */
  lemma TakeNode(rules: Rules, s: Tally, ts: seq<Tree<Item>>, i: nat, now: Tally)
    requires i < |ts| && TakeAll(rules, s, Flatten(ts[..i])) == Some(now)
    ensures TakeAll(rules, s, Flatten(ts[..i + 1])) ==
            match Take(rules, now, ts[i].item) case None => None case Some(next) =>
                TakeAll(rules, next, Flatten(ts[i].children))
    ensures TakeAll(rules, s, Flatten(ts)).Some? ==> TakeAll(rules, s, Flatten(ts[..i + 1])).Some?
  {
    assert ts[..i + 1] == ts[..i] + [ts[i]];
    FlattenConcat(ts[..i], [ts[i]]);
    FlattenOne(ts[i]);
    TakeAllConcat(rules, s, Flatten(ts[..i]), Flatten([ts[i]]));
    assert ([ts[i].item] + Flatten(ts[i].children))[1..] == Flatten(ts[i].children);
    assert ts == ts[..i + 1] + ts[i + 1..];
    FlattenConcat(ts[..i + 1], ts[i + 1..]);
    TakeAllConcat(rules, s, Flatten(ts[..i + 1]), Flatten(ts[i + 1..]));
  }

  // ---- The whole result -----------------------------------------------------

  /** `pagination.Normalize`. */
  function Normalize(page: int, pageSize: int): (r: Option<(int, int)>)
    ensures r.Some? <==> 0 <= page <= MAX_PAGE && 0 <= pageSize <= MAX_PAGE_SIZE
    ensures r.Some? ==> 1 <= r.value.0 <= MAX_PAGE && 1 <= r.value.1 <= MAX_PAGE_SIZE
  {
    var p := if page == 0 then 1 else page;
    var size := if pageSize == 0 then DEFAULT_PAGE_SIZE else pageSize;
    if p < 1 || p > MAX_PAGE || size < 1 || size > MAX_PAGE_SIZE then None else Some((p, size))
  }

  predicate HeadSound(result: Result, page: int, pageSize: int) {
    && result.headOk && result.items.Some?
    && match result.kind
       case Enum =>
         && Normalize(page, pageSize) == Some((result.page, result.pageSize))
         && |result.items.value| <= result.pageSize && result.total >= 0
       case TreeKind => result.page == 0 && result.pageSize == 0
  }

  /** A result the rest of the system may trust for this query. */
  ghost predicate Trusted(rules: Rules, q: Query, page: int, pageSize: int, result: Result) {
    && HeadSound(result, page, pageSize)
    && var items := Flatten(result.items.value);
    && Sound(rules, q, result.kind, result.items.value, None, 1)
    && AllDifferent(items) && |items| <= rules.maxNodes && TotalSize(rules, items) <= MAX_ITEMS_BYTES
    && (result.kind == TreeKind ==> result.total == |items|)
  }

  method ValidProviderResult(rules: Rules, q: Query, page: int, pageSize: int, result: Result) returns (ok: bool)
    ensures ok <==> Trusted(rules, q, page, pageSize, result)
  {
    if !result.headOk || result.items.None? { return false; }
    var w := new Walker(rules, q, result.kind);
    match result.kind {
      case Enum =>
        var n := Normalize(page, pageSize);
        if n.None? || (result.page, result.pageSize) != n.value || |result.items.value| > n.value.1
            || result.total < 0 {
          return false;
        }
      case TreeKind =>
        if result.page != 0 || result.pageSize != 0 { return false; }
    }
    var matched, valid := w.Walk(result.items.value, None, 1);
    TakeAllMeans(rules, NOTHING, Flatten(result.items.value));
    if !valid { return false; }
    ok := result.kind == TreeKind ==> result.total == w.count;
  }
}
