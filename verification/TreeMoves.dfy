/** What one added, moved or removed node does to a forest of at most 512 levels. */
module TreeMoves {
  import opened Wrappers
  import opened Forest

  /** The depths of a forest; there is only one choice. */
  ghost function DepthsOf(parents: Parents): (d: map<string, nat>)
    requires IsForest(parents)
    ensures IsDepthMap(parents, d)
  {
    var d :| IsDepthMap(parents, d);
    d
  }

  lemma WithinIsForest(parents: Parents)
    requires IsForestWithin(parents, MAX_TREE_DEPTH)
    ensures IsForest(parents) && forall x | x in parents :: DepthsOf(parents)[x] <= MAX_TREE_DEPTH
  {
    DepthLimit(parents, DepthsOf(parents));
  }

  lemma ParentDepth(parents: Parents, d: map<string, nat>, x: string)
    requires IsDepthMap(parents, d) && x in parents
    ensures match parents[x] case None => d[x] == 1 case Some(p) => p in d && d[x] == d[p] + 1
  {
    assert parents[x] == parents[x];
  }

  /** The depth of a node hung below `parent`. */
  function DepthBelow(d: map<string, nat>, parent: Option<string>): nat
    requires parent.Some? ==> parent.value in d
  {
    if parent.Some? then d[parent.value] + 1 else 1
  }

  // ---- A new leaf -----------------------------------------------------------

  /** A new node fits as a root or below an id at depth at most 511. */
  ghost predicate HasRoom(parents: Parents, parent: Option<string>) {
    && IsForest(parents)
    && (parent.Some? ==> parent.value in parents && DepthsOf(parents)[parent.value] < MAX_TREE_DEPTH)
  }

  lemma NewLeafMap(before: Parents, d: map<string, nat>, id: string, parent: Option<string>)
    requires IsDepthMap(before, d) && id !in before && (parent.Some? ==> parent.value in d)
    ensures IsDepthMap(before[id := parent], d[id := DepthBelow(d, parent)])
  {
    var after, e := before[id := parent], d[id := DepthBelow(d, parent)];
    forall x {:trigger after[x]} | x in after
      ensures match after[x] case None => e[x] == 1 case Some(p) => p in e && e[x] == e[p] + 1
    {
      if x != id { ParentDepth(before, d, x); }
    }
  }

  /** A new leaf below a node of the forest is accepted exactly when there is room for it. */
  lemma NewLeafFits(before: Parents, id: string, parent: Option<string>)
    requires IsForestWithin(before, MAX_TREE_DEPTH) && id !in before && (parent.Some? ==> parent.value in before)
    ensures IsForestWithin(before[id := parent], MAX_TREE_DEPTH) <==> HasRoom(before, parent)
  {
    WithinIsForest(before);
    var d := DepthsOf(before);
    var e := d[id := DepthBelow(d, parent)];
    NewLeafMap(before, d, id, parent);
    DepthLimit(before[id := parent], e);
    assert e[id] == DepthBelow(d, parent);
    assert forall x | x in e :: x == id || (x in d && e[x] == d[x]);
  }

  // ---- A moved subtree ------------------------------------------------------

  /** `x` is `top` or somewhere below it. */
  ghost predicate Under(parents: Parents, d: map<string, nat>, top: string, x: string)
    requires IsDepthMap(parents, d) && x in parents
    decreases d[x]
  {
    ParentDepth(parents, d, x);
    x == top || (parents[x].Some? && Under(parents, d, top, parents[x].value))
  }

  lemma {:induction false} UnderIsDeeper(parents: Parents, d: map<string, nat>, top: string, x: string)
    requires IsDepthMap(parents, d) && x in parents && top in parents && Under(parents, d, top, x)
    ensures d[x] >= d[top]
    decreases d[x]
  {
    ParentDepth(parents, d, x);
    if x != top { UnderIsDeeper(parents, d, top, parents[x].value); }
  }

  /**
   A node with everything below it can hang from `parent`: that is not itself the node or
   below it, and the deepest of what moves stays within 512 levels.
   */
  ghost predicate Movable(parents: Parents, id: string, parent: Option<string>) {
    && IsForest(parents) && id in parents
    && var d := DepthsOf(parents);
    && (parent.Some? ==> parent.value in parents && !Under(parents, d, id, parent.value))
    && forall x | x in parents && Under(parents, d, id, x) :: DepthBelow(d, parent) + d[x] <= MAX_TREE_DEPTH + d[id]
  }

  ghost function MovedDepth(parents: Parents, d: map<string, nat>, id: string, parent: Option<string>, x: string): nat
    requires IsDepthMap(parents, d) && id in parents && x in parents && (parent.Some? ==> parent.value in parents)
  {
    if Under(parents, d, id, x) then
      UnderIsDeeper(parents, d, id, x);
      DepthBelow(d, parent) + d[x] - d[id]
    else d[x]
  }

  ghost function MovedDepths(parents: Parents, d: map<string, nat>, id: string,
      parent: Option<string>): map<string, nat>
    requires IsDepthMap(parents, d) && id in parents && (parent.Some? ==> parent.value in parents)
  {
    map x | x in parents :: MovedDepth(parents, d, id, parent, x)
  }

  lemma MovedStep(parents: Parents, d: map<string, nat>, id: string, parent: Option<string>, x: string)
    requires IsDepthMap(parents, d) && id in parents && x in parents
    requires parent.Some? ==> parent.value in parents && !Under(parents, d, id, parent.value)
    ensures var after, e := parents[id := parent], MovedDepths(parents, d, id, parent);
            match after[x] case None => e[x] == 1 case Some(p) => p in e && e[x] == e[p] + 1
  {
    ParentDepth(parents, d, x);
    if x != id && Under(parents, d, id, x) {
      UnderIsDeeper(parents, d, id, parents[x].value);
    }
  }

  lemma MovedMap(parents: Parents, d: map<string, nat>, id: string, parent: Option<string>)
    requires IsDepthMap(parents, d) && id in parents
    requires parent.Some? ==> parent.value in parents && !Under(parents, d, id, parent.value)
    ensures IsDepthMap(parents[id := parent], MovedDepths(parents, d, id, parent))
  {
    var after := parents[id := parent];
    forall x {:trigger after[x]} | x in after
      ensures var e := MovedDepths(parents, d, id, parent);
              match after[x] case None => e[x] == 1 case Some(p) => p in e && e[x] == e[p] + 1
    {
      MovedStep(parents, d, id, parent, x);
    }
  }

  /** Whatever the new depths are, what hangs below the moved node keeps its distance from it. */
  lemma {:induction false} MovesAlong(parents: Parents, d: map<string, nat>, id: string, parent: Option<string>,
          e: map<string, nat>, x: string)
    requires IsDepthMap(parents, d) && id in parents && IsDepthMap(parents[id := parent], e)
    requires x in parents && Under(parents, d, id, x)
    ensures e[x] + d[id] == d[x] + e[id]
    decreases d[x]
  {
    ParentDepth(parents, d, x);
    ParentDepth(parents[id := parent], e, x);
    if x != id { MovesAlong(parents, d, id, parent, e, parents[x].value); }
  }

  lemma NotUnderItself(parents: Parents, d: map<string, nat>, id: string, parent: Option<string>, e: map<string, nat>)
    requires IsDepthMap(parents, d) && id in parents && IsDepthMap(parents[id := parent], e)
    ensures parent.Some? ==> parent.value in parents && !Under(parents, d, id, parent.value)
  {
    ParentDepth(parents[id := parent], e, id);
    if parent.Some? {
      assert parents[id := parent].Keys == parents.Keys;
      if Under(parents, d, id, parent.value) {
        MovesAlong(parents, d, id, parent, e, parent.value);
        UnderIsDeeper(parents, d, id, parent.value);
        assert false;
      }
    }
  }

  /** A node can be moved exactly when the forest it leaves behind says so. */
  lemma MoveFits(parents: Parents, id: string, parent: Option<string>)
    requires IsForestWithin(parents, MAX_TREE_DEPTH) && id in parents
    ensures IsForestWithin(parents[id := parent], MAX_TREE_DEPTH) <==> Movable(parents, id, parent)
  {
    WithinIsForest(parents);
    var d, after := DepthsOf(parents), parents[id := parent];
    if IsForestWithin(after, MAX_TREE_DEPTH) {
      var e :| IsDepthMap(after, e) && forall x | x in e :: e[x] <= MAX_TREE_DEPTH;
      NotUnderItself(parents, d, id, parent, e);
    }
    if parent.Some? ==> parent.value in parents && !Under(parents, d, id, parent.value) {
      MovedMap(parents, d, id, parent);
      DepthLimit(after, MovedDepths(parents, d, id, parent));
      MovedWithin(parents, d, id, parent);
    }
  }

  lemma MovedWithin(parents: Parents, d: map<string, nat>, id: string, parent: Option<string>)
    requires IsDepthMap(parents, d) && id in parents && (parent.Some? ==> parent.value in parents)
    requires forall x | x in parents :: d[x] <= MAX_TREE_DEPTH
    ensures var e := MovedDepths(parents, d, id, parent);
            (forall x | x in e :: e[x] <= MAX_TREE_DEPTH)
            <==> forall x | x in parents && Under(parents, d, id, x) ::
                DepthBelow(d, parent) + d[x] <= MAX_TREE_DEPTH + d[id]
  {
    var e := MovedDepths(parents, d, id, parent);
    forall x | x in parents && Under(parents, d, id, x)
      ensures x in e && e[x] + d[id] == DepthBelow(d, parent) + d[x]
    {
    }
  }

  // ---- A removed leaf -------------------------------------------------------

  /** Without a leaf the rest is still a forest, no deeper. */
  lemma LeafDropped(before: Parents, after: Parents, id: string)
    requires IsForestWithin(before, MAX_TREE_DEPTH)
    requires forall x {:trigger after[x]} | x in after ::
        x in before && before[x] == after[x] && after[x] != Some(id) && x != id
    requires forall x | x in before && x != id :: x in after
    ensures IsForestWithin(after, MAX_TREE_DEPTH)
  {
    var d :| IsDepthMap(before, d) && forall x | x in d :: d[x] <= MAX_TREE_DEPTH;
    var e := map x | x in after :: d[x];
    forall x {:trigger after[x]} | x in after
      ensures match after[x] case None => e[x] == 1 case Some(p) => p in e && e[x] == e[p] + 1
    {
      ParentDepth(before, d, x);
    }
    assert IsDepthMap(after, e);
  }
}
