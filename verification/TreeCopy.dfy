/**
 Trees, and the explicit-stack copy of buildTree, buildResultTree and
 Result.MarshalJSON in internal/dictionary.  Slices of the copy are stretches of one
 arena of cells, and a pointer to a target is the index of its cell.
 */
module TreeCopy {
  datatype Tree<T> = Node(item: T, children: seq<Tree<T>>)

  /** The recursive copy: every node's item mapped, the shape and child order kept. */
  function MapTrees<A, B>(f: A -> B, ts: seq<Tree<A>>): seq<Tree<B>> {
    if ts == [] then [] else [Node(f(ts[0].item), MapTrees(f, ts[0].children))] + MapTrees(f, ts[1..])
  }

  function Size<T>(ts: seq<Tree<T>>): nat {
    if ts == [] then 0 else 1 + Size(ts[0].children) + Size(ts[1..])
  }

  lemma {:induction false} SizeConcat<T>(a: seq<Tree<T>>, b: seq<Tree<T>>)
    ensures Size(a + b) == Size(a) + Size(b)
    decreases |a|
  {
    if a == [] {
      assert a + b == b;
    } else {
      assert (a + b)[1..] == a[1..] + b;
      SizeConcat(a[1..], b);
    }
  }

  // ---- The arena ------------------------------------------------------------

  datatype Cell<T> = Blank | Filled(item: T, first: nat, count: nat)

  /** Every cell is filled, and its children were allocated after it. */
  predicate Complete<T>(cells: seq<Cell<T>>) {
    forall i | 0 <= i < |cells| :: cells[i].Filled? && i < cells[i].first && cells[i].first + cells[i].count <= |cells|
  }

  /** The value of a slice once the arena is complete. */
  function Read<T>(cells: seq<Cell<T>>, first: nat, count: nat): seq<Tree<T>>
    requires Complete(cells) && first + count <= |cells|
    decreases |cells| - first
  {
    if count == 0 then []
    else
      [Node(cells[first].item, Read(cells, cells[first].first, cells[first].count))] + Read(cells, first + 1, count - 1)
  }

  /** Work still to do: a source node and the cell it goes to. */
  datatype Pending<T> = Pending(source: Tree<T>, target: nat)

  /** Cell i holds the copy of node plan[i], and its children's cells are planned for that node's children. */
  ghost predicate CellDone<A, B>(f: A -> B, plan: seq<Tree<A>>, cells: seq<Cell<B>>, i: nat)
    requires i < |cells| == |plan|
  {
    var c := cells[i];
    && c.Filled? && c.item == f(plan[i].item) && c.count == |plan[i].children|
    && i < c.first && c.first + c.count <= |plan| && plan[c.first..c.first + c.count] == plan[i].children
  }

  ghost predicate OnStack<A>(stack: seq<Pending<A>>, plan: seq<Tree<A>>, i: nat)
    requires i < |plan|
  {
    Pending(plan[i], i) in stack
  }

  /** Every cell is either copied or waiting on the stack. */
  ghost predicate Copying<A, B>(f: A -> B, source: seq<Tree<A>>, plan: seq<Tree<A>>, cells: seq<Cell<B>>,
          stack: seq<Pending<A>>)
  {
    && |cells| == |plan| && source <= plan
    && (forall e | e in stack :: e.target < |plan| && plan[e.target] == e.source)
    && forall i | 0 <= i < |cells| :: CellDone(f, plan, cells, i) || OnStack(stack, plan, i)
  }

  function Work<A>(stack: seq<Pending<A>>): nat {
    if stack == [] then 0 else Size([stack[|stack| - 1].source]) + Work(stack[..|stack| - 1])
  }

  function Blanks<T>(n: nat): (r: seq<Cell<T>>)
    ensures |r| == n
  {
    seq(n, i => Blank)
  }

  /** Children of a popped node, each with its cell. */
  function Entries<A>(children: seq<Tree<A>>, first: nat): (r: seq<Pending<A>>)
    ensures |r| == |children| && forall i | 0 <= i < |r| :: r[i] == Pending(children[i], first + i)
  {
    seq(|children|, i requires 0 <= i < |children| => Pending(children[i], first + i))
  }

  lemma {:induction false} WorkOfEntries<A>(stack: seq<Pending<A>>, children: seq<Tree<A>>, first: nat)
    ensures Work(stack + Entries(children, first)) == Work(stack) + Size(children)
    decreases |children|
  {
    if children == [] {
      assert stack + Entries(children, first) == stack;
    } else {
      var n := |children| - 1;
      var all := stack + Entries(children, first);
      assert all[..|all| - 1] == stack + Entries(children[..n], first);
      WorkOfEntries(stack, children[..n], first);
      SizeConcat(children[..n], [children[n]]);
      assert children == children[..n] + [children[n]];
    }
  }

  /** Popping a node, filling its cell and allocating its children keeps the invariant. */
  lemma CopyStep<A, B>(f: A -> B, source: seq<Tree<A>>, plan: seq<Tree<A>>, cells: seq<Cell<B>>, stack: seq<Pending<A>>)
    requires stack != [] && Copying(f, source, plan, cells, stack)
    ensures var e := stack[|stack| - 1];
            var kids := e.source.children;
            var now := cells[e.target := Filled(f(e.source.item), |cells|, |kids|)] + Blanks(|kids|);
            && Copying(f, source, plan + kids, now, stack[..|stack| - 1] + Entries(kids, |cells|))
            && Work(stack[..|stack| - 1] + Entries(kids, |cells|)) < Work(stack)
  {
    var n := |stack| - 1;
    var e := stack[n];
    var kids := e.source.children;
    assert e in stack;
    var rest, more := plan + kids, stack[..n] + Entries(kids, |cells|);
    var now := cells[e.target := Filled(f(e.source.item), |cells|, |kids|)] + Blanks(|kids|);
    WorkOfEntries(stack[..n], kids, |cells|);
    forall i | 0 <= i < |now|
      ensures CellDone(f, rest, now, i) || OnStack(more, rest, i)
    {
      CellKept(f, plan, cells, stack, i);
    }
    forall p | p in more
      ensures p.target < |rest| && rest[p.target] == p.source
    {
      if p in stack[..n] { assert p in stack; }
    }
  }

  lemma CellKept<A, B>(f: A -> B, plan: seq<Tree<A>>, cells: seq<Cell<B>>, stack: seq<Pending<A>>, i: nat)
    requires |cells| == |plan| && stack != [] && stack[|stack| - 1].target < |plan|
    requires plan[stack[|stack| - 1].target] == stack[|stack| - 1].source
    requires i < |plan| ==> CellDone(f, plan, cells, i) || OnStack(stack, plan, i)
    requires i < |plan| + |stack[|stack| - 1].source.children|
    ensures var e := stack[|stack| - 1];
            var kids := e.source.children;
            var now := cells[e.target := Filled(f(e.source.item), |cells|, |kids|)] + Blanks(|kids|);
            CellDone(f, plan + kids, now, i) || OnStack(stack[..|stack| - 1] + Entries(kids, |cells|), plan + kids, i)
  {
    var n := |stack| - 1;
    var e := stack[n];
    var kids := e.source.children;
    var rest := plan + kids;
    if i >= |plan| {
      assert Entries(kids, |cells|)[i - |plan|] == Pending(rest[i], i);
      assert (stack[..n] + Entries(kids, |cells|))[n + (i - |plan|)] == Pending(rest[i], i);
    } else if i == e.target {
      assert rest[|plan|..|plan| + |kids|] == kids;
    } else if OnStack(stack, plan, i) {
      var k :| 0 <= k < |stack| && stack[k] == Pending(plan[i], i);
      assert (stack[..n] + Entries(kids, |cells|))[k] == Pending(rest[i], i);
    } else {
      var c := cells[i];
      assert rest[c.first..c.first + c.count] == plan[c.first..c.first + c.count];
    }
  }

  /** With nothing left to do, the arena reads as the recursive copy. */
  lemma {:induction false} CopyRead<A, B>(f: A -> B, plan: seq<Tree<A>>, cells: seq<Cell<B>>, first: nat, count: nat)
    requires |cells| == |plan| && Complete(cells) && first + count <= |cells|
    requires forall i | 0 <= i < |cells| :: CellDone(f, plan, cells, i)
    ensures Read(cells, first, count) == MapTrees(f, plan[first..first + count])
    decreases |cells| - first
  {
    if count == 0 {
    } else {
      var c := cells[first];
      assert CellDone(f, plan, cells, first);
      CopyRead(f, plan, cells, c.first, c.count);
      CopyRead(f, plan, cells, first + 1, count - 1);
      var part, rest := plan[first..first + count], plan[first + 1..first + count];
      assert part[0] == plan[first] && part[1..] == rest;
      assert Read(cells, first, count)
          == [Node(c.item, Read(cells, c.first, c.count))] + Read(cells, first + 1, count - 1);
    }
  }

  /** The explicit-stack copy yields the recursive copy. */
  method CopyForest<A, B>(f: A -> B, source: seq<Tree<A>>) returns (cells: seq<Cell<B>>)
    ensures Complete(cells) && |source| <= |cells|
    ensures Read(cells, 0, |source|) == MapTrees(f, source)
  {
    cells := Blanks(|source|);
    ghost var plan := source;
    var stack := Entries(source, 0);
    CopyStart(f, source, cells);
    while stack != []
      invariant Copying(f, source, plan, cells, stack)
      decreases Work(stack)
    {
      CopyStep(f, source, plan, cells, stack);
      var last := |stack| - 1;
      var current := stack[last];
      assert current in stack;
      stack := stack[..last];
      var kids := current.source.children;
      var first := |cells|;
      cells := cells[current.target := Filled(f(current.source.item), first, |kids|)] + Blanks(|kids|);
      plan := plan + kids;
      stack := stack + Entries(kids, first);
    }
    AllDone(f, source, plan, cells);
    CopyRead(f, plan, cells, 0, |source|);
    assert plan[..|source|] == source;
  }

  lemma AllDone<A, B>(f: A -> B, source: seq<Tree<A>>, plan: seq<Tree<A>>, cells: seq<Cell<B>>)
    requires Copying(f, source, plan, cells, [])
    ensures Complete(cells) && forall i | 0 <= i < |cells| :: CellDone(f, plan, cells, i)
  {
    forall i | 0 <= i < |cells|
      ensures CellDone(f, plan, cells, i)
    {
      assert CellDone(f, plan, cells, i) || OnStack([], plan, i);
    }
    forall i | 0 <= i < |cells|
      ensures cells[i].Filled? && i < cells[i].first && cells[i].first + cells[i].count <= |cells|
    {
      assert CellDone(f, plan, cells, i);
    }
  }

  lemma CopyStart<A, B>(f: A -> B, source: seq<Tree<A>>, cells: seq<Cell<B>>)
    requires |cells| == |source|
    ensures Copying(f, source, source, cells, Entries(source, 0))
  {
    forall i | 0 <= i < |source|
      ensures OnStack(Entries(source, 0), source, i)
    {
      assert Entries(source, 0)[i] == Pending(source[i], i);
    }
  }
}
