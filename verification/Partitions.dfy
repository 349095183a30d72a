/** Monthly log partitions: names, and retention by name order, of internal/datalifecycle/manager.go. */
module Partitions {
  import opened Wrappers
  import opened Texts
  import opened TreeItems

  /** A calendar month; months of one parent are compared by their index. */
  datatype Month = Month(year: nat, month: nat)

  predicate ValidMonth(m: Month) { m.year <= 9999 && 1 <= m.month <= 12 }

  function Index(m: Month): int { m.year * 12 + m.month }

  predicate KnownParent(parent: string) { parent == "operation_logs" || parent == "security_logs" }

  // ---- Digits ---------------------------------------------------------------

  predicate IsDigit(c: char) { '0' <= c <= '9' }

  function Digit(n: nat): char
    requires n < 10
  {
    '0' + n as char
  }

  function Power10(n: nat): nat { if n == 0 then 1 else 10 * Power10(n - 1) }

  /** Exactly `width` decimal digits, with leading zeros. */
  function Padded(n: nat, width: nat): (s: string)
    requires n < Power10(width)
    ensures |s| == width && forall i | 0 <= i < |s| :: IsDigit(s[i])
    decreases width
  {
    if width == 0 then "" else Padded(n / 10, width - 1) + [Digit(n % 10)]
  }

  predicate AllDigits(s: string) { forall i | 0 <= i < |s| :: IsDigit(s[i]) }

  function Number(s: string): nat
    requires AllDigits(s)
    decreases |s|
  {
    if s == "" then 0 else 10 * Number(s[..|s| - 1]) + (s[|s| - 1] as int - '0' as int)
  }

  lemma {:induction false} NumberOfPadded(n: nat, width: nat)
    requires n < Power10(width)
    ensures Number(Padded(n, width)) == n
    decreases width
  {
    if width == 0 {
    } else {
      NumberOfPadded(n / 10, width - 1);
      var s := Padded(n, width);
      assert s[..|s| - 1] == Padded(n / 10, width - 1);
    }
  }

  lemma {:induction false} PaddedOfNumber(s: string)
    requires AllDigits(s)
    ensures Number(s) < Power10(|s|) && Padded(Number(s), |s|) == s
    decreases |s|
  {
    if s == "" {
    } else {
      PaddedOfNumber(s[..|s| - 1]);
      assert s == s[..|s| - 1] + [s[|s| - 1]];
    }
  }

  // ---- Order of names -------------------------------------------------------

  lemma {:induction false} ComparePrefix(prefix: string, a: string, b: string)
    ensures CompareText(prefix + a, prefix + b) == CompareText(a, b)
    decreases |prefix|
  {
    if prefix == "" {
      assert prefix + a == a && prefix + b == b;
    } else {
      assert (prefix + a)[1..] == prefix[1..] + a && (prefix + b)[1..] == prefix[1..] + b;
      ComparePrefix(prefix[1..], a, b);
    }
  }

  /** With heads of one length, the heads decide unless they are equal. */
  lemma {:induction false} CompareHeads(a: string, b: string, x: string, y: string)
    requires |a| == |b|
    ensures CompareText(a + x, b + y) == if CompareText(a, b) != 0 then CompareText(a, b) else CompareText(x, y)
    decreases |a|
  {
    if a == "" {
      assert a + x == x && b + y == y;
    } else {
      assert (a + x)[1..] == a[1..] + x && (b + y)[1..] == b[1..] + y;
      CompareHeads(a[1..], b[1..], x, y);
    }
  }

  /** Numbers of one width compare as their digits do. */
  lemma {:induction false} CompareNumbers(a: string, b: string)
    requires AllDigits(a) && AllDigits(b) && |a| == |b|
    ensures CompareText(a, b) == CompareInt(Number(a), Number(b))
    decreases |a|
  {
    if a == "" {
    } else {
      var n := |a| - 1;
      CompareNumbers(a[..n], b[..n]);
      CompareHeads(a[..n], b[..n], [a[n]], [b[n]]);
      assert a == a[..n] + [a[n]] && b == b[..n] + [b[n]];
      CompareOne(a[n], b[n]);
    }
  }

  lemma CompareOne(a: char, b: char)
    ensures CompareText([a], [b]) == CompareInt(a as int, b as int)
  {
    assert [a][1..] == "" && [b][1..] == "";
  }

  // ---- Names ----------------------------------------------------------------

  function Tail(m: Month): string
    requires ValidMonth(m)
  {
    Padded(m.year, 4) + ("m" + Padded(m.month, 2))
  }

  function PartitionName(parent: string, m: Month): string
    requires ValidMonth(m)
  {
    parent + "_y" + Tail(m)
  }

  /** `^(operation_logs|security_logs)_y([0-9]{4})m(0[1-9]|1[0-2])$` for this parent. */
  function ParsePartitionName(parent: string, name: string): (r: Option<Month>) {
    var n := |parent| + 2;
    if !KnownParent(parent) || |name| != n + 7 || name[..n] != parent + "_y" || name[n + 4] != 'm' then None
    else if !AllDigits(name[n..n + 4]) || !AllDigits(name[n + 5..]) then None
    else
      var month := Number(name[n + 5..]);
      if 1 <= month <= 12 then Some(Month(Number(name[n..n + 4]), month)) else None
  }

  /** Parsing inverts printing. */
  lemma ParsePrinted(parent: string, m: Month)
    requires KnownParent(parent) && ValidMonth(m)
    ensures ParsePartitionName(parent, PartitionName(parent, m)) == Some(m)
  {
    var name, n := PartitionName(parent, m), |parent| + 2;
    assert name[..n] == parent + "_y";
    assert name[n..n + 4] == Padded(m.year, 4) && name[n + 4] == 'm' && name[n + 5..] == Padded(m.month, 2);
    NumberOfPadded(m.year, 4);
    NumberOfPadded(m.month, 2);
  }

  /** Only printed names parse. */
  lemma PrintParsed(parent: string, name: string)
    requires ParsePartitionName(parent, name).Some?
    ensures var m := ParsePartitionName(parent, name).value; ValidMonth(m) && PartitionName(parent, m) == name
  {
    var n := |parent| + 2;
    PaddedOfNumber(name[n..n + 4]);
    PaddedOfNumber(name[n + 5..]);
    assert name == name[..n] + (name[n..n + 4] + ("m" + name[n + 5..]));
  }

  /** Name order is time order. */
  lemma NameOrder(parent: string, a: Month, b: Month)
    requires ValidMonth(a) && ValidMonth(b)
    ensures CompareText(PartitionName(parent, a), PartitionName(parent, b)) == CompareInt(Index(a), Index(b))
  {
    ComparePrefix(parent + "_y", Tail(a), Tail(b));
    CompareHeads(Padded(a.year, 4), Padded(b.year, 4), "m" + Padded(a.month, 2), "m" + Padded(b.month, 2));
    ComparePrefix("m", Padded(a.month, 2), Padded(b.month, 2));
    CompareNumbers(Padded(a.year, 4), Padded(b.year, 4));
    CompareNumbers(Padded(a.month, 2), Padded(b.month, 2));
    NumberOfPadded(a.year, 4);
    NumberOfPadded(b.year, 4);
    NumberOfPadded(a.month, 2);
    NumberOfPadded(b.month, 2);
  }

  // ---- Retention ------------------------------------------------------------

  /** A partition of the parent, in whichever schema it lives. */
  datatype Child = Child(schema: string, name: string)

  /** The month is parsed and ends no later than the cutoff month begins. */
  predicate Expired(parent: string, cutoff: int, child: Child) {
    var m := ParsePartitionName(parent, child.name);
    m.Some? && Index(m.value) + 1 <= cutoff
  }

  function ExpiredBy(parent: string, cutoff: int): Child -> bool { child => Expired(parent, cutoff, child) }

  /** The children that are due, in order. */
  function DueOf(due: Child -> bool, children: seq<Child>): seq<Child> {
    if children == [] then [] else (if due(children[0]) then [children[0]] else []) + DueOf(due, children[1..])
  }

  /** What is left after removing the first `limit` due children. */
  function Left(due: Child -> bool, limit: nat, children: seq<Child>): seq<Child> {
    if children == [] || limit == 0 then children
    else if due(children[0]) then Left(due, limit - 1, children[1..])
    else [children[0]] + Left(due, limit, children[1..])
  }

  function FirstOf(children: seq<Child>, limit: nat): seq<Child> {
    if |children| <= limit then children else children[..limit]
  }

  function RestOf(children: seq<Child>, limit: nat): seq<Child> {
    if |children| <= limit then [] else children[limit..]
  }

  lemma DueCons(due: Child -> bool, c: Child, rest: seq<Child>)
    ensures DueOf(due, [c] + rest) == if due(c) then [c] + DueOf(due, rest) else DueOf(due, rest)
  {
    assert ([c] + rest)[1..] == rest;
  }

  lemma LeftCons(due: Child -> bool, limit: nat, c: Child, rest: seq<Child>)
    requires limit > 0
    ensures Left(due, limit, [c] + rest) == if due(c) then Left(due, limit - 1, rest) else [c] + Left(due, limit, rest)
  {
    assert ([c] + rest)[1..] == rest;
  }

  lemma TakeNone(all: seq<Child>)
    ensures RestOf(all, 0) == all && FirstOf(all, 0) == []
  {}

  /** One run leaves all due ones but the first `limit`. */
  lemma {:induction false} LeftDue(due: Child -> bool, limit: nat, children: seq<Child>)
    ensures DueOf(due, Left(due, limit, children)) == RestOf(DueOf(due, children), limit)
    decreases |children|
  {
    if limit == 0 {
      TakeNone(DueOf(due, children));
    } else if children != [] {
      var c, rest := children[0], children[1..];
      assert children == [c] + rest;
      LeftCons(due, limit, c, rest);
      DueCons(due, c, rest);
      if due(c) {
        LeftDue(due, limit - 1, rest);
        TakeOneMore(c, DueOf(due, rest), limit);
      } else {
        LeftDue(due, limit, rest);
        DueCons(due, c, Left(due, limit, rest));
      }
    }
  }

  /** A run removes those and nothing else. */
  lemma {:induction false} LeftAndRemoved(due: Child -> bool, limit: nat, children: seq<Child>)
    ensures Together(due, limit, children)
    decreases |children|
  {
    if limit == 0 {
      TakeNone(DueOf(due, children));
    } else if children != [] {
      var c, rest := children[0], children[1..];
      assert children == [c] + rest;
      if due(c) {
        LeftAndRemoved(due, limit - 1, rest);
        TogetherDue(due, limit, c, rest);
      } else {
        LeftAndRemoved(due, limit, rest);
        TogetherKept(due, limit, c, rest);
      }
    }
  }

  ghost predicate Together(due: Child -> bool, limit: nat, children: seq<Child>) {
    multiset(Left(due, limit, children)) + multiset(FirstOf(DueOf(due, children), limit)) == multiset(children)
  }

  lemma TogetherDue(due: Child -> bool, limit: nat, c: Child, rest: seq<Child>)
    requires limit > 0 && due(c) && Together(due, limit - 1, rest)
    ensures Together(due, limit, [c] + rest)
  {
    LeftCons(due, limit, c, rest);
    DueCons(due, c, rest);
    TakeOneMore(c, DueOf(due, rest), limit);
    MovedOne(c, Left(due, limit - 1, rest), FirstOf(DueOf(due, rest), limit - 1), rest);
  }

  lemma TogetherKept(due: Child -> bool, limit: nat, c: Child, rest: seq<Child>)
    requires limit > 0 && !due(c) && Together(due, limit, rest)
    ensures Together(due, limit, [c] + rest)
  {
    LeftCons(due, limit, c, rest);
    DueCons(due, c, rest);
    KeptOne(c, Left(due, limit, rest), FirstOf(DueOf(due, rest), limit), rest);
  }

  lemma MovedOne(c: Child, left: seq<Child>, removed: seq<Child>, rest: seq<Child>)
    requires multiset(left) + multiset(removed) == multiset(rest)
    ensures multiset(left) + multiset([c] + removed) == multiset([c] + rest)
  {}

  lemma KeptOne(c: Child, left: seq<Child>, removed: seq<Child>, rest: seq<Child>)
    requires multiset(left) + multiset(removed) == multiset(rest)
    ensures multiset([c] + left) + multiset(removed) == multiset([c] + rest)
  {}

  lemma TakeOneMore(first: Child, rest: seq<Child>, limit: nat)
    requires limit > 0
    ensures RestOf([first] + rest, limit) == RestOf(rest, limit - 1)
    ensures FirstOf([first] + rest, limit) == [first] + FirstOf(rest, limit - 1)
  {}

  predicate SortedByName(children: seq<Child>) {
    forall i, j | 0 <= i < j < |children| :: CompareText(children[i].name, children[j].name) <= 0
  }

  lemma {:induction false} DueSorted(due: Child -> bool, children: seq<Child>)
    requires SortedByName(children)
    ensures SortedByName(DueOf(due, children))
    ensures forall c | c in DueOf(due, children) :: c in children && due(c)
    decreases |children|
  {
    if children == [] {
    } else {
      var rest := DueOf(due, children[1..]);
      assert forall i | 0 <= i < |children[1..]| :: children[1..][i] == children[i + 1];
      DueSorted(due, children[1..]);
      forall j | 0 <= j < |rest|
        ensures CompareText(children[0].name, rest[j].name) <= 0
      {
        assert rest[j] in children[1..];
      }
    }
  }

  function MonthOf(parent: string, child: Child): int
    requires ParsePartitionName(parent, child.name).Some?
  {
    Index(ParsePartitionName(parent, child.name).value)
  }

  /** Of a list sorted by name, what comes among the first is not after what comes later. */
  lemma FirstBeforeRest(all: seq<Child>, limit: nat, r: Child, k: Child)
    requires SortedByName(all) && r in FirstOf(all, limit) && k in RestOf(all, limit)
    ensures r in all && k in all && CompareText(r.name, k.name) <= 0
  {
    var i :| 0 <= i < |FirstOf(all, limit)| && FirstOf(all, limit)[i] == r;
    var j :| 0 <= j < |RestOf(all, limit)| && RestOf(all, limit)[j] == k;
    assert all[i] == r && all[limit + j] == k && i < limit;
  }

  /** Names of expired partitions compare as their months do. */
  lemma ExpiredOrder(parent: string, cutoff: int, r: Child, k: Child)
    requires Expired(parent, cutoff, r) && Expired(parent, cutoff, k) && CompareText(r.name, k.name) <= 0
    ensures MonthOf(parent, r) <= MonthOf(parent, k)
  {
    PrintParsed(parent, r.name);
    PrintParsed(parent, k.name);
    NameOrder(parent, ParsePartitionName(parent, r.name).value, ParsePartitionName(parent, k.name).value);
  }

  /** What a run removes is no younger than any expired partition it leaves. */
  lemma RemovedAreOldest(parent: string, cutoff: int, limit: nat, children: seq<Child>, r: Child, k: Child)
    requires SortedByName(children)
    requires r in FirstOf(DueOf(ExpiredBy(parent, cutoff), children), limit)
    requires k in DueOf(ExpiredBy(parent, cutoff), Left(ExpiredBy(parent, cutoff), limit, children))
    ensures Expired(parent, cutoff, r) && Expired(parent, cutoff, k) && MonthOf(parent, r) <= MonthOf(parent, k)
  {
    var due := ExpiredBy(parent, cutoff);
    DueSorted(due, children);
    LeftDue(due, limit, children);
    FirstBeforeRest(DueOf(due, children), limit, r, k);
    assert due(r) && due(k);
    ExpiredOrder(parent, cutoff, r, k);
  }

  ghost predicate Retained(due: Child -> bool, limit: nat, children: seq<Child>, i: nat, left: seq<Child>,
          removed: seq<Child>)
  {
    i <= |children| && |removed| <= limit
    && KeptSoFar(due, limit, children, children[i..], left, limit - |removed|)
    && RemovedSoFar(due, limit, children, children[i..], removed, limit - |removed|)
  }

  ghost predicate KeptSoFar(due: Child -> bool, limit: nat, children: seq<Child>, rest: seq<Child>,
          left: seq<Child>, room: nat)
  {
    left + Left(due, room, rest) == Left(due, limit, children)
  }

  ghost predicate RemovedSoFar(due: Child -> bool, limit: nat, children: seq<Child>, rest: seq<Child>,
          removed: seq<Child>, room: nat)
  {
    removed + FirstOf(DueOf(due, rest), room) == FirstOf(DueOf(due, children), limit)
  }

  lemma KeptStep(due: Child -> bool, limit: nat, children: seq<Child>, c: Child, rest: seq<Child>, left: seq<Child>,
          room: nat)
    requires KeptSoFar(due, limit, children, [c] + rest, left, room)
    ensures !due(c) ==> KeptSoFar(due, limit, children, rest, left + [c], room)
    ensures due(c) && room > 0 ==> KeptSoFar(due, limit, children, rest, left, room - 1)
  {
    if room > 0 { LeftCons(due, room, c, rest); }
    Regroup(left, c, Left(due, room, rest));
  }

  lemma RemovedStep(due: Child -> bool, limit: nat, children: seq<Child>, c: Child, rest: seq<Child>,
          removed: seq<Child>, room: nat)
    requires RemovedSoFar(due, limit, children, [c] + rest, removed, room)
    ensures !due(c) ==> RemovedSoFar(due, limit, children, rest, removed, room)
    ensures due(c) && room > 0 ==> RemovedSoFar(due, limit, children, rest, removed + [c], room - 1)
  {
    DueCons(due, c, rest);
    if room > 0 {
      TakeOneMore(c, DueOf(due, rest), room);
      Regroup(removed, c, FirstOf(DueOf(due, rest), room - 1));
    }
  }

  lemma Regroup(a: seq<Child>, c: Child, b: seq<Child>)
    ensures a + ([c] + b) == (a + [c]) + b
  {}

  lemma RetainStep(due: Child -> bool, limit: nat, children: seq<Child>, i: nat, left: seq<Child>, removed: seq<Child>)
    requires i < |children| && Retained(due, limit, children, i, left, removed)
    ensures !due(children[i]) ==> Retained(due, limit, children, i + 1, left + [children[i]], removed)
    ensures due(children[i]) && |removed| < limit ==>
        Retained(due, limit, children, i + 1, left, removed + [children[i]])
  {
    var rest, c := children[i + 1..], children[i];
    assert children[i..] == [c] + rest;
    KeptStep(due, limit, children, c, rest, left, limit - |removed|);
    RemovedStep(due, limit, children, c, rest, removed, limit - |removed|);
  }

  /** The loop over the children in name order; what it detaches and what it leaves attached. */
  method RetainPartitions(parent: string, children: seq<Child>, cutoff: int, limit: nat) returns (left: seq<Child>,
          removed: seq<Child>)
    ensures removed == FirstOf(DueOf(ExpiredBy(parent, cutoff), children), limit)
    ensures left == Left(ExpiredBy(parent, cutoff), limit, children)
  {
    var due := ExpiredBy(parent, cutoff);
    left, removed := [], [];
    assert children[0..] == children;
    var i := 0;
    while i < |children|
      invariant Retained(due, limit, children, i, left, removed)
    {
      RetainStep(due, limit, children, i, left, removed);
      if !due(children[i]) {
        left := left + [children[i]];
        i := i + 1;
        continue;
      }
      if |removed| >= limit { break; }
      removed := removed + [children[i]];
      i := i + 1;
    }
    left := left + children[i..];
  }

  /** Repeated runs. */
  function Runs(due: Child -> bool, limit: nat, children: seq<Child>, runs: nat): seq<Child>
    decreases runs
  {
    if runs == 0 then children else Runs(due, limit, Left(due, limit, children), runs - 1)
  }

  lemma {:induction false} RunsRemove(due: Child -> bool, limit: nat, children: seq<Child>, runs: nat, total: nat)
    requires total == runs * limit
    ensures DueOf(due, Runs(due, limit, children, runs)) == RestOf(DueOf(due, children), total)
    decreases runs
  {
    if runs == 0 {
      TakeNone(DueOf(due, children));
    } else {
      OneRunLess(runs, limit);
      LeftDue(due, limit, children);
      RunsRemove(due, limit, Left(due, limit, children), runs - 1, total - limit);
      RestTwice(DueOf(due, children), limit, total - limit, total);
    }
  }

  lemma OneRunLess(runs: nat, limit: nat)
    requires runs > 0
    ensures runs * limit == (runs - 1) * limit + limit
  {}

  lemma RestTwice(all: seq<Child>, a: nat, b: nat, c: nat)
    requires a + b == c
    ensures RestOf(RestOf(all, a), b) == RestOf(all, c)
  {}

  /** As many runs as batches fit remove every expired partition. */
  lemma EnoughRunsRemoveAll(parent: string, cutoff: int, limit: nat, children: seq<Child>)
    requires limit > 0
    ensures var due := ExpiredBy(parent, cutoff);
            var n := |DueOf(due, children)|;
            DueOf(due, Runs(due, limit, children, (n + limit - 1) / limit)) == []
  {
    var due := ExpiredBy(parent, cutoff);
    var n := |DueOf(due, children)|;
    RoundedUp(n, limit);
    RunsRemove(due, limit, children, (n + limit - 1) / limit, (n + limit - 1) / limit * limit);
  }

  lemma RoundedUp(n: nat, limit: nat)
    requires limit > 0
    ensures (n + limit - 1) / limit * limit >= n
  {
    var q, r := (n + limit - 1) / limit, (n + limit - 1) % limit;
    assert n + limit - 1 == q * limit + r;
  }
}
