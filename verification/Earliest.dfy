/** ORDER BY a time and an id, with LIMIT: the earliest of a set of rows. */
module Earliest {
  import opened Texts

  /** Every row's time. */
  type Times = map<string, nat>

  predicate Before(at: Times, a: string, b: string)
    requires a in at && b in at
  {
    at[a] < at[b] || (at[a] == at[b] && CompareText(a, b) < 0)
  }

  lemma BeforeOrders(at: Times, a: string, b: string, c: string)
    requires a in at && b in at && c in at
    ensures a == b || Before(at, a, b) || Before(at, b, a)
    ensures Before(at, a, b) && Before(at, b, c) ==> Before(at, a, c)
  {
    TextOrder(a, b, c);
  }

  /** `first` comes before all others. */
  ghost predicate IsFirst(at: Times, rows: set<string>, first: string) {
    && rows <= at.Keys && first in rows
    && forall other | other in rows && other != first :: Before(at, first, other)
  }

  method First(at: Times, rows: set<string>) returns (first: string)
    requires rows != {} && rows <= at.Keys
    ensures IsFirst(at, rows, first)
  {
    first :| first in rows;
    var rest := rows - {first};
    while rest != {}
      invariant rest <= rows && first in rows - rest
      invariant IsFirst(at, rows - rest, first)
      decreases rest
    {
      var other :| other in rest;
      FirstOfMore(at, rows - rest, first, other);
      if Before(at, other, first) { first := other; }
      assert rows - (rest - {other}) == rows - rest + {other};
      rest := rest - {other};
    }
    assert rows - rest == rows;
  }

  lemma FirstOfMore(at: Times, rows: set<string>, first: string, other: string)
    requires IsFirst(at, rows, first) && other in at && other !in rows
    ensures IsFirst(at, rows + {other}, if Before(at, other, first) then other else first)
  {
    forall row | row in rows
      ensures Before(at, other, first) ==> Before(at, other, row)
    {
      BeforeOrders(at, other, first, row);
    }
    BeforeOrders(at, first, other, first);
  }

  /** Everything in `batch` comes before everything else of `rows`. */
  ghost predicate AreFirst(at: Times, rows: set<string>, batch: set<string>) {
    && batch <= rows <= at.Keys
    && forall a, b | a in batch && b in rows && b !in batch :: Before(at, a, b)
  }

  /** The rows one LIMITed statement takes. */
  method TakeFirst(at: Times, rows: set<string>, limit: nat) returns (batch: set<string>)
    requires rows <= at.Keys
    ensures AreFirst(at, rows, batch) && |batch| == if |rows| < limit then |rows| else limit
  {
    batch := {};
    var rest := rows;
    while |batch| < limit && rest != {}
      invariant batch !! rest && batch + rest == rows && |batch| <= limit
      invariant AreFirst(at, rows, batch)
      decreases rest
    {
      assert |batch + rest| == |batch| + |rest|;
      var first := First(at, rest);
      batch, rest := batch + {first}, rest - {first};
    }
    assert |batch + rest| == |batch| + |rest|;
  }
}
