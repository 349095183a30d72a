/**
 Link rows between an owner and its values, and replaceLinks / upsertLink of
 internal/authorization/tenant_service.go, which turn an owner's active links into a
 requested set row by row.  A row is identified by its position in the table.
 */
module LinkTable {
  import opened Wrappers

  const MAX_LINKS: nat := 1000

  datatype Link = Link(tenant: string, owner: string, value: string, live: bool, version: nat, updated: nat)

  type Table = seq<Link>

  predicate Owned(l: Link, tenant: string, owner: string) {
    l.tenant == tenant && l.owner == owner
  }

  predicate ActiveLink(l: Link, tenant: string, owner: string) {
    l.live && Owned(l, tenant, owner)
  }

  /** The values an owner is actively linked to. */
  function ActiveValues(table: Table, tenant: string, owner: string): set<string> {
    set i | 0 <= i < |table| && ActiveLink(table[i], tenant, owner) :: table[i].value
  }

  /** The table's unique index over active rows. */
  ghost predicate UniqueLive(table: Table) {
    forall i, j | 0 <= i < j < |table| && table[i].live && table[j].live ::
      !(Owned(table[j], table[i].tenant, table[i].owner) && table[i].value == table[j].value)
  }

  function Retire(l: Link, now: nat): Link { l.(live := false, version := l.version + 1, updated := now) }

  function Revive(l: Link, now: nat): Link { l.(live := true, version := l.version + 1, updated := now) }

  function NewLink(tenant: string, owner: string, value: string, now: nat): Link {
    Link(tenant, owner, value, true, 1, now)
  }

  predicate IsRow(l: Link, tenant: string, owner: string, value: string) {
    Owned(l, tenant, owner) && l.value == value
  }

  // ---- What a replacement does ----------------------------------------------

  /** One old row after the replacement. */
  ghost predicate RowReplaced(before: Link, after: Link, active: set<string>, tenant: string, owner: string,
          wanted: set<string>, now: nat)
  {
    if !Owned(before, tenant, owner) then after == before
    else if before.live then after == (if before.value in wanted then before else Retire(before, now))
    else after == before || (after == Revive(before, now) && before.value in wanted && before.value !in active)
  }

  /**
   The owner's active values are exactly the wanted ones, each in one row.  A kept link is
   untouched, a dropped or revived one advances its version by one, a value without any
   row gets a new one, and rows of other owners and tenants stay as they are.
   */
  ghost predicate Replaced(before: Table, after: Table, tenant: string, owner: string, wanted: set<string>, now: nat) {
    && |before| <= |after|
    && ActiveValues(after, tenant, owner) == wanted
    && UniqueLive(after)
    && (forall i | 0 <= i < |before| ::
       RowReplaced(before[i], after[i], ActiveValues(before, tenant, owner), tenant, owner, wanted, now))
    && forall i | |before| <= i < |after| ::
         && after[i] == NewLink(tenant, owner, after[i].value, now) && after[i].value in wanted
         && forall j | 0 <= j < |before| :: !IsRow(before[j], tenant, owner, after[i].value)
  }

  lemma OthersUntouched(before: Table, after: Table, tenant: string, owner: string, wanted: set<string>, now: nat,
          t: string, o: string)
    requires Replaced(before, after, tenant, owner, wanted, now) && (t != tenant || o != owner)
    ensures ActiveValues(after, t, o) == ActiveValues(before, t, o)
  {
    forall v
      ensures v in ActiveValues(after, t, o) <==> v in ActiveValues(before, t, o)
    {
      if v in ActiveValues(after, t, o) {
        var i :| 0 <= i < |after| && ActiveLink(after[i], t, o) && after[i].value == v;
        if i < |before| {
          assert RowReplaced(before[i], after[i], ActiveValues(before, tenant, owner), tenant, owner, wanted, now);
        }
        assert i < |before| && before[i] == after[i];
      }
      if v in ActiveValues(before, t, o) {
        var i :| 0 <= i < |before| && ActiveLink(before[i], t, o) && before[i].value == v;
        assert RowReplaced(before[i], after[i], ActiveValues(before, tenant, owner), tenant, owner, wanted, now);
        assert after[i] == before[i];
      }
    }
  }

  // ---- Dropping the links that are no longer wanted -------------------------

  function Dropped(l: Link, tenant: string, owner: string, wanted: set<string>, now: nat): Link {
    if ActiveLink(l, tenant, owner) && l.value !in wanted then Retire(l, now) else l
  }

  function DropAll(table: Table, tenant: string, owner: string, wanted: set<string>, now: nat): (r: Table)
    ensures |r| == |table| && forall i | 0 <= i < |table| :: r[i] == Dropped(table[i], tenant, owner, wanted, now)
  {
    seq(|table|, i requires 0 <= i < |table| => Dropped(table[i], tenant, owner, wanted, now))
  }

  function CountActive(table: Table, tenant: string, owner: string): nat {
    if table == [] then 0
    else
      CountActive(table[..|table| - 1], tenant, owner)
      + (if ActiveLink(table[|table| - 1], tenant, owner) then 1 else 0)
  }

  /** The first n rows are dropped as needed, their active values collected and different. */
  ghost predicate DroppedTo(table: Table, tenant: string, owner: string, wanted: set<string>, now: nat, n: nat,
          current: Table, active: set<string>)
  {
    && n <= |table| && current == DropAll(table[..n], tenant, owner, wanted, now) + table[n..]
    && active == ActiveValues(table[..n], tenant, owner)
  }

  lemma DropStep(table: Table, tenant: string, owner: string, wanted: set<string>, now: nat, n: nat, current: Table,
          active: set<string>)
    requires n < |table| && DroppedTo(table, tenant, owner, wanted, now, n, current, active)
    ensures |current| == |table| && current[n] == table[n]
    ensures DroppedTo(table, tenant, owner, wanted, now, n + 1,
        current[n := Dropped(table[n], tenant, owner, wanted, now)],
                      if ActiveLink(table[n], tenant, owner) then active + {table[n].value} else active)
    ensures ActiveLink(table[n], tenant, owner) && table[n].value in active ==> !UniqueLive(table)
  {
    var l := table[n];
    assert current[n := Dropped(l, tenant, owner, wanted, now)]
        == DropAll(table[..n + 1], tenant, owner, wanted, now) + table[n + 1..];
    ActiveSnoc(table, tenant, owner, n);
    if ActiveLink(l, tenant, owner) && l.value in active {
      var i :| 0 <= i < n && ActiveLink(table[..n][i], tenant, owner) && table[..n][i].value == l.value;
      assert table[..n][i] == table[i];
    }
  }

  lemma ActiveSnoc(table: Table, tenant: string, owner: string, n: nat)
    requires n < |table|
    ensures ActiveValues(table[..n + 1], tenant, owner)
         == ActiveValues(table[..n], tenant, owner)
             + (if ActiveLink(table[n], tenant, owner) then {table[n].value} else {})
  {
    var shorter, longer := table[..n], table[..n + 1];
    assert forall i | 0 <= i < n :: shorter[i] == longer[i] == table[i];
    assert longer[n] == table[n];
  }

  // ---- Adding the values that are not linked yet ----------------------------

  /** `k` is the row the upsert takes: active if any, else the last updated, else none. */
  ghost predicate Newest(table: Table, tenant: string, owner: string, value: string, k: Option<nat>) {
    match k
    case None => forall i | 0 <= i < |table| :: !IsRow(table[i], tenant, owner, value)
    case Some(k) =>
      && k < |table| && IsRow(table[k], tenant, owner, value)
      && forall i | 0 <= i < |table| && IsRow(table[i], tenant, owner, value) ::
           (table[i].live ==> table[k].live)
               && (table[i].live == table[k].live ==> table[i].updated <= table[k].updated)
  }

  method FindRow(table: Table, tenant: string, owner: string, value: string) returns (k: Option<nat>)
    ensures Newest(table, tenant, owner, value, k)
  {
    k := None;
    for i := 0 to |table|
      invariant Newest(table[..i], tenant, owner, value, k)
    {
      assert forall j | 0 <= j < i :: table[..i + 1][j] == table[..i][j];
      assert table[..i + 1][i] == table[i];
      if IsRow(table[i], tenant, owner, value) {
        if k.None? || (table[i].live && !table[k.value].live)
           || (table[i].live == table[k.value].live && table[i].updated >= table[k.value].updated) {
          k := Some(i);
        }
      }
    }
    assert table[..|table|] == table;
  }

  method UpsertLink(table: Table, tenant: string, owner: string, value: string, now: nat) returns (after: Table)
    ensures exists k :: Newest(table, tenant, owner, value, k) && after == UpsertAt(table, tenant, owner, value, now, k)
  {
    var k := FindRow(table, tenant, owner, value);
    if k.Some? {
      if table[k.value].live { after := table; } else { after := table[k.value := Revive(table[k.value], now)]; }
    } else {
      after := table + [NewLink(tenant, owner, value, now)];
    }
  }

  function UpsertAt(table: Table, tenant: string, owner: string, value: string, now: nat, k: Option<nat>): Table
    requires k.Some? ==> k.value < |table|
  {
    match k
    case None => table + [NewLink(tenant, owner, value, now)]
    case Some(k) => if table[k].live then table else table[k := Revive(table[k], now)]
  }

  /** What adding has done so far to the table `mid`. */
  ghost predicate Grown(mid: Table, table: Table, tenant: string, owner: string, done: set<string>, now: nat) {
    && |mid| <= |table| && UniqueLive(table)
    && ActiveValues(table, tenant, owner) == ActiveValues(mid, tenant, owner) + done
    && (forall i | 0 <= i < |mid| :: KeptOrRevived(mid[i], table[i], tenant, owner, done, now))
    && forall i | |mid| <= i < |table| ::
         && table[i] == NewLink(tenant, owner, table[i].value, now) && table[i].value in done
         && forall j | 0 <= j < |mid| :: !IsRow(mid[j], tenant, owner, table[i].value)
  }

  ghost predicate KeptOrRevived(before: Link, after: Link, tenant: string, owner: string, done: set<string>, now: nat) {
    after == before
        || (Owned(before, tenant, owner) && !before.live && after == Revive(before, now) && before.value in done)
  }

  lemma UpsertValues(table: Table, tenant: string, owner: string, value: string, now: nat, k: Option<nat>)
    requires Newest(table, tenant, owner, value, k) && value !in ActiveValues(table, tenant, owner)
    ensures ActiveValues(UpsertAt(table, tenant, owner, value, now, k), tenant, owner)
        == ActiveValues(table, tenant, owner) + {value}
  {
    var after := UpsertAt(table, tenant, owner, value, now, k);
    assert k.Some? ==> !table[k.value].live;
    forall v
      ensures v in ActiveValues(after, tenant, owner) <==> v in ActiveValues(table, tenant, owner) || v == value
    {
      if v in ActiveValues(after, tenant, owner) {
        var i :| 0 <= i < |after| && ActiveLink(after[i], tenant, owner) && after[i].value == v;
        if v != value { assert i < |table| && after[i] == table[i]; }
      }
      if v in ActiveValues(table, tenant, owner) {
        var i :| 0 <= i < |table| && ActiveLink(table[i], tenant, owner) && table[i].value == v;
        assert after[i] == table[i];
      }
      if v == value {
        var i := if k.Some? then k.value else |table|;
        assert ActiveLink(after[i], tenant, owner) && after[i].value == v;
      }
    }
  }

  lemma UpsertUnique(table: Table, tenant: string, owner: string, value: string, now: nat, k: Option<nat>)
    requires Newest(table, tenant, owner, value, k) && value !in ActiveValues(table, tenant, owner) && UniqueLive(table)
    ensures UniqueLive(UpsertAt(table, tenant, owner, value, now, k))
  {
    var after := UpsertAt(table, tenant, owner, value, now, k);
    var row := if k.Some? then k.value else |table|;
    forall i | 0 <= i < |after| && i != row && after[i].live
      ensures i < |table| && table[i] == after[i] && !IsRow(after[i], tenant, owner, value)
    {
      assert i < |table| && table[i] == after[i];
      assert ActiveLink(table[i], tenant, owner) ==> table[i].value in ActiveValues(table, tenant, owner);
    }
  }

  lemma UpsertStep(mid: Table, table: Table, tenant: string, owner: string, done: set<string>, now: nat,
          value: string, k: Option<nat>)
    requires Grown(mid, table, tenant, owner, done, now) && value !in ActiveValues(table, tenant, owner)
    requires Newest(table, tenant, owner, value, k)
    ensures Grown(mid, UpsertAt(table, tenant, owner, value, now, k), tenant, owner, done + {value}, now)
  {
    var after := UpsertAt(table, tenant, owner, value, now, k);
    UpsertValues(table, tenant, owner, value, now, k);
    UpsertUnique(table, tenant, owner, value, now, k);
    assert k.Some? ==> !table[k.value].live && k.value < |mid|;
    forall i | 0 <= i < |mid|
      ensures KeptOrRevived(mid[i], after[i], tenant, owner, done + {value}, now)
    {
      assert KeptOrRevived(mid[i], table[i], tenant, owner, done, now);
    }
    if k.None? {
      forall j | 0 <= j < |mid|
        ensures !IsRow(mid[j], tenant, owner, value)
      {
        assert KeptOrRevived(mid[j], table[j], tenant, owner, done, now);
        assert !IsRow(table[j], tenant, owner, value);
      }
    }
  }

  // ---- The replacement ------------------------------------------------------

  predicate DistinctValues(values: seq<string>) {
    forall i, j | 0 <= i < j < |values| :: values[i] != values[j]
  }

  function ToSet(values: seq<string>): set<string> { set v | v in values }

  /** What a replacement accepts: bounded, valid, different values, and an owner within the same bound. */
  ghost predicate Replaceable(validId: string -> bool, table: Table, tenant: string, owner: string,
          values: seq<string>)
  {
    && |values| <= MAX_LINKS && (forall v | v in values :: validId(v)) && DistinctValues(values)
    && CountActive(table, tenant, owner) <= MAX_LINKS
  }

  method CollectWanted(validId: string -> bool, values: seq<string>) returns (ok: bool, wanted: set<string>)
    ensures ok <==> (forall v | v in values :: validId(v)) && DistinctValues(values)
    ensures ok ==> wanted == ToSet(values)
  {
    wanted := {};
    for i := 0 to |values|
      invariant wanted == ToSet(values[..i]) && DistinctValues(values[..i]) && forall v | v in values[..i] :: validId(v)
    {
      var value := values[i];
      assert values[..i + 1] == values[..i] + [value];
      if !validId(value) { assert value in values; return false, {}; }
      if value in wanted {
        var j :| 0 <= j < i && values[..i][j] == value;
        assert values[j] == values[i];
        return false, {};
      }
      wanted := wanted + {value};
    }
    assert values[..|values|] == values;
    ok := true;
  }

  method CountLinks(table: Table, tenant: string, owner: string) returns (n: nat)
    ensures n == CountActive(table, tenant, owner)
  {
    n := 0;
    for i := 0 to |table|
      invariant n == CountActive(table[..i], tenant, owner)
    {
      assert table[..i + 1][..i] == table[..i];
      if ActiveLink(table[i], tenant, owner) { n := n + 1; }
    }
    assert table[..|table|] == table;
  }

  method DropUnwanted(table: Table, tenant: string, owner: string, wanted: set<string>, now: nat) returns (ok: bool,
          current: Table, active: set<string>)
    requires UniqueLive(table)
    ensures ok && current == DropAll(table, tenant, owner, wanted, now) && active == ActiveValues(table, tenant, owner)
  {
    current, active := table, {};
    for i := 0 to |table|
      invariant DroppedTo(table, tenant, owner, wanted, now, i, current, active)
    {
      DropStep(table, tenant, owner, wanted, now, i, current, active);
      var link := current[i];
      if !ActiveLink(link, tenant, owner) { current := current[i := link]; continue; }
      if link.value in active { return false, current, active; }
      active := active + {link.value};
      current := current[i := Dropped(link, tenant, owner, wanted, now)];
    }
    assert table[..|table|] == table;
    ok := true;
  }

  method AddMissing(table: Table, tenant: string, owner: string, values: seq<string>, active: set<string>,
          now: nat) returns (after: Table)
    requires UniqueLive(table) && DistinctValues(values)
    requires forall v | v in values && v !in active :: v !in ActiveValues(table, tenant, owner)
    ensures Grown(table, after, tenant, owner, ToSet(values) - active, now)
  {
    after := table;
    for i := 0 to |values|
      invariant Grown(table, after, tenant, owner, ToSet(values[..i]) - active, now)
    {
      assert values[..i + 1] == values[..i] + [values[i]];
      assert values[i] in values;
      if values[i] in active {
        assert ToSet(values[..i + 1]) - active == ToSet(values[..i]) - active;
        continue;
      }
      ghost var before := after;
      assert values[i] !in values[..i];
      after := UpsertLink(after, tenant, owner, values[i], now);
      ghost var k :| Newest(before, tenant, owner, values[i], k)
          && after == UpsertAt(before, tenant, owner, values[i], now, k);
      UpsertStep(table, before, tenant, owner, ToSet(values[..i]) - active, now, values[i], k);
      assert ToSet(values[..i + 1]) - active == (ToSet(values[..i]) - active) + {values[i]};
    }
    assert values[..|values|] == values;
  }

  /** The source's replaceLinks; on failure the caller's transaction rolls back. */
  method ReplaceLinks(validId: string -> bool, table: Table, tenant: string, owner: string, values: seq<string>,
          now: nat) returns (ok: bool, after: Table)
    requires UniqueLive(table)
    ensures ok <==> Replaceable(validId, table, tenant, owner, values)
    ensures ok ==> Replaced(table, after, tenant, owner, ToSet(values), now)
  {
    if |values| > MAX_LINKS { return false, table; }
    var valid, wanted := CollectWanted(validId, values);
    if !valid { return false, table; }
    var count := CountLinks(table, tenant, owner);
    if count > MAX_LINKS { return false, table; }
    var unique, current, active := DropUnwanted(table, tenant, owner, wanted, now);
    if !unique { return false, table; }
    DropKeeps(table, tenant, owner, wanted, now);
    after := AddMissing(current, tenant, owner, values, active, now);
    ReplacedByParts(table, after, tenant, owner, wanted, now);
    ok := true;
  }

  lemma DropKeeps(table: Table, tenant: string, owner: string, wanted: set<string>, now: nat)
    requires UniqueLive(table)
    ensures UniqueLive(DropAll(table, tenant, owner, wanted, now))
    ensures ActiveValues(DropAll(table, tenant, owner, wanted, now), tenant, owner)
        == ActiveValues(table, tenant, owner) * wanted
  {
    var after := DropAll(table, tenant, owner, wanted, now);
    assert forall i | 0 <= i < |table| && after[i].live :: after[i] == table[i];
    forall v
      ensures v in ActiveValues(after, tenant, owner) <==> v in ActiveValues(table, tenant, owner) && v in wanted
    {
      if v in ActiveValues(table, tenant, owner) && v in wanted {
        var i :| 0 <= i < |table| && ActiveLink(table[i], tenant, owner) && table[i].value == v;
        assert after[i] == table[i];
      }
    }
  }

  lemma ReplacedByParts(before: Table, after: Table, tenant: string, owner: string, wanted: set<string>, now: nat)
    requires UniqueLive(before)
    requires Grown(DropAll(before, tenant, owner, wanted, now), after, tenant, owner,
        wanted - ActiveValues(before, tenant, owner), now)
    ensures Replaced(before, after, tenant, owner, wanted, now)
  {
    var mid := DropAll(before, tenant, owner, wanted, now);
    var active := ActiveValues(before, tenant, owner);
    DropKeeps(before, tenant, owner, wanted, now);
    assert (active * wanted) + (wanted - active) == wanted;
    forall i | 0 <= i < |before|
      ensures RowReplaced(before[i], after[i], active, tenant, owner, wanted, now)
    {
      assert KeptOrRevived(mid[i], after[i], tenant, owner, wanted - active, now);
      if ActiveLink(before[i], tenant, owner) { assert before[i].value in active; }
    }
    forall i, j | |before| <= i < |after| && 0 <= j < |before|
      ensures !IsRow(before[j], tenant, owner, after[i].value)
    {
      assert !IsRow(mid[j], tenant, owner, after[i].value);
    }
  }

  // ---- Retiring by condition ------------------------------------------------

  /** One UPDATE that soft-deletes the active rows of a condition. */
  function RetireWhere(table: Table, drop: Link -> bool, now: nat): (r: Table)
    ensures |r| == |table| && forall i | 0 <= i < |table| ::
        r[i] == if table[i].live && drop(table[i]) then Retire(table[i], now) else table[i]
  {
    seq(|table|, i requires 0 <= i < |table|
        => if table[i].live && drop(table[i]) then Retire(table[i], now) else table[i])
  }

  lemma RetiredUnique(table: Table, drop: Link -> bool, now: nat)
    requires UniqueLive(table)
    ensures UniqueLive(RetireWhere(table, drop, now))
  {
    var after := RetireWhere(table, drop, now);
    assert forall i | 0 <= i < |table| && after[i].live :: after[i] == table[i];
  }

  lemma RetiredValues(table: Table, drop: Link -> bool, now: nat, tenant: string, owner: string, goes: string -> bool)
    requires forall l: Link | Owned(l, tenant, owner) :: drop(l) <==> goes(l.value)
    ensures forall v ::
        v in ActiveValues(RetireWhere(table, drop, now), tenant, owner) <==>
        v in ActiveValues(table, tenant, owner) && !goes(v)
  {
    var after := RetireWhere(table, drop, now);
    forall v
      ensures v in ActiveValues(after, tenant, owner) <==> v in ActiveValues(table, tenant, owner) && !goes(v)
    {
      if v in ActiveValues(table, tenant, owner) && !goes(v) {
        var i :| 0 <= i < |table| && ActiveLink(table[i], tenant, owner) && table[i].value == v;
        assert after[i] == table[i];
      }
    }
  }
}
