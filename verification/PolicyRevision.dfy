/**
 What the revision of a snapshot tells: two snapshots of one revision decide alike and
 select alike, in whatever order their policies were loaded.
 */
module PolicyRevision {
  import opened Wrappers
  import Sql = SqlFragment
  import opened PredicateIr
  import Evaluator
  import Compiler
  import opened ScopeCorrectness
  import opened Engine

  ghost predicate SameMembers<T(!new)>(a: seq<T>, b: seq<T>) {
    forall x :: x in a <==> x in b
  }

  // ---- Decisions ------------------------------------------------------------

  predicate Usable(c: Evaluator.Context, s: PolicyScope, includeProposed: bool) {
    !s.effect.UnknownEffect? && Evaluator.Matches(c, s, includeProposed).Ok?
  }

  predicate Hits(c: Evaluator.Context, s: PolicyScope, includeProposed: bool) {
    Evaluator.Matches(c, s, includeProposed) == Ok(true)
  }

  predicate SomeAllow(c: Evaluator.Context, ps: seq<PolicyScope>, includeProposed: bool) {
    exists s | s in ps :: s.effect.Allow? && Hits(c, s, includeProposed)
  }

  predicate SomeDeny(c: Evaluator.Context, ps: seq<PolicyScope>, includeProposed: bool) {
    exists s | s in ps :: s.effect.Deny? && Hits(c, s, includeProposed)
  }

  predicate AllUsable(c: Evaluator.Context, ps: seq<PolicyScope>, includeProposed: bool) {
    forall s | s in ps :: Usable(c, s, includeProposed)
  }

  lemma SplitFirst(c: Evaluator.Context, ps: seq<PolicyScope>, includeProposed: bool)
    requires ps != []
    ensures AllUsable(c, ps, includeProposed) <==>
        Usable(c, ps[0], includeProposed) && AllUsable(c, ps[1..], includeProposed)
    ensures SomeAllow(c, ps, includeProposed) <==>
            (ps[0].effect.Allow? && Hits(c, ps[0], includeProposed)) || SomeAllow(c, ps[1..], includeProposed)
    ensures SomeDeny(c, ps, includeProposed) <==>
            (ps[0].effect.Deny? && Hits(c, ps[0], includeProposed)) || SomeDeny(c, ps[1..], includeProposed)
  {
    assert forall s :: s in ps <==> s == ps[0] || s in ps[1..];
  }

  /** A decision depends on which policies there are, not on their order. */
  lemma {:induction false} EvaluateMembers(c: Evaluator.Context, ps: seq<PolicyScope>, includeProposed: bool)
    ensures Evaluator.Evaluate(c, ps, includeProposed).Ok? <==> AllUsable(c, ps, includeProposed)
    ensures AllUsable(c, ps, includeProposed) ==>
              Evaluator.Evaluate(c, ps, includeProposed)
              == Ok(Evaluator.Verdict(SomeAllow(c, ps, includeProposed), SomeDeny(c, ps, includeProposed)))
    decreases |ps|
  {
    if ps == [] {
    } else {
      EvaluateMembers(c, ps[1..], includeProposed);
      SplitFirst(c, ps, includeProposed);
    }
  }

  /** Both fail, or both give the same answer. */
  predicate Alike<T(==), E>(a: Result<T, E>, b: Result<T, E>) {
    (a.Ok? <==> b.Ok?) && (a.Ok? ==> a.value == b.value)
  }

  lemma SameDecision(c: Evaluator.Context, a: seq<PolicyScope>, b: seq<PolicyScope>, includeProposed: bool)
    requires SameMembers(a, b)
    ensures Alike(Evaluator.Decide(c, a, includeProposed), Evaluator.Decide(c, b, includeProposed))
  {
    EvaluateMembers(c, a, includeProposed);
    EvaluateMembers(c, b, includeProposed);
    assert AllUsable(c, a, includeProposed) == AllUsable(c, b, includeProposed);
    assert SomeAllow(c, a, includeProposed) == SomeAllow(c, b, includeProposed);
    assert SomeDeny(c, a, includeProposed) == SomeDeny(c, b, includeProposed);
  }

  // ---- Selection ------------------------------------------------------------

  lemma {:induction false} AllowsMembers(ps: seq<PolicyScope>, p: Predicate)
    ensures p in Compiler.Allows(ps) <==> exists s | s in ps :: s.effect.Allow? && s.current == p
    decreases |ps|
  {
    if ps == [] {
    } else {
      AllowsMembers(ps[1..], p);
      assert forall s :: s in ps <==> s == ps[0] || s in ps[1..];
    }
  }

  lemma {:induction false} DeniesMembers(ps: seq<PolicyScope>, p: Predicate)
    ensures p in Compiler.Denies(ps) <==> exists s | s in ps :: s.effect.Deny? && !s.hasProposed && s.current == p
    decreases |ps|
  {
    if ps == [] {
    } else {
      DeniesMembers(ps[1..], p);
      assert forall s :: s in ps <==> s == ps[0] || s in ps[1..];
    }
  }

  lemma SameConditions(a: seq<PolicyScope>, b: seq<PolicyScope>)
    requires SameMembers(a, b)
    ensures SameMembers(Compiler.Allows(a), Compiler.Allows(b)) && SameMembers(Compiler.Denies(a), Compiler.Denies(b))
    ensures Compiler.KnownEffects(a) <==> Compiler.KnownEffects(b)
  {
    forall p
      ensures p in Compiler.Allows(a) <==> p in Compiler.Allows(b)
      ensures p in Compiler.Denies(a) <==> p in Compiler.Denies(b)
    {
      AllowsMembers(a, p);
      AllowsMembers(b, p);
      DeniesMembers(a, p);
      DeniesMembers(b, p);
    }
    KnownMembers(a);
    KnownMembers(b);
  }

  lemma KnownMembers(ps: seq<PolicyScope>)
    ensures Compiler.KnownEffects(ps) <==> forall s | s in ps :: !s.effect.UnknownEffect?
  {
    if forall s | s in ps :: !s.effect.UnknownEffect? {
      assert forall i | 0 <= i < |ps| :: ps[i] in ps;
    }
  }

  predicate Compiles(schema: Schema, subject: Attributes, p: Predicate) {
    Compiler.Compile(schema, subject, p, 1, 0).result.Ok?
  }

  lemma {:induction false} AloneMembers(schema: Schema, subject: Attributes, ps: seq<Predicate>)
    ensures Compiler.CompileAlone(schema, subject, ps).Ok? <==> EachCompiles(schema, subject, ps)
    decreases |ps|
  {
    if ps == [] {
    } else {
      AloneMembers(schema, subject, ps[1..]);
      EachCons(schema, subject, ps);
      assert Compiler.CompileAlone(schema, subject, ps).Ok? <==>
             Compiles(schema, subject, ps[0]) && Compiler.CompileAlone(schema, subject, ps[1..]).Ok?;
    }
  }

  predicate EachCompiles(schema: Schema, subject: Attributes, ps: seq<Predicate>) {
    forall p | p in ps :: Compiles(schema, subject, p)
  }

  lemma EachCons(schema: Schema, subject: Attributes, ps: seq<Predicate>)
    requires ps != []
    ensures EachCompiles(schema, subject, ps) <==>
        Compiles(schema, subject, ps[0]) && EachCompiles(schema, subject, ps[1..])
  {
    assert forall p :: p in ps <==> p == ps[0] || p in ps[1..];
  }

  lemma SameCompiles(schema: Schema, subject: Attributes, a: seq<PolicyScope>, b: seq<PolicyScope>)
    requires SameMembers(a, b)
    ensures Compiler.CompilePolicies(schema, subject, a).Ok? <==> Compiler.CompilePolicies(schema, subject, b).Ok?
  {
    SameConditions(a, b);
    AloneMembers(schema, subject, Compiler.Allows(a));
    AloneMembers(schema, subject, Compiler.Allows(b));
    AloneMembers(schema, subject, Compiler.Denies(a));
    AloneMembers(schema, subject, Compiler.Denies(b));
    SameEmpty(Compiler.Allows(a), Compiler.Allows(b));
  }

  lemma SameEmpty<T(!new)>(a: seq<T>, b: seq<T>)
    requires SameMembers(a, b)
    ensures a == [] <==> b == []
  {
    if a != [] { assert a[0] in b; }
    if b != [] { assert b[0] in a; }
  }

  lemma SameReadable(reserved: set<string>, schema: Schema, subject: Attributes, a: seq<PolicyScope>,
          b: seq<PolicyScope>)
    requires SameMembers(a, b)
    ensures ScopeReadable(reserved, schema, subject, a) <==> ScopeReadable(reserved, schema, subject, b)
  {
    SameConditions(a, b);
    SameEmpty(Compiler.Allows(a), Compiler.Allows(b));
    assert SameMembers(Compiler.Allows(a) + Compiler.Denies(a), Compiler.Allows(b) + Compiler.Denies(b));
  }

  lemma SameMatched(c: Evaluator.Context, a: seq<Predicate>, b: seq<Predicate>)
    requires SameMembers(a, b)
    ensures SomeMatched(c, a) <==> SomeMatched(c, b)
  {}

  /** Clauses of the same policies are parsed alike and are true of the same rows. */
  ghost predicate SelectAlike(reserved: set<string>, row: Sql.Row, a: Result<Compiler.SqlPredicate, Error>,
          b: Result<Compiler.SqlPredicate, Error>) {
    && (a.Ok? <==> b.Ok?)
    && (a.Ok? ==>
          var t, u := Sql.ParseWhere(reserved, a.value.clause), Sql.ParseWhere(reserved, b.value.clause);
          && (t.Some? <==> u.Some?)
          && (t.Some? ==> Sql.Holds(t.value, row, a.value.args) == Sql.Holds(u.value, row, b.value.args)))
  }

  lemma SelectionMeans(reserved: set<string>, c: Evaluator.Context, row: Sql.Row, ps: seq<PolicyScope>)
    requires Describes(c, row) && Compiler.CompilePolicies(c.schema, c.subject, ps).Ok?
    ensures var q := Compiler.CompilePolicies(c.schema, c.subject, ps).value;
            var tree := Sql.ParseWhere(reserved, q.clause);
            && (tree.Some? <==> ScopeReadable(reserved, c.schema, c.subject, ps))
            && (tree.Some? ==>
                  (Sql.Holds(tree.value, row, q.args)
                   <==> SomeMatched(c, Compiler.Allows(ps)) && !SomeMatched(c, Compiler.Denies(ps))))
  {
    ScopeReads(reserved, c, row, ps);
    EvaluateKept(c, ps);
    CompileCorrect(reserved, c, row, ps);
  }

  lemma SameSelection(reserved: set<string>, c: Evaluator.Context, row: Sql.Row, a: seq<PolicyScope>,
          b: seq<PolicyScope>)
    requires Describes(c, row) && SameMembers(a, b)
    ensures SelectAlike(reserved, row, Compiler.CompilePolicies(c.schema, c.subject, a),
                        Compiler.CompilePolicies(c.schema, c.subject, b))
  {
    SameCompiles(c.schema, c.subject, a, b);
    if Compiler.CompilePolicies(c.schema, c.subject, a).Ok? {
      SelectionMeans(reserved, c, row, a);
      SelectionMeans(reserved, c, row, b);
      SameReadable(reserved, c.schema, c.subject, a, b);
      SameConditions(a, b);
      SameMatched(c, Compiler.Allows(a), Compiler.Allows(b));
      SameMatched(c, Compiler.Denies(a), Compiler.Denies(b));
    }
  }

  // ---- Snapshots ------------------------------------------------------------

  lemma {:induction false} AddedMembers(s: Entries, p: CompiledPolicy, actions: seq<string>, k: Key, x: CompiledPolicy)
    ensures x in At(AddActions(s, p, actions), k) <==>
            x in At(s, k) || (x == p && p.policy.resource == k.0 && k.1 in actions)
    decreases |actions|
  {
    if actions == [] {
    } else {
      var first := (p.policy.resource, actions[0]);
      AddedMembers(s[first := At(s, first) + [p]], p, actions[1..], k, x);
    }
  }

  /** The policy contributes `x` under this resource and action. */
  predicate Contributes(g: Registry, q: Policy, k: Key, x: CompiledPolicy) {
    q.resource == k.0 && k.1 in q.actions && CompilePolicy(g, q) == Some(x)
  }

  lemma {:induction false} BuiltMembers(g: Registry, ps: seq<Policy>, s: Entries, k: Key, x: CompiledPolicy)
    requires Build(g, ps, s).Some?
    ensures x in At(Build(g, ps, s).value, k) <==> x in At(s, k) || SomeContributes(g, ps, k, x)
    decreases |ps|
  {
    if ps == [] {
    } else {
      var p := CompilePolicy(g, ps[0]).value;
      var next := AddActions(s, p, ps[0].actions);
      assert Build(g, ps, s) == Build(g, ps[1..], next);
      BuiltMembers(g, ps[1..], next, k, x);
      AddedMembers(s, p, ps[0].actions, k, x);
      CompiledFrom(g, ps[0]);
      SomeCons(g, ps, k, x);
    }
  }

  lemma CompiledFrom(g: Registry, p: Policy)
    ensures CompilePolicy(g, p).Some? ==> CompilePolicy(g, p).value.policy == p
  {}

  predicate SomeContributes(g: Registry, ps: seq<Policy>, k: Key, x: CompiledPolicy) {
    exists q | q in ps :: Contributes(g, q, k, x)
  }

  lemma SomeCons(g: Registry, ps: seq<Policy>, k: Key, x: CompiledPolicy)
    requires ps != []
    ensures SomeContributes(g, ps, k, x) <==> Contributes(g, ps[0], k, x) || SomeContributes(g, ps[1..], k, x)
  {
    assert forall q :: q in ps <==> q == ps[0] || q in ps[1..];
  }

  lemma {:induction false} ScopesMembers(ps: seq<CompiledPolicy>, subject: Subject, scope: PolicyScope)
    ensures scope in Scopes(ps, subject) <==> exists p | p in ps :: Applies(p.policy, subject) && ScopeOf(p) == scope
    decreases |ps|
  {
    if ps == [] {
    } else {
      ScopesMembers(ps[1..], subject, scope);
      assert forall p :: p in ps <==> p == ps[0] || p in ps[1..];
    }
  }

  lemma SameEntries(g: Registry, a: Snapshot, b: Snapshot, k: Key)
    requires Published(g, a) && Published(g, b) && Revision(a) == Revision(b)
    ensures SameMembers(At(a.entries, k), At(b.entries, k))
  {
    forall q
      ensures q in a.sources <==> q in b.sources
    {
      assert q in a.sources <==> q in Revision(a);
      assert q in b.sources <==> q in Revision(b);
    }
    forall x
      ensures x in At(a.entries, k) <==> x in At(b.entries, k)
    {
      BuiltMembers(g, a.sources, map[], k, x);
      BuiltMembers(g, b.sources, map[], k, x);
    }
  }

  lemma SameScopes(g: Registry, a: Snapshot, b: Snapshot, k: Key, subject: Subject)
    requires Published(g, a) && Published(g, b) && Revision(a) == Revision(b)
    ensures SameMembers(Scopes(At(a.entries, k), subject), Scopes(At(b.entries, k), subject))
  {
    SameEntries(g, a, b, k);
    forall scope
      ensures scope in Scopes(At(a.entries, k), subject) <==> scope in Scopes(At(b.entries, k), subject)
    {
      ScopesMembers(At(a.entries, k), subject, scope);
      ScopesMembers(At(b.entries, k), subject, scope);
    }
  }

  /**
   One revision, one set of permissions.  Two published snapshots of the same revision give
   every subject the same decisions on every row and transition, failures included, and
   clauses that parse alike and select the same rows.
   */
  lemma RevisionDecides(g: Registry, a: Snapshot, b: Snapshot, reserved: set<string>, resource: string,
          action: string, subject: Subject, attributes: Attributes, row: Sql.Row, current: Attributes,
          proposed: Attributes)
    requires Published(g, a) && Published(g, b) && Revision(a) == Revision(b) && resource in g.schemas
    requires Describes(Evaluator.Context(g.schemas[resource], attributes, current, proposed), row)
    ensures Alike(TransitionFor(g.schemas, Some(a), resource, action, subject, attributes, current, proposed).value,
                  TransitionFor(g.schemas, Some(b), resource, action, subject, attributes, current, proposed).value)
    ensures Alike(CurrentFor(g.schemas, Some(a), resource, action, subject, attributes, current).value,
                  CurrentFor(g.schemas, Some(b), resource, action, subject, attributes, current).value)
    ensures SelectAlike(reserved, row, SqlFor(g.schemas, Some(a), resource, action, subject, attributes).value,
                        SqlFor(g.schemas, Some(b), resource, action, subject, attributes).value)
  {
    var c := Evaluator.Context(g.schemas[resource], attributes, current, proposed);
    var x, y := Scopes(At(a.entries, (resource, action)), subject), Scopes(At(b.entries, (resource, action)), subject);
    SameScopes(g, a, b, (resource, action), subject);
    SameDecision(c, x, y, true);
    SameDecision(Evaluator.Context(g.schemas[resource], attributes, current, map[]), x, y, false);
    SameSelection(reserved, c, row, x, y);
  }
}
