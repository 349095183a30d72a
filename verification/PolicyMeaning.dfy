/**
 What published policies mean as they are written: which rows a scope selects and which
 rows and transitions are allowed, told from the policies' own subjects and conditions.
 */
module PolicyMeaning {
  import opened Wrappers
  import Sql = SqlFragment
  import opened PredicateIr
  import Evaluator
  import Compiler
  import opened ConditionParser
  import opened CelMeaning
  import opened ScopeCorrectness
  import opened Transition
  import opened Engine
  import opened PolicyRevision

  /** The checked tree of a condition as written; an empty one has none. */
  function TreeOf(cel: CelParser, source: string): Option<Cel> {
    var text := TrimRight(TrimLeft(source));
    if text == "" then None else cel(text)
  }

  /** Every name the condition mentions is settled. */
  predicate Answers(cel: CelParser, o: Objects, source: string) {
    TreeOf(cel, source).Some? ==> Settled(o, TreeOf(cel, source).value)
  }

  /** The condition is true of the objects; an empty one is true of all. */
  predicate TrueOf(cel: CelParser, o: Objects, source: string) {
    TreeOf(cel, source).Some? ==> Truth(o, TreeOf(cel, source).value) == Some(true)
  }

  /** A request: what is done to what, by whom. */
  datatype Request = Request(resource: string, action: string, subject: Subject)

  predicate Concerns(q: Policy, r: Request) {
    q.resource == r.resource && r.action in q.actions && Applies(q, r.subject)
  }

  /** The policy's condition is true of the stored row and, if a proposed object counts, its other one of that. */
  predicate Fits(cel: CelParser, o: Objects, q: Policy, includeProposed: bool) {
    TrueOf(cel, o, q.condition) && (includeProposed ==> TrueOf(cel, o, q.proposedCondition))
  }

  predicate SomeFits(cel: CelParser, sources: seq<Policy>, r: Request, o: Objects, effect: Effect,
          includeProposed: bool) {
    exists q | q in sources :: Concerns(q, r) && q.effect == effect && Fits(cel, o, q, includeProposed)
  }

  /** Some allow fits and no deny does. */
  predicate Permitted(cel: CelParser, sources: seq<Policy>, r: Request, o: Objects, includeProposed: bool) {
    && SomeFits(cel, sources, r, o, Allow, includeProposed)
    && !SomeFits(cel, sources, r, o, Deny, includeProposed)
  }

  /** The rows a request may select: some allow's condition is true, and no unconditional deny's is. */
  predicate Selectable(cel: CelParser, sources: seq<Policy>, r: Request, o: Objects) {
    && SomeFits(cel, sources, r, o, Allow, false)
    && !SomeDenies(cel, sources, r, o)
  }

  /** Some deny without a proposed condition is true of the row. */
  predicate SomeDenies(cel: CelParser, sources: seq<Policy>, r: Request, o: Objects) {
    exists q | q in sources ::
      Concerns(q, r) && q.effect == Deny && q.proposedCondition == "" && TrueOf(cel, o, q.condition)
  }

  /**
   What deciding under one policy needs: the stored row settles its condition and, where
   that is true and a proposed object counts, that object settles the other.
   */
  predicate Decidable(cel: CelParser, o: Objects, q: Policy, includeProposed: bool) {
    && Answers(cel, o, q.condition)
    && (includeProposed && TrueOf(cel, o, q.condition) ==> Answers(cel, o, q.proposedCondition))
  }

  predicate AllDecidable(cel: CelParser, sources: seq<Policy>, r: Request, o: Objects, includeProposed: bool) {
    forall q | q in sources && Concerns(q, r) :: Decidable(cel, o, q, includeProposed)
  }

  // ---- One condition --------------------------------------------------------

  /** A parsed condition evaluates exactly when it is settled, and then to its truth. */
  lemma ParsedMeans(cel: CelParser, c: Evaluator.Context, source: string, target: Target)
    requires ParseCondition(cel, c.schema, source, target).Ok?
    ensures var v := Evaluator.Eval(c, ParseCondition(cel, c.schema, source, target).value, 1, 0).result;
            && (v.Ok? <==> Answers(cel, ObjectsOf(c), source))
            && (v.Ok? ==> v.value == TrueOf(cel, ObjectsOf(c), source))
  {
    if TreeOf(cel, source).Some? {
      ConditionMeans(c, TreeOf(cel, source).value, target);
    }
  }

  /** A policy of the snapshot, compiled. */
  predicate IsCompiled(g: Registry, c: Evaluator.Context, q: Policy) {
    q.resource in g.schemas && c.schema == g.schemas[q.resource] && CompilePolicy(g, q).Some?
  }

  function CompiledScope(g: Registry, q: Policy): PolicyScope
    requires CompilePolicy(g, q).Some?
  {
    ScopeOf(CompilePolicy(g, q).value)
  }

  lemma CurrentMeans(g: Registry, c: Evaluator.Context, q: Policy)
    requires IsCompiled(g, c, q)
    ensures var v := Evaluator.Eval(c, CompiledScope(g, q).current, 1, 0).result;
            && (v.Ok? <==> Answers(g.cel, ObjectsOf(c), q.condition))
            && (v.Ok? ==> v.value == TrueOf(g.cel, ObjectsOf(c), q.condition))
    ensures Matched(c, CompiledScope(g, q).current) <==>
            Answers(g.cel, ObjectsOf(c), q.condition) && TrueOf(g.cel, ObjectsOf(c), q.condition)
  {
    ParsedMeans(g.cel, c, q.condition, Current);
  }

  lemma ProposedMeans(g: Registry, c: Evaluator.Context, q: Policy)
    requires IsCompiled(g, c, q)
    ensures var v := Evaluator.Eval(c, CompiledScope(g, q).proposed, 1, 0).result;
            && (v.Ok? <==> Answers(g.cel, ObjectsOf(c), q.proposedCondition))
            && (v.Ok? ==> v.value == TrueOf(g.cel, ObjectsOf(c), q.proposedCondition))
  {
    ParsedMeans(g.cel, c, q.proposedCondition, Proposed);
  }

  lemma MatchMeans(g: Registry, c: Evaluator.Context, q: Policy, includeProposed: bool)
    requires IsCompiled(g, c, q)
    ensures var o, s := ObjectsOf(c), CompiledScope(g, q);
            && (Usable(c, s, includeProposed) <==> Decidable(g.cel, o, q, includeProposed))
            && (Usable(c, s, includeProposed) ==>
                  (Hits(c, s, includeProposed) <==> Fits(g.cel, o, q, includeProposed)))
            && s.effect == q.effect && !s.effect.UnknownEffect?
  {
    CurrentMeans(g, c, q);
    ProposedMeans(g, c, q);
  }

  // ---- The policies that concern a request ----------------------------------

  function RequestScopes(snapshot: Snapshot, r: Request): seq<PolicyScope> {
    Scopes(At(snapshot.entries, (r.resource, r.action)), r.subject)
  }

  /** The scopes of a request are those of the sources that concern it. */
  lemma ScopesAre(g: Registry, snapshot: Snapshot, r: Request, s: PolicyScope)
    requires Published(g, snapshot)
    ensures s in RequestScopes(snapshot, r) <==>
            exists q | q in snapshot.sources ::
              Concerns(q, r) && CompilePolicy(g, q).Some? && CompiledScope(g, q) == s
  {
    var k := (r.resource, r.action);
    ScopesMembers(At(snapshot.entries, k), r.subject, s);
    if s in RequestScopes(snapshot, r) {
      var p :| p in At(snapshot.entries, k) && Applies(p.policy, r.subject) && ScopeOf(p) == s;
      BuiltMembers(g, snapshot.sources, map[], k, p);
      var q :| q in snapshot.sources && Contributes(g, q, k, p);
      CompiledFrom(g, q);
    }
    if q :| q in snapshot.sources && Concerns(q, r) && CompilePolicy(g, q).Some? && CompiledScope(g, q) == s {
      BuiltMembers(g, snapshot.sources, map[], k, CompilePolicy(g, q).value);
      CompiledFrom(g, q);
      assert Contributes(g, q, k, CompilePolicy(g, q).value);
    }
  }

  lemma {:induction false} SourcesCompile(g: Registry, ps: seq<Policy>, s: Entries, q: Policy)
    requires Build(g, ps, s).Some? && q in ps
    ensures CompilePolicy(g, q).Some?
    decreases |ps|
  {
    if q != ps[0] {
      SourcesCompile(g, ps[1..], AddActions(s, CompilePolicy(g, ps[0]).value, ps[0].actions), q);
    }
  }

  /** The context of a request. */
  predicate For(g: Registry, r: Request, c: Evaluator.Context) {
    r.resource in g.schemas && c.schema == g.schemas[r.resource]
  }

  lemma ConcernedScope(g: Registry, snapshot: Snapshot, r: Request, c: Evaluator.Context, q: Policy)
    requires Published(g, snapshot) && For(g, r, c) && q in snapshot.sources && Concerns(q, r)
    ensures IsCompiled(g, c, q) && CompiledScope(g, q) in RequestScopes(snapshot, r)
  {
    SourcesCompile(g, snapshot.sources, map[], q);
    ScopesAre(g, snapshot, r, CompiledScope(g, q));
  }

  lemma ScopeSource(g: Registry, snapshot: Snapshot, r: Request, c: Evaluator.Context, s: PolicyScope)
    returns (q: Policy)
    requires Published(g, snapshot) && For(g, r, c) && s in RequestScopes(snapshot, r)
    ensures q in snapshot.sources && Concerns(q, r) && IsCompiled(g, c, q) && CompiledScope(g, q) == s
  {
    ScopesAre(g, snapshot, r, s);
    q :| q in snapshot.sources && Concerns(q, r) && CompilePolicy(g, q).Some? && CompiledScope(g, q) == s;
  }

  lemma AllUsableMeans(g: Registry, snapshot: Snapshot, r: Request, c: Evaluator.Context, includeProposed: bool)
    requires Published(g, snapshot) && For(g, r, c)
    ensures AllUsable(c, RequestScopes(snapshot, r), includeProposed) <==>
            AllDecidable(g.cel, snapshot.sources, r, ObjectsOf(c), includeProposed)
  {
    if AllUsable(c, RequestScopes(snapshot, r), includeProposed) {
      forall q | q in snapshot.sources && Concerns(q, r)
        ensures Decidable(g.cel, ObjectsOf(c), q, includeProposed)
      {
        ConcernedScope(g, snapshot, r, c, q);
        MatchMeans(g, c, q, includeProposed);
      }
    }
    if AllDecidable(g.cel, snapshot.sources, r, ObjectsOf(c), includeProposed) {
      forall s | s in RequestScopes(snapshot, r)
        ensures Usable(c, s, includeProposed)
      {
        var q := ScopeSource(g, snapshot, r, c, s);
        MatchMeans(g, c, q, includeProposed);
      }
    }
  }

  /** A scope of this effect hits exactly when a policy of this effect fits. */
  predicate SomeHits(c: Evaluator.Context, ps: seq<PolicyScope>, effect: Effect, includeProposed: bool) {
    exists s | s in ps :: s.effect == effect && Hits(c, s, includeProposed)
  }

  lemma SomeHitsMeans(g: Registry, snapshot: Snapshot, r: Request, c: Evaluator.Context, effect: Effect,
          includeProposed: bool)
    requires Published(g, snapshot) && For(g, r, c) && AllUsable(c, RequestScopes(snapshot, r), includeProposed)
    ensures SomeHits(c, RequestScopes(snapshot, r), effect, includeProposed) <==>
            SomeFits(g.cel, snapshot.sources, r, ObjectsOf(c), effect, includeProposed)
  {
    if SomeHits(c, RequestScopes(snapshot, r), effect, includeProposed) {
      var s :| s in RequestScopes(snapshot, r) && s.effect == effect && Hits(c, s, includeProposed);
      var q := ScopeSource(g, snapshot, r, c, s);
      MatchMeans(g, c, q, includeProposed);
    }
    if SomeFits(g.cel, snapshot.sources, r, ObjectsOf(c), effect, includeProposed) {
      var q :| q in snapshot.sources && Concerns(q, r) && q.effect == effect
               && Fits(g.cel, ObjectsOf(c), q, includeProposed);
      ConcernedScope(g, snapshot, r, c, q);
      MatchMeans(g, c, q, includeProposed);
    }
  }

  /** A decision is made exactly when all concerned policies are decidable, and then it is what they say. */
  lemma DecisionMeans(g: Registry, snapshot: Snapshot, r: Request, c: Evaluator.Context, includeProposed: bool)
    requires Published(g, snapshot) && For(g, r, c)
    ensures var d := Evaluator.Decide(c, RequestScopes(snapshot, r), includeProposed);
            && (d.Ok? <==> AllDecidable(g.cel, snapshot.sources, r, ObjectsOf(c), includeProposed))
            && (d.Ok? ==> d.value == Permitted(g.cel, snapshot.sources, r, ObjectsOf(c), includeProposed))
  {
    var ps := RequestScopes(snapshot, r);
    EvaluateMembers(c, ps, includeProposed);
    AllUsableMeans(g, snapshot, r, c, includeProposed);
    if AllUsable(c, ps, includeProposed) {
      SomeHitsMeans(g, snapshot, r, c, Allow, includeProposed);
      SomeHitsMeans(g, snapshot, r, c, Deny, includeProposed);
      assert SomeAllow(c, ps, includeProposed) == SomeHits(c, ps, Allow, includeProposed);
      assert SomeDeny(c, ps, includeProposed) == SomeHits(c, ps, Deny, includeProposed);
    }
  }

  /**
   Transitions and row capabilities mean what the published policies say: decided exactly
   when the objects settle the conditions of all policies that concern the request, and then
   permitted exactly when both conditions of some allow are true and both of no deny.
   */
  lemma DecisionsSayWhatPoliciesSay(g: Registry, snapshot: Snapshot, r: Request, attributes: Attributes,
          current: Attributes, proposed: Attributes)
    requires Published(g, snapshot) && r.resource in g.schemas
    ensures var d := TransitionFor(g.schemas, Some(snapshot), r.resource, r.action, r.subject, attributes, current,
                                   proposed).value;
            var o := Objects(current, proposed, attributes);
            && (d.Ok? <==> AllDecidable(g.cel, snapshot.sources, r, o, true))
            && (d.Ok? ==> d.value == Permitted(g.cel, snapshot.sources, r, o, true))
    ensures var d := CurrentFor(g.schemas, Some(snapshot), r.resource, r.action, r.subject, attributes, current).value;
            var o := Objects(current, map[], attributes);
            && (d.Ok? <==> AllDecidable(g.cel, snapshot.sources, r, o, false))
            && (d.Ok? ==> d.value == Permitted(g.cel, snapshot.sources, r, o, false))
  {
    DecisionMeans(g, snapshot, r, Evaluator.Context(g.schemas[r.resource], attributes, current, proposed), true);
    DecisionMeans(g, snapshot, r, Evaluator.Context(g.schemas[r.resource], attributes, current, map[]), false);
  }

  // ---- Selection ------------------------------------------------------------

  /** What selection asks: allows, and denies without a proposed condition. */
  predicate Selecting(q: Policy) { q.effect == Allow || q.proposedCondition == "" }

  lemma SelectionEvaluates(g: Registry, snapshot: Snapshot, r: Request, c: Evaluator.Context)
    requires Published(g, snapshot) && For(g, r, c)
    ensures var ps := RequestScopes(snapshot, r);
            AllEvaluate(c, Compiler.Allows(ps) + Compiler.Denies(ps)) <==>
            forall q | q in snapshot.sources && Concerns(q, r) && Selecting(q) ::
              Answers(g.cel, ObjectsOf(c), q.condition)
  {
    var ps := RequestScopes(snapshot, r);
    if AllEvaluate(c, Compiler.Allows(ps) + Compiler.Denies(ps)) {
      forall q | q in snapshot.sources && Concerns(q, r) && Selecting(q)
        ensures Answers(g.cel, ObjectsOf(c), q.condition)
      {
        ConcernedScope(g, snapshot, r, c, q);
        CurrentMeans(g, c, q);
        SelectedCondition(ps, CompiledScope(g, q));
      }
    }
    if forall q | q in snapshot.sources && Concerns(q, r) && Selecting(q) :: Answers(g.cel, ObjectsOf(c), q.condition) {
      forall p | p in Compiler.Allows(ps) + Compiler.Denies(ps)
        ensures Evaluator.Eval(c, p, 1, 0).result.Ok?
      {
        AllowsMembers(ps, p);
        DeniesMembers(ps, p);
        var s :| s in ps && s.current == p && (s.effect.Allow? || !s.hasProposed);
        var q := ScopeSource(g, snapshot, r, c, s);
        CurrentMeans(g, c, q);
      }
    }
  }

  lemma SelectedCondition(ps: seq<PolicyScope>, s: PolicyScope)
    requires s in ps
    ensures s.effect.Allow? ==> s.current in Compiler.Allows(ps)
    ensures s.effect.Deny? && !s.hasProposed ==> s.current in Compiler.Denies(ps)
  {
    AllowsMembers(ps, s.current);
    DeniesMembers(ps, s.current);
  }

  lemma AllowsMean(g: Registry, snapshot: Snapshot, r: Request, c: Evaluator.Context)
    requires Published(g, snapshot) && For(g, r, c)
    requires AllEvaluate(c, Compiler.Allows(RequestScopes(snapshot, r)))
    ensures SomeMatched(c, Compiler.Allows(RequestScopes(snapshot, r))) <==>
            SomeFits(g.cel, snapshot.sources, r, ObjectsOf(c), Allow, false)
  {
    var ps := RequestScopes(snapshot, r);
    if SomeMatched(c, Compiler.Allows(ps)) {
      var p :| p in Compiler.Allows(ps) && Matched(c, p);
      AllowsMembers(ps, p);
      var s :| s in ps && s.effect.Allow? && s.current == p;
      var q := ScopeSource(g, snapshot, r, c, s);
      CurrentMeans(g, c, q);
      assert Fits(g.cel, ObjectsOf(c), q, false);
    }
    if SomeFits(g.cel, snapshot.sources, r, ObjectsOf(c), Allow, false) {
      var q :| q in snapshot.sources && Concerns(q, r) && q.effect == Allow && Fits(g.cel, ObjectsOf(c), q, false);
      ConcernedScope(g, snapshot, r, c, q);
      CurrentMeans(g, c, q);
      SelectedCondition(ps, CompiledScope(g, q));
    }
  }

  lemma DeniesMean(g: Registry, snapshot: Snapshot, r: Request, c: Evaluator.Context)
    requires Published(g, snapshot) && For(g, r, c)
    requires AllEvaluate(c, Compiler.Denies(RequestScopes(snapshot, r)))
    ensures SomeMatched(c, Compiler.Denies(RequestScopes(snapshot, r))) <==>
            SomeDenies(g.cel, snapshot.sources, r, ObjectsOf(c))
  {
    var ps := RequestScopes(snapshot, r);
    if SomeMatched(c, Compiler.Denies(ps)) {
      var p :| p in Compiler.Denies(ps) && Matched(c, p);
      DeniesMembers(ps, p);
      var s :| s in ps && s.effect.Deny? && !s.hasProposed && s.current == p;
      var q := ScopeSource(g, snapshot, r, c, s);
      CurrentMeans(g, c, q);
    }
    if SomeDenies(g.cel, snapshot.sources, r, ObjectsOf(c)) {
      var q :| q in snapshot.sources && Concerns(q, r) && q.effect == Deny && q.proposedCondition == ""
               && TrueOf(g.cel, ObjectsOf(c), q.condition);
      ConcernedScope(g, snapshot, r, c, q);
      CurrentMeans(g, c, q);
      SelectedCondition(ps, CompiledScope(g, q));
    }
  }

  /** With every selecting condition evaluated on a described row, the scope compiles. */
  lemma SelectionCompiles(g: Registry, snapshot: Snapshot, r: Request, c: Evaluator.Context, row: Sql.Row)
    requires Published(g, snapshot) && For(g, r, c) && Describes(c, row)
    ensures var ps := RequestScopes(snapshot, r);
            Compiler.CompilePolicies(c.schema, c.subject, ps).Ok? <==>
            AllEvaluate(c, Compiler.Allows(ps)) && AllEvaluate(c, Compiler.Denies(ps))
  {
    var ps := RequestScopes(snapshot, r);
    PublishedCompiled(g, snapshot);
    ScopesLinked(g, At(snapshot.entries, (r.resource, r.action)), r.subject);
    ScopesCurrentOnly(ps);
    if Compiler.CompilePolicies(c.schema, c.subject, ps).Ok? {
      ScopeReads({}, c, row, ps);
      SplitOne(c, Compiler.Allows(ps), Compiler.Denies(ps));
    }
    if AllEvaluate(c, Compiler.Allows(ps)) && AllEvaluate(c, Compiler.Denies(ps)) {
      AloneCompiles(c, row, Compiler.Allows(ps));
      AloneCompiles(c, row, Compiler.Denies(ps));
    }
  }

  /**
   The SQL scope means what the published policies say.  It compiles exactly when the row and
   the subject settle the conditions it is made of; and where its columns can be named it is
   true of exactly the rows for which some allow's condition is true and no deny's that has
   no proposed condition.
   */
  lemma SelectionSaysWhatPoliciesSay(g: Registry, snapshot: Snapshot, reserved: set<string>, r: Request,
          attributes: Attributes, row: Sql.Row, current: Attributes)
    requires Published(g, snapshot) && r.resource in g.schemas
    requires Describes(Evaluator.Context(g.schemas[r.resource], attributes, current, map[]), row)
    ensures var q := SqlFor(g.schemas, Some(snapshot), r.resource, r.action, r.subject, attributes).value;
            var o := Objects(current, map[], attributes);
            && (q.Ok? <==> forall p | p in snapshot.sources && Concerns(p, r) && Selecting(p) ::
                             Answers(g.cel, o, p.condition))
            && (q.Ok? ==>
                  var tree := Sql.ParseWhere(reserved, q.value.clause);
                  tree.Some? ==>
                    Sql.Holds(tree.value, row, q.value.args) == Selectable(g.cel, snapshot.sources, r, o))
  {
    var c := Evaluator.Context(g.schemas[r.resource], attributes, current, map[]);
    var ps := RequestScopes(snapshot, r);
    SelectionCompiles(g, snapshot, r, c, row);
    SplitOne(c, Compiler.Allows(ps), Compiler.Denies(ps));
    SelectionEvaluates(g, snapshot, r, c);
    if Compiler.CompilePolicies(c.schema, c.subject, ps).Ok? {
      SelectionMeans(reserved, c, row, ps);
      AllowsMean(g, snapshot, r, c);
      DeniesMean(g, snapshot, r, c);
    }
  }

  /** Only policies for creating, adding and updating may have a proposed condition. */
  lemma OtherActionsNoneProposed(g: Registry, snapshot: Snapshot, r: Request)
    requires Published(g, snapshot) && r.action != "create" && r.action != "add" && r.action != "update"
    ensures NoneProposed(RequestScopes(snapshot, r))
  {
    var ps := RequestScopes(snapshot, r);
    forall i | 0 <= i < |ps|
      ensures !ps[i].hasProposed
    {
      ScopesAre(g, snapshot, r, ps[i]);
      var q :| q in snapshot.sources && Concerns(q, r) && CompilePolicy(g, q).Some? && CompiledScope(g, q) == ps[i];
      assert ValidAction(g, q, r.action);
    }
  }

  /** Both fail, or the clause, where its columns can be named, is true of the row exactly when it is allowed. */
  ghost predicate Agreed(reserved: set<string>, row: Sql.Row, q: Result<Compiler.SqlPredicate, Error>,
          d: Result<bool, Error>) {
    && (q.Ok? <==> d.Ok?)
    && (q.Ok? ==>
          var tree := Sql.ParseWhere(reserved, q.value.clause);
          tree.Some? ==> Ok(Sql.Holds(tree.value, row, q.value.args)) == d)
  }

  lemma NoneProposedAgree(reserved: set<string>, c: Evaluator.Context, row: Sql.Row, ps: seq<PolicyScope>)
    requires Describes(c, row) && AllLinked(ps) && NoneProposed(ps)
    ensures Agreed(reserved, row, Compiler.CompilePolicies(c.schema, c.subject, ps), Evaluator.Decide(c, ps, false))
  {
    NoneProposedSame(c, ps);
    TransitionIsSelection(reserved, c, row, ps);
  }

  /**
   For every other action, such as reading or deleting, the two readers of a snapshot agree:
   a row capability is decided exactly when the scope compiles, and granted for exactly the
   rows the scope selects.
   */
  lemma OtherActionsAgree(g: Registry, snapshot: Snapshot, reserved: set<string>, r: Request, attributes: Attributes,
          row: Sql.Row, current: Attributes)
    requires Published(g, snapshot) && r.resource in g.schemas
    requires r.action != "create" && r.action != "add" && r.action != "update"
    requires Describes(Evaluator.Context(g.schemas[r.resource], attributes, current, map[]), row)
    ensures Agreed(reserved, row, SqlFor(g.schemas, Some(snapshot), r.resource, r.action, r.subject, attributes).value,
                   CurrentFor(g.schemas, Some(snapshot), r.resource, r.action, r.subject, attributes, current).value)
  {
    var c := Evaluator.Context(g.schemas[r.resource], attributes, current, map[]);
    PublishedCompiled(g, snapshot);
    ScopesLinked(g, At(snapshot.entries, (r.resource, r.action)), r.subject);
    OtherActionsNoneProposed(g, snapshot, r);
    NoneProposedAgree(reserved, c, row, RequestScopes(snapshot, r));
  }

  /**
   Tenants are kept apart: a published policy that concerns a request is a global one, or one
   of the subject's own tenant for a resource that belongs to tenants.
   */
  lemma TenantsApart(g: Registry, snapshot: Snapshot, r: Request, q: Policy)
    requires Published(g, snapshot) && q in snapshot.sources && Concerns(q, r)
    ensures (r.resource, r.action) in g.ofTenants
    ensures match q.scope
            case GlobalScope => q.tenantId == ""
            case TenantScope =>
              q.tenantId == r.subject.tenantId && q.tenantId != "" && g.ofTenants[(r.resource, r.action)]
            case UnknownScope => false
  {
    SourcesCompile(g, snapshot.sources, map[], q);
    assert ValidAction(g, q, r.action);
  }
}
