/**
 The published policy snapshot and its two readers, internal/datapermission/engine.go
 and policy.go.  CEL parsing is a parameter: from trimmed text to a checked tree.
 */
module Engine {
  import opened Wrappers
  import Sql = SqlFragment
  import opened PredicateIr
  import Evaluator
  import Compiler
  import opened ConditionParser
  import ScopeCorrectness
  import opened Transition

  type CelParser = string -> Option<Cel>

  const MAX_CONDITION_LENGTH: nat := 4096

  /** Who a policy is for, internal/resourceaction/subject.go. */
  datatype SubjectMatcher = SubjectMatcher(authenticated: Option<bool>, types: seq<string>, ids: seq<string>,
                                           anyOf: seq<string>, allOf: seq<string>, noneOf: seq<string>)

  datatype Subject = Subject(id: string, kind: string, authenticated: bool, tenantId: string, roles: seq<string>)

  predicate MatchSubject(m: SubjectMatcher, s: Subject) {
    && (m.authenticated.Some? ==> m.authenticated.value == s.authenticated)
    && (m.types != [] ==> s.kind in m.types)
    && (m.ids != [] ==> s.id in m.ids)
    && (m.anyOf != [] ==> exists r | r in m.anyOf :: r in s.roles)
    && (forall r | r in m.allOf :: r in s.roles)
    && (forall r | r in m.noneOf :: r !in s.roles)
  }

  datatype ScopeKind = GlobalScope | TenantScope | UnknownScope

  /** A source policy after trimming; an absent list of the matcher is the empty one. */
  datatype Policy = Policy(apiVersion: string, kind: string, code: string, name: string, scope: ScopeKind,
                           tenantId: string, matcher: SubjectMatcher, resource: string, actions: seq<string>,
                           effect: Effect, condition: string, proposedCondition: string)

  datatype CompiledPolicy = CompiledPolicy(policy: Policy, current: Predicate, proposed: Predicate)

  type Schemas = map<string, Schema>

  /**
   What policies are checked against: the parser, the schemas, the patterns for policy codes
   and matcher values, and for each registered resource and action whether the resource
   belongs to tenants.
   */
  datatype Registry = Registry(cel: CelParser, schemas: Schemas, codeOk: string -> bool, valueOk: string -> bool,
                               ofTenants: map<(string, string), bool>)

  const POLICY_API_VERSION: string := "data-permission.platform/v1"
  const POLICY_KIND: string := "DataPermissionPolicy"
  const MAX_ACTIONS: nat := 64
  const MAX_MATCHER_VALUES: nat := 128

  predicate IsSpace(c: char) { c == ' ' || c == '\t' || c == '\n' || c == '\r' }

  function TrimLeft(s: string): string {
    if s != "" && IsSpace(s[0]) then TrimLeft(s[1..]) else s
  }

  function TrimRight(s: string): string {
    if s != "" && IsSpace(s[|s| - 1]) then TrimRight(s[..|s| - 1]) else s
  }

  function ParseCondition(cel: CelParser, schema: Schema, source: string,
          target: Target): Result<Predicate, ConditionError>
  {
    var text := TrimRight(TrimLeft(source));
    if text == "" then Ok(Empty)
    else if |text| > MAX_CONDITION_LENGTH || cel(text).None? then Err(InvalidCondition)
    else Convert(schema, cel(text).value, target, 1, 0).result
  }

  predicate AcceptsProposed(action: string) { action == "create" || action == "add" || action == "update" }

  predicate NoRepeats(values: seq<string>) {
    forall i, j | 0 <= i < j < |values| :: values[i] != values[j]
  }

  predicate ValidValues(g: Registry, values: seq<string>) {
    |values| <= MAX_MATCHER_VALUES && NoRepeats(values) && forall v | v in values :: g.valueOk(v)
  }

  /** ValidateSubjectMatcher. */
  predicate ValidMatcher(g: Registry, m: SubjectMatcher) {
    && ValidValues(g, m.types) && ValidValues(g, m.ids)
    && ValidValues(g, m.anyOf) && ValidValues(g, m.allOf) && ValidValues(g, m.noneOf)
    && forall r | r in m.noneOf :: r !in m.anyOf && r !in m.allOf
  }

  predicate ValidScope(p: Policy) {
    match p.scope
    case GlobalScope => p.tenantId == ""
    case TenantScope => TrimRight(TrimLeft(p.tenantId)) != ""
    case UnknownScope => false
  }

  predicate ValidAction(g: Registry, p: Policy, action: string) {
    && (p.resource, action) in g.ofTenants && (p.scope == TenantScope ==> g.ofTenants[(p.resource, action)])
    && (p.proposedCondition != "" ==> AcceptsProposed(action))
  }

  /** All that is asked of a policy besides its conditions. */
  predicate ValidPolicy(g: Registry, p: Policy) {
    && p.apiVersion == POLICY_API_VERSION && p.kind == POLICY_KIND
    && g.codeOk(p.code) && TrimRight(TrimLeft(p.name)) != ""
    && ValidScope(p) && !p.effect.UnknownEffect? && ValidMatcher(g, p.matcher)
    && p.resource in g.schemas
    && 0 < |p.actions| <= MAX_ACTIONS && NoRepeats(p.actions) && forall a | a in p.actions :: ValidAction(g, p, a)
  }

  function CompilePolicy(g: Registry, p: Policy): Option<CompiledPolicy> {
    if !ValidPolicy(g, p) then None
    else
      var current := ParseCondition(g.cel, g.schemas[p.resource], p.condition, Current);
      var proposed := ParseCondition(g.cel, g.schemas[p.resource], p.proposedCondition, Proposed);
      if current.Err? || proposed.Err? then None
      else Some(CompiledPolicy(p, current.value, proposed.value))
  }

  type Key = (string, string)

  /** Compiled policies by resource and action. */
  type Entries = map<Key, seq<CompiledPolicy>>

  function At(s: Entries, k: Key): seq<CompiledPolicy> { if k in s then s[k] else [] }

  /** Every entry is the compilation of a policy for that resource. */
  ghost predicate Compiled(g: Registry, s: Entries) {
    forall k, i | k in s && 0 <= i < |s[k]| ::
        CompilePolicy(g, s[k][i].policy) == Some(s[k][i]) && s[k][i].policy.resource == k.0
  }

  function AddActions(s: Entries, p: CompiledPolicy, actions: seq<string>): Entries
    decreases |actions|
  {
    if actions == [] then s
    else
      var k := (p.policy.resource, actions[0]);
      AddActions(s[k := At(s, k) + [p]], p, actions[1..])
  }

  function Build(g: Registry, policies: seq<Policy>, s: Entries): Option<Entries>
    decreases |policies|
  {
    if policies == [] then Some(s)
    else
      var p := CompilePolicy(g, policies[0]);
      if p.None? then None else Build(g, policies[1..], AddActions(s, p.value, policies[0].actions))
  }

  lemma {:induction false} AddActionsCompiled(g: Registry, s: Entries, p: CompiledPolicy,
          actions: seq<string>)
    requires Compiled(g, s) && CompilePolicy(g, p.policy) == Some(p)
    ensures Compiled(g, AddActions(s, p, actions))
    decreases |actions|
  {
    if actions == [] {
    } else {
      var k := (p.policy.resource, actions[0]);
      AddActionsCompiled(g, s[k := At(s, k) + [p]], p, actions[1..]);
    }
  }

  lemma {:induction false} BuildCompiled(g: Registry, policies: seq<Policy>, s: Entries)
    requires Compiled(g, s)
    ensures Build(g, policies, s).Some? ==> Compiled(g, Build(g, policies, s).value)
    decreases |policies|
  {
    if policies == [] {
    } else {
      var p := CompilePolicy(g, policies[0]);
      if p.Some? {
        AddActionsCompiled(g, s, p.value, policies[0].actions);
        BuildCompiled(g, policies[1..], AddActions(s, p.value, policies[0].actions));
      }
    }
  }

  /** A published snapshot with the policies it was built from. */
  datatype Snapshot = Snapshot(entries: Entries, sources: seq<Policy>)

  /** The digest of the sorted policy documents, taken to be injective. */
  function Revision(s: Snapshot): multiset<Policy> { multiset(s.sources) }

  ghost predicate Published(g: Registry, s: Snapshot) {
    Build(g, s.sources, map[]) == Some(s.entries)
  }

  lemma PublishedCompiled(g: Registry, s: Snapshot)
    requires Published(g, s)
    ensures Compiled(g, s.entries)
  {
    BuildCompiled(g, s.sources, map[]);
  }

  predicate Applies(p: Policy, s: Subject) {
    (p.scope == TenantScope ==> p.tenantId == s.tenantId) && MatchSubject(p.matcher, s)
  }

  function ScopeOf(p: CompiledPolicy): PolicyScope {
    PolicyScope(p.policy.effect, p.current, p.proposed, p.policy.proposedCondition != "")
  }

  function Scopes(ps: seq<CompiledPolicy>, s: Subject): seq<PolicyScope> {
    if ps == [] then []
    else (if Applies(ps[0].policy, s) then [ScopeOf(ps[0])] else []) + Scopes(ps[1..], s)
  }

  method SelectScopes(policies: seq<CompiledPolicy>, subject: Subject) returns (matched: seq<PolicyScope>)
    ensures matched == Scopes(policies, subject)
  {
    matched := [];
    assert policies[0..] == policies;
    for i := 0 to |policies|
      invariant matched + Scopes(policies[i..], subject) == Scopes(policies, subject)
    {
      ghost var rest := policies[i..];
      assert rest[0] == policies[i] && rest[1..] == policies[i + 1..];
      var applies := Applies(policies[i].policy, subject);
      assert Scopes(rest, subject) == (if applies then [ScopeOf(rest[0])] else []) + Scopes(rest[1..], subject);
      if !applies { continue; }
      matched := matched + [ScopeOf(policies[i])];
    }
  }

  /** A request's pinned snapshot and the engine that pinned it. */
  datatype Pinned = Pinned(engine: DataEngine, snapshot: Snapshot)

  class DataEngine {
    const registry: Registry
    var snapshot: Option<Snapshot>

    ghost predicate Valid()
      reads this
    {
      snapshot.Some? ==> Published(registry, snapshot.value)
    }

    constructor (registry: Registry)
      ensures this.registry == registry && snapshot == Some(Snapshot(map[], [])) && Valid()
    {
      this.registry := registry;
      snapshot := Some(Snapshot(map[], []));
    }

    /** A complete new snapshot, or the old one when any policy fails to compile. */
    method Replace(policies: seq<Policy>) returns (ok: bool)
      requires Valid()
      modifies this
      ensures Valid()
      ensures ok == Build(registry, policies, map[]).Some?
      ensures snapshot == if ok then Some(Snapshot(Build(registry, policies, map[]).value, policies)) else old(snapshot)
    {
      var next: Entries := map[];
      for i := 0 to |policies|
        invariant Build(registry, policies, map[]) == Build(registry, policies[i..], next)
        invariant snapshot == old(snapshot)
      {
        assert policies[i..][0] == policies[i] && policies[i..][1..] == policies[i + 1..];
        var compiled := CompilePolicy(registry, policies[i]);
        if compiled.None? { return false; }
        var actions := policies[i].actions;
        ghost var start := next;
        for j := 0 to |actions|
          invariant AddActions(start, compiled.value, actions) == AddActions(next, compiled.value, actions[j..])
          invariant snapshot == old(snapshot)
        {
          assert actions[j..][0] == actions[j] && actions[j..][1..] == actions[j + 1..];
          var key := (policies[i].resource, actions[j]);
          next := next[key := At(next, key) + [compiled.value]];
        }
      }
      snapshot := Some(Snapshot(next, policies));
      ok := true;
    }

    method Invalidate()
      modifies this
      ensures Valid() && snapshot == None
    {
      snapshot := None;
    }

    /**
      What a request evaluates against: a snapshot pinned here if it has one, else the current one; another
      engine's pin is refused.
      */
    function View(pinned: Option<Pinned>): Option<Snapshot>
      reads this
    {
      match pinned
      case None => snapshot
      case Some(pin) => if pin.engine == this then Some(pin.snapshot) else None
    }

    /** The request keeps this snapshot, whatever is published or withdrawn meanwhile, and learns its revision. */
    method Pin() returns (pinned: Option<Pinned>, revision: multiset<Policy>)
      requires Valid()
      ensures pinned.Some? <==> snapshot.Some?
      ensures pinned.Some? ==>
          pinned.value == Pinned(this, snapshot.value) && Published(registry, pinned.value.snapshot)
      ensures pinned.Some? ==> revision == Revision(snapshot.value)
    {
      if snapshot.None? { return None, multiset{}; }
      pinned, revision := Some(Pinned(this, snapshot.value)), Revision(snapshot.value);
    }

    method MatchedScopes(pinned: Option<Pinned>, resource: string, action: string,
            subject: Subject) returns (matched: Option<seq<PolicyScope>>)
      ensures View(pinned).None? ==> matched == None
      ensures View(pinned).Some? ==>
          matched == Some(Scopes(At(View(pinned).value.entries, (resource, action)), subject))
    {
      var current := View(pinned);
      if current.None? { return None; }
      var scopes := SelectScopes(At(current.value.entries, (resource, action)), subject);
      matched := Some(scopes);
    }

    /** None stands for an unavailable snapshot or an unregistered resource. */
    method CompileSQL(pinned: Option<Pinned>, resource: string, action: string, subject: Subject,
            attributes: Attributes)
      returns (r: Option<Result<Compiler.SqlPredicate, Error>>)
      ensures r == SqlFor(registry.schemas, View(pinned), resource, action, subject, attributes)
    {
      if resource !in registry.schemas { return None; }
      var matched := MatchedScopes(pinned, resource, action, subject);
      if matched.None? { return None; }
      var compiled := Compiler.CompileScopes(registry.schemas[resource], attributes, matched.value);
      r := Some(compiled);
    }

    /** The proposed parts of policies are left aside: a row capability has no target state. */
    method EvaluateCurrent(pinned: Option<Pinned>, resource: string, action: string, subject: Subject,
            attributes: Attributes, current: Attributes) returns (r: Option<Result<bool, Error>>)
      ensures r == CurrentFor(registry.schemas, View(pinned), resource, action, subject, attributes, current)
    {
      if resource !in registry.schemas { return None; }
      var matched := MatchedScopes(pinned, resource, action, subject);
      if matched.None? { return None; }
      var c := Evaluator.Context(registry.schemas[resource], attributes, current, map[]);
      var decided := Evaluator.EvaluatePolicies(c, matched.value, false);
      r := Some(decided);
    }

    method EvaluateTransition(pinned: Option<Pinned>, resource: string, action: string, subject: Subject,
            attributes: Attributes, current: Attributes, proposed: Attributes) returns (r: Option<Result<bool, Error>>)
      ensures r
          == TransitionFor(registry.schemas, View(pinned), resource, action, subject, attributes, current, proposed)
    {
      if resource !in registry.schemas { return None; }
      var matched := MatchedScopes(pinned, resource, action, subject);
      if matched.None? { return None; }
      var decided :=
          Evaluator.EvaluatePolicies(Evaluator.Context(registry.schemas[resource], attributes, current, proposed),
              matched.value, true);
      r := Some(decided);
    }
  }

  /** What a request decides about a stored row as it is. */
  function CurrentFor(schemas: Schemas, view: Option<Snapshot>, resource: string, action: string, subject: Subject,
          attributes: Attributes, current: Attributes): Option<Result<bool, Error>>
  {
    if resource !in schemas || view.None? then None
    else
      var c := Evaluator.Context(schemas[resource], attributes, current, map[]);
      Some(Evaluator.Decide(c, Scopes(At(view.value.entries, (resource, action)), subject), false))
  }

  function SqlFor(schemas: Schemas, view: Option<Snapshot>, resource: string, action: string, subject: Subject,
          attributes: Attributes): Option<Result<Compiler.SqlPredicate, Error>>
  {
    if resource !in schemas || view.None? then None
    else Some(Compiler.CompilePolicies(schemas[resource], attributes,
        Scopes(At(view.value.entries, (resource, action)), subject)))
  }

  function TransitionFor(schemas: Schemas, view: Option<Snapshot>, resource: string, action: string, subject: Subject,
          attributes: Attributes, current: Attributes, proposed: Attributes): Option<Result<bool, Error>>
  {
    if resource !in schemas || view.None? then None
    else
      var c := Evaluator.Context(schemas[resource], attributes, current, proposed);
      Some(Evaluator.Decide(c, Scopes(At(view.value.entries, (resource, action)), subject), true))
  }

  // ---- The two readers of one snapshot --------------------------------------

  lemma {:induction false} WellFormedCurrentOnly(p: Predicate, schema: Schema)
    requires WellFormed(p, schema, Current)
    ensures CurrentOnly(p)
    decreases p, 1
  {
    match p {
      case And(cs) => AllWellFormedCurrentOnly(cs, schema);
      case Or(cs) => AllWellFormedCurrentOnly(cs, schema);
      case Not(cs) => AllWellFormedCurrentOnly(cs, schema);
      case _ =>
    }
  }

  lemma {:induction false} AllWellFormedCurrentOnly(ps: seq<Predicate>, schema: Schema)
    requires AllWellFormed(ps, schema, Current)
    ensures AllCurrentOnly(ps)
    decreases ps, 0
  {
    if ps == [] {
    } else {
      WellFormedCurrentOnly(ps[0], schema);
      AllWellFormedCurrentOnly(ps[1..], schema);
    }
  }

  /** Compiling a policy ties an absent proposed condition to an empty predicate. */
  lemma CompiledIsLinked(g: Registry, p: Policy)
    requires CompilePolicy(g, p).Some?
    ensures Linked(ScopeOf(CompilePolicy(g, p).value))
    ensures !p.effect.UnknownEffect?
  {
    var text := TrimRight(TrimLeft(p.condition));
    if text != "" {
      ConvertExact(g.schemas[p.resource], g.cel(text).value, Current, 1, 0);
      WellFormedCurrentOnly(CompilePolicy(g, p).value.current, g.schemas[p.resource]);
    }
  }

  lemma {:induction false} ScopesLinked(g: Registry, ps: seq<CompiledPolicy>, s: Subject)
    requires forall i | 0 <= i < |ps| :: CompilePolicy(g, ps[i].policy) == Some(ps[i])
    ensures AllLinked(Scopes(ps, s)) && Compiler.KnownEffects(Scopes(ps, s))
    decreases |ps|
  {
    if ps == [] {
    } else {
      CompiledIsLinked(g, ps[0].policy);
      ScopesLinked(g, ps[1..], s);
    }
  }

  /**
   For one published snapshot: whenever a transition from a stored row is accepted,
   compilation succeeds and its clause, if the database can name its columns,
   selects that row.  If no matched policy has a proposed condition, compilation
   fails exactly when the decision does and selection is the decision.
   */
  lemma TransitionWithinSelection(g: Registry, snapshot: Snapshot, reserved: set<string>, resource: string,
          action: string, subject: Subject, attributes: Attributes, row: Sql.Row, current: Attributes,
          proposed: Attributes)
    requires Published(g, snapshot) && resource in g.schemas
    requires ScopeCorrectness.Describes(Evaluator.Context(g.schemas[resource], attributes, current, proposed), row)
    ensures var q := SqlFor(g.schemas, Some(snapshot), resource, action, subject, attributes).value;
            var d := TransitionFor(g.schemas, Some(snapshot), resource, action, subject, attributes, current,
                proposed).value;
            && (d == Ok(true) ==>
                 q.Ok? && var tree := Sql.ParseWhere(reserved, q.value.clause); tree.Some? ==>
                     Sql.Holds(tree.value, row, q.value.args))
            && (NoneProposed(Scopes(At(snapshot.entries, (resource, action)), subject)) ==>
                 && (q.Ok? <==> d.Ok?)
                 && (q.Ok? ==> var tree := Sql.ParseWhere(reserved, q.value.clause);
                               tree.Some? ==> Ok(Sql.Holds(tree.value, row, q.value.args)) == d))
  {
    var c := Evaluator.Context(g.schemas[resource], attributes, current, proposed);
    var scopes := Scopes(At(snapshot.entries, (resource, action)), subject);
    PublishedCompiled(g, snapshot);
    ScopesLinked(g, At(snapshot.entries, (resource, action)), subject);
    if Evaluator.Decide(c, scopes, true) == Ok(true) {
      TransitionIsSelected(reserved, c, row, scopes);
    }
    if NoneProposed(scopes) {
      TransitionIsSelection(reserved, c, row, scopes);
    }
  }

  /**
   For one published snapshot: a row capability is decided exactly when the scope compiles
   and the conditions of the matched denies with a proposed part evaluate too; it is only
   granted for rows the scope selects; and it is withheld from a selected row exactly when
   one of those denies matches the row as it is.
   */
  lemma CurrentWithinSelection(g: Registry, snapshot: Snapshot, reserved: set<string>, resource: string,
          action: string, subject: Subject, attributes: Attributes, row: Sql.Row, current: Attributes)
    requires Published(g, snapshot) && resource in g.schemas
    requires ScopeCorrectness.Describes(Evaluator.Context(g.schemas[resource], attributes, current, map[]), row)
    ensures var q := SqlFor(g.schemas, Some(snapshot), resource, action, subject, attributes).value;
            var d := CurrentFor(g.schemas, Some(snapshot), resource, action, subject, attributes, current).value;
            var c := Evaluator.Context(g.schemas[resource], attributes, current, map[]);
            var denies := ProposedDenies(Scopes(At(snapshot.entries, (resource, action)), subject));
            && (d.Ok? <==> q.Ok? && ScopeCorrectness.AllEvaluate(c, denies))
            && (d.Ok? ==>
                  var tree := Sql.ParseWhere(reserved, q.value.clause);
                  tree.Some? ==>
                    var selected := Sql.Holds(tree.value, row, q.value.args);
                    && (d.value ==> selected)
                    && (d.value == selected <==> !selected || !ScopeCorrectness.SomeMatched(c, denies)))
  {
    PublishedCompiled(g, snapshot);
    ScopesLinked(g, At(snapshot.entries, (resource, action)), subject);
    CurrentAgainstSelection(reserved, Evaluator.Context(g.schemas[resource], attributes, current, map[]), row,
                            Scopes(At(snapshot.entries, (resource, action)), subject));
  }
}
