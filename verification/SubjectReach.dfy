/**
 Whom a policy reaches, internal/resourceaction/subject.go: what each attribute of a
 subject decides, and which policies one more role brings or takes away.
 */
module SubjectReach {
  import opened Wrappers
  import opened PredicateIr
  import opened Engine
  import opened PolicyRevision

  const ANYBODY: SubjectMatcher := SubjectMatcher(None, [], [], [], [], [])

  /** Without conditions on the subject a policy reaches everybody, or everybody of its tenant. */
  lemma AnybodyReached(p: Policy, s: Subject)
    requires p.matcher == ANYBODY
    ensures Applies(p, s) <==> p.scope != TenantScope || p.tenantId == s.tenantId
  {}

  /** A policy that reaches a subject stops reaching it exactly by a value it does not name. */
  lemma AttributeChanged(p: Policy, s: Subject, id: string, kind: string, authenticated: bool, tenant: string)
    requires Applies(p, s)
    ensures Applies(p, s.(id := id)) <==> p.matcher.ids == [] || id in p.matcher.ids
    ensures Applies(p, s.(kind := kind)) <==> p.matcher.types == [] || kind in p.matcher.types
    ensures Applies(p, s.(authenticated := authenticated)) <==> p.matcher.authenticated != Some(!authenticated)
    ensures Applies(p, s.(tenantId := tenant)) <==> p.scope != TenantScope || p.tenantId == tenant
  {}

  /** The policy with its demands for roles dropped; the roles it shuns stay. */
  function Undemanding(p: Policy): Policy { p.(matcher := p.matcher.(anyOf := [], allOf := [])) }

  predicate HasAny(roles: seq<string>, wanted: seq<string>) { exists r | r in wanted :: r in roles }

  /** The role was all that was missing: of the roles demanded together, or of the alternatives. */
  predicate Completes(m: SubjectMatcher, roles: seq<string>, role: string) {
    && (forall r | r in m.allOf :: r in roles || r == role)
    && (m.anyOf == [] || HasAny(roles, m.anyOf) || role in m.anyOf)
    && (role in m.allOf || (m.anyOf != [] && !HasAny(roles, m.anyOf)))
  }

  /**
   One more role takes away exactly the policies that shun it, and brings exactly those that
   do not, reach the subject apart from their demands, and missed nothing but this role.
   */
  lemma RoleAdded(p: Policy, s: Subject, role: string)
    requires role !in s.roles
    ensures var t := s.(roles := s.roles + [role]);
            && (Applies(p, s) && !Applies(p, t) <==> Applies(p, s) && role in p.matcher.noneOf)
            && (!Applies(p, s) && Applies(p, t) <==>
                  && role !in p.matcher.noneOf && Applies(Undemanding(p), s)
                  && Completes(p.matcher, s.roles, role))
  {
    var t := s.(roles := s.roles + [role]);
    assert forall r :: r in t.roles <==> r in s.roles || r == role;
    assert HasAny(t.roles, p.matcher.anyOf) <==> HasAny(s.roles, p.matcher.anyOf) || role in p.matcher.anyOf;
  }

  /** Somebody the policy asks for: with all roles it demands and none it shuns. */
  function SomebodyFor(p: Policy): Subject {
    var m := p.matcher;
    Subject(if m.ids == [] then "" else m.ids[0], if m.types == [] then "" else m.types[0],
            m.authenticated.Some? && m.authenticated.value, p.tenantId, m.anyOf + m.allOf)
  }

  /** No policy that compiles is void: each reaches somebody. */
  lemma PolicyReaches(g: Registry, p: Policy)
    requires CompilePolicy(g, p).Some?
    ensures Applies(p, SomebodyFor(p))
  {
    if p.matcher.anyOf != [] { assert p.matcher.anyOf[0] in p.matcher.anyOf; }
    assert ValidMatcher(g, p.matcher);
  }

  predicate Mentions(m: SubjectMatcher, role: string) { role in m.anyOf || role in m.allOf || role in m.noneOf }

  lemma {:induction false} UnmentionedScopes(ps: seq<CompiledPolicy>, s: Subject, role: string)
    requires forall p | p in ps :: !Mentions(p.policy.matcher, role)
    ensures Scopes(ps, s.(roles := s.roles + [role])) == Scopes(ps, s)
    decreases |ps|
  {
    if ps != [] {
      UnmentionedScopes(ps[1..], s, role);
      var t := s.(roles := s.roles + [role]);
      assert ps[0] in ps;
      assert forall r | r != role :: r in t.roles <==> r in s.roles;
      assert HasAny(t.roles, ps[0].policy.matcher.anyOf) == HasAny(s.roles, ps[0].policy.matcher.anyOf);
    }
  }

  lemma EntrySource(g: Registry, snapshot: Snapshot, k: Key, p: CompiledPolicy)
    requires Published(g, snapshot) && p in At(snapshot.entries, k)
    ensures p.policy in snapshot.sources
  {
    BuiltMembers(g, snapshot.sources, map[], k, p);
    var q :| q in snapshot.sources && Contributes(g, q, k, p);
    CompiledFrom(g, q);
  }

  /** A role that no published policy mentions changes no answer. */
  lemma UnmentionedRole(g: Registry, snapshot: Snapshot, resource: string, action: string, s: Subject, role: string,
          attributes: Attributes, current: Attributes, proposed: Attributes)
    requires Published(g, snapshot) && forall q | q in snapshot.sources :: !Mentions(q.matcher, role)
    ensures var t, view := s.(roles := s.roles + [role]), Some(snapshot);
            && SqlFor(g.schemas, view, resource, action, t, attributes)
               == SqlFor(g.schemas, view, resource, action, s, attributes)
            && CurrentFor(g.schemas, view, resource, action, t, attributes, current)
               == CurrentFor(g.schemas, view, resource, action, s, attributes, current)
            && TransitionFor(g.schemas, view, resource, action, t, attributes, current, proposed)
               == TransitionFor(g.schemas, view, resource, action, s, attributes, current, proposed)
  {
    var ps := At(snapshot.entries, (resource, action));
    forall p | p in ps
      ensures !Mentions(p.policy.matcher, role)
    {
      EntrySource(g, snapshot, (resource, action), p);
    }
    UnmentionedScopes(ps, s, role);
  }
}
