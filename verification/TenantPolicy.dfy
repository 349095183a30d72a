/**
 Tenant delegation as a state machine: the platform's permission ceiling, roles, member
 roles and administrators of internal/authorization/tenant_service.go.  Whatever a set of
 ordinary members does, and however the ceiling moves meanwhile, none of them can ever use
 a permission that none of them could use at the start.
 */
module TenantPolicy {
  import opened Wrappers
  import opened LinkTable

  const MAX_EFFECTIVE: nat := 10000

  datatype RoleStatus = Active | Disabled

  datatype Label = Label(name: string, description: string)

  datatype Role = Role(code: string, about: Label, status: RoleStatus, version: nat)

  datatype Member = Member(active: bool, version: nat)

  /** Permissions that count when held, and those that may be granted; fixed along a run. */
  datatype Catalogue = Catalogue(usable: set<string>, grantable: set<string>)

  /** One tenant; deleted roles are gone. */
  datatype Tenant = Tenant(open: bool, version: nat, ceiling: set<string>,
                           roles: map<string, Role>, permissions: map<string, set<string>>,
                           members: map<string, Member>, memberRoles: map<string, set<string>>, admins: set<string>)

  predicate Shape(s: Tenant) {
    s.permissions.Keys == s.roles.Keys && s.memberRoles.Keys == s.members.Keys
  }

  predicate CanAct(s: Tenant, m: string) {
    s.open && m in s.members && s.members[m].active
  }

  /** What a role gives to its members. */
  function Grants(s: Tenant, r: string): set<string> {
    if r in s.roles && s.roles[r].status == Active && r in s.permissions then s.permissions[r] else {}
  }

  function RolesOf(s: Tenant, m: string): set<string> {
    if m in s.memberRoles then s.memberRoles[m] else {}
  }

  /** effectivePermissionIDs of an active member of an open tenant. */
  function Effective(c: Catalogue, s: Tenant, m: string): set<string> {
    if m in s.admins then s.ceiling * c.usable
    else set p | p in s.ceiling && p in c.usable && exists r :: r in RolesOf(s, m) && p in Grants(s, r)
  }

  /** ensureAssignable. */
  predicate Assignable(c: Catalogue, s: Tenant, actor: string, wanted: set<string>) {
    && wanted <= c.grantable && CanAct(s, actor)
    && |Effective(c, s, actor)| <= MAX_EFFECTIVE && wanted <= Effective(c, s, actor)
  }

  function PermissionsOf(s: Tenant, r: string): set<string> {
    if r in s.permissions then s.permissions[r] else {}
  }

  /** ensureRoleAssignable. */
  predicate RoleAssignable(c: Catalogue, s: Tenant, actor: string, r: string) {
    r in s.roles && |PermissionsOf(s, r)| <= MAX_LINKS && Assignable(c, s, actor, PermissionsOf(s, r))
  }

  function AllPermissions(s: Tenant, roles: set<string>): set<string> {
    set r, p | r in roles && p in PermissionsOf(s, r) :: p
  }

  /** ensureRolesAssignable. */
  predicate RolesAssignable(c: Catalogue, s: Tenant, actor: string, roles: set<string>) {
    && (forall r | r in roles :: r in s.roles && s.roles[r].status == Active)
    && |AllPermissions(s, roles)| <= MAX_LINKS && Assignable(c, s, actor, AllPermissions(s, roles))
  }

  /** replaceLinks refuses more than 1000 links on either side. */
  predicate Linkable(current: set<string>, wanted: set<string>) {
    |current| <= MAX_LINKS && |wanted| <= MAX_LINKS
  }

  datatype Action =
    | SetCeiling(version: nat, wanted: set<string>)
    | CreateRole(actor: string, role: string, code: string, about: Label, wanted: set<string>)
    | SetRolePermissions(actor: string, role: string, version: nat, wanted: set<string>)
    | SetMemberRoles(actor: string, member: string, version: nat, wanted: set<string>)
    | UpdateRole(actor: string, role: string, version: nat, about: Label, status: RoleStatus)
    | DeleteRole(actor: string, role: string, version: nat)
    | SetAdministrator(setter: Option<string>, member: string, version: nat, enabled: bool)

  /** The unique index on codes: no role that is still there has this one. */
  predicate CodeTaken(roles: map<string, Role>, code: string) {
    exists r | r in roles :: roles[r].code == code
  }

  function Touched(r: Role): Role { r.(version := r.version + 1) }

  function Advanced(m: Member): Member { m.(version := m.version + 1) }

  predicate Allowed(c: Catalogue, s: Tenant, a: Action) {
    match a
    case SetCeiling(version, wanted) =>
      s.open && wanted <= c.grantable && s.version == version && Linkable(s.ceiling, wanted)
    case CreateRole(actor, role, code, about, wanted) =>
      Assignable(c, s, actor, wanted) && role !in s.roles && !CodeTaken(s.roles, code) && Linkable({}, wanted)
    case SetRolePermissions(actor, role, version, wanted) =>
      && Assignable(c, s, actor, wanted) && role in s.roles && s.roles[role].version == version
      && Linkable(PermissionsOf(s, role), wanted)
    case SetMemberRoles(actor, member, version, wanted) =>
      && member in s.members && s.members[member].active && RolesAssignable(c, s, actor, wanted)
      && s.members[member].version == version && Linkable(RolesOf(s, member), wanted)
    case UpdateRole(actor, role, version, about, status) =>
      RoleAssignable(c, s, actor, role) && s.roles[role].version == version
    case DeleteRole(actor, role, version) =>
      RoleAssignable(c, s, actor, role) && s.roles[role].version == version
    case SetAdministrator(setter, member, version, enabled) =>
      && s.open && (setter.Some? ==> setter.value in s.admins && CanAct(s, setter.value))
      && member in s.members && s.members[member].active && s.members[member].version == version
      && (!enabled ==> member in s.admins && |ActiveAdmins(s)| > 1)
  }

  function ActiveAdmins(s: Tenant): set<string> {
    set m | m in s.admins && m in s.members && s.members[m].active
  }

  /** pruneRolePermissions: what leaves the ceiling leaves the roles, and those roles advance their version. */
  function Pruned(permissions: map<string, set<string>>, wanted: set<string>): map<string, set<string>> {
    map r | r in permissions :: permissions[r] * wanted
  }

  function PrunedRoles(s: Tenant, wanted: set<string>): map<string, Role> {
    map r | r in s.roles :: if PermissionsOf(s, r) <= wanted then s.roles[r] else Touched(s.roles[r])
  }

  /** Everyone who had the role advances the version. */
  function MembersWithout(s: Tenant, role: string): map<string, Member> {
    map m | m in s.members :: if role in RolesOf(s, m) then Advanced(s.members[m]) else s.members[m]
  }

  function RolesWithout(memberRoles: map<string, set<string>>, role: string): map<string, set<string>> {
    map m | m in memberRoles :: memberRoles[m] - {role}
  }

  function After(s: Tenant, a: Action): Tenant {
    match a
    case SetCeiling(version, wanted) =>
      s.(version := s.version + 1, ceiling := wanted, roles := PrunedRoles(s, wanted),
          permissions := Pruned(s.permissions, wanted))
    case CreateRole(actor, role, code, about, wanted) =>
      s.(roles := s.roles[role := Role(code, about, Active, 1)], permissions := s.permissions[role := wanted])
    case SetRolePermissions(actor, role, version, wanted) =>
      if role !in s.roles then s
      else s.(roles := s.roles[role := Touched(s.roles[role])], permissions := s.permissions[role := wanted])
    case SetMemberRoles(actor, member, version, wanted) =>
      if member !in s.members then s
      else s.(members := s.members[member := Advanced(s.members[member])],
          memberRoles := s.memberRoles[member := wanted])
    case UpdateRole(actor, role, version, about, status) =>
      if role !in s.roles then s
      else s.(roles := s.roles[role := Touched(s.roles[role]).(about := about, status := status)])
    case DeleteRole(actor, role, version) =>
      s.(roles := s.roles - {role}, permissions := s.permissions - {role},
         members := MembersWithout(s, role), memberRoles := RolesWithout(s.memberRoles, role))
    case SetAdministrator(setter, member, version, enabled) =>
      if member !in s.members then s
      else s.(members := s.members[member := Advanced(s.members[member])],
              admins := if enabled then s.admins + {member} else s.admins - {member})
  }

  /** One committed or refused call. */
  function Apply(c: Catalogue, s: Tenant, a: Action): Tenant {
    if Allowed(c, s, a) then After(s, a) else s
  }

  // ---- What every step keeps ------------------------------------------------

  /** Different roles have different codes. */
  predicate DifferentCodes(roles: map<string, Role>) {
    forall a, b | a in roles && b in roles && a != b :: roles[a].code != roles[b].code
  }

  /** No action gives two roles one code. */
  lemma ApplyKeepsCodes(c: Catalogue, s: Tenant, a: Action)
    requires DifferentCodes(s.roles)
    ensures DifferentCodes(Apply(c, s, a).roles)
  {}

  /** Roles hold nothing beyond the ceiling, and members only roles that exist. */
  ghost predicate WithinCeiling(s: Tenant) {
    && Shape(s)
    && (forall r | r in s.permissions :: s.permissions[r] <= s.ceiling)
    && (forall m | m in s.memberRoles :: s.memberRoles[m] <= s.roles.Keys)
  }

  lemma EffectiveWithinCeiling(c: Catalogue, s: Tenant, m: string)
    ensures Effective(c, s, m) <= s.ceiling
  {}

  /** Every action by anyone keeps role permissions inside the ceiling. */
  lemma ApplyKeepsCeiling(c: Catalogue, s: Tenant, a: Action)
    requires WithinCeiling(s)
    ensures WithinCeiling(Apply(c, s, a))
  {
    if Allowed(c, s, a) {
      match a
      case SetCeiling(_, _) =>
      case CreateRole(actor, _, _, _, _) => EffectiveWithinCeiling(c, s, actor);
      case SetRolePermissions(actor, _, _, _) => EffectiveWithinCeiling(c, s, actor);
      case SetMemberRoles(_, _, _, _) =>
      case UpdateRole(_, _, _, _, _) =>
      case DeleteRole(_, _, _) =>
      case SetAdministrator(_, _, _, _) =>
    }
  }

  // ---- No coalition escalation ----------------------------------------------

  /** What the coalition holds together. */
  function Held(c: Catalogue, s: Tenant, coalition: set<string>): set<string> {
    set m, p | m in coalition && p in Effective(c, s, m) :: p
  }

  /** The platform moving the ceiling, or a coalition member doing anything. */
  predicate ByCoalition(a: Action, coalition: set<string>) {
    match a
    case SetCeiling(_, _) => true
    case CreateRole(actor, _, _, _, _) => actor in coalition
    case SetRolePermissions(actor, _, _, _) => actor in coalition
    case SetMemberRoles(actor, _, _, _) => actor in coalition
    case UpdateRole(actor, _, _, _, _) => actor in coalition
    case DeleteRole(actor, _, _) => actor in coalition
    case SetAdministrator(setter, _, _, _) => setter.Some? && setter.value in coalition
  }

  /** The roles of coalition members grant nothing usable beyond `limit`. */
  ghost predicate Bounded(c: Catalogue, s: Tenant, coalition: set<string>, limit: set<string>) {
    && coalition !! s.admins
    && forall m, r {:trigger r in RolesOf(s, m)} | m in coalition && r in RolesOf(s, m) ::
       Grants(s, r) * c.usable <= limit
  }

  /** With role permissions inside the ceiling, a bound on grants is a bound on what is held. */
  lemma BoundedHeld(c: Catalogue, s: Tenant, coalition: set<string>, limit: set<string>)
    requires WithinCeiling(s) && coalition !! s.admins
    ensures Bounded(c, s, coalition, limit) <==> Held(c, s, coalition) <= limit
  {
    if Bounded(c, s, coalition, limit) {
      forall m, p | m in coalition && p in Effective(c, s, m)
        ensures p in limit
      {
        var r :| r in RolesOf(s, m) && p in Grants(s, r);
        assert p in Grants(s, r) * c.usable;
      }
    }
    if Held(c, s, coalition) <= limit {
      forall m, r, p | m in coalition && r in RolesOf(s, m) && p in Grants(s, r) * c.usable
        ensures p in limit
      {
        assert p in s.permissions[r] && p in s.ceiling;
        assert p in Effective(c, s, m);
        assert p in Held(c, s, coalition);
      }
    }
  }

  /** What a coalition member may assign is within the bound. */
  lemma AssignableBounded(c: Catalogue, s: Tenant, coalition: set<string>, limit: set<string>, actor: string,
          wanted: set<string>)
    requires WithinCeiling(s) && Bounded(c, s, coalition, limit) && actor in coalition
        && Assignable(c, s, actor, wanted)
    ensures wanted <= limit
  {
    BoundedHeld(c, s, coalition, limit);
    forall p | p in wanted
      ensures p in limit
    {
      assert p in Effective(c, s, actor);
      assert p in Held(c, s, coalition);
    }
  }

  lemma CeilingKeepsBound(c: Catalogue, s: Tenant, coalition: set<string>, limit: set<string>, version: nat,
          wanted: set<string>)
    requires Shape(s) && Bounded(c, s, coalition, limit)
    ensures Bounded(c, After(s, SetCeiling(version, wanted)), coalition, limit)
  {
    var t := After(s, SetCeiling(version, wanted));
    forall m, r | m in coalition && r in RolesOf(t, m)
      ensures Grants(t, r) * c.usable <= limit
    {
      assert r in RolesOf(s, m);
      assert Grants(t, r) <= Grants(s, r);
    }
  }

  lemma RoleKeepsBound(c: Catalogue, s: Tenant, t: Tenant, coalition: set<string>, limit: set<string>, role: string)
    requires Bounded(c, s, coalition, limit) && t.admins == s.admins
    requires forall m | m in coalition :: RolesOf(t, m) == RolesOf(s, m)
    requires forall r | r != role :: Grants(t, r) == Grants(s, r)
    requires Grants(t, role) * c.usable <= limit
    ensures Bounded(c, t, coalition, limit)
  {
    forall m, r | m in coalition && r in RolesOf(t, m)
      ensures Grants(t, r) * c.usable <= limit
    {
      assert r in RolesOf(s, m);
    }
  }

  lemma GrantsAmongAll(s: Tenant, roles: set<string>, r: string)
    requires r in roles
    ensures Grants(s, r) <= AllPermissions(s, roles)
  {
    forall p | p in Grants(s, r)
      ensures p in AllPermissions(s, roles)
    {
      assert r in roles && p in PermissionsOf(s, r);
    }
  }

  lemma MemberKeepsBound(c: Catalogue, s: Tenant, coalition: set<string>, limit: set<string>, actor: string,
          member: string, version: nat, wanted: set<string>)
    requires WithinCeiling(s) && Bounded(c, s, coalition, limit) && actor in coalition
    requires Allowed(c, s, SetMemberRoles(actor, member, version, wanted))
    ensures Bounded(c, After(s, SetMemberRoles(actor, member, version, wanted)), coalition, limit)
  {
    var t := After(s, SetMemberRoles(actor, member, version, wanted));
    AssignableBounded(c, s, coalition, limit, actor, AllPermissions(s, wanted));
    forall m, r | m in coalition && r in RolesOf(t, m)
      ensures Grants(t, r) * c.usable <= limit
    {
      assert Grants(t, r) == Grants(s, r);
      if m != member {
        assert r in RolesOf(s, m);
      } else {
        GrantsAmongAll(s, wanted, r);
      }
    }
  }

  lemma DeleteKeepsBound(c: Catalogue, s: Tenant, coalition: set<string>, limit: set<string>, actor: string,
          role: string, version: nat)
    requires Shape(s) && Bounded(c, s, coalition, limit)
    ensures Bounded(c, After(s, DeleteRole(actor, role, version)), coalition, limit)
  {
    var t := After(s, DeleteRole(actor, role, version));
    forall m, r | m in coalition && r in RolesOf(t, m)
      ensures Grants(t, r) * c.usable <= limit
    {
      assert r in RolesOf(s, m);
      assert Grants(t, r) <= Grants(s, r);
    }
  }

  /** No step of the coalition or of the platform's ceiling raises the bound. */
  lemma StepKeepsBound(c: Catalogue, s: Tenant, coalition: set<string>, limit: set<string>, a: Action)
    requires WithinCeiling(s) && Bounded(c, s, coalition, limit) && ByCoalition(a, coalition)
    ensures Bounded(c, Apply(c, s, a), coalition, limit)
  {
    if Allowed(c, s, a) {
      var t := After(s, a);
      match a
      case SetCeiling(version, wanted) => CeilingKeepsBound(c, s, coalition, limit, version, wanted);
      case CreateRole(actor, role, code, about, wanted) =>
        AssignableBounded(c, s, coalition, limit, actor, wanted);
        RoleKeepsBound(c, s, t, coalition, limit, role);
      case SetRolePermissions(actor, role, version, wanted) =>
        AssignableBounded(c, s, coalition, limit, actor, wanted);
        RoleKeepsBound(c, s, t, coalition, limit, role);
      case SetMemberRoles(actor, member, version, wanted) =>
        MemberKeepsBound(c, s, coalition, limit, actor, member, version, wanted);
      case UpdateRole(actor, role, version, about, status) =>
        AssignableBounded(c, s, coalition, limit, actor, PermissionsOf(s, role));
        RoleKeepsBound(c, s, t, coalition, limit, role);
      case DeleteRole(actor, role, version) => DeleteKeepsBound(c, s, coalition, limit, actor, role, version);
      case SetAdministrator(setter, member, version, enabled) => assert false;
    }
  }

  function RunFrom(c: Catalogue, s: Tenant, actions: seq<Action>): Tenant
    decreases |actions|
  {
    if actions == [] then s else RunFrom(c, Apply(c, s, actions[0]), actions[1..])
  }

  /** Along every run of anyone's actions role permissions stay inside the ceiling and codes different. */
  lemma {:induction false} RunKeepsSound(c: Catalogue, s: Tenant, actions: seq<Action>)
    requires WithinCeiling(s)
    ensures WithinCeiling(RunFrom(c, s, actions))
    ensures DifferentCodes(s.roles) ==> DifferentCodes(RunFrom(c, s, actions).roles)
    decreases |actions|
  {
    if actions == [] {
    } else {
      ApplyKeepsCeiling(c, s, actions[0]);
      if DifferentCodes(s.roles) { ApplyKeepsCodes(c, s, actions[0]); }
      RunKeepsSound(c, Apply(c, s, actions[0]), actions[1..]);
    }
  }

  /** The coalition members that can act at all: active members of an open tenant. */
  function Acting(s: Tenant, coalition: set<string>): set<string> {
    set m | m in coalition && CanAct(s, m)
  }

  /** None of these actions lets anyone act who could not, or stops anyone who could. */
  lemma ActingStays(c: Catalogue, s: Tenant, a: Action, m: string)
    requires Shape(s)
    ensures CanAct(Apply(c, s, a), m) == CanAct(s, m)
  {}

  /** Whoever cannot act changes nothing, so a step keeps the bound on those who can. */
  lemma ActingKeepsBound(c: Catalogue, s: Tenant, coalition: set<string>, limit: set<string>, a: Action)
    requires WithinCeiling(s) && coalition !! s.admins && ByCoalition(a, coalition)
    requires Bounded(c, s, Acting(s, coalition), limit)
    ensures coalition !! Apply(c, s, a).admins
    ensures Bounded(c, Apply(c, s, a), Acting(Apply(c, s, a), coalition), limit)
  {
    forall m
      ensures CanAct(Apply(c, s, a), m) == CanAct(s, m)
    {
      ActingStays(c, s, a, m);
    }
    assert Acting(Apply(c, s, a), coalition) == Acting(s, coalition);
    if Allowed(c, s, a) { StepKeepsBound(c, s, Acting(s, coalition), limit, a); }
  }

  lemma {:induction false} RunKeepsBound(c: Catalogue, s: Tenant, coalition: set<string>, limit: set<string>,
          actions: seq<Action>)
    requires WithinCeiling(s) && coalition !! s.admins && Bounded(c, s, Acting(s, coalition), limit)
    requires forall i | 0 <= i < |actions| :: ByCoalition(actions[i], coalition)
    ensures coalition !! RunFrom(c, s, actions).admins
    ensures Bounded(c, RunFrom(c, s, actions), Acting(RunFrom(c, s, actions), coalition), limit)
    decreases |actions|
  {
    if actions == [] {
    } else {
      assert ByCoalition(actions[0], coalition);
      ApplyKeepsCeiling(c, s, actions[0]);
      ActingKeepsBound(c, s, coalition, limit, actions[0]);
      assert forall i | 0 <= i < |actions[1..]| :: actions[1..][i] == actions[i + 1];
      RunKeepsBound(c, Apply(c, s, actions[0]), coalition, limit, actions[1..]);
    }
  }

  /**
   No coalition escalation.  Along any run of actions by coalition members without
   administrators, with any ceiling changes in between, whatever permission one of them can
   use at the end one of them could use at the start.
   */
  lemma NoEscalation(c: Catalogue, s: Tenant, coalition: set<string>, actions: seq<Action>, m: string, p: string)
    requires WithinCeiling(s) && coalition !! s.admins
    requires forall i | 0 <= i < |actions| :: ByCoalition(actions[i], coalition)
    requires var t := RunFrom(c, s, actions); m in coalition && CanAct(t, m) && p in Effective(c, t, m)
    ensures exists k :: k in coalition && CanAct(s, k) && p in Effective(c, s, k)
  {
    var acting, t := Acting(s, coalition), RunFrom(c, s, actions);
    var limit := Held(c, s, acting);
    BoundedHeld(c, s, acting, limit);
    RunKeepsSound(c, s, actions);
    RunKeepsBound(c, s, coalition, limit, actions);
    BoundedHeld(c, t, Acting(t, coalition), limit);
    assert p in Held(c, t, Acting(t, coalition));
    var k :| k in acting && p in Effective(c, s, k);
  }

  /** The invariant is needed: a role left outside the ceiling comes alive when the platform raises the ceiling. */
  lemma EscalationOutsideCeiling() returns (c: Catalogue, s: Tenant, a: Action)
    ensures Shape(s) && !WithinCeiling(s) && s.admins == {} && a.SetCeiling? && Allowed(c, s, a)
    ensures Effective(c, s, "m") == {} && "p" in Effective(c, Apply(c, s, a), "m")
  {
    c := Catalogue({"p"}, {"p"});
    s := Tenant(true, 1, {}, map["r" := Role("r", Label("R", ""), Active, 1)], map["r" := {"p"}],
        map["m" := Member(true, 1)], map["m" := {"r"}], {});
    a := SetCeiling(1, {"p"});
    assert s.permissions["r"] == {"p"};
    var t := After(s, a);
    assert "r" in RolesOf(t, "m") && "p" in Grants(t, "r");
  }
}
