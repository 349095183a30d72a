/**
 What each action of tenant delegation does to what people can use, told from the tables
 alone: who is an administrator, which roles are active and what they hold.
 */
module TenantStanding {
  import opened Wrappers
  import opened LinkTable
  import opened TenantPolicy

  /** An active role that holds the permission. */
  predicate Gives(s: Tenant, r: string, p: string) {
    r in s.roles && s.roles[r].status == Active && r in s.permissions && p in s.permissions[r]
  }

  predicate Has(s: Tenant, m: string, r: string) { m in s.memberRoles && r in s.memberRoles[m] }

  /** One of the member's roles other than `role` gives the permission. */
  predicate OtherGives(s: Tenant, m: string, role: string, p: string) {
    exists r | r in s.roles :: r != role && Has(s, m, r) && Gives(s, r, p)
  }

  /** Permissions that count in this tenant. */
  function Counting(c: Catalogue, s: Tenant): set<string> { set p | p in s.ceiling && p in c.usable }

  /** An administrator can use whatever counts in the tenant, others what counts and an active role of theirs gives. */
  lemma CanUse(c: Catalogue, s: Tenant, m: string, p: string)
    ensures m in s.admins ==> (p in Effective(c, s, m) <==> p in Counting(c, s))
    ensures m !in s.admins ==>
              (p in Effective(c, s, m) <==>
                 p in Counting(c, s) && exists r | r in s.roles :: Has(s, m, r) && Gives(s, r, p))
  {
    if m !in s.admins && p in Effective(c, s, m) {
      var r :| r in RolesOf(s, m) && p in Grants(s, r);
      assert Has(s, m, r) && Gives(s, r, p);
    }
    if m !in s.admins && p in Counting(c, s) && exists r | r in s.roles :: Has(s, m, r) && Gives(s, r, p) {
      var r :| r in s.roles && Has(s, m, r) && Gives(s, r, p);
      assert r in RolesOf(s, m) && p in Grants(s, r);
    }
  }

  /** With one role set apart. */
  lemma CanUseBy(c: Catalogue, s: Tenant, m: string, role: string, p: string)
    requires m !in s.admins
    ensures p in Effective(c, s, m) <==>
            p in Counting(c, s) && (OtherGives(s, m, role, p) || (Has(s, m, role) && Gives(s, role, p)))
  {
    CanUse(c, s, m, p);
  }

  /** With all roles disabled a member can use nothing. */
  lemma DisabledUsesNothing(c: Catalogue, s: Tenant, m: string)
    requires m !in s.admins && forall r | r in s.roles && Has(s, m, r) :: s.roles[r].status == Disabled
    ensures Effective(c, s, m) == {}
  {
    forall p
      ensures p !in Effective(c, s, m)
    {
      CanUse(c, s, m, p);
    }
  }

  // ---- Administrators -------------------------------------------------------

  /**
   Setting an administrator makes the member one or stops it being one, as asked, advances
   that member's version, and changes nobody else's standing.
   */
  lemma AdministratorSet(c: Catalogue, s: Tenant, setter: Option<string>, member: string, version: nat, enabled: bool)
    requires Allowed(c, s, SetAdministrator(setter, member, version, enabled))
    ensures var t := Apply(c, s, SetAdministrator(setter, member, version, enabled));
            && (member in t.admins <==> enabled)
            && (forall m | m != member :: m in t.admins <==> m in s.admins)
            && t.members == s.members[member := Member(true, version + 1)]
            && t == s.(admins := t.admins, members := t.members)
            && (forall m | m != member :: Effective(c, t, m) == Effective(c, s, m))
            && (enabled ==> CanAct(t, member) && Effective(c, t, member) == Counting(c, s))
  {
    var t := Apply(c, s, SetAdministrator(setter, member, version, enabled));
    forall m | m != member
      ensures Effective(c, t, m) == Effective(c, s, m)
    {
      SameStanding(c, s, t, m);
    }
  }

  lemma SameStanding(c: Catalogue, s: Tenant, t: Tenant, m: string)
    requires t.ceiling == s.ceiling && t.roles == s.roles && t.permissions == s.permissions
    requires (m in t.admins <==> m in s.admins) && forall r :: Has(t, m, r) <==> Has(s, m, r)
    ensures Effective(c, t, m) == Effective(c, s, m)
  {
    forall p
      ensures p in Effective(c, t, m) <==> p in Effective(c, s, m)
    {
      CanUse(c, s, m, p);
      CanUse(c, t, m, p);
      assert forall r :: Gives(t, r, p) <==> Gives(s, r, p);
    }
  }

  predicate HasAdministrator(s: Tenant) { exists m | m in s.members :: m in s.admins && s.members[m].active }

  /** The last active administrator stays: no action of anybody removes it. */
  lemma ApplyKeepsAdministrator(c: Catalogue, s: Tenant, a: Action)
    requires HasAdministrator(s)
    ensures HasAdministrator(Apply(c, s, a))
  {
    var t := Apply(c, s, a);
    var m :| m in s.admins && m in s.members && s.members[m].active;
    if a.SetAdministrator? && !a.enabled && Allowed(c, s, a) {
      var k := AnotherOf(ActiveAdmins(s), a.member);
      assert k in t.admins && k in t.members && t.members[k].active;
    } else {
      assert m in t.admins && m in t.members && t.members[m].active;
    }
  }

  /** An active administrator can be removed exactly while there is another one. */
  lemma RemovalNeedsAnother(c: Catalogue, s: Tenant, member: string)
    requires s.open && member in s.members && s.members[member].active && member in s.admins
    ensures Allowed(c, s, SetAdministrator(None, member, s.members[member].version, false)) <==>
            exists k | k in s.members :: k != member && k in s.admins && s.members[k].active
  {
    var all := ActiveAdmins(s);
    if |all| > 1 {
      var k := AnotherOf(all, member);
    }
    if k :| k in s.members && k != member && k in s.admins && s.members[k].active {
      assert {k, member} <= all && |all - {k, member}| == |all| - 2;
    }
  }

  lemma AnotherOf(all: set<string>, one: string) returns (other: string)
    requires |all| > 1
    ensures other in all && other != one
  {
    other :| other in all;
    if other == one {
      assert |all - {one}| == |all| - 1;
      other :| other in all - {one};
    }
  }

  lemma {:induction false} RunKeepsAdministrator(c: Catalogue, s: Tenant, actions: seq<Action>)
    requires HasAdministrator(s)
    ensures HasAdministrator(RunFrom(c, s, actions))
    decreases |actions|
  {
    if actions != [] {
      ApplyKeepsAdministrator(c, s, actions[0]);
      RunKeepsAdministrator(c, Apply(c, s, actions[0]), actions[1..]);
    }
  }

  // ---- The ceiling ----------------------------------------------------------

  /**
   A new ceiling takes from every ordinary member exactly what lies outside it and gives
   none anything; an administrator can use what counts below it.
   */
  lemma CeilingSet(c: Catalogue, s: Tenant, version: nat, wanted: set<string>, m: string)
    requires WithinCeiling(s) && Allowed(c, s, SetCeiling(version, wanted))
    ensures var t := Apply(c, s, SetCeiling(version, wanted));
            && t.ceiling == wanted && t.version == version + 1 && t.open && t.admins == s.admins
            && t.members == s.members && t.memberRoles == s.memberRoles && t.roles.Keys == s.roles.Keys
            && (m in s.admins ==> Effective(c, t, m) == wanted * c.usable)
            && (m !in s.admins ==> Effective(c, t, m) == Effective(c, s, m) * wanted)
  {
    var t := Apply(c, s, SetCeiling(version, wanted));
    if m !in s.admins {
      forall p
        ensures p in Effective(c, t, m) <==> p in Effective(c, s, m) && p in wanted
      {
        CanUse(c, s, m, p);
        CanUse(c, t, m, p);
        if r :| r in s.roles && Has(s, m, r) && Gives(s, r, p) && p in wanted { assert Has(t, m, r) && Gives(t, r, p); }
        if r :| r in t.roles && Has(t, m, r) && Gives(t, r, p) { assert Has(s, m, r) && Gives(s, r, p); }
      }
    }
  }

  // ---- Roles ----------------------------------------------------------------

  /** Tenants that differ at most in one role. */
  ghost predicate SameBut(s: Tenant, t: Tenant, role: string) {
    && t.ceiling == s.ceiling && t.admins == s.admins
    && (forall r | r != role ::
          && (r in t.roles <==> r in s.roles) && (r in s.roles ==> t.roles[r] == s.roles[r])
          && (r in t.permissions <==> r in s.permissions)
          && (r in s.permissions ==> t.permissions[r] == s.permissions[r]))
    && forall m, r | r != role :: Has(t, m, r) <==> Has(s, m, r)
  }

  lemma OthersGiveTheSame(s: Tenant, t: Tenant, m: string, role: string, p: string)
    requires SameBut(s, t, role)
    ensures OtherGives(t, m, role, p) <==> OtherGives(s, m, role, p)
  {
    if OtherGives(s, m, role, p) {
      var r :| r in s.roles && r != role && Has(s, m, r) && Gives(s, r, p);
      assert r in t.roles && Has(t, m, r) && Gives(t, r, p);
    }
    if OtherGives(t, m, role, p) {
      var r :| r in t.roles && r != role && Has(t, m, r) && Gives(t, r, p);
      assert r in s.roles && Has(s, m, r) && Gives(s, r, p);
    }
  }

  /** What an ordinary member can use once `role` gives exactly `given` to those who have it. */
  ghost predicate UsesWith(c: Catalogue, s: Tenant, t: Tenant, m: string, role: string, given: set<string>) {
    forall p :: p in Effective(c, t, m) <==>
                p in Counting(c, s) && (OtherGives(s, m, role, p) || (Has(t, m, role) && p in given))
  }

  lemma OneRoleChanged(c: Catalogue, s: Tenant, t: Tenant, m: string, role: string, given: set<string>)
    requires SameBut(s, t, role) && m !in s.admins && forall p :: Gives(t, role, p) <==> p in given
    ensures UsesWith(c, s, t, m, role, given)
  {
    forall p
      ensures p in Effective(c, t, m) <==>
              p in Counting(c, s) && (OtherGives(s, m, role, p) || (Has(t, m, role) && p in given))
    {
      CanUseBy(c, t, m, role, p);
      OthersGiveTheSame(s, t, m, role, p);
    }
  }

  /** A new role has the code, text and permissions asked for, is active, and changes nobody's standing. */
  lemma RoleCreated(c: Catalogue, s: Tenant, actor: string, role: string, code: string, about: Label,
          wanted: set<string>, m: string)
    requires WithinCeiling(s) && Allowed(c, s, CreateRole(actor, role, code, about, wanted))
    ensures var t := Apply(c, s, CreateRole(actor, role, code, about, wanted));
            && role in t.roles && t.roles[role] == Role(code, about, Active, 1) && PermissionsOf(t, role) == wanted
            && SameBut(s, t, role) && t.members == s.members && t.memberRoles == s.memberRoles
            && wanted <= Effective(c, s, actor) && Effective(c, t, m) == Effective(c, s, m)
  {
    var t := Apply(c, s, CreateRole(actor, role, code, about, wanted));
    if m !in s.admins {
      forall p
        ensures p in Effective(c, t, m) <==> p in Effective(c, s, m)
      {
        CanUseBy(c, s, m, role, p);
        CanUseBy(c, t, m, role, p);
        OthersGiveTheSame(s, t, m, role, p);
      }
    }
  }

  /** The role's permissions are replaced: those who have it gain and lose just what it holds, if it is active. */
  lemma PermissionsSet(c: Catalogue, s: Tenant, actor: string, role: string, version: nat, wanted: set<string>,
          m: string)
    requires WithinCeiling(s) && Allowed(c, s, SetRolePermissions(actor, role, version, wanted))
    ensures var t := Apply(c, s, SetRolePermissions(actor, role, version, wanted));
            && PermissionsOf(t, role) == wanted && t.roles[role] == s.roles[role].(version := version + 1)
            && SameBut(s, t, role) && t.members == s.members && t.memberRoles == s.memberRoles
            && (m in s.admins ==> Effective(c, t, m) == Effective(c, s, m))
            && (m !in s.admins ==> UsesWith(c, s, t, m, role, if s.roles[role].status == Active then wanted else {}))
  {
    var t := Apply(c, s, SetRolePermissions(actor, role, version, wanted));
    if m !in s.admins {
      OneRoleChanged(c, s, t, m, role, if s.roles[role].status == Active then wanted else {});
    }
  }

  /** Text and status are replaced; a disabled role gives nothing, an active one what it holds. */
  lemma RoleUpdated(c: Catalogue, s: Tenant, actor: string, role: string, version: nat, about: Label,
          status: RoleStatus, m: string)
    requires WithinCeiling(s) && Allowed(c, s, UpdateRole(actor, role, version, about, status))
    ensures var t := Apply(c, s, UpdateRole(actor, role, version, about, status));
            && t.roles[role] == Role(s.roles[role].code, about, status, version + 1)
            && SameBut(s, t, role) && t.permissions == s.permissions && t.members == s.members
            && t.memberRoles == s.memberRoles
            && (m in s.admins ==> Effective(c, t, m) == Effective(c, s, m))
            && (m !in s.admins ==> UsesWith(c, s, t, m, role, if status == Active then s.permissions[role] else {}))
  {
    var t := Apply(c, s, UpdateRole(actor, role, version, about, status));
    if m !in s.admins {
      OneRoleChanged(c, s, t, m, role, if status == Active then s.permissions[role] else {});
    }
  }

  /** Disabling takes from each ordinary member exactly what no other active role of theirs gives. */
  lemma DisablingRemoves(c: Catalogue, s: Tenant, actor: string, role: string, version: nat, about: Label, m: string,
          p: string)
    requires WithinCeiling(s) && Allowed(c, s, UpdateRole(actor, role, version, about, Disabled)) && m !in s.admins
    ensures var t := Apply(c, s, UpdateRole(actor, role, version, about, Disabled));
            p in Effective(c, s, m) && p !in Effective(c, t, m) <==>
            p in Effective(c, s, m) && !OtherGives(s, m, role, p)
    ensures Effective(c, Apply(c, s, UpdateRole(actor, role, version, about, Disabled)), m) <= Effective(c, s, m)
  {
    RoleUpdated(c, s, actor, role, version, about, Disabled, m);
    forall q
      ensures q in Effective(c, s, m) <==>
              q in Counting(c, s) && (OtherGives(s, m, role, q) || (Has(s, m, role) && Gives(s, role, q)))
    {
      CanUseBy(c, s, m, role, q);
    }
  }

  /** A deleted role is gone from the members that had it, whose versions advance. */
  lemma RoleDeleted(c: Catalogue, s: Tenant, actor: string, role: string, version: nat, m: string)
    requires WithinCeiling(s) && Allowed(c, s, DeleteRole(actor, role, version))
    ensures var t := Apply(c, s, DeleteRole(actor, role, version));
            && role !in t.roles && role !in t.permissions && !Has(t, m, role) && SameBut(s, t, role)
            && (m in s.members ==>
                  m in t.members && t.members[m].active == s.members[m].active
                  && t.members[m].version == s.members[m].version + if Has(s, m, role) then 1 else 0)
            && (m in s.admins ==> Effective(c, t, m) == Effective(c, s, m))
            && (m !in s.admins ==> UsesWith(c, s, t, m, role, {}))
  {
    var t := Apply(c, s, DeleteRole(actor, role, version));
    if m !in s.admins { OneRoleChanged(c, s, t, m, role, {}); }
  }

  /**
   The member has exactly the roles asked for and can use exactly what counts of what they
   hold; nobody else is affected.
   */
  lemma MemberRolesSet(c: Catalogue, s: Tenant, actor: string, member: string, version: nat, wanted: set<string>)
    requires WithinCeiling(s) && Allowed(c, s, SetMemberRoles(actor, member, version, wanted))
    ensures var t := Apply(c, s, SetMemberRoles(actor, member, version, wanted));
            && (forall r :: Has(t, member, r) <==> r in wanted)
            && t == s.(members := s.members[member := Member(true, version + 1)], memberRoles := t.memberRoles)
            && (forall m | m != member :: Effective(c, t, m) == Effective(c, s, m))
            && (member !in s.admins ==>
                  forall p :: p in Effective(c, t, member) <==>
                              p in Counting(c, s) && exists r | r in wanted :: p in PermissionsOf(s, r))
  {
    var t := Apply(c, s, SetMemberRoles(actor, member, version, wanted));
    forall m | m != member
      ensures Effective(c, t, m) == Effective(c, s, m)
    {
      SameStanding(c, s, t, m);
    }
    if member !in s.admins {
      forall p
        ensures p in Effective(c, t, member) <==>
                p in Counting(c, s) && exists r | r in wanted :: p in PermissionsOf(s, r)
      {
        CanUse(c, t, member, p);
        if r :| r in wanted && p in PermissionsOf(s, r) { assert r in t.roles && Has(t, member, r) && Gives(t, r, p); }
      }
    }
  }

  // ---- Who may assign what --------------------------------------------------

  /** An administrator may assign whatever counts in the tenant and may be granted. */
  lemma AdministratorAssigns(c: Catalogue, s: Tenant, actor: string, wanted: set<string>)
    requires CanAct(s, actor) && actor in s.admins && |Counting(c, s)| <= MAX_EFFECTIVE
    ensures Assignable(c, s, actor, wanted) <==> wanted <= c.grantable && wanted <= Counting(c, s)
  {
    assert Effective(c, s, actor) == Counting(c, s);
  }

  /** Anybody else may assign exactly what may be granted, counts, and is given by an active role of theirs. */
  lemma MemberAssigns(c: Catalogue, s: Tenant, actor: string, wanted: set<string>)
    requires CanAct(s, actor) && actor !in s.admins && |Effective(c, s, actor)| <= MAX_EFFECTIVE
    ensures Assignable(c, s, actor, wanted) <==>
            && wanted <= c.grantable && wanted <= Counting(c, s)
            && forall p | p in wanted :: exists r | r in s.roles :: Has(s, actor, r) && Gives(s, r, p)
  {
    forall p | p in wanted
      ensures p in Effective(c, s, actor) <==>
              p in Counting(c, s) && exists r | r in s.roles :: Has(s, actor, r) && Gives(s, r, p)
    {
      CanUse(c, s, actor, p);
    }
  }

  /**
   Whoever changes a role or a member's roles can act and use everything that these roles hold
   or are to hold, and knows the current version; administrators are set by the platform or
   by an active administrator.
   */
  lemma ActorHolds(c: Catalogue, s: Tenant, a: Action)
    requires Allowed(c, s, a)
    ensures match a
            case SetCeiling(version, wanted) => s.open && s.version == version && wanted <= c.grantable
            case CreateRole(actor, _, _, _, wanted) => CanAct(s, actor) && wanted <= Effective(c, s, actor)
            case SetRolePermissions(actor, role, version, wanted) =>
              CanAct(s, actor) && wanted <= Effective(c, s, actor) && s.roles[role].version == version
            case SetMemberRoles(actor, member, version, wanted) =>
              && CanAct(s, actor) && CanAct(s, member) && s.members[member].version == version
              && forall r | r in wanted :: PermissionsOf(s, r) <= Effective(c, s, actor)
            case UpdateRole(actor, role, version, _, _) =>
              CanAct(s, actor) && PermissionsOf(s, role) <= Effective(c, s, actor) && s.roles[role].version == version
            case DeleteRole(actor, role, version) =>
              CanAct(s, actor) && PermissionsOf(s, role) <= Effective(c, s, actor) && s.roles[role].version == version
            case SetAdministrator(setter, member, version, _) =>
              && s.members[member].version == version && CanAct(s, member)
              && (setter.Some? ==> setter.value in s.admins && CanAct(s, setter.value))
  {
    if a.SetMemberRoles? {
      forall r | r in a.wanted
        ensures PermissionsOf(s, r) <= Effective(c, s, a.actor)
      {
        assert forall p | p in PermissionsOf(s, r) :: p in AllPermissions(s, a.wanted);
      }
    }
  }
}
