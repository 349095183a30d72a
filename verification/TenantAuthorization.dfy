/**
 The tenant authorization service over its tables: each method is one transaction of
 internal/authorization/tenant_service.go, working on link rows, and is proved to be the
 corresponding step of TenantPolicy, or to change nothing.
 */
module TenantAuthorization {
  import opened Texts
  import opened Wrappers
  import opened LinkTable
  import opened TenantPolicy

  /** Every id without surrounding blanks. */
  function Trimmed(trim: string -> string, ids: seq<string>): (r: seq<string>)
    ensures |r| == |ids| && forall i | 0 <= i < |ids| :: r[i] == trim(ids[i])
  {
    seq(|ids|, i requires 0 <= i < |ids| => trim(ids[i]))
  }

  predicate NormalIds(validId: string -> bool, ids: seq<string>) {
    |ids| <= MAX_LINKS && forall id | id in ids :: validId(id)
  }

  /** normalizeIDs: trimmed, each once, in order. */
  method NormalizeIDs(trim: string -> string, validId: string -> bool, ids: seq<string>)
    returns (ok: bool, out: seq<string>)
    ensures ok <==> NormalIds(validId, Trimmed(trim, ids))
    ensures ok ==> StrictlySorted(out) && ToSet(out) == ToSet(Trimmed(trim, ids))
    ensures ok ==> DistinctValues(out) && |out| <= MAX_LINKS && forall v | v in out :: validId(v)
    ensures ok ==> |ToSet(Trimmed(trim, ids))| <= MAX_LINKS
  {
    if |ids| > MAX_LINKS { return false, []; }
    out := [];
    ghost var trimmed := Trimmed(trim, ids);
    for i := 0 to |ids|
      invariant Normalized(validId, trimmed[..i], out)
    {
      var id := trim(ids[i]);
      assert trimmed[..i + 1] == trimmed[..i] + [id];
      if !validId(id) { assert trimmed[i] in trimmed; return false, []; }
      NormalizedStep(validId, trimmed[..i], out, id);
      out := InsertText(id, out);
    }
    assert trimmed[..|ids|] == trimmed;
    SetSize(trimmed);
    SortedDistinct(out);
    ok := true;
  }

  /** What has been read so far, sorted and each once. */
  ghost predicate Normalized(validId: string -> bool, ids: seq<string>, out: seq<string>) {
    && StrictlySorted(out) && |out| <= |ids| && (forall v | v in ids :: validId(v))
    && forall v :: v in out <==> v in ids
  }

  lemma NormalizedStep(validId: string -> bool, ids: seq<string>, out: seq<string>, id: string)
    requires Normalized(validId, ids, out) && validId(id)
    ensures Normalized(validId, ids + [id], InsertText(id, out))
  {
    InsertTextSorted(id, out);
    InsertTextMembers(id, out);
    InsertTextLength(id, out);
  }

  lemma {:induction false} InsertTextLength(id: string, out: seq<string>)
    ensures |InsertText(id, out)| <= |out| + 1
    decreases |out|
  {
    if out == [] {
    } else {
      InsertTextLength(id, out[1..]);
    }
  }

  lemma SortedDistinct(out: seq<string>)
    requires StrictlySorted(out)
    ensures DistinctValues(out)
  {
    forall i, j | 0 <= i < j < |out|
      ensures out[i] != out[j]
    {
      TextOrder(out[i], out[j], out[i]);
    }
  }

  lemma {:induction false} SetSize(ids: seq<string>)
    ensures |ToSet(ids)| <= |ids|
    decreases |ids|
  {
    if ids != [] {
      var n := |ids| - 1;
      SetSize(ids[..n]);
      assert ids == ids[..n] + [ids[n]];
      assert ToSet(ids) == ToSet(ids[..n]) + {ids[n]};
    } else {
      assert ToSet(ids) == {};
    }
  }

  /** With the unique index, an owner has as many active rows as values. */
  lemma {:induction false} CountIsSize(table: Table, tenant: string, owner: string)
    requires UniqueLive(table)
    ensures CountActive(table, tenant, owner) == |ActiveValues(table, tenant, owner)|
    decreases |table|
  {
    if table == [] {
    } else {
      var n := |table| - 1;
      CountIsSize(table[..n], tenant, owner);
      ActiveSnoc(table, tenant, owner, n);
      assert table[..n + 1] == table;
      if ActiveLink(table[n], tenant, owner) { LastIsNew(table, tenant, owner); }
    }
  }

  lemma LastIsNew(table: Table, tenant: string, owner: string)
    requires UniqueLive(table) && table != [] && ActiveLink(table[|table| - 1], tenant, owner)
    ensures table[|table| - 1].value !in ActiveValues(table[..|table| - 1], tenant, owner)
  {
    var n := |table| - 1;
    assert forall i | 0 <= i < n :: table[..n][i] == table[i];
  }

  function PermissionMap(roles: map<string, Role>, table: Table, tenant: string): map<string, set<string>> {
    map r | r in roles :: ActiveValues(table, tenant, r)
  }

  function MemberRoleMap(members: map<string, Member>, table: Table, tenant: string): map<string, set<string>> {
    map m | m in members :: ActiveValues(table, tenant, m)
  }

  /** Replacing one owner's links changes that owner's entry only. */
  lemma ReplacedOwner(before: Table, after: Table, tenant: string, owner: string, wanted: set<string>, now: nat,
          o: string)
    requires Replaced(before, after, tenant, owner, wanted, now)
    ensures ActiveValues(after, tenant, o) == if o == owner then wanted else ActiveValues(before, tenant, o)
  {
    if o != owner { OthersUntouched(before, after, tenant, owner, wanted, now, tenant, o); }
  }

  lemma ReplacedPermissions(roles: map<string, Role>, rolesAfter: map<string, Role>, before: Table, after: Table,
          tenant: string, role: string, wanted: set<string>, now: nat)
    requires Replaced(before, after, tenant, role, wanted, now) && rolesAfter.Keys == roles.Keys + {role}
    ensures PermissionMap(rolesAfter, after, tenant) == PermissionMap(roles, before, tenant)[role := wanted]
  {
    forall o | o in rolesAfter
      ensures ActiveValues(after, tenant, o) == PermissionMap(roles, before, tenant)[role := wanted][o]
    {
      ReplacedOwner(before, after, tenant, role, wanted, now, o);
    }
  }

  lemma ReplacedMemberRoles(members: map<string, Member>, membersAfter: map<string, Member>, before: Table,
                            after: Table, tenant: string, member: string, wanted: set<string>, now: nat)
    requires Replaced(before, after, tenant, member, wanted, now) && membersAfter.Keys == members.Keys
        && member in members
    ensures MemberRoleMap(membersAfter, after, tenant) == MemberRoleMap(members, before, tenant)[member := wanted]
  {
    forall o | o in membersAfter
      ensures ActiveValues(after, tenant, o) == MemberRoleMap(members, before, tenant)[member := wanted][o]
    {
      ReplacedOwner(before, after, tenant, member, wanted, now, o);
    }
  }

  function OutsideCeiling(tenant: string, wanted: set<string>): Link -> bool {
    (l: Link) => l.tenant == tenant && l.value !in wanted
  }

  function OfOwner(tenant: string, owner: string): Link -> bool {
    (l: Link) => l.tenant == tenant && l.owner == owner
  }

  function OfValue(tenant: string, value: string): Link -> bool {
    (l: Link) => l.tenant == tenant && l.value == value
  }

  /** pruneRolePermissions. */
  lemma PrunedPermissions(roles: map<string, Role>, rolesAfter: map<string, Role>, table: Table, tenant: string,
          wanted: set<string>, now: nat)
    requires rolesAfter.Keys == roles.Keys
    ensures var before := PermissionMap(roles, table, tenant);
            PermissionMap(rolesAfter, RetireWhere(table, OutsideCeiling(tenant, wanted), now), tenant)
                == Pruned(before, wanted)
  {
    forall r | r in roles
      ensures ActiveValues(RetireWhere(table, OutsideCeiling(tenant, wanted), now), tenant, r)
          == ActiveValues(table, tenant, r) * wanted
    {
      RetiredValues(table, OutsideCeiling(tenant, wanted), now, tenant, r, v => v !in wanted);
    }
  }

  lemma DeletedPermissions(roles: map<string, Role>, table: Table, tenant: string, role: string, now: nat)
    ensures PermissionMap(roles - {role}, RetireWhere(table, OfOwner(tenant, role), now), tenant)
        == PermissionMap(roles, table, tenant) - {role}
  {
    forall r | r in roles && r != role
      ensures ActiveValues(RetireWhere(table, OfOwner(tenant, role), now), tenant, r) == ActiveValues(table, tenant, r)
    {
      RetiredValues(table, OfOwner(tenant, role), now, tenant, r, v => false);
    }
  }

  lemma DeletedMemberRoles(members: map<string, Member>, membersAfter: map<string, Member>, table: Table,
                           tenant: string, role: string, now: nat)
    requires membersAfter.Keys == members.Keys
    ensures var before := MemberRoleMap(members, table, tenant);
            MemberRoleMap(membersAfter, RetireWhere(table, OfValue(tenant, role), now), tenant)
                == RolesWithout(before, role)
  {
    forall m | m in members
      ensures ActiveValues(RetireWhere(table, OfValue(tenant, role), now), tenant, m)
          == ActiveValues(table, tenant, m) - {role}
    {
      RetiredValues(table, OfValue(tenant, role), now, tenant, m, v => v == role);
    }
  }

  /** The tables after a role and all its links are gone, as the policy sees them. */
  lemma DeletedTenant(s: Tenant, rolePermissions: Table, memberRoles: Table, tenant: string, role: string,
          actor: string, expected: nat, now: nat)
    requires s.permissions == PermissionMap(s.roles, rolePermissions, tenant)
    requires s.memberRoles == MemberRoleMap(s.members, memberRoles, tenant)
    ensures var members := MembersWithout(s, role);
            After(s, TenantPolicy.DeleteRole(actor, role, expected))
            == s.(roles := s.roles - {role}, members := members,
                  permissions := PermissionMap(s.roles - {role},
                      RetireWhere(rolePermissions, OfOwner(tenant, role), now), tenant),
                  memberRoles := MemberRoleMap(members, RetireWhere(memberRoles, OfValue(tenant, role), now), tenant))
  {
    DeletedPermissions(s.roles, rolePermissions, tenant, role, now);
    DeletedMemberRoles(s.members, MembersWithout(s, role), memberRoles, tenant, role, now);
  }

  class Service {
    const catalogue: Catalogue
    const tenantId: string
    const trim: string -> string
    const validId: string -> bool
    const codeOk: string -> bool
    const labelOk: Label -> bool
    var open: bool
    var version: nat
    var roles: map<string, Role>
    var members: map<string, Member>
    var admins: set<string>
    var grants: Table
    var rolePermissions: Table
    var memberRoles: Table

    /** The tables as a tenant of the policy. */
    function State(): Tenant
      reads this
    {
      Tenant(open, version, ActiveValues(grants, tenantId, ""), roles, PermissionMap(roles, rolePermissions, tenantId),
             members, MemberRoleMap(members, memberRoles, tenantId), admins)
    }

    ghost predicate Valid()
      reads this
    {
      UniqueLive(grants) && UniqueLive(rolePermissions) && UniqueLive(memberRoles)
      && WithinCeiling(State()) && DifferentCodes(roles)
    }

    constructor (catalogue: Catalogue, tenantId: string, trim: string -> string, validId: string -> bool,
            codeOk: string -> bool, labelOk: Label -> bool, members: map<string, Member>, admins: set<string>)
      ensures Valid() && State() == Tenant(true, 1, {}, map[], map[], members, map m | m in members :: {}, admins)
    {
      this.catalogue, this.tenantId := catalogue, tenantId;
      this.trim, this.validId, this.codeOk, this.labelOk := trim, validId, codeOk, labelOk;
      open, version, roles, this.members, this.admins := true, 1, map[], members, admins;
      grants, rolePermissions, memberRoles := [], [], [];
      new;
      assert forall owner :: ActiveValues([], tenantId, owner) == {};
    }

    method SetTenantPermissions(expected: nat, permissionIDs: seq<string>, now: nat) returns (ok: bool)
      requires Valid()
      modifies this
      ensures Valid()
      ensures var action := SetCeiling(expected, ToSet(Trimmed(trim, permissionIDs)));
              && (ok <==> NormalIds(validId, Trimmed(trim, permissionIDs)) && Allowed(catalogue, old(State()), action))
              && State() == if ok then After(old(State()), action) else old(State())
    {
      var normal, ids := NormalizeIDs(trim, validId, permissionIDs);
      if !normal { return false; }
      ghost var before := State();
      ghost var action := SetCeiling(expected, ToSet(Trimmed(trim, permissionIDs)));
      if !open || !(ToSet(ids) <= catalogue.grantable) || version != expected { return false; }
      CountIsSize(grants, tenantId, "");
      var replaced, links := ReplaceLinks(validId, grants, tenantId, "", ids, now);
      if !replaced { return false; }
      ApplyKeepsCeiling(catalogue, before, action);
      ApplyKeepsCodes(catalogue, before, action);
      var touched := PrunedRoles(State(), ToSet(ids));
      PrunedPermissions(roles, touched, rolePermissions, tenantId, ToSet(ids), now);
      RetiredUnique(rolePermissions, OutsideCeiling(tenantId, ToSet(ids)), now);
      version := version + 1;
      grants := links;
      roles := touched;
      rolePermissions := RetireWhere(rolePermissions, OutsideCeiling(tenantId, ToSet(ids)), now);
      assert State() == After(before, action);
      ok := true;
    }

    /** `inScope` is the data-scope decision on the new role, `role` the generated identifier. */
    method CreateRole(actor: string, role: string, code: string, about: Label, permissionIDs: seq<string>,
            inScope: bool, now: nat) returns (ok: bool)
      requires Valid() && role !in roles && ActiveValues(rolePermissions, tenantId, role) == {}
      modifies this
      ensures Valid()
      ensures var action := TenantPolicy.CreateRole(actor, role, code, about, ToSet(Trimmed(trim, permissionIDs)));
              && (ok <==>
                    NormalIds(validId, Trimmed(trim, permissionIDs)) && codeOk(code) && labelOk(about) && inScope
                    && Allowed(catalogue, old(State()), action))
              && State() == if ok then After(old(State()), action) else old(State())
    {
      var normal, ids := NormalizeIDs(trim, validId, permissionIDs);
      if !normal || !codeOk(code) || !labelOk(about) || !inScope { return false; }
      ghost var before := State();
      ghost var action := TenantPolicy.CreateRole(actor, role, code, about, ToSet(Trimmed(trim, permissionIDs)));
      if !Assignable(catalogue, State(), actor, ToSet(ids)) || CodeTaken(roles, code) { return false; }
      CountIsSize(rolePermissions, tenantId, role);
      var replaced, links := ReplaceLinks(validId, rolePermissions, tenantId, role, ids, now);
      if !replaced { return false; }
      ApplyKeepsCeiling(catalogue, before, action);
      ApplyKeepsCodes(catalogue, before, action);
      var created := roles[role := Role(code, about, Active, 1)];
      ReplacedPermissions(roles, created, rolePermissions, links, tenantId, role, ToSet(ids), now);
      roles := created;
      rolePermissions := links;
      assert State() == After(before, action);
      ok := true;
    }

    method SetRolePermissions(actor: string, role: string, expected: nat, permissionIDs: seq<string>, inScope: bool,
            now: nat) returns (ok: bool)
      requires Valid()
      modifies this
      ensures Valid()
      ensures var action := TenantPolicy.SetRolePermissions(actor, role, expected, ToSet(Trimmed(trim, permissionIDs)));
              && (ok <==>
                    NormalIds(validId, Trimmed(trim, permissionIDs)) && inScope
                    && Allowed(catalogue, old(State()), action))
              && State() == if ok then After(old(State()), action) else old(State())
    {
      var normal, ids := NormalizeIDs(trim, validId, permissionIDs);
      if !normal || !inScope || role !in roles { return false; }
      ghost var before := State();
      ghost var action := TenantPolicy.SetRolePermissions(actor, role, expected, ToSet(Trimmed(trim, permissionIDs)));
      if !Assignable(catalogue, State(), actor, ToSet(ids)) { return false; }
      if roles[role].version != expected { return false; }
      CountIsSize(rolePermissions, tenantId, role);
      var replaced, links := ReplaceLinks(validId, rolePermissions, tenantId, role, ids, now);
      if !replaced { return false; }
      ApplyKeepsCeiling(catalogue, before, action);
      ApplyKeepsCodes(catalogue, before, action);
      ReplacedPermissions(roles, roles[role := Touched(roles[role])], rolePermissions, links, tenantId, role,
          ToSet(ids), now);
      roles := roles[role := Touched(roles[role])];
      rolePermissions := links;
      assert State() == After(before, action);
      ok := true;
    }

    method SetMemberRoles(actor: string, member: string, expected: nat, roleIDs: seq<string>, inScope: bool,
            now: nat) returns (ok: bool)
      requires Valid()
      modifies this
      ensures Valid()
      ensures var action := TenantPolicy.SetMemberRoles(actor, member, expected, ToSet(Trimmed(trim, roleIDs)));
              && (ok <==>
                    NormalIds(validId, Trimmed(trim, roleIDs)) && inScope
                    && Allowed(catalogue, old(State()), action))
              && State() == if ok then After(old(State()), action) else old(State())
    {
      var normal, ids := NormalizeIDs(trim, validId, roleIDs);
      if !normal || !inScope { return false; }
      ghost var before := State();
      ghost var action := TenantPolicy.SetMemberRoles(actor, member, expected, ToSet(Trimmed(trim, roleIDs)));
      if member !in members || !members[member].active { return false; }
      if !RolesAssignable(catalogue, State(), actor, ToSet(ids)) { return false; }
      if members[member].version != expected { return false; }
      CountIsSize(memberRoles, tenantId, member);
      var replaced, links := ReplaceLinks(validId, memberRoles, tenantId, member, ids, now);
      if !replaced { return false; }
      ApplyKeepsCeiling(catalogue, before, action);
      ApplyKeepsCodes(catalogue, before, action);
      ReplacedMemberRoles(members, members[member := Advanced(members[member])], memberRoles, links, tenantId, member,
          ToSet(ids), now);
      members := members[member := Advanced(members[member])];
      memberRoles := links;
      assert State() == After(before, action);
      ok := true;
    }

    method UpdateRole(actor: string, role: string, expected: nat, about: Label, status: RoleStatus,
            inScope: bool) returns (ok: bool)
      requires Valid()
      modifies this
      ensures Valid()
      ensures var action := TenantPolicy.UpdateRole(actor, role, expected, about, status);
              && (ok <==> labelOk(about) && inScope && Allowed(catalogue, old(State()), action))
              && State() == if ok then After(old(State()), action) else old(State())
    {
      ghost var before := State();
      ghost var action := TenantPolicy.UpdateRole(actor, role, expected, about, status);
      if !labelOk(about) || !inScope || !RoleAssignable(catalogue, State(), actor, role)
          || roles[role].version != expected {
        return false;
      }
      ApplyKeepsCeiling(catalogue, before, action);
      ApplyKeepsCodes(catalogue, before, action);
      roles := roles[role := Touched(roles[role]).(about := about, status := status)];
      assert State() == After(before, action);
      ok := true;
    }

    method DeleteRole(actor: string, role: string, expected: nat, inScope: bool, now: nat) returns (ok: bool)
      requires Valid()
      modifies this
      ensures Valid()
      ensures var action := TenantPolicy.DeleteRole(actor, role, expected);
              && (ok <==> inScope && Allowed(catalogue, old(State()), action))
              && State() == if ok then After(old(State()), action) else old(State())
    {
      ghost var before := State();
      ghost var action := TenantPolicy.DeleteRole(actor, role, expected);
      if !inScope || !RoleAssignable(catalogue, State(), actor, role)
          || roles[role].version != expected {
        return false;
      }
      ApplyKeepsCeiling(catalogue, before, action);
      ApplyKeepsCodes(catalogue, before, action);
      var advanced := MembersWithout(State(), role);
      DeletedTenant(before, rolePermissions, memberRoles, tenantId, role, actor, expected, now);
      RetiredUnique(memberRoles, OfValue(tenantId, role), now);
      RetiredUnique(rolePermissions, OfOwner(tenantId, role), now);
      roles := roles - {role};
      members := advanced;
      memberRoles := RetireWhere(memberRoles, OfValue(tenantId, role), now);
      rolePermissions := RetireWhere(rolePermissions, OfOwner(tenantId, role), now);
      assert State() == After(before, action);
      ok := true;
    }

    /** `setter` is None for a platform actor. */
    method SetAdministrator(setter: Option<string>, member: string, expected: nat, enabled: bool) returns (ok: bool)
      requires Valid()
      modifies this
      ensures Valid()
      ensures var action := TenantPolicy.SetAdministrator(setter, member, expected, enabled);
              && (ok <==> Allowed(catalogue, old(State()), action))
              && State() == if ok then After(old(State()), action) else old(State())
      ensures ok ==> (member in admins <==> enabled) && forall m | m != member :: m in admins <==> m in old(admins)
    {
      ghost var before := State();
      ghost var action := TenantPolicy.SetAdministrator(setter, member, expected, enabled);
      if !open { return false; }
      if setter.Some? && (setter.value !in admins || !CanAct(State(), setter.value)) { return false; }
      if member !in members || !members[member].active || members[member].version != expected { return false; }
      if !enabled && (|ActiveAdmins(State())| <= 1 || member !in admins) { return false; }
      ApplyKeepsCeiling(catalogue, before, action);
      ApplyKeepsCodes(catalogue, before, action);
      members := members[member := Advanced(members[member])];
      admins := if enabled then admins + {member} else admins - {member};
      assert State() == After(before, action);
      ok := true;
    }
  }
}
