/** Role defaults, a user's overrides, and the two computations of what a user may do. */
module Permissions {
  import opened Prelude

  datatype Error = UserNotFound | PermissionNotFound

  datatype Permission = Permission(id: string, key: string)
  datatype TenantUser = TenantUser(tenant: string, role: string)
  datatype RolePermission = RolePermission(role: string, permissionId: string)
  datatype Override = Override(user: string, permissionId: string, allowed: bool)

  function KeyOf(): Permission -> string {
    (p: Permission) => p.key
  }

  function IdOf(): Permission -> string {
    (p: Permission) => p.id
  }

  function OverrideKey(): Override -> (string, string) {
    (o: Override) => (o.user, o.permissionId)
  }

  /** Permissions have their own key and id; roles and overrides refer to permissions. */
  ghost predicate IsCatalogue(permissions: seq<Permission>) {
    DistinctOn(permissions, KeyOf()) && DistinctOn(permissions, IdOf())
  }

  ghost predicate RefersTo(permissions: seq<Permission>, id: string) {
    exists p <- permissions :: p.id == id
  }

  ghost predicate RolesRefer(roles: seq<RolePermission>, permissions: seq<Permission>) {
    forall r <- roles :: RefersTo(permissions, r.permissionId)
  }

  ghost predicate OverridesRefer(overrides: seq<Override>, permissions: seq<Permission>) {
    forall o <- overrides :: RefersTo(permissions, o.permissionId)
  }

  /** One override for a user and a permission. */
  ghost predicate OnePerUser(overrides: seq<Override>) {
    DistinctOn(overrides, OverrideKey())
  }

  // ----- the table that the user screen shows -----

  datatype Row = Row(id: string, key: string, roleDefault: bool, override: Option<bool>, effective: bool)

  predicate HasByRole(roles: seq<RolePermission>, role: string, permissionId: string) {
    RolePermission(role, permissionId) in roles
  }

  /** The last row for a permission is the one a map keeps. */
  function OverrideOf(overrides: seq<Override>, user: string, permissionId: string): Option<bool> {
    if overrides == [] then None
    else
      var last := overrides[|overrides| - 1];
      if last.user == user && last.permissionId == permissionId then Some(last.allowed)
      else OverrideOf(overrides[..|overrides| - 1], user, permissionId)
  }

  function RowOf(p: Permission, roles: seq<RolePermission>, role: string, overrides: seq<Override>, user: string): Row {
    var roleDefault, override := HasByRole(roles, role, p.id), OverrideOf(overrides, user, p.id);
    Row(p.id, p.key, roleDefault, override, if override.Some? then override.value else roleDefault)
  }

  function UserPermissions(permissions: seq<Permission>, roles: seq<RolePermission>,
                           tenantUsers: map<string, TenantUser>,
                           overrides: seq<Override>, tenant: string, user: string): Result<seq<Row>, Error> {
    if user !in tenantUsers || tenantUsers[user].tenant != tenant then Failure(UserNotFound)
    else
      var role := tenantUsers[user].role;
      Success(seq(|permissions|,
                  i requires 0 <= i < |permissions| => RowOf(permissions[i], roles, role, overrides, user)))
  }

  // ----- the set that a login computes -----

  function PermissionOf(permissions: seq<Permission>, id: string): (p: Permission)
    requires RefersTo(permissions, id)
    ensures p in permissions && p.id == id
  {
    if permissions[0].id == id then permissions[0] else PermissionOf(permissions[1..], id)
  }

  function Granted(permissions: seq<Permission>, roles: seq<RolePermission>, role: string): set<string>
    requires RolesRefer(roles, permissions)
  {
    set r | r in roles && r.role == role :: PermissionOf(permissions, r.permissionId).key
  }

  /** What the loop of a login leaves: one override after the other added to the set or deleted from it. */
  function Overlay(keys: set<string>, permissions: seq<Permission>, overrides: seq<Override>, user: string): set<string>
    requires OverridesRefer(overrides, permissions)
  {
    if overrides == [] then keys
    else
      var last, rest := overrides[|overrides| - 1], Overlay(keys, permissions, overrides[..|overrides| - 1], user);
      if last.user != user then rest
      else
        var key := PermissionOf(permissions, last.permissionId).key;
        if last.allowed then rest + {key} else rest - {key}
  }

  lemma KeysTellApart(permissions: seq<Permission>, p: Permission, q: Permission)
    requires IsCatalogue(permissions) && p in permissions && q in permissions
    ensures p.key == q.key <==> p == q
    ensures p.id == q.id <==> p == q
  {
    var i :| 0 <= i < |permissions| && permissions[i] == p;
    var j :| 0 <= j < |permissions| && permissions[j] == q;
    assert i < j ==>
        KeyOf()(permissions[i]) != KeyOf()(permissions[j]) && IdOf()(permissions[i]) != IdOf()(permissions[j]);
    assert j < i ==>
        KeyOf()(permissions[j]) != KeyOf()(permissions[i]) && IdOf()(permissions[j]) != IdOf()(permissions[i]);
  }

  lemma GrantedIs(permissions: seq<Permission>, roles: seq<RolePermission>, role: string, p: Permission)
    requires IsCatalogue(permissions) && RolesRefer(roles, permissions) && p in permissions
    ensures p.key in Granted(permissions, roles, role) <==> HasByRole(roles, role, p.id)
  {
    forall r <- roles
      ensures PermissionOf(permissions, r.permissionId).key == p.key <==> r.permissionId == p.id
    {
      KeysTellApart(permissions, PermissionOf(permissions, r.permissionId), p);
    }
  }

  lemma {:induction false} OverlayIs(keys: set<string>, permissions: seq<Permission>, overrides: seq<Override>,
                                     user: string, p: Permission)
    requires IsCatalogue(permissions) && OverridesRefer(overrides, permissions) && p in permissions
    ensures
      var override := OverrideOf(overrides, user, p.id);
      p.key in Overlay(keys, permissions, overrides, user) <==> if override.Some? then override.value else p.key in keys
  {
    if overrides != [] {
      var init, last := overrides[..|overrides| - 1], overrides[|overrides| - 1];
      OverlayIs(keys, permissions, init, user, p);
      KeysTellApart(permissions, PermissionOf(permissions, last.permissionId), p);
    }
  }

  lemma {:induction false} OverlayStaysInCatalogue(keys: set<string>, permissions: seq<Permission>,
                                                   overrides: seq<Override>, user: string, key: string)
    requires OverridesRefer(overrides, permissions) && key in Overlay(keys, permissions, overrides, user)
             && key !in keys
    ensures exists p <- permissions :: p.key == key
  {
    var init, last := overrides[..|overrides| - 1], overrides[|overrides| - 1];
    if key in Overlay(keys, permissions, init, user) {
      OverlayStaysInCatalogue(keys, permissions, init, user, key);
    } else {
      assert PermissionOf(permissions, last.permissionId) in permissions;
    }
  }

  // ----- any order -----

  lemma {:induction false} OverrideOfRow(overrides: seq<Override>, user: string, permissionId: string, allowed: bool)
    requires OnePerUser(overrides)
    ensures OverrideOf(overrides, user, permissionId) == Some(allowed) <==>
            Override(user, permissionId, allowed) in overrides
  {
    if overrides != [] {
      var init := overrides[..|overrides| - 1];
      var last := overrides[|overrides| - 1];
      assert overrides == init + [last];
      assert forall o <- init :: OverrideKey()(o) != OverrideKey()(last);
      OverrideOfRow(init, user, permissionId, allowed);
    }
  }

  lemma SameOverride(overrides: seq<Override>, others: seq<Override>, user: string, permissionId: string)
    requires OnePerUser(overrides) && OnePerUser(others)
    requires forall allowed ::
               Override(user, permissionId, allowed) in overrides <==> Override(user, permissionId, allowed) in others
    ensures OverrideOf(overrides, user, permissionId) == OverrideOf(others, user, permissionId)
  {
    var here, there := OverrideOf(overrides, user, permissionId), OverrideOf(others, user, permissionId);
    if here.Some? {
      OverrideOfRow(overrides, user, permissionId, here.value);
      OverrideOfRow(others, user, permissionId, here.value);
    } else if there.Some? {
      OverrideOfRow(others, user, permissionId, there.value);
      OverrideOfRow(overrides, user, permissionId, there.value);
    }
  }

  lemma SameRowsSameOverride(overrides: seq<Override>, reordered: seq<Override>, user: string, permissionId: string)
    requires OnePerUser(overrides) && OnePerUser(reordered) && multiset(overrides) == multiset(reordered)
    ensures OverrideOf(overrides, user, permissionId) == OverrideOf(reordered, user, permissionId)
  {
    forall o: Override
      ensures o in overrides <==> o in reordered
    {
      assert o in overrides <==> o in multiset(overrides);
      assert o in reordered <==> o in multiset(reordered);
    }
    SameOverride(overrides, reordered, user, permissionId);
  }

  lemma LoginAgreesWithRows(permissions: seq<Permission>, roles: seq<RolePermission>, role: string,
                            overrides: seq<Override>, reordered: seq<Override>, user: string, key: string)
    requires IsCatalogue(permissions) && RolesRefer(roles, permissions) && OverridesRefer(reordered, permissions)
    requires OnePerUser(overrides) && multiset(overrides) == multiset(reordered)
    ensures key in Overlay(Granted(permissions, roles, role), permissions, reordered, user) <==>
            exists p <- permissions :: p.key == key && RowOf(p, roles, role, overrides, user).effective
  {
    PermutationIsDistinct(overrides, reordered, OverrideKey());
    var granted := Granted(permissions, roles, role);
    var login := Overlay(granted, permissions, reordered, user);
    forall p <- permissions
      ensures p.key in login <==> RowOf(p, roles, role, overrides, user).effective
    {
      GrantedIs(permissions, roles, role, p);
      OverlayIs(granted, permissions, reordered, user, p);
      SameRowsSameOverride(overrides, reordered, user, p.id);
    }
    if key in login && key !in granted {
      OverlayStaysInCatalogue(granted, permissions, reordered, user, key);
    }
  }

  /**
   The login set holds exactly the keys that the table shows as effective, in whatever order the two read the
   overrides.
   */
  lemma LoginAgreesWithTable(permissions: seq<Permission>, roles: seq<RolePermission>,
                             tenantUsers: map<string, TenantUser>, overrides: seq<Override>,
                             reordered: seq<Override>, user: string, key: string)
    requires IsCatalogue(permissions) && RolesRefer(roles, permissions) && OverridesRefer(reordered, permissions)
    requires OnePerUser(overrides) && multiset(overrides) == multiset(reordered) && user in tenantUsers
    ensures
      var table := UserPermissions(permissions, roles, tenantUsers, overrides, tenantUsers[user].tenant, user);
      && table.Success?
      && (key in Overlay(Granted(permissions, roles, tenantUsers[user].role), permissions, reordered, user) <==>
          exists row <- table.value :: row.key == key && row.effective)
  {
    var role := tenantUsers[user].role;
    LoginAgreesWithRows(permissions, roles, role, overrides, reordered, user, key);
    var table := UserPermissions(permissions, roles, tenantUsers, overrides, tenantUsers[user].tenant, user).value;
    assert forall i | 0 <= i < |permissions| :: table[i] == RowOf(permissions[i], roles, role, overrides, user);
    if exists p <- permissions :: p.key == key && RowOf(p, roles, role, overrides, user).effective {
      var i :| 0 <= i < |permissions| && permissions[i].key == key
               && RowOf(permissions[i], roles, role, overrides, user).effective;
      assert table[i] in table;
    }
  }

  /** One row for each permission, in order: what the role grants, what the user's override says, and which holds. */
  lemma TableMeans(permissions: seq<Permission>, roles: seq<RolePermission>, tenantUsers: map<string, TenantUser>,
                   overrides: seq<Override>, tenant: string, user: string)
    requires OnePerUser(overrides)
    ensures
      match UserPermissions(permissions, roles, tenantUsers, overrides, tenant, user)
      case Failure(e) => e == UserNotFound && (user in tenantUsers ==> tenantUsers[user].tenant != tenant)
      case Success(rows) =>
        && user in tenantUsers && tenantUsers[user].tenant == tenant && |rows| == |permissions|
        && forall i | 0 <= i < |rows| ::
             RowTells(rows[i], permissions[i], roles, tenantUsers[user].role, overrides, user)
  {
    if user in tenantUsers && tenantUsers[user].tenant == tenant {
      forall p <- permissions
        ensures RowTells(RowOf(p, roles, tenantUsers[user].role, overrides, user), p, roles, tenantUsers[user].role,
                         overrides, user)
      {
        OverrideOfRow(overrides, user, p.id, true);
        OverrideOfRow(overrides, user, p.id, false);
      }
    }
  }

  predicate RowTells(row: Row, p: Permission, roles: seq<RolePermission>, role: string, overrides: seq<Override>,
                     user: string)
  {
    && row.id == p.id && row.key == p.key && (row.roleDefault <==> RolePermission(role, p.id) in roles)
    && (row.override == Some(true) <==> Override(user, p.id, true) in overrides)
    && (row.override == Some(false) <==> Override(user, p.id, false) in overrides)
    && (row.effective <==> row.override == Some(true) || (row.override.None? && row.roleDefault))
  }

  // ----- updates -----

  /** A decision about one permission of one user; None clears it. */
  datatype Update = Update(tenant: string, user: string, key: string, allowed: Option<bool>)

  function IndexOfOverride(overrides: seq<Override>, user: string, permissionId: string): (i: nat)
    ensures i <= |overrides|
    ensures i < |overrides| ==> overrides[i].user == user && overrides[i].permissionId == permissionId
    ensures forall j | 0 <= j < i :: overrides[j].user != user || overrides[j].permissionId != permissionId
  {
    if overrides == [] || (overrides[0].user == user && overrides[0].permissionId == permissionId) then 0
    else 1 + IndexOfOverride(overrides[1..], user, permissionId)
  }

  function Upsert(overrides: seq<Override>, row: Override): seq<Override> {
    var i := IndexOfOverride(overrides, row.user, row.permissionId);
    if i < |overrides| then overrides[i := row] else overrides + [row]
  }

  function Delete(overrides: seq<Override>, user: string, permissionId: string): seq<Override> {
    if overrides == [] then []
    else
      var last, rest := overrides[|overrides| - 1], Delete(overrides[..|overrides| - 1], user, permissionId);
      if last.user == user && last.permissionId == permissionId then rest else rest + [last]
  }

  function FindByKey(permissions: seq<Permission>, key: string): (r: Option<Permission>)
    ensures r.Some? ==> r.value in permissions && r.value.key == key
    ensures r.None? ==> forall p <- permissions :: p.key != key
  {
    if permissions == [] then None
    else if permissions[0].key == key then Some(permissions[0])
    else FindByKey(permissions[1..], key)
  }

  function Decide(permissions: seq<Permission>, tenantUsers: map<string, TenantUser>, overrides: seq<Override>,
                  u: Update)
    : Result<seq<Override>, Error> {
    if u.user !in tenantUsers || tenantUsers[u.user].tenant != u.tenant then Failure(UserNotFound)
    else
      match FindByKey(permissions, u.key)
      case None => Failure(PermissionNotFound)
      case Some(p) =>
        Success(match u.allowed
                case None => Delete(overrides, u.user, p.id)
                case Some(allowed) => Upsert(overrides, Override(u.user, p.id, allowed)))
  }

  /** An update is refused for a user of another tenant, or a key that no permission has. */
  lemma DecisionRefused(permissions: seq<Permission>, tenantUsers: map<string, TenantUser>, overrides: seq<Override>,
                        u: Update)
    ensures
      match Decide(permissions, tenantUsers, overrides, u)
      case Failure(e) =>
        || (e == UserNotFound && (u.user in tenantUsers ==> tenantUsers[u.user].tenant != u.tenant))
        || (e == PermissionNotFound && forall p <- permissions :: p.key != u.key)
      case Success(_) =>
        u.user in tenantUsers && tenantUsers[u.user].tenant == u.tenant && exists p <- permissions :: p.key == u.key
  {
  }

  /** A run of updates; a refused one changes nothing. */
  function AfterUpdates(permissions: seq<Permission>, tenantUsers: map<string, TenantUser>, updates: seq<Update>)
    : seq<Override> {
    if updates == [] then []
    else
      var before := AfterUpdates(permissions, tenantUsers, updates[..|updates| - 1]);
      match Decide(permissions, tenantUsers, before, updates[|updates| - 1])
      case Success(after) => after
      case Failure(_) => before
  }

  /** The last decision taken about a key of a user of the tenant; None when none was, or it was cleared last. */
  function LastDecision(updates: seq<Update>, tenant: string, user: string, key: string): Option<bool> {
    if updates == [] then None
    else
      var last := updates[|updates| - 1];
      if last.tenant == tenant && last.user == user && last.key == key then last.allowed
      else LastDecision(updates[..|updates| - 1], tenant, user, key)
  }

  lemma UpsertRows(overrides: seq<Override>, row: Override)
    requires OnePerUser(overrides)
    ensures OnePerUser(Upsert(overrides, row)) && row in Upsert(overrides, row)
    ensures forall o: Override | OverrideKey()(o) != OverrideKey()(row) :: o in Upsert(overrides, row) <==>
            o in overrides
  {
    var after := Upsert(overrides, row);
    var i := IndexOfOverride(overrides, row.user, row.permissionId);
    assert after[i] == row;
    assert forall k | 0 <= k < |overrides| && k != i :: after[k] == overrides[k];
    assert forall k | 0 <= k < |overrides| && k != i :: OverrideKey()(overrides[k]) != OverrideKey()(row) by {
      assert forall k | i < k < |overrides| :: OverrideKey()(overrides[i]) != OverrideKey()(overrides[k]);
    }
    forall o: Override | o in overrides && OverrideKey()(o) != OverrideKey()(row)
      ensures o in after
    {
      var k :| 0 <= k < |overrides| && overrides[k] == o;
      assert after[k] == o;
    }
  }

  lemma UpsertSets(overrides: seq<Override>, row: Override, user: string, permissionId: string)
    requires OnePerUser(overrides)
    ensures OnePerUser(Upsert(overrides, row))
    ensures OverrideOf(Upsert(overrides, row), user, permissionId) ==
            if user == row.user && permissionId == row.permissionId then Some(row.allowed)
            else OverrideOf(overrides, user, permissionId)
  {
    UpsertRows(overrides, row);
    if user == row.user && permissionId == row.permissionId {
      OverrideOfRow(Upsert(overrides, row), user, permissionId, row.allowed);
    } else {
      forall allowed: bool
        ensures Override(user, permissionId, allowed) in Upsert(overrides, row) <==>
                Override(user, permissionId, allowed) in overrides
      {
        assert OverrideKey()(Override(user, permissionId, allowed)) != OverrideKey()(row);
      }
      SameOverride(Upsert(overrides, row), overrides, user, permissionId);
    }
  }

  lemma {:induction false} DeleteRows(overrides: seq<Override>, user: string, permissionId: string)
    requires OnePerUser(overrides)
    ensures OnePerUser(Delete(overrides, user, permissionId))
    ensures forall o :: o in Delete(overrides, user, permissionId) <==>
                        o in overrides && !(o.user == user && o.permissionId == permissionId)
  {
    if overrides != [] {
      var init, last := overrides[..|overrides| - 1], overrides[|overrides| - 1];
      assert overrides == init + [last];
      DeleteRows(init, user, permissionId);
      var rest := Delete(init, user, permissionId);
      forall i | 0 <= i < |rest|
        ensures OverrideKey()(rest[i]) != OverrideKey()(last)
      {
        assert rest[i] in init;
      }
    }
  }

  lemma DeleteClears(overrides: seq<Override>, atUser: string, atPermission: string, user: string, permissionId: string)
    requires OnePerUser(overrides)
    ensures OnePerUser(Delete(overrides, atUser, atPermission))
    ensures OverrideOf(Delete(overrides, atUser, atPermission), user, permissionId) ==
            if user == atUser && permissionId == atPermission then None else OverrideOf(overrides, user, permissionId)
  {
    DeleteRows(overrides, atUser, atPermission);
    var after := Delete(overrides, atUser, atPermission);
    if user == atUser && permissionId == atPermission {
      if OverrideOf(after, user, permissionId).Some? {
        OverrideOfRow(after, user, permissionId, OverrideOf(after, user, permissionId).value);
      }
    } else {
      SameOverride(after, overrides, user, permissionId);
    }
  }

  /** After any run of updates a user's override for a permission is the last decision taken about it. */
  lemma {:induction false} OverrideIsLastDecision(permissions: seq<Permission>, tenantUsers: map<string, TenantUser>,
                                                  updates: seq<Update>, user: string, p: Permission)
    requires IsCatalogue(permissions) && p in permissions && user in tenantUsers
    ensures OnePerUser(AfterUpdates(permissions, tenantUsers, updates))
    ensures OverridesRefer(AfterUpdates(permissions, tenantUsers, updates), permissions)
    ensures OverrideOf(AfterUpdates(permissions, tenantUsers, updates), user, p.id) ==
            LastDecision(updates, tenantUsers[user].tenant, user, p.key)
  {
    if updates != [] {
      var init, u := updates[..|updates| - 1], updates[|updates| - 1];
      OverrideIsLastDecision(permissions, tenantUsers, init, user, p);
      DecideSets(permissions, tenantUsers, AfterUpdates(permissions, tenantUsers, init), u, user, p);
    }
  }

  lemma DecideSets(permissions: seq<Permission>, tenantUsers: map<string, TenantUser>, overrides: seq<Override>,
                   u: Update, user: string, p: Permission)
    requires IsCatalogue(permissions) && p in permissions && user in tenantUsers
    requires OnePerUser(overrides) && OverridesRefer(overrides, permissions)
    ensures
      var r := Decide(permissions, tenantUsers, overrides, u);
      var after := if r.Success? then r.value else overrides;
      && OnePerUser(after) && OverridesRefer(after, permissions)
      && OverrideOf(after, user, p.id) ==
         if u.tenant == tenantUsers[user].tenant && u.user == user && u.key == p.key then u.allowed
         else OverrideOf(overrides, user, p.id)
  {
    if FindByKey(permissions, u.key).Some? {
      var q := FindByKey(permissions, u.key).value;
      KeysTellApart(permissions, p, q);
      if u.allowed.Some? {
        UpsertSets(overrides, Override(u.user, q.id, u.allowed.value), user, p.id);
      } else {
        DeleteClears(overrides, u.user, q.id, user, p.id);
        DeleteRows(overrides, u.user, q.id);
      }
    }
  }

  /** So after any run of updates a login grants a permission by its last decision, else by the role's default. */
  lemma LoginIsLastDecision(permissions: seq<Permission>, roles: seq<RolePermission>,
                            tenantUsers: map<string, TenantUser>, updates: seq<Update>, user: string, p: Permission)
    requires IsCatalogue(permissions) && RolesRefer(roles, permissions) && p in permissions && user in tenantUsers
    ensures OverridesRefer(AfterUpdates(permissions, tenantUsers, updates), permissions)
    ensures
      var decision := LastDecision(updates, tenantUsers[user].tenant, user, p.key);
      var role := tenantUsers[user].role;
      p.key in Overlay(Granted(permissions, roles, role), permissions, AfterUpdates(permissions, tenantUsers, updates),
                       user)
      <==> if decision.Some? then decision.value else HasByRole(roles, role, p.id)
  {
    OverrideIsLastDecision(permissions, tenantUsers, updates, user, p);
    GrantedIs(permissions, roles, tenantUsers[user].role, p);
    OverlayIs(Granted(permissions, roles, tenantUsers[user].role), permissions,
              AfterUpdates(permissions, tenantUsers, updates), user, p);
  }

  // ----- as the services run it -----

  class PermissionTables {
    const permissions: seq<Permission>
    const roles: seq<RolePermission>
    const tenantUsers: map<string, TenantUser>
    var overrides: seq<Override>

    ghost predicate Valid()
      reads this
    {
      IsCatalogue(permissions) && RolesRefer(roles, permissions) && OverridesRefer(overrides, permissions)
        && OnePerUser(overrides)
    }

    constructor (permissions: seq<Permission>, roles: seq<RolePermission>, tenantUsers: map<string, TenantUser>)
      requires IsCatalogue(permissions) && RolesRefer(roles, permissions)
      ensures Valid() && overrides == []
      ensures this.permissions == permissions && this.roles == roles && this.tenantUsers == tenantUsers
    {
      this.permissions, this.roles, this.tenantUsers, overrides := permissions, roles, tenantUsers, [];
    }

    method UpdateUserPermission(u: Update) returns (r: Result<(), Error>)
      requires Valid()
      modifies this
      ensures Valid()
      ensures
        match Decide(permissions, tenantUsers, old(overrides), u)
        case Success(after) => r == Success(()) && overrides == after
        case Failure(e) => r == Failure(e) && overrides == old(overrides)
    {
      if u.user !in tenantUsers || tenantUsers[u.user].tenant != u.tenant { return Failure(UserNotFound); }
      var permission := FindByKey(permissions, u.key);
      if permission.None? { return Failure(PermissionNotFound); }
      DecideSets(permissions, tenantUsers, overrides, u, u.user, permission.value);
      if u.allowed.None? {
        overrides := Delete(overrides, u.user, permission.value.id);
      } else {
        overrides := Upsert(overrides, Override(u.user, permission.value.id, u.allowed.value));
      }
      r := Success(());
    }

    /** The keys a login puts in the token; `rows` is the override table in the order the query returns it. */
    method GetPermissionsForTenantUser(user: string, rows: seq<Override>) returns (keys: set<string>)
      requires Valid() && multiset(rows) == multiset(overrides) && user in tenantUsers
      ensures
        var table := UserPermissions(permissions, roles, tenantUsers, overrides, tenantUsers[user].tenant, user);
        table.Success? && forall key :: key in keys <==> exists row <- table.value :: row.key == key && row.effective
    {
      var role := tenantUsers[user].role;
      keys := Granted(permissions, roles, role);
      ghost var granted := keys;
      PermutationIsDistinct(overrides, rows, OverrideKey());
      SameRowsRefer(overrides, rows, permissions);
      var i := 0;
      while i < |rows|
        invariant 0 <= i <= |rows| && OverridesRefer(rows[..i], permissions)
        invariant keys == Overlay(granted, permissions, rows[..i], user)
      {
        assert rows[..i + 1][..i] == rows[..i];
        assert rows[i] in rows;
        if rows[i].user == user {
          var key := PermissionOf(permissions, rows[i].permissionId).key;
          if rows[i].allowed { keys := keys + {key}; } else { keys := keys - {key}; }
        }
        i := i + 1;
      }
      assert rows[..|rows|] == rows;
      forall key
        ensures
          var table := UserPermissions(permissions, roles, tenantUsers, overrides, tenantUsers[user].tenant, user);
          table.Success? && (key in keys <==> exists row <- table.value :: row.key == key && row.effective)
      {
        LoginAgreesWithTable(permissions, roles, tenantUsers, overrides, rows, user, key);
      }
    }
  }

  lemma SameRowsRefer(overrides: seq<Override>, reordered: seq<Override>, permissions: seq<Permission>)
    requires OverridesRefer(overrides, permissions) && multiset(overrides) == multiset(reordered)
    ensures OverridesRefer(reordered, permissions)
  {
    forall o <- reordered
      ensures RefersTo(permissions, o.permissionId)
    {
      assert o in multiset(overrides);
    }
  }
}
