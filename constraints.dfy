/** The `whereCan` query scopes: which users and which roles have a
    permission of a given name, optionally on a target. Names are compared
    exactly, and the target is matched with the non-strict `forModel`. */
module Constraints {
  import opened Base
  import opened Text
  import opened Database
  import opened PermissionModel
  import Clipboard

  /** `getPermissionConstraint`: the name, exactly, and with a target the
      non-strict `forModel` scope. */
  predicate PermissionConstraint(p: Permission, permission: string, model: Option<Entity>)
    ensures PermissionConstraint(p, permission, model) ==> p.name == permission
    ensures model.Some? && PermissionConstraint(p, permission, model) ==> p.entityType == Some(model.value.morphClass)
    ensures model.Some? && p.name == permission && ForModel(p, model.value, true) ==> PermissionConstraint(p, permission, model)
  {
    p.name == permission && (model.Some? ==> ForModel(p, model.value, false))
  }

  /** What `getPermissionConstraint` accepts, case by case: any scope with
      no target; with a target its blanket row, or its instance row when it
      exists. */
  lemma PermissionConstraintCases(p: Permission, permission: string, model: Option<Entity>)
    ensures model.None? ==> (PermissionConstraint(p, permission, model) <==> p.name == permission)
    ensures model.Some? && !Exists(model.value) ==>
      (PermissionConstraint(p, permission, model) <==>
        p.name == permission && p.entityType == Some(model.value.morphClass) && p.entityId.None?)
    ensures model.Some? && Exists(model.value) ==>
      (PermissionConstraint(p, permission, model) <==>
        p.name == permission && p.entityType == Some(model.value.morphClass)
        && (p.entityId.None? || p.entityId == Some(model.value.key)))
  {
  }

  /** The role has a permission row satisfying the constraint linked in
      permission_role (`whereHas('permissions', ...)` on a role). */
  predicate RoleHasPermission(db: Db, roleId: nat, permission: string, model: Option<Entity>)
  {
    exists p :: p in db.permissions && (p.id, roleId) in db.permissionRole && PermissionConstraint(p, permission, model)
  }

  /** `constrainRoles`: the roles with a matching permission, in table order. */
  function ConstrainRoles(roles: seq<Role>, db: Db, permission: string, model: Option<Entity>): (r: seq<Role>)
    ensures forall x :: x in r <==> x in roles && RoleHasPermission(db, x.id, permission, model)
  {
    if roles == [] then []
    else
      (if RoleHasPermission(db, roles[0].id, permission, model) then [roles[0]] else [])
      + ConstrainRoles(roles[1..], db, permission, model)
  }

  /** `getRoleConstraint`: the user holds a role (role_user) that has a
      matching permission. */
  predicate RoleConstraint(db: Db, user: nat, permission: string, model: Option<Entity>)
    ensures RoleConstraint(db, user, permission, model) <==>
      exists x :: x in ConstrainRoles(db.roles, db, permission, model) && (x.id, user) in db.roleUser
  {
    exists x :: x in db.roles && (x.id, user) in db.roleUser && RoleHasPermission(db, x.id, permission, model)
  }

  /** The user has a matching permission linked in permission_user. */
  predicate UserHasPermission(db: Db, user: nat, permission: string, model: Option<Entity>)
  {
    exists p :: p in db.permissions && (p.id, user) in db.permissionUser && PermissionConstraint(p, permission, model)
  }

  /** `constrainUsers`: the users with a matching permission directly or
      through one of their roles, in table order. */
  function ConstrainUsers(users: seq<nat>, db: Db, permission: string, model: Option<Entity>): (r: seq<nat>)
    ensures forall u :: u in r <==>
      u in users && (UserHasPermission(db, u, permission, model) || RoleConstraint(db, u, permission, model))
  {
    if users == [] then []
    else
      var u := users[0];
      (if UserHasPermission(db, u, permission, model) || RoleConstraint(db, u, permission, model) then [u] else [])
      + ConstrainUsers(users[1..], db, permission, model)
  }

  /** `whereCan` agrees with the resolver's permission list: a user of the
      users table is selected exactly when one of the rows `getPermissions`
      returns for that user satisfies the constraint. */
  lemma ConstrainUsersMatchesGetPermissions(db: Db, user: nat, permission: string, model: Option<Entity>)
    requires user in db.users
    ensures user in ConstrainUsers(db.users, db, permission, model) <==>
      exists p :: p in Clipboard.GetPermissions(db, user) && PermissionConstraint(p, permission, model)
  {
    var granted := Clipboard.GetPermissions(db, user);
    if user in ConstrainUsers(db.users, db, permission, model) {
      if UserHasPermission(db, user, permission, model) {
        var p :| p in db.permissions && (p.id, user) in db.permissionUser && PermissionConstraint(p, permission, model);
        assert Clipboard.GrantedDirectly(db, user, p.id);
        assert p in granted;
      } else {
        var x :| x in db.roles && (x.id, user) in db.roleUser && RoleHasPermission(db, x.id, permission, model);
        var p :| p in db.permissions && (p.id, x.id) in db.permissionRole && PermissionConstraint(p, permission, model);
        assert Clipboard.GrantedThroughRole(db, user, p.id);
        assert p in granted;
      }
    }
    if exists p :: p in granted && PermissionConstraint(p, permission, model) {
      var p :| p in granted && PermissionConstraint(p, permission, model);
      if Clipboard.GrantedDirectly(db, user, p.id) {
        assert UserHasPermission(db, user, permission, model);
      } else {
        var x :| x in db.roles && (p.id, x.id) in db.permissionRole && (x.id, user) in db.roleUser;
        assert RoleHasPermission(db, x.id, permission, model);
        assert RoleConstraint(db, user, permission, model);
      }
    }
  }

  /** With a target whose class name is truthy, every row the constraint
      accepts also answers the resolver's check for the same action. */
  lemma TargetConstraintImpliesMatch(p: Permission, action: string, e: Entity)
    requires TruthyString(Some(e.morphClass))
    requires PermissionConstraint(p, action, Some(e))
    ensures Clipboard.Matches(p, action, Some(e))
  {
    var ids := Clipboard.CompilePermissionIdentifiers(action, Some(e));
    if p.entityId.None? || p.entityId == Some(0) {
      assert Identifier(p) == Identifier(RowForModel(0, action, ClassName(e.morphClass)));
      assert Identifier(p) == ids[0];
    } else {
      assert Exists(e) && p.entityId == Some(e.key) && e.key != 0;
      assert Identifier(p) == Identifier(RowForModel(0, action, e));
      assert Identifier(p) == ids[1];
    }
  }

  /** Without a target the constraint is wider than the resolver's check:
      a row scoped to one instance satisfies `whereCan('edit')` although it
      does not answer `check('edit')`. */
  lemma ConstraintWiderThanCheck()
    ensures var p := Permission(1, "edit", Some("posts"), Some(3));
      PermissionConstraint(p, "edit", None) && !Clipboard.Matches(p, "edit", None)
  {
    var p := Permission(1, "edit", Some("posts"), Some(3));
    var ids := Clipboard.CompilePermissionIdentifiers("edit", None);
    assert ids == [Lower("edit")];
    assert |Identifier(p)| > |Lower("edit")|;
  }

  /** Names are compared exactly: a row named "Edit" does not satisfy the
      constraint for "edit", although it answers the check for "edit". */
  lemma ConstraintIsCaseSensitive()
    ensures var p := Permission(1, "Edit", None, None);
      !PermissionConstraint(p, "edit", None) && Clipboard.Matches(p, "edit", None)
  {
    var p := Permission(1, "Edit", None, None);
    assert "Edit" != "edit" by { assert "Edit"[0] != "edit"[0]; }
    assert Lower("Edit") == Lower("edit") by {
      assert "Edit" == ['E'] + "dit" && "edit" == ['e'] + "dit";
      LowerAppend(['E'], "dit");
      LowerAppend(['e'], "dit");
      assert Lower(['E']) == [LowerChar('E')] == ['e'];
      assert Lower(['e']) == ['e'];
    }
    Clipboard.SimpleGrantScope(p, "edit");
  }
}
