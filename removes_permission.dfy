/** The RemovesPermission conductor (`Bouncer::disallow($model)->to(...)`):
    find the grantee without creating anything, collect the permission ids
    named by the operand (numeric ids, Permission models and names, or the
    row for a target), and detach them. */
module RemovesPermission {
  import opened Base
  import opened Database
  import opened PermissionModel
  import GivesPermission

  /** An element of the `$permissions` operand: an integer id, a name, or
      a Permission model (its key). */
  datatype Item = IntId(n: nat) | Str(s: string) | PermissionObject(id: nat)

  /** The operand: one element, or an array of them. */
  datatype Operand = Single(item: Item) | List(items: seq<Item>)

  /** With a target, the operand is a single name. */
  predicate WellFormedCall(operand: Operand, target: Option<Entity>)
  {
    target.Some? ==> operand.Single? && operand.item.Str?
  }

  /** `is_array($permissions) ? $permissions : [$permissions]`. */
  function Items(operand: Operand): seq<Item>
  {
    if operand.Single? then [operand.item] else operand.items
  }

  /** `filterNumericPermissions`: the integer elements. */
  function FilterNumericPermissions(items: seq<Item>): (r: seq<nat>)
    ensures forall n :: n in r <==> IntId(n) in items
    ensures |r| <= |items|
  {
    if items == [] then []
    else (if items[0].IntId? then [items[0].n] else []) + FilterNumericPermissions(items[1..])
  }

  /** The keys of the Permission models among the elements, in order. */
  function IdsFromModels(items: seq<Item>): (r: seq<nat>)
    ensures forall id :: id in r <==> PermissionObject(id) in items
  {
    if items == [] then []
    else
      var init := items[..|items| - 1];
      var last := items[|items| - 1];
      assert items == init + [last];
      IdsFromModels(init) + (if last.PermissionObject? then [last.id] else [])
  }

  /** The string elements (`array_filter($permissions, 'is_string')`). */
  function Strings(items: seq<Item>): (r: seq<string>)
    ensures forall s :: s in r <==> Str(s) in items
  {
    if items == [] then []
    else (if items[0].Str? then [items[0].s] else []) + Strings(items[1..])
  }

  /** `whereIn('name', $names)->lists('id')`: every row with one of the
      names, whatever its scope. */
  function NamedIds(ps: seq<Permission>, names: seq<string>): (r: seq<nat>)
    ensures forall id :: id in r <==> exists p :: p in ps && p.name in names && p.id == id
  {
    if ps == [] then []
    else (if ps[0].name in names then [ps[0].id] else []) + NamedIds(ps[1..], names)
  }

  /** `getPermissionIdsFromStrings`: no query at all when there is no name. */
  function GetPermissionIdsFromStrings(ps: seq<Permission>, items: seq<Item>): (r: seq<nat>)
    ensures Strings(items) == [] ==> r == []
    ensures forall id :: id in r <==> exists p :: p in ps && p.name in Strings(items) && p.id == id
  {
    var names := Strings(items);
    if |names| == 0 then [] else NamedIds(ps, names)
  }

  /** `getModelPermissionId`: the id of the row a strict lookup for the
      target finds. The target is used as given: an instance that does not
      exist is looked up like its class. */
  function GetModelPermissionId(ps: seq<Permission>, name: string, e: Entity): (r: Option<nat>)
    ensures r.Some? ==> exists p :: p in ps && p.name == name && ForModel(p, e, true) && p.id == r.value
    ensures r.None? <==> forall p :: p in ps ==> !(p.name == name && ForModel(p, e, true))
  {
    match FirstForModel(ps, name, e)
    case Some(p) => Some(p.id)
    case None => None
  }

  /** `getPermissionIds`, then the truthiness test of `to`: the ids to
      detach, empty when there is nothing to detach (a null or 0 id, or an
      empty array). */
  function IdsToDetach(ps: seq<Permission>, operand: Operand, target: Option<Entity>): (r: seq<nat>)
    requires WellFormedCall(operand, target)
    ensures target.Some? ==> |r| <= 1
    ensures target.Some? ==> r == (match GetModelPermissionId(ps, operand.item.s, target.value)
                                   case Some(id) => if id != 0 then [id] else []
                                   case None => [])
    ensures target.None? ==> forall id :: id in r <==>
      IntId(id) in Items(operand) || PermissionObject(id) in Items(operand)
      || exists p :: p in ps && p.name in Strings(Items(operand)) && p.id == id
  {
    if target.Some? then
      match GetModelPermissionId(ps, operand.item.s, target.value)
      case Some(id) => if id != 0 then [id] else []
      case None => []
    else
      var items := Items(operand);
      FilterNumericPermissions(items) + IdsFromModels(items) + GetPermissionIdsFromStrings(ps, items)
  }

  /** `to`: false, with nothing changed, when the grantee cannot be found;
      otherwise the ids are detached from it and the answer is true. No row
      of any table is created. */
  function RevokeEffect(db: Db, g: Grantee, operand: Operand, target: Option<Entity>): (r: (bool, Db))
    requires WellFormedCall(operand, target)
    ensures r.0 <==> ExistingOwner(db, g).Some?
    ensures r.1 == db.(permissionUser := r.1.permissionUser, permissionRole := r.1.permissionRole)
    ensures r.0 ==> forall o, pid :: Linked(r.1, o, pid) <==>
      Linked(db, o, pid) && !(o == ExistingOwner(db, g).value && pid in IdsToDetach(db.permissions, operand, target))
    ensures !r.0 ==> r.1 == db
  {
    match ExistingOwner(db, g)
    case None => (false, db)
    case Some(owner) =>
      var ids := IdsToDetach(db.permissions, operand, target);
      (true, if |ids| > 0 then DetachAll(db, owner, ids) else db)
  }

  /** Revoking leaves a valid store valid: only link rows go. */
  lemma RevokeConsistent(db: Db, g: Grantee, operand: Operand, target: Option<Entity>)
    requires WellFormedCall(operand, target)
    requires Consistent(db)
    ensures Consistent(RevokeEffect(db, g, operand, target).1)
  {
    var r := RevokeEffect(db, g, operand, target).1;
    assert r.permissions == db.permissions && r.roles == db.roles;
  }

  /** Revoking is idempotent. */
  lemma RevokeIdempotent(db: Db, g: Grantee, operand: Operand, target: Option<Entity>)
    requires WellFormedCall(operand, target)
    ensures var first := RevokeEffect(db, g, operand, target);
      RevokeEffect(first.1, g, operand, target) == first
  {
    var first := RevokeEffect(db, g, operand, target);
    var second := RevokeEffect(first.1, g, operand, target);
    assert ExistingOwner(first.1, g) == ExistingOwner(db, g);
    assert first.1.permissions == db.permissions;
    if first.0 {
      forall pair: (nat, nat) ensures pair in second.1.permissionUser <==> pair in first.1.permissionUser {
        assert Linked(second.1, UserOwner(pair.1), pair.0) <==> Linked(first.1, UserOwner(pair.1), pair.0);
      }
      forall pair: (nat, nat) ensures pair in second.1.permissionRole <==> pair in first.1.permissionRole {
        assert Linked(second.1, RoleOwner(pair.1), pair.0) <==> Linked(first.1, RoleOwner(pair.1), pair.0);
      }
      assert second.1 == first.1;
    }
  }

  /** Unlike granting, revoking from a role name that has no role answers
      false and creates no role. */
  lemma RevokeFromUnknownRole(db: Db, name: string, operand: Operand, target: Option<Entity>)
    requires WellFormedCall(operand, target)
    requires forall x :: x in db.roles ==> x.name != name
    ensures RevokeEffect(db, RoleName(name), operand, target) == (false, db)
  {
  }

  /** Revoking a name without a target unlinks every row of that name,
      simple or scoped to an entity. */
  lemma RevokeNameUnlinksAllScopes(db: Db, g: Grantee, name: string)
    requires ExistingOwner(db, g).Some?
    ensures var r := RevokeEffect(db, g, Single(Str(name)), None);
      forall p :: p in db.permissions && p.name == name ==> !Linked(r.1, ExistingOwner(db, g).value, p.id)
  {
    forall p | p in db.permissions && p.name == name
      ensures p.id in IdsToDetach(db.permissions, Single(Str(name)), None)
    {
      assert Strings(Items(Single(Str(name)))) == [name];
    }
  }

  /** Revoking a name on an existing instance unlinks only the row for
      that instance: a blanket row for the whole class stays linked. */
  lemma RevokeOnInstanceKeepsBlanket(db: Db, g: Grantee, name: string, morph: string, key: nat, blanket: Permission)
    requires Consistent(db)
    requires ExistingOwner(db, g).Some?
    requires blanket in db.permissions && blanket.name == name
    requires blanket.entityType == Some(morph) && blanket.entityId.None?
    ensures var r := RevokeEffect(db, g, Single(Str(name)), Some(Model(morph, true, key)));
      Linked(r.1, ExistingOwner(db, g).value, blanket.id) <==> Linked(db, ExistingOwner(db, g).value, blanket.id)
  {
    var e := Model(morph, true, key);
    var ids := IdsToDetach(db.permissions, Single(Str(name)), Some(e));
    forall id | id in ids ensures id != blanket.id {
      var found := FirstForModel(db.permissions, name, e);
      assert found.Some? && id == found.value.id;
      assert found.value.entityId == Some(key);
      var i :| 0 <= i < |db.permissions| && db.permissions[i] == found.value;
      var j :| 0 <= j < |db.permissions| && db.permissions[j] == blanket;
      assert i != j;
    }
  }

  /** Revoking a name on a target unlinks the one row a strict lookup for
      the target finds, and nothing else: the instance row when the target
      is a persisted model, the blanket row for the class when it is a
      class name or an unsaved model. A row with the falsy id 0 is not
      detached. */
  lemma RevokeTargetedUnlinksFound(db: Db, g: Grantee, name: string, e: Entity)
    requires ExistingOwner(db, g).Some?
    ensures var owner := ExistingOwner(db, g).value;
      var r := RevokeEffect(db, g, Single(Str(name)), Some(e)).1;
      match FirstForModel(db.permissions, name, e)
      case None => r == db
      case Some(p) =>
        && p.name == name && p.entityType == Some(e.morphClass)
        && (Exists(e) ==> p.entityId == Some(e.key))
        && (!Exists(e) ==> p.entityId.None?)
        && forall o, pid :: Linked(r, o, pid) <==> Linked(db, o, pid) && !(o == owner && pid == p.id && p.id != 0)
  {
    var ids := IdsToDetach(db.permissions, Single(Str(name)), Some(e));
    match FirstForModel(db.permissions, name, e)
    case None =>
      assert ids == [];
    case Some(p) =>
      assert GetModelPermissionId(db.permissions, name, e) == Some(p.id);
      assert forall pid :: pid in ids <==> pid == p.id && p.id != 0;
  }

  /** Revoking, without a target, a name just granted without a target
      leaves the owner linked to no row of that name; every other link is
      as the grant left it. */
  lemma RevokeAfterGrant(db: Db, g: Grantee, name: string)
    ensures var granted := GivesPermission.GrantEffect(db, g, GivesPermission.Name(name), None).1;
      var revoked := RevokeEffect(granted, g, Single(Str(name)), None);
      var owner := ExistingOwner(granted, g).value;
      && revoked.0
      && (forall p :: p in revoked.1.permissions && p.name == name ==> !Linked(revoked.1, owner, p.id))
      && (forall o, pid :: o != owner ==> (Linked(revoked.1, o, pid) <==> Linked(granted, o, pid)))
  {
    var granted := GivesPermission.GrantEffect(db, g, GivesPermission.Name(name), None).1;
    GivesPermission.GrantLinks(db, g, GivesPermission.Name(name), None);
    RevokeNameUnlinksAllScopes(granted, g, name);
  }

  // ---------------------------------------------------------------------
  // The conductor

  class RemovesPermission {
    const model: Grantee

    constructor (model: Grantee)
      ensures this.model == model
    {
      this.model := model;
    }

    /** `to`: remove the permissions (optionally on a target) from the model. */
    method To(store: Store, operand: Operand, target: Option<Entity>) returns (b: bool)
      requires WellFormedCall(operand, target)
      modifies store
      ensures (b, store.State()) == RevokeEffect(old(store.State()), model, operand, target)
    {
      var owner := GetModel(store);
      if owner.None? {
        return false;
      }
      var ids := GetPermissionIds(store, operand, target);
      if |ids| > 0 {
        store.Detach(owner.value, ids);
      }
      return true;
    }

    /** `getModel`: the model, or the role of that name if there is one. */
    method GetModel(store: Store) returns (owner: Option<Owner>)
      ensures owner == ExistingOwner(store.State(), model)
      ensures model.RoleName? ==> (owner.Some? <==> exists x :: x in store.roles && x.name == model.name)
    {
      match model
      case UserModel(k) =>
        owner := Some(UserOwner(k));
      case RoleModel(id) =>
        owner := Some(RoleOwner(id));
      case RoleName(n) =>
        var found := RoleNamed(store.roles, n);
        owner := if found.Some? then Some(RoleOwner(found.value.id)) else None;
    }

    /** `getPermissionIds` followed by the truthiness test of `to`. */
    method GetPermissionIds(store: Store, operand: Operand, target: Option<Entity>) returns (ids: seq<nat>)
      requires WellFormedCall(operand, target)
      ensures ids == IdsToDetach(store.permissions, operand, target)
    {
      if target.Some? {
        var id := GetModelPermissionId(store.permissions, operand.item.s, target.value);
        ids := if id.Some? && id.value != 0 then [id.value] else [];
        return;
      }
      var items := Items(operand);
      var fromModels := GetPermissionIdsFromModels(items);
      ids := FilterNumericPermissions(items) + fromModels + GetPermissionIdsFromStrings(store.permissions, items);
    }

    /** `getPermissionIdsFromModels`: the keys of the Permission models, in
        the order they appear. */
    method GetPermissionIdsFromModels(items: seq<Item>) returns (ids: seq<nat>)
      ensures ids == IdsFromModels(items)
      ensures forall id :: id in ids <==> PermissionObject(id) in items
    {
      ids := [];
      for i := 0 to |items|
        invariant ids == IdsFromModels(items[..i])
      {
        assert items[..i + 1][..i] == items[..i];
        if items[i].PermissionObject? {
          ids := ids + [items[i].id];
        }
      }
      assert items[..|items|] == items;
    }
  }
}
