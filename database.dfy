/** The relational state the core works on: the permissions and roles
    tables, the users table (only its keys), and the three link tables
    role_user, permission_user and permission_role, together with the
    uniqueness constraints the schema declares. */
module Database {
  import opened Base

  /** A permissions row. `entityType` and `entityId` are the nullable
      scope columns: both null for a simple permission, only the type for a
      blanket permission, both for an instance permission. */
  datatype Permission = Permission(id: nat, name: string, entityType: Option<string>, entityId: Option<nat>)

  datatype Role = Role(id: nat, name: string)

  /** The model a permission is linked to: a user (permission_user) or a
      role (permission_role). */
  datatype Owner = UserOwner(userId: nat) | RoleOwner(roleId: nat)

  /** What a conductor is built with: a user or role model, or a role name. */
  datatype Grantee = UserModel(key: nat) | RoleModel(id: nat) | RoleName(name: string)

  /** A snapshot of the store. Link sets hold (left key, right key) pairs:
      roleUser (role_id, user_id), permissionUser (permission_id, user_id),
      permissionRole (permission_id, role_id). Being sets, a pair is never
      stored twice, which is the composite unique index of each link table.
      The two counters are the auto-increment sequences of the id columns. */
  datatype Db = Db(
    permissions: seq<Permission>,
    roles: seq<Role>,
    users: seq<nat>,
    roleUser: set<(nat, nat)>,
    permissionUser: set<(nat, nat)>,
    permissionRole: set<(nat, nat)>,
    nextPermissionId: nat,
    nextRoleId: nat)

  /** Same (name, entity_type, entity_id) triple. */
  predicate SameScope(p: Permission, q: Permission)
  {
    p.name == q.name && p.entityType == q.entityType && p.entityId == q.entityId
  }

  /** Auto-increment ids start at 1 and lie below the next id to hand out;
      ids are unique, and so is the (name, entity_type, entity_id) triple. */
  ghost predicate PermissionsValid(ps: seq<Permission>, next: nat)
  {
    && 1 <= next
    && (forall i :: 0 <= i < |ps| ==> 1 <= ps[i].id < next)
    && (forall i, j :: 0 <= i < |ps| && 0 <= j < |ps| && i != j ==> ps[i].id != ps[j].id)
    && (forall i, j :: 0 <= i < |ps| && 0 <= j < |ps| && i != j ==> !SameScope(ps[i], ps[j]))
  }

  /** Role ids as for permissions; role names are unique. */
  ghost predicate RolesValid(rs: seq<Role>, next: nat)
  {
    && 1 <= next
    && (forall i :: 0 <= i < |rs| ==> 1 <= rs[i].id < next)
    && (forall i, j :: 0 <= i < |rs| && 0 <= j < |rs| && i != j ==> rs[i].id != rs[j].id)
    && (forall i, j :: 0 <= i < |rs| && 0 <= j < |rs| && i != j ==> rs[i].name != rs[j].name)
  }

  ghost predicate Consistent(db: Db)
  {
    PermissionsValid(db.permissions, db.nextPermissionId) && RolesValid(db.roles, db.nextRoleId)
  }

  /** Appending a row with the next id and a scope no stored row has keeps
      the permissions table valid. */
  lemma AppendPermissionValid(ps: seq<Permission>, next: nat, p: Permission)
    requires PermissionsValid(ps, next)
    requires p.id == next
    requires forall q :: q in ps ==> !SameScope(q, p)
    ensures PermissionsValid(ps + [p], next + 1)
  {
    var qs := ps + [p];
    forall i, j | 0 <= i < |qs| && 0 <= j < |qs| && i != j
      ensures qs[i].id != qs[j].id && !SameScope(qs[i], qs[j])
    {
      if i == |ps| {
        assert qs[j] in ps;
      } else if j == |ps| {
        assert qs[i] in ps;
      }
    }
  }

  /** Appending rows with consecutive fresh ids, whose scopes differ from
      each other and from every stored row, keeps the table valid. */
  lemma AppendRowsValid(ps: seq<Permission>, next: nat, rows: seq<Permission>)
    requires PermissionsValid(ps, next)
    requires forall k :: 0 <= k < |rows| ==> rows[k].id == next + k
    requires forall q, k :: q in ps && 0 <= k < |rows| ==> !SameScope(q, rows[k])
    requires forall k, l :: 0 <= k < |rows| && 0 <= l < |rows| && k != l ==> !SameScope(rows[k], rows[l])
    ensures PermissionsValid(ps + rows, next + |rows|)
  {
    var qs := ps + rows;
    forall i | 0 <= i < |qs| ensures 1 <= qs[i].id < next + |rows| {
      if i < |ps| {
        assert qs[i] == ps[i];
      } else {
        assert qs[i] == rows[i - |ps|];
      }
    }
    forall i, j | 0 <= i < |qs| && 0 <= j < |qs| && i != j
      ensures qs[i].id != qs[j].id && !SameScope(qs[i], qs[j])
    {
      if i < |ps| && j < |ps| {
        assert qs[i] == ps[i] && qs[j] == ps[j];
      } else if i < |ps| {
        assert qs[i] == ps[i] && qs[j] == rows[j - |ps|];
        assert ps[i] in ps;
      } else if j < |ps| {
        assert qs[j] == ps[j] && qs[i] == rows[i - |ps|];
        assert ps[j] in ps;
      } else {
        assert qs[i] == rows[i - |ps|] && qs[j] == rows[j - |ps|];
      }
    }
  }

  /** Appending a role with the next id and a fresh name keeps the roles
      table valid. */
  lemma AppendRoleValid(rs: seq<Role>, next: nat, r: Role)
    requires RolesValid(rs, next)
    requires r.id == next
    requires forall x :: x in rs ==> x.name != r.name
    ensures RolesValid(rs + [r], next + 1)
  {
    var qs := rs + [r];
    forall i, j | 0 <= i < |qs| && 0 <= j < |qs| && i != j
      ensures qs[i].id != qs[j].id && qs[i].name != qs[j].name
    {
      if i == |rs| {
        assert qs[j] in rs;
      } else if j == |rs| {
        assert qs[i] in rs;
      }
    }
  }

  predicate Linked(db: Db, owner: Owner, pid: nat)
  {
    match owner
    case UserOwner(u) => (pid, u) in db.permissionUser
    case RoleOwner(r) => (pid, r) in db.permissionRole
  }

  /** `$model->permissions()->attach($ids)`: a link row per id. */
  function AttachAll(db: Db, owner: Owner, ids: seq<nat>): (r: Db)
    ensures r == db.(permissionUser := r.permissionUser, permissionRole := r.permissionRole)
    ensures forall o, pid :: Linked(r, o, pid) <==> Linked(db, o, pid) || (o == owner && pid in ids)
  {
    match owner
    case UserOwner(u) => db.(permissionUser := db.permissionUser + set id | id in ids :: (id, u))
    case RoleOwner(x) => db.(permissionRole := db.permissionRole + set id | id in ids :: (id, x))
  }

  /** `$model->permissions()->detach($ids)`: the link rows of those ids go;
      ids that are not linked are ignored. */
  function DetachAll(db: Db, owner: Owner, ids: seq<nat>): (r: Db)
    ensures r == db.(permissionUser := r.permissionUser, permissionRole := r.permissionRole)
    ensures forall o, pid :: Linked(r, o, pid) <==> Linked(db, o, pid) && !(o == owner && pid in ids)
  {
    match owner
    case UserOwner(u) => db.(permissionUser := db.permissionUser - set id | id in ids :: (id, u))
    case RoleOwner(x) => db.(permissionRole := db.permissionRole - set id | id in ids :: (id, x))
  }

  /** The first role row with the given name (`where('name', $name)->first()`). */
  function RoleNamed(rs: seq<Role>, name: string): (r: Option<Role>)
    ensures r.Some? ==> r.value in rs && r.value.name == name
    ensures r.None? <==> forall x :: x in rs ==> x.name != name
  {
    if rs == [] then None
    else if rs[0].name == name then Some(rs[0])
    else RoleNamed(rs[1..], name)
  }

  /** The grantee as an existing owner: a model as it is, a role name as
      the role row of that name, if there is one. */
  function ExistingOwner(db: Db, g: Grantee): (r: Option<Owner>)
    ensures g.RoleName? ==> (r.Some? <==> exists x :: x in db.roles && x.name == g.name)
  {
    match g
    case UserModel(k) => Some(UserOwner(k))
    case RoleModel(id) => Some(RoleOwner(id))
    case RoleName(n) =>
      match RoleNamed(db.roles, n)
      case Some(x) => Some(RoleOwner(x.id))
      case None => None
  }

  /** The store, whose fields are the tables. Every operation of the core
      that writes goes through one of the methods below. */
  class Store {
    var permissions: seq<Permission>
    var roles: seq<Role>
    var users: seq<nat>
    var roleUser: set<(nat, nat)>
    var permissionUser: set<(nat, nat)>
    var permissionRole: set<(nat, nat)>
    var nextPermissionId: nat
    var nextRoleId: nat

    function State(): Db
      reads this
    {
      Db(permissions, roles, users, roleUser, permissionUser, permissionRole, nextPermissionId, nextRoleId)
    }

    ghost predicate Valid()
      reads this
    {
      Consistent(State())
    }

    constructor (db: Db)
      ensures State() == db
    {
      permissions, roles, users := db.permissions, db.roles, db.users;
      roleUser, permissionUser, permissionRole := db.roleUser, db.permissionUser, db.permissionRole;
      nextPermissionId, nextRoleId := db.nextPermissionId, db.nextRoleId;
    }

    /** Insert a permissions row with the next auto-increment id. */
    method InsertPermission(name: string, entityType: Option<string>, entityId: Option<nat>) returns (p: Permission)
      modifies this
      ensures p == Permission(old(nextPermissionId), name, entityType, entityId)
      ensures State() == old(State()).(permissions := old(permissions) + [p], nextPermissionId := old(nextPermissionId) + 1)
    {
      p := Permission(nextPermissionId, name, entityType, entityId);
      permissions := permissions + [p];
      nextPermissionId := nextPermissionId + 1;
    }

    /** Insert a roles row with the next auto-increment id. */
    method InsertRole(name: string) returns (r: Role)
      modifies this
      ensures r == Role(old(nextRoleId), name)
      ensures State() == old(State()).(roles := old(roles) + [r], nextRoleId := old(nextRoleId) + 1)
    {
      r := Role(nextRoleId, name);
      roles := roles + [r];
      nextRoleId := nextRoleId + 1;
    }

    /** Insert link rows. The composite unique index of the link table
        rejects a pair that is already stored or inserted twice. */
    method Attach(owner: Owner, ids: seq<nat>)
      requires Distinct(ids)
      requires forall id :: id in ids ==> !Linked(State(), owner, id)
      modifies this
      ensures State() == AttachAll(old(State()), owner, ids)
    {
      match owner
      case UserOwner(u) =>
        permissionUser := permissionUser + set id | id in ids :: (id, u);
      case RoleOwner(x) =>
        permissionRole := permissionRole + set id | id in ids :: (id, x);
    }

    /** Delete the link rows of the given ids, if present. */
    method Detach(owner: Owner, ids: seq<nat>)
      modifies this
      ensures State() == DetachAll(old(State()), owner, ids)
    {
      match owner
      case UserOwner(u) =>
        permissionUser := permissionUser - set id | id in ids :: (id, u);
      case RoleOwner(x) =>
        permissionRole := permissionRole - set id | id in ids :: (id, x);
    }
  }
}
