/** The GivesPermission conductor (`Bouncer::allow($model)->to(...)`):
    resolve the abilities to permission ids, finding or creating the
    permission rows; resolve the grantee, finding or creating a role by
    name; and link the ids the grantee is not linked to yet.

    Each step is a pure function from a snapshot of the store to a result
    and a new snapshot; the class methods are proved to perform exactly
    those steps on a `Store`. */
module GivesPermission {
  import opened Base
  import opened Database
  import opened PermissionModel
  import Clipboard

  /** The `$permissions` operand of `to`: a Permission model (its key), one
      name, or a list of names. */
  datatype Abilities = PermissionObject(id: nat) | Name(name: string) | Names(names: seq<string>)

  /** With a target, the operand is a Permission model or a single name. */
  predicate WellFormedCall(abilities: Abilities, target: Option<Entity>)
  {
    target.Some? ==> !abilities.Names?
  }

  const MissingModelMessage := "The model does not exist. To allow access to all models, use the class name instead"

  /** `getEntityInstance`: a class name stands for a new, unsaved instance;
      an instance that does not exist is refused. */
  function GetEntityInstance(e: Entity): (r: Result<Entity>)
    ensures r.Failure? <==> e.Model? && !e.persisted
    ensures r.Success? ==> r.value == e && (e.Model? ==> Exists(e))
  {
    if e.Model? && !e.persisted then Failure(InvalidArgument(MissingModelMessage)) else Success(e)
  }

  // ---------------------------------------------------------------------
  // Sequence helpers for the PHP array functions

  /** `array_unique`: the first occurrence of each name, in order. */
  function Unique(s: seq<string>): (r: seq<string>)
    ensures Distinct(r)
    ensures forall x :: x in r <==> x in s
    ensures |r| <= |s|
  {
    if s == [] then []
    else
      var u := Unique(s[..|s| - 1]);
      var last := s[|s| - 1];
      assert s == s[..|s| - 1] + [last];
      if last in u then u
      else
        DistinctSnoc(u, last);
        u + [last]
  }

  /** `array_unique` leaves a list without repetitions as it is. */
  lemma {:induction false} UniqueOfDistinct(s: seq<string>)
    requires Distinct(s)
    ensures Unique(s) == s
  {
    if s != [] {
      var init := s[..|s| - 1];
      assert Distinct(init) by {
        forall i, j | 0 <= i < |init| && 0 <= j < |init| && i != j ensures init[i] != init[j] {
          assert init[i] == s[i] && init[j] == s[j];
        }
      }
      UniqueOfDistinct(init);
      forall k | 0 <= k < |init| ensures init[k] != s[|s| - 1] {
        assert init[k] == s[k];
      }
    }
  }

  /** `array_diff`: the elements of `a` that are not in `b`, in order. */
  function Without<T(==, !new)>(a: seq<T>, b: set<T>): (r: seq<T>)
    ensures forall x :: x in r <==> x in a && x !in b
  {
    if a == [] then []
    else if a[0] in b then Without(a[1..], b)
    else [a[0]] + Without(a[1..], b)
  }

  lemma {:induction false} WithoutDistinct<T(!new)>(a: seq<T>, b: set<T>)
    requires Distinct(a)
    ensures Distinct(Without(a, b))
  {
    if a != [] {
      DistinctTail(a);
      WithoutDistinct(a[1..], b);
      if a[0] !in b {
        DistinctCons(a[0], Without(a[1..], b));
      }
    }
  }

  /** `simplePermission()->whereIn('name', $names)->get()`, in table order. */
  function SimpleNamed(ps: seq<Permission>, names: seq<string>): (r: seq<Permission>)
    ensures forall p :: p in r <==> p in ps && SimplePermission(p) && p.name in names
  {
    if ps == [] then []
    else if SimplePermission(ps[0]) && ps[0].name in names then [ps[0]] + SimpleNamed(ps[1..], names)
    else SimpleNamed(ps[1..], names)
  }

  lemma {:induction false} SimpleNamedAppend(a: seq<Permission>, b: seq<Permission>, names: seq<string>)
    ensures SimpleNamed(a + b, names) == SimpleNamed(a, names) + SimpleNamed(b, names)
  {
    if a != [] {
      assert (a + b)[0] == a[0];
      assert (a + b)[1..] == a[1..] + b;
      SimpleNamedAppend(a[1..], b, names);
    } else {
      assert a + b == b;
    }
  }

  lemma {:induction false} SimpleNamedAll(ps: seq<Permission>, names: seq<string>)
    requires forall p :: p in ps ==> SimplePermission(p) && p.name in names
    ensures SimpleNamed(ps, names) == ps
  {
    if ps != [] {
      assert ps[0] in ps;
      assert forall p :: p in ps[1..] ==> p in ps;
      SimpleNamedAll(ps[1..], names);
    }
  }

  lemma {:induction false} SimpleNamedDistinct(ps: seq<Permission>, names: seq<string>)
    requires Distinct(ps)
    ensures Distinct(SimpleNamed(ps, names))
  {
    if ps != [] {
      DistinctTail(ps);
      SimpleNamedDistinct(ps[1..], names);
      if SimplePermission(ps[0]) && ps[0].name in names {
        DistinctCons(ps[0], SimpleNamed(ps[1..], names));
      }
    }
  }

  /** `pluck('id')`. */
  function Ids(ps: seq<Permission>): seq<nat>
  {
    seq(|ps|, i requires 0 <= i < |ps| => ps[i].id)
  }

  /** `pluck('name')`, used as the set `array_diff` removes. */
  function NamesOf(ps: seq<Permission>): set<string>
  {
    set p | p in ps :: p.name
  }

  /** The rows `createMissingPermissions` inserts: one simple permission per
      name, with consecutive ids from `start`. */
  function SimpleRows(start: nat, names: seq<string>): seq<Permission>
  {
    seq(|names|, i requires 0 <= i < |names| => Permission(start + i, names[i], None, None))
  }

  /** The names `permissionsByName` looks up: a single name is wrapped. */
  function NameList(abilities: Abilities): seq<string>
    requires !abilities.PermissionObject?
  {
    if abilities.Name? then [abilities.name] else abilities.names
  }

  // ---------------------------------------------------------------------
  // The steps of `to`, on snapshots

  /** `getModel`: a model as it is; a role name as the role of that name,
      created when there is none (`firstOrCreate`). */
  function GranteeEffect(db: Db, g: Grantee): (r: (Owner, Db))
    ensures r.1 == db.(roles := r.1.roles, nextRoleId := r.1.nextRoleId)
    ensures ExistingOwner(r.1, g) == Some(r.0)
    ensures ExistingOwner(db, g).Some? ==> r == (ExistingOwner(db, g).value, db)
  {
    match g
    case UserModel(k) => (UserOwner(k), db)
    case RoleModel(id) => (RoleOwner(id), db)
    case RoleName(n) =>
      match RoleNamed(db.roles, n)
      case Some(x) => (RoleOwner(x.id), db)
      case None =>
        var x := Role(db.nextRoleId, n);
        RoleNamedAppend(db.roles, n, x);
        (RoleOwner(x.id), db.(roles := db.roles + [x], nextRoleId := db.nextRoleId + 1))
  }

  lemma {:induction false} RoleNamedAppend(rs: seq<Role>, name: string, x: Role)
    requires RoleNamed(rs, name).None? && x.name == name
    ensures RoleNamed(rs + [x], name) == Some(x)
  {
    if rs != [] {
      assert (rs + [x])[1..] == rs[1..] + [x];
      RoleNamedAppend(rs[1..], name, x);
    }
  }

  /** A role created for a name is a role with a fresh name and the next
      id, so the roles table stays valid. */
  lemma GranteeConsistent(db: Db, g: Grantee)
    requires Consistent(db)
    ensures Consistent(GranteeEffect(db, g).1)
  {
    if g.RoleName? && RoleNamed(db.roles, g.name).None? {
      AppendRoleValid(db.roles, db.nextRoleId, Role(db.nextRoleId, g.name));
    }
  }

  /** Resolving the grantee again, against the store the first resolution
      left, finds the same owner and changes nothing. */
  lemma GranteeStable(db: Db, g: Grantee, d: Db)
    requires d.roles == GranteeEffect(db, g).1.roles
    ensures GranteeEffect(d, g) == (GranteeEffect(db, g).0, d)
  {
    assert ExistingOwner(d, g) == ExistingOwner(GranteeEffect(db, g).1, g);
  }

  /** `getModelPermission` for an accepted entity: the row a strict lookup
      finds, or else the row `createForModel` inserts. */
  function ModelPermissionEffect(db: Db, name: string, e: Entity): (r: (Permission, Db))
    ensures r.1 == db.(permissions := r.1.permissions, nextPermissionId := r.1.nextPermissionId)
    ensures r.0.name == name && ForModel(r.0, e, true) && r.0 in r.1.permissions
    ensures FirstForModel(r.1.permissions, name, e) == Some(r.0)
    ensures FirstForModel(db.permissions, name, e).Some? ==> r.1 == db
  {
    match FirstForModel(db.permissions, name, e)
    case Some(p) => (p, db)
    case None =>
      var p := RowForModel(db.nextPermissionId, name, e);
      FirstForModelAppend(db.permissions, name, e, p);
      (p, db.(permissions := db.permissions + [p], nextPermissionId := db.nextPermissionId + 1))
  }

  /** A row is created only when no row has its scope, so the permissions
      table stays valid. */
  lemma ModelPermissionConsistent(db: Db, name: string, e: Entity)
    requires Consistent(db)
    ensures Consistent(ModelPermissionEffect(db, name, e).1)
  {
    if FirstForModel(db.permissions, name, e).None? {
      AppendPermissionValid(db.permissions, db.nextPermissionId, RowForModel(db.nextPermissionId, name, e));
    }
  }

  /** The simple permissions `permissionsByName` finds. */
  function Found(db: Db, names: seq<string>): seq<Permission>
  {
    SimpleNamed(db.permissions, Unique(names))
  }

  /** The names it must create (`array_diff` against the found names). */
  function Missing(db: Db, names: seq<string>): seq<string>
  {
    Without(Unique(names), NamesOf(Found(db, names)))
  }

  /** `permissionsByName`: the ids of the simple permissions with the given
      names, creating the missing ones. The merge of found and created rows
      keeps both lists (their ids differ: `ByNameConsistent`). */
  function ByNameEffect(db: Db, names: seq<string>): (r: (seq<nat>, Db))
    ensures r.1 == db.(permissions := r.1.permissions, nextPermissionId := r.1.nextPermissionId)
  {
    var created := SimpleRows(db.nextPermissionId, Missing(db, names));
    (Ids(Found(db, names)) + Ids(created),
     db.(permissions := db.permissions + created, nextPermissionId := db.nextPermissionId + |created|))
  }

  /** The pieces of `ByNameEffect`, spelled out for the lemmas below. */
  lemma ByNameShape(db: Db, names: seq<string>)
    ensures forall p :: p in Found(db, names) <==> p in db.permissions && SimplePermission(p) && p.name in names
    ensures forall x :: x in Missing(db, names) <==> x in names && x !in NamesOf(Found(db, names))
    ensures var created := SimpleRows(db.nextPermissionId, Missing(db, names));
      && ByNameEffect(db, names).0 == Ids(Found(db, names)) + Ids(created)
      && ByNameEffect(db, names).1.permissions == db.permissions + created
      && ByNameEffect(db, names).1.nextPermissionId == db.nextPermissionId + |created|
  {
  }

  lemma ByNameParts(db: Db, names: seq<string>)
    ensures var created := SimpleRows(db.nextPermissionId, Missing(db, names));
      && ByNameEffect(db, names).0 == Ids(Found(db, names)) + Ids(created)
      && ByNameEffect(db, names).1 == db.(permissions := db.permissions + created, nextPermissionId := db.nextPermissionId + |created|)
  {
  }

  lemma IdsAppend(a: seq<Permission>, b: seq<Permission>)
    ensures Ids(a + b) == Ids(a) + Ids(b)
  {
    assert forall i :: 0 <= i < |a + b| ==> Ids(a + b)[i] == (Ids(a) + Ids(b))[i];
  }

  lemma IdsHas(ps: seq<Permission>, i: nat)
    requires i < |ps|
    ensures ps[i].id in Ids(ps) && Ids(ps)[i] == ps[i].id
  {
    assert Ids(ps)[i] == ps[i].id;
  }

  lemma ByNameNameCovered(db: Db, names: seq<string>, n: string)
    requires n in names
    ensures var r := ByNameEffect(db, names);
      exists p :: p in r.1.permissions && SimplePermission(p) && p.name == n && p.id in r.0
  {
    ByNameShape(db, names);
    var found := Found(db, names);
    var created := SimpleRows(db.nextPermissionId, Missing(db, names));
    var r := ByNameEffect(db, names);
    if n in NamesOf(found) {
      var p :| p in found && p.name == n;
      var i :| 0 <= i < |found| && found[i] == p;
      IdsHas(found, i);
      assert p in r.1.permissions && p.id in r.0;
    } else {
      var k :| 0 <= k < |Missing(db, names)| && Missing(db, names)[k] == n;
      IdsHas(created, k);
      assert created[k] in r.1.permissions && created[k].id in r.0;
    }
  }

  lemma ByNameIdNamed(db: Db, names: seq<string>, id: nat)
    requires id in ByNameEffect(db, names).0
    ensures var r := ByNameEffect(db, names);
      exists p :: p in r.1.permissions && SimplePermission(p) && p.name in names && p.id == id
  {
    ByNameShape(db, names);
    var found := Found(db, names);
    var created := SimpleRows(db.nextPermissionId, Missing(db, names));
    var r := ByNameEffect(db, names);
    var i :| 0 <= i < |r.0| && r.0[i] == id;
    if i < |found| {
      IdsHas(found, i);
      assert found[i] in found;
      assert found[i] in r.1.permissions;
    } else {
      var k := i - |found|;
      IdsHas(created, k);
      assert Missing(db, names)[k] in Missing(db, names);
      assert created[k] in r.1.permissions;
    }
  }

  lemma ByNameRowReturned(db: Db, names: seq<string>, p: Permission)
    requires p in ByNameEffect(db, names).1.permissions && SimplePermission(p) && p.name in names
    ensures p.id in ByNameEffect(db, names).0
  {
    ByNameShape(db, names);
    var found := Found(db, names);
    var created := SimpleRows(db.nextPermissionId, Missing(db, names));
    if p in db.permissions {
      assert p in found;
      var i :| 0 <= i < |found| && found[i] == p;
      IdsHas(found, i);
    } else {
      assert p in created;
      var k :| 0 <= k < |created| && created[k] == p;
      IdsHas(created, k);
    }
  }

  /** After `permissionsByName` every name has a simple permission whose id
      is returned; every id returned is such a permission; and no simple
      permission by one of the names is left out. */
  lemma ByNameCovers(db: Db, names: seq<string>)
    ensures var r := ByNameEffect(db, names);
      && (forall n :: n in names ==> exists p :: p in r.1.permissions && SimplePermission(p) && p.name == n && p.id in r.0)
      && (forall id :: id in r.0 ==> exists p :: p in r.1.permissions && SimplePermission(p) && p.name in names && p.id == id)
      && (forall p :: p in r.1.permissions && SimplePermission(p) && p.name in names ==> p.id in r.0)
  {
    var r := ByNameEffect(db, names);
    forall n | n in names
      ensures exists p :: p in r.1.permissions && SimplePermission(p) && p.name == n && p.id in r.0
    {
      ByNameNameCovered(db, names, n);
    }
    forall id | id in r.0
      ensures exists p :: p in r.1.permissions && SimplePermission(p) && p.name in names && p.id == id
    {
      ByNameIdNamed(db, names, id);
    }
    forall p | p in r.1.permissions && SimplePermission(p) && p.name in names
      ensures p.id in r.0
    {
      ByNameRowReturned(db, names, p);
    }
  }

  /** The created rows extend a valid table validly: fresh ids, and names
      that no simple permission has and that are distinct. */
  lemma ByNameTableValid(db: Db, names: seq<string>)
    requires Consistent(db)
    ensures Consistent(ByNameEffect(db, names).1)
  {
    ByNameShape(db, names);
    var missing := Missing(db, names);
    var created := SimpleRows(db.nextPermissionId, missing);
    WithoutDistinct(Unique(names), NamesOf(Found(db, names)));
    forall q, k | q in db.permissions && 0 <= k < |created| ensures !SameScope(q, created[k]) {
      assert missing[k] in missing;
      if SimplePermission(q) && q.name in names {
        assert q in Found(db, names);
      }
    }
    AppendRowsValid(db.permissions, db.nextPermissionId, created);
  }

  /** Distinct rows of a valid table, followed by rows with fresh
      consecutive ids, have distinct ids. */
  lemma RowIdsDistinct(ps: seq<Permission>, next: nat, found: seq<Permission>, rows: seq<Permission>)
    requires PermissionsValid(ps, next)
    requires Distinct(found) && forall p :: p in found ==> p in ps
    requires forall k :: 0 <= k < |rows| ==> rows[k].id == next + k
    ensures Distinct(Ids(found) + Ids(rows))
  {
    var ids := Ids(found) + Ids(rows);
    forall i, j | 0 <= i < |ids| && 0 <= j < |ids| && i != j ensures ids[i] != ids[j] {
      if i < |found| && j < |found| {
        assert found[i] in ps && found[j] in ps && found[i] != found[j];
        var a :| 0 <= a < |ps| && ps[a] == found[i];
        var b :| 0 <= b < |ps| && ps[b] == found[j];
        assert ids[i] == ps[a].id && ids[j] == ps[b].id;
      } else if i < |found| {
        assert found[i] in ps;
        assert ids[i] < next <= ids[j];
      } else if j < |found| {
        assert found[j] in ps;
        assert ids[j] < next <= ids[i];
      } else {
        assert ids[i] == rows[i - |found|].id && ids[j] == rows[j - |found|].id;
      }
    }
  }

  /** The returned ids are distinct: the found rows are distinct rows of a
      table whose ids are unique, and the created ids are fresh. */
  lemma ByNameIdsDistinct(db: Db, names: seq<string>)
    requires Consistent(db)
    ensures Distinct(ByNameEffect(db, names).0)
  {
    ByNameShape(db, names);
    var ps := db.permissions;
    assert Distinct(ps) by {
      forall i, j | 0 <= i < |ps| && 0 <= j < |ps| && i != j ensures ps[i] != ps[j] {
        assert ps[i].id != ps[j].id;
      }
    }
    SimpleNamedDistinct(ps, Unique(names));
    RowIdsDistinct(ps, db.nextPermissionId, Found(db, names), SimpleRows(db.nextPermissionId, Missing(db, names)));
  }

  /** On a valid store `permissionsByName` keeps the store valid and
      returns distinct ids. */
  lemma ByNameConsistent(db: Db, names: seq<string>)
    requires Consistent(db)
    ensures Consistent(ByNameEffect(db, names).1)
    ensures Distinct(ByNameEffect(db, names).0)
  {
    ByNameTableValid(db, names);
    ByNameIdsDistinct(db, names);
  }

  /** In the table the lookup left, the same lookup finds the rows found
      before followed by the rows created... */
  lemma FoundAfterCreate(db: Db, names: seq<string>, d: Db)
    requires d.permissions == db.permissions + SimpleRows(db.nextPermissionId, Missing(db, names))
    ensures Found(d, names) == Found(db, names) + SimpleRows(db.nextPermissionId, Missing(db, names))
  {
    var unique := Unique(names);
    var created := SimpleRows(db.nextPermissionId, Missing(db, names));
    forall p | p in created ensures SimplePermission(p) && p.name in unique {
      var k :| 0 <= k < |created| && created[k] == p;
      assert Missing(db, names)[k] in Missing(db, names);
    }
    SimpleNamedAppend(db.permissions, created, unique);
    SimpleNamedAll(created, unique);
  }

  /** ...and so nothing is missing any more. */
  lemma MissingAfterCreate(db: Db, names: seq<string>, d: Db)
    requires d.permissions == db.permissions + SimpleRows(db.nextPermissionId, Missing(db, names))
    ensures Missing(d, names) == []
  {
    var found := Found(db, names);
    var missing := Missing(db, names);
    var created := SimpleRows(db.nextPermissionId, missing);
    FoundAfterCreate(db, names, d);
    forall x | x in Unique(names) ensures x in NamesOf(Found(d, names)) {
      if x in missing {
        var k :| 0 <= k < |missing| && missing[k] == x;
        assert created[k] in Found(d, names);
      } else {
        var p :| p in found && p.name == x;
        assert p in Found(d, names);
      }
    }
    NoMemberEmpty(Missing(d, names));
  }

  lemma ByNameStableIds(db: Db, names: seq<string>, d: Db)
    requires d.permissions == db.permissions + SimpleRows(db.nextPermissionId, Missing(db, names))
    ensures ByNameEffect(d, names).0 == ByNameEffect(db, names).0
  {
    var found := Found(db, names);
    var created := SimpleRows(db.nextPermissionId, Missing(db, names));
    ByNameParts(db, names);
    ByNameParts(d, names);
    FoundAfterCreate(db, names, d);
    MissingAfterCreate(db, names, d);
    assert SimpleRows(d.nextPermissionId, Missing(d, names)) == [];
    IdsAppend(found, created);
    assert Ids([]) == [];
  }

  lemma ByNameStableStore(db: Db, names: seq<string>, d: Db)
    requires d.permissions == db.permissions + SimpleRows(db.nextPermissionId, Missing(db, names))
    ensures ByNameEffect(d, names).1 == d
  {
    ByNameParts(d, names);
    MissingAfterCreate(db, names, d);
    assert SimpleRows(d.nextPermissionId, Missing(d, names)) == [];
    assert d.permissions + [] == d.permissions;
  }

  /** Looking the names up again, in the store the first lookup left, finds
      the same ids and creates nothing. */
  lemma ByNameStable(db: Db, names: seq<string>, d: Db)
    requires d.permissions == ByNameEffect(db, names).1.permissions
    ensures ByNameEffect(d, names) == (ByNameEffect(db, names).0, d)
  {
    ByNameParts(db, names);
    ByNameStableIds(db, names, d);
    ByNameStableStore(db, names, d);
  }

  /** `getPermissionIds` with the entity check of `getModelPermission`:
      a Permission model gives its key, a name with a target the row for
      that target, and names alone their simple permissions. */
  function IdsEffect(db: Db, abilities: Abilities, target: Option<Entity>): (r: Result<(seq<nat>, Db)>)
    requires WellFormedCall(abilities, target)
    ensures r.Failure? <==> !abilities.PermissionObject? && target.Some? && target.value.Model? && !target.value.persisted
    ensures r.Failure? ==> r.error == InvalidArgument(MissingModelMessage)
    ensures r.Success? ==> r.value.1 == db.(permissions := r.value.1.permissions, nextPermissionId := r.value.1.nextPermissionId)
  {
    if abilities.PermissionObject? then Success(([abilities.id], db))
    else if target.Some? then
      match GetEntityInstance(target.value)
      case Failure(e) => Failure(e)
      case Success(entity) =>
        var found := ModelPermissionEffect(db, abilities.name, entity);
        Success(([found.0.id], found.1))
    else Success(ByNameEffect(db, NameList(abilities)))
  }

  lemma IdsConsistent(db: Db, abilities: Abilities, target: Option<Entity>)
    requires WellFormedCall(abilities, target)
    requires Consistent(db)
    ensures var r := IdsEffect(db, abilities, target); r.Success? ==> Consistent(r.value.1) && Distinct(r.value.0)
  {
    if !abilities.PermissionObject? {
      if target.Some? {
        if GetEntityInstance(target.value).Success? {
          ModelPermissionConsistent(db, abilities.name, target.value);
        }
      } else {
        ByNameConsistent(db, NameList(abilities));
      }
    }
  }

  lemma IdsStable(db: Db, abilities: Abilities, target: Option<Entity>, d: Db)
    requires WellFormedCall(abilities, target)
    requires IdsEffect(db, abilities, target).Success?
    requires d.permissions == IdsEffect(db, abilities, target).value.1.permissions
    requires d.nextPermissionId == IdsEffect(db, abilities, target).value.1.nextPermissionId
    ensures IdsEffect(d, abilities, target) == Success((IdsEffect(db, abilities, target).value.0, d))
  {
    if !abilities.PermissionObject? && target.None? {
      ByNameStable(db, NameList(abilities), d);
    }
  }

  /** The ids the owner is already linked to (`permissions()->whereIn('id',
      $ids)->lists('id')`). */
  function Existing(db: Db, owner: Owner, ids: seq<nat>): set<nat>
  {
    set id | id in ids && Linked(db, owner, id)
  }

  /** `givePermissions`: attach the ids the owner is not linked to yet.
      Afterwards the owner is linked to every id, and nothing else changed. */
  function GiveEffect(db: Db, ids: seq<nat>, owner: Owner): (r: Db)
    ensures r == db.(permissionUser := r.permissionUser, permissionRole := r.permissionRole)
    ensures forall o, pid :: Linked(r, o, pid) <==> Linked(db, o, pid) || (o == owner && pid in ids)
  {
    AttachAll(db, owner, Without(ids, Existing(db, owner, ids)))
  }

  lemma GiveTwice(db: Db, ids: seq<nat>, owner: Owner)
    ensures GiveEffect(GiveEffect(db, ids, owner), ids, owner) == GiveEffect(db, ids, owner)
  {
    var r1 := GiveEffect(db, ids, owner);
    var r2 := GiveEffect(r1, ids, owner);
    forall pair: (nat, nat) ensures pair in r2.permissionUser <==> pair in r1.permissionUser {
      assert Linked(r2, UserOwner(pair.1), pair.0) <==> Linked(r1, UserOwner(pair.1), pair.0);
    }
    forall pair: (nat, nat) ensures pair in r2.permissionRole <==> pair in r1.permissionRole {
      assert Linked(r2, RoleOwner(pair.1), pair.0) <==> Linked(r1, RoleOwner(pair.1), pair.0);
    }
  }

  /** `to`: the ids first (which may fail before anything is written), then
      the grantee, then the links. */
  function GrantEffect(db: Db, g: Grantee, abilities: Abilities, target: Option<Entity>): (r: (Result<bool>, Db))
    requires WellFormedCall(abilities, target)
    ensures r.0.Failure? ==> r.1 == db
    ensures r.0.Success? ==> r.0.value
  {
    match IdsEffect(db, abilities, target)
    case Failure(e) => (Failure(e), db)
    case Success(found) =>
      var resolved := GranteeEffect(found.1, g);
      (Success(true), GiveEffect(resolved.1, found.0, resolved.0))
  }

  /** Granting is idempotent: a second identical grant returns the same
      answer and leaves the store as the first one left it. */
  lemma GrantIdempotent(db: Db, g: Grantee, abilities: Abilities, target: Option<Entity>)
    requires WellFormedCall(abilities, target)
    ensures GrantEffect(GrantEffect(db, g, abilities, target).1, g, abilities, target) == GrantEffect(db, g, abilities, target)
  {
    var r := IdsEffect(db, abilities, target);
    if r.Success? {
      var (ids, db1) := r.value;
      var (owner, db2) := GranteeEffect(db1, g);
      var db3 := GiveEffect(db2, ids, owner);
      IdsStable(db, abilities, target, db3);
      GranteeStable(db1, g, db3);
      GiveTwice(db2, ids, owner);
    }
  }

  /** Granting keeps a valid store valid. */
  lemma GrantConsistent(db: Db, g: Grantee, abilities: Abilities, target: Option<Entity>)
    requires WellFormedCall(abilities, target)
    requires Consistent(db)
    ensures Consistent(GrantEffect(db, g, abilities, target).1)
  {
    IdsConsistent(db, abilities, target);
    var r := IdsEffect(db, abilities, target);
    if r.Success? {
      GranteeConsistent(r.value.1, g);
    }
  }

  /** After a successful grant the grantee exists and is linked to the
      permission the call names: the given Permission model, the row for
      the target, or a simple permission for each name. */
  lemma GrantLinks(db: Db, g: Grantee, abilities: Abilities, target: Option<Entity>)
    requires WellFormedCall(abilities, target)
    requires GrantEffect(db, g, abilities, target).0.Success?
    ensures var db1 := GrantEffect(db, g, abilities, target).1;
      && ExistingOwner(db1, g).Some?
      && var owner := ExistingOwner(db1, g).value;
      && (abilities.PermissionObject? ==> Linked(db1, owner, abilities.id))
      && (abilities.Name? && target.Some? ==>
            exists p :: p in db1.permissions && p.name == abilities.name && ForModel(p, target.value, true) && Linked(db1, owner, p.id))
      && (target.None? && !abilities.PermissionObject? ==>
            forall n :: n in NameList(abilities) ==>
              exists p :: p in db1.permissions && SimplePermission(p) && p.name == n && Linked(db1, owner, p.id))
  {
    var (ids, db1) := IdsEffect(db, abilities, target).value;
    var (owner, db2) := GranteeEffect(db1, g);
    var db3 := GiveEffect(db2, ids, owner);
    assert ExistingOwner(db3, g) == ExistingOwner(db2, g);
    if abilities.Name? && target.Some? {
      var p := ModelPermissionEffect(db, abilities.name, target.value).0;
      assert p in db3.permissions && Linked(db3, owner, p.id);
    }
    if target.None? && !abilities.PermissionObject? {
      GrantLinksByName(db, g, abilities);
    }
  }

  /** The by-name case of `GrantLinks`. */
  lemma GrantLinksByName(db: Db, g: Grantee, abilities: Abilities)
    requires !abilities.PermissionObject?
    ensures var db1 := GrantEffect(db, g, abilities, None).1;
      && ExistingOwner(db1, g).Some?
      && var owner := ExistingOwner(db1, g).value;
      && forall n :: n in NameList(abilities) ==>
           exists p :: p in db1.permissions && SimplePermission(p) && p.name == n && Linked(db1, owner, p.id)
  {
    var names := NameList(abilities);
    var (ids, db1) := IdsEffect(db, abilities, None).value;
    var (owner, db2) := GranteeEffect(db1, g);
    var db3 := GiveEffect(db2, ids, owner);
    assert ExistingOwner(db3, g) == ExistingOwner(db2, g);
    forall n | n in names
      ensures exists p :: p in db3.permissions && SimplePermission(p) && p.name == n && Linked(db3, owner, p.id)
    {
      ByNameNameCovered(db, names, n);
      var p :| p in db1.permissions && SimplePermission(p) && p.name == n && p.id in ids;
      GiveLinks(db2, ids, owner, p.id);
    }
  }

  lemma GiveLinks(db: Db, ids: seq<nat>, owner: Owner, pid: nat)
    requires pid in ids
    ensures Linked(GiveEffect(db, ids, owner), owner, pid)
  {
  }

  /** A name granted to a user who is in the users table passes the
      clipboard's check for that user (no target). */
  lemma GrantThenCheck(db: Db, user: nat, name: string)
    requires Consistent(db)
    requires user in db.users
    ensures var db1 := GrantEffect(db, UserModel(user), Name(name), None).1;
      exists p :: p in Clipboard.GetPermissions(db1, user) && Clipboard.Matches(p, name, None) && p.id != 0
  {
    GrantLinks(db, UserModel(user), Name(name), None);
    GrantConsistent(db, UserModel(user), Name(name), None);
    var db1 := GrantEffect(db, UserModel(user), Name(name), None).1;
    assert name in NameList(Name(name));
    var p :| p in db1.permissions && SimplePermission(p) && p.name == name && Linked(db1, UserOwner(user), p.id);
    Clipboard.SimpleGrantScope(p, name);
    assert p in Clipboard.GetPermissions(db1, user);
  }

  // ---------------------------------------------------------------------
  // The conductor

  class GivesPermission {
    const model: Grantee

    constructor (model: Grantee)
      ensures this.model == model
    {
      this.model := model;
    }

    /** `to`: give the abilities (optionally on a target) to the model. */
    method To(store: Store, abilities: Abilities, target: Option<Entity>) returns (r: Result<bool>)
      requires WellFormedCall(abilities, target)
      requires store.Valid()
      modifies store
      ensures (r, store.State()) == GrantEffect(old(store.State()), model, abilities, target)
      ensures store.Valid()
    {
      ghost var db := store.State();
      GrantConsistent(db, model, abilities, target);
      var ids := GetPermissionIds(store, abilities, target);
      if ids.Failure? {
        return Failure(ids.error);
      }
      var owner := GetModel(store);
      GivePermissions(store, ids.value, owner);
      r := Success(true);
    }

    /** `givePermissions`: link the ids not linked yet. */
    method GivePermissions(store: Store, ids: seq<nat>, owner: Owner)
      requires Distinct(ids)
      modifies store
      ensures store.State() == GiveEffect(old(store.State()), ids, owner)
    {
      var existing := set id | id in ids && Linked(store.State(), owner, id);
      var unlinked := Without(ids, existing);
      WithoutDistinct(ids, existing);
      store.Attach(owner, unlinked);
    }

    /** `getModel`: the model, or the role of that name (found or created). */
    method GetModel(store: Store) returns (owner: Owner)
      modifies store
      ensures (owner, store.State()) == GranteeEffect(old(store.State()), model)
    {
      match model
      case UserModel(k) =>
        owner := UserOwner(k);
      case RoleModel(id) =>
        owner := RoleOwner(id);
      case RoleName(n) =>
        var found := RoleNamed(store.roles, n);
        if found.Some? {
          owner := RoleOwner(found.value.id);
        } else {
          var role := store.InsertRole(n);
          owner := RoleOwner(role.id);
        }
    }

    /** `getPermissionIds`. */
    method GetPermissionIds(store: Store, abilities: Abilities, target: Option<Entity>) returns (r: Result<seq<nat>>)
      requires WellFormedCall(abilities, target)
      requires store.Valid()
      modifies store
      ensures r.Failure? ==> IdsEffect(old(store.State()), abilities, target) == Failure(r.error) && store.State() == old(store.State())
      ensures r.Success? ==> IdsEffect(old(store.State()), abilities, target) == Success((r.value, store.State())) && Distinct(r.value)
    {
      IdsConsistent(store.State(), abilities, target);
      if abilities.PermissionObject? {
        return Success([abilities.id]);
      }
      if target.Some? {
        var p := GetModelPermission(store, abilities.name, target.value);
        if p.Failure? {
          return Failure(p.error);
        }
        return Success([p.value.id]);
      }
      var ids := PermissionsByName(store, NameList(abilities));
      return Success(ids);
    }

    /** `getModelPermission`: check the entity, then find or create the row. */
    method GetModelPermission(store: Store, name: string, entity: Entity) returns (r: Result<Permission>)
      modifies store
      ensures r.Failure? ==> GetEntityInstance(entity) == Failure(r.error) && store.State() == old(store.State())
      ensures r.Success? ==>
        GetEntityInstance(entity).Success? && (r.value, store.State()) == ModelPermissionEffect(old(store.State()), name, entity)
    {
      var e := GetEntityInstance(entity);
      if e.Failure? {
        return Failure(e.error);
      }
      var found := FirstForModel(store.permissions, name, e.value);
      if found.Some? {
        return Success(found.value);
      }
      var p := CreateForModel(store, e.value, name);
      return Success(p);
    }

    /** `permissionsByName`. */
    method PermissionsByName(store: Store, names: seq<string>) returns (ids: seq<nat>)
      modifies store
      ensures (ids, store.State()) == ByNameEffect(old(store.State()), names)
    {
      var permissions := Unique(names);
      var models := SimpleNamed(store.permissions, permissions);
      var created := CreateMissingPermissions(store, models, permissions);
      ids := Ids(models) + Ids(created);
    }

    /** `createMissingPermissions`: insert a simple permission for each
        name no found row has, in order. */
    method CreateMissingPermissions(store: Store, models: seq<Permission>, permissions: seq<string>) returns (created: seq<Permission>)
      modifies store
      ensures created == SimpleRows(old(store.nextPermissionId), Without(permissions, NamesOf(models)))
      ensures store.State() == old(store.State()).(
        permissions := old(store.permissions) + created,
        nextPermissionId := old(store.nextPermissionId) + |created|)
    {
      var missing := Without(permissions, NamesOf(models));
      ghost var start := store.nextPermissionId;
      created := [];
      var i := 0;
      while i < |missing|
        invariant 0 <= i <= |missing|
        invariant created == SimpleRows(start, missing[..i])
        invariant store.State() == old(store.State()).(
          permissions := old(store.permissions) + created,
          nextPermissionId := start + i)
      {
        var p := store.InsertPermission(missing[i], None, None);
        assert SimpleRows(start, missing[..i + 1]) == SimpleRows(start, missing[..i]) + [p];
        created := created + [p];
        i := i + 1;
      }
      assert missing[..i] == missing;
    }
  }
}
