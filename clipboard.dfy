/** The resolver: compiles the identifiers a check looks for, resolves a
    user's roles and effective permissions from the store, answers point
    checks and role checks, and provides the gate's before-hook. */
module Clipboard {
  import opened Base
  import opened Text
  import opened Database
  import opened PermissionModel

  // ---------------------------------------------------------------------
  // Identifier compilation

  /** `compileModelPermissionIdentifiers`: the blanket identifier of the
      target's class, followed by the instance identifier when the target
      exists. Whenever the morph class is truthy these are the identifiers
      of the rows that a grant on the class and a grant on the instance
      create. */
  function CompileModelPermissionIdentifiers(action: string, e: Entity): (r: seq<string>)
    ensures |r| == if Exists(e) then 2 else 1
    ensures TruthyString(Some(e.morphClass)) ==> r[0] == Identifier(RowForModel(0, action, ClassName(e.morphClass)))
    ensures TruthyString(Some(e.morphClass)) && Exists(e) && e.key != 0 ==> r[1] == Identifier(RowForModel(0, action, e))
    ensures Exists(e) ==> r[1] == r[0] + "-" + Decimal(e.key)
  {
    var identifier := Lower(action + "-" + e.morphClass);
    if !Exists(e) then [identifier] else
    if e.key != 0 then
      InstanceIdentifier(action, e.morphClass, e.key);
      [identifier, identifier + "-" + Decimal(e.key)]
    else
      [identifier, identifier + "-" + Decimal(e.key)]
  }

  /** Lower-casing the whole instance slug gives the lower-cased blanket
      slug followed by the key, since digits have no case. */
  lemma InstanceIdentifier(action: string, morph: string, key: nat)
    ensures Lower(action + "-" + morph + "-" + Decimal(key)) == Lower(action + "-" + morph) + "-" + Decimal(key)
  {
    var head, digits := action + "-" + morph, Decimal(key);
    assert head + "-" + digits == head + ("-" + digits);
    LowerAppend(head, "-" + digits);
    LowerAppend("-", digits);
    assert Lower("-") == "-";
    DecimalIsLowerCase(key);
  }

  /** `compilePermissionIdentifiers`: with no target, the lower-cased action
      alone, which is the identifier of the simple permission so named. */
  function CompilePermissionIdentifiers(action: string, target: Option<Entity>): (r: seq<string>)
    ensures 1 <= |r| <= 2
    ensures |r| == 2 <==> target.Some? && Exists(target.value)
    ensures target.None? ==> r == [Identifier(Permission(0, action, None, None))]
  {
    if target.None? then [Lower(action)] else CompileModelPermissionIdentifiers(action, target.value)
  }

  /** A simple permission answers a check without target exactly when its
      name equals the action up to case. */
  lemma SimpleGrantScope(p: Permission, action: string)
    requires SimplePermission(p)
    ensures Identifier(p) in CompilePermissionIdentifiers(action, None) <==> Lower(p.name) == Lower(action)
  {
  }

  /** A blanket permission on a class answers every check on that class:
      against the class name, an unsaved instance or any stored instance. */
  lemma BlanketGrantScope(id: nat, action: string, e: Entity)
    requires TruthyString(Some(e.morphClass))
    ensures Identifier(RowForModel(id, action, ClassName(e.morphClass))) in CompilePermissionIdentifiers(action, Some(e))
  {
    assert Identifier(RowForModel(id, action, ClassName(e.morphClass))) == Identifier(RowForModel(0, action, ClassName(e.morphClass)));
  }

  /** A permission on the stored instance with key `k` answers a check on a
      stored instance of the same class exactly when the keys agree, and
      never answers a check on the class or an unsaved instance. */
  lemma {:induction false} InstanceGrantScope(id: nat, action: string, morph: string, k: nat, target: Entity)
    requires TruthyString(Some(morph)) && k != 0
    requires target.morphClass == morph
    ensures Identifier(RowForModel(id, action, Model(morph, true, k))) in CompilePermissionIdentifiers(action, Some(target))
        <==> Exists(target) && target.key == k
  {
    var blanket := Lower(action + "-" + morph);
    var ident := Identifier(RowForModel(id, action, Model(morph, true, k)));
    InstanceIdentifier(action, morph, k);
    assert ident == blanket + "-" + Decimal(k);
    var r := CompilePermissionIdentifiers(action, Some(target));
    assert r[0] == blanket;
    assert ident != blanket by { assert |ident| > |blanket|; }
    if Exists(target) {
      var other := blanket + "-" + Decimal(target.key);
      assert r == [blanket, other];
      if ident == other {
        assert ident[|blanket| + 1..] == Decimal(k);
        assert other[|blanket| + 1..] == Decimal(target.key);
        DecimalInjective(k, target.key);
      }
    } else {
      assert r == [blanket];
    }
  }

  /** Identifiers are not injective: a simple permission whose name is the
      action, a dash and the class answers a check on that class, exactly as
      the blanket permission does. */
  lemma SimpleNameCollidesWithBlanket(id: nat, action: string, e: Entity)
    ensures Identifier(Permission(id, action + "-" + e.morphClass, None, None)) in CompilePermissionIdentifiers(action, Some(e))
  {
    assert CompilePermissionIdentifiers(action, Some(e))[0] == Lower(action + "-" + e.morphClass);
  }

  // ---------------------------------------------------------------------
  // Roles and permissions of a user

  /** The user holds a role of that name: a roles row linked to the user in
      role_user (`$user->roles()`). */
  predicate HoldsRole(db: Db, user: nat, name: string)
  {
    exists x :: x in db.roles && x.name == name && (x.id, user) in db.roleUser
  }

  function RoleNames(rs: seq<Role>, links: set<(nat, nat)>, user: nat): (r: seq<string>)
    ensures forall n :: n in r <==> exists x :: x in rs && x.name == n && (x.id, user) in links
  {
    if rs == [] then []
    else (if (rs[0].id, user) in links then [rs[0].name] else []) + RoleNames(rs[1..], links, user)
  }

  /** `getRoles`: the names of the roles the user holds, in table order. */
  function GetRoles(db: Db, user: nat): (r: seq<string>)
    ensures forall n :: n in r <==> HoldsRole(db, user, n)
  {
    RoleNames(db.roles, db.roleUser, user)
  }

  lemma {:induction false} RoleNamesDistinct(rs: seq<Role>, next: nat, links: set<(nat, nat)>, user: nat)
    requires RolesValid(rs, next)
    ensures Distinct(RoleNames(rs, links, user))
  {
    if rs != [] {
      var tail := rs[1..];
      assert RolesValid(tail, next) by {
        forall i, j | 0 <= i < |tail| && 0 <= j < |tail| && i != j
          ensures tail[i].name != tail[j].name && tail[i].id != tail[j].id
        {
          assert tail[i] == rs[i + 1] && tail[j] == rs[j + 1];
        }
      }
      RoleNamesDistinct(tail, next, links, user);
      var rest := RoleNames(tail, links, user);
      forall i | 0 <= i < |tail| ensures tail[i].name != rs[0].name {
        assert rs[i + 1] == tail[i];
      }
      if (rs[0].id, user) in links {
        DistinctCons(rs[0].name, rest);
      } else {
        assert RoleNames(rs, links, user) == rest;
      }
    }
  }

  /** Role names are unique, so each held role is listed once. */
  lemma GetRolesDistinct(db: Db, user: nat)
    requires Consistent(db)
    ensures Distinct(GetRoles(db, user))
  {
    RoleNamesDistinct(db.roles, db.nextRoleId, db.roleUser, user);
  }

  /** The permission is linked to the user in permission_user
      (`orWhereHas('users', ...)`, which joins the users table). */
  predicate GrantedDirectly(db: Db, user: nat, pid: nat)
  {
    user in db.users && (pid, user) in db.permissionUser
  }

  /** The permission is linked to a role row that is linked to the user
      (`whereHas('roles', whereHas('users', ...))`). */
  predicate GrantedThroughRole(db: Db, user: nat, pid: nat)
  {
    user in db.users && exists x :: x in db.roles && (pid, x.id) in db.permissionRole && (x.id, user) in db.roleUser
  }

  predicate Granted(db: Db, user: nat, pid: nat)
  {
    GrantedThroughRole(db, user, pid) || GrantedDirectly(db, user, pid)
  }

  function GrantedRows(rows: seq<Permission>, db: Db, user: nat): (r: seq<Permission>)
    ensures forall p :: p in r <==> p in rows && Granted(db, user, p.id)
  {
    if rows == [] then []
    else (if Granted(db, user, rows[0].id) then [rows[0]] else []) + GrantedRows(rows[1..], db, user)
  }

  /** `getPermissions`: the permission rows granted to the user directly or
      through one of the user's roles, in table order. */
  function GetPermissions(db: Db, user: nat): (r: seq<Permission>)
    ensures forall p :: p in r <==> p in db.permissions && (GrantedDirectly(db, user, p.id) || GrantedThroughRole(db, user, p.id))
  {
    GrantedRows(db.permissions, db, user)
  }

  predicate DistinctIds(ps: seq<Permission>)
  {
    forall i, j :: 0 <= i < |ps| && 0 <= j < |ps| && i != j ==> ps[i].id != ps[j].id
  }

  lemma {:induction false} GrantedRowsDistinct(rows: seq<Permission>, db: Db, user: nat)
    requires DistinctIds(rows)
    ensures DistinctIds(GrantedRows(rows, db, user))
  {
    if rows != [] {
      var tail := rows[1..];
      assert DistinctIds(tail) by {
        forall i, j | 0 <= i < |tail| && 0 <= j < |tail| && i != j ensures tail[i].id != tail[j].id {
          assert tail[i] == rows[i + 1] && tail[j] == rows[j + 1];
        }
      }
      GrantedRowsDistinct(tail, db, user);
      var rest := GrantedRows(tail, db, user);
      forall x | x in rest ensures x.id != rows[0].id {
        var i :| 0 <= i < |tail| && tail[i] == x;
        assert rows[i + 1] == x;
      }
    }
  }

  /** Each permission row appears once in a user's permissions, even when it
      is granted both directly and through several roles. */
  lemma GetPermissionsDistinct(db: Db, user: nat)
    requires Consistent(db)
    ensures DistinctIds(GetPermissions(db, user))
    ensures Distinct(GetPermissions(db, user))
  {
    GrantedRowsDistinct(db.permissions, db, user);
  }

  // ---------------------------------------------------------------------
  // Checks

  /** Some row of `permissions` carries one of the requested identifiers. */
  predicate Matches(p: Permission, action: string, target: Option<Entity>)
  {
    Identifier(p) in CompilePermissionIdentifiers(action, target)
  }

  /** Row `i` is the first row of `permissions` that matches. */
  predicate FirstMatch(permissions: seq<Permission>, i: int, action: string, target: Option<Entity>)
  {
    && 0 <= i < |permissions|
    && Matches(permissions[i], action, target)
    && forall j :: 0 <= j < i ==> !Matches(permissions[j], action, target)
  }

  /** `lists('identifier', 'id')`: the identifier of every permission, in
      order. */
  function IdentifierList(permissions: seq<Permission>): (r: seq<string>)
    ensures |r| == |permissions|
    ensures forall k :: 0 <= k < |r| ==> r[k] == Identifier(permissions[k])
  {
    seq(|permissions|, k requires 0 <= k < |permissions| => Identifier(permissions[k]))
  }

  /** The loop of `checkGetId`: the position of the first identifier that
      is in the requested list. */
  method FirstRequested(identifiers: seq<string>, requested: seq<string>) returns (r: Option<nat>)
    ensures r.None? <==> forall k :: 0 <= k < |identifiers| ==> identifiers[k] !in requested
    ensures r.Some? ==> r.value < |identifiers| && identifiers[r.value] in requested
    ensures r.Some? ==> forall k :: 0 <= k < r.value ==> identifiers[k] !in requested
  {
    var i := 0;
    while i < |identifiers|
      invariant 0 <= i <= |identifiers|
      invariant forall k :: 0 <= k < i ==> identifiers[k] !in requested
    {
      if identifiers[i] in requested {
        return Some(i);
      }
      i := i + 1;
    }
    return None;
  }

  /** `checkGetId`: scan the user's permissions (as `getPermissions`
      returned them) in order and return the id of the first one whose
      identifier was requested; None stands for `false`. */
  method CheckGetId(permissions: seq<Permission>, action: string, target: Option<Entity>) returns (id: Option<nat>)
    ensures id.None? <==> forall p :: p in permissions ==> !Matches(p, action, target)
    ensures id.Some? ==> exists i :: FirstMatch(permissions, i, action, target) && permissions[i].id == id.value
  {
    var identifiers := IdentifierList(permissions);
    var requested := CompilePermissionIdentifiers(action, target);
    var found := FirstRequested(identifiers, requested);
    if found.None? {
      forall p | p in permissions ensures !Matches(p, action, target) {
        var j :| 0 <= j < |permissions| && permissions[j] == p;
        assert identifiers[j] !in requested;
      }
      return None;
    }
    var i := found.value;
    assert FirstMatch(permissions, i, action, target) by {
      forall j | 0 <= j < i ensures !Matches(permissions[j], action, target) {
        assert identifiers[j] !in requested;
      }
    }
    assert permissions[i] in permissions;
    return Some(permissions[i].id);
  }

  /** `check`: the id found, cast to bool. Ids start at 1, so with stored
      rows the check holds exactly when some permission matches. */
  method Check(permissions: seq<Permission>, action: string, target: Option<Entity>) returns (b: bool)
    ensures b ==> exists p :: p in permissions && Matches(p, action, target) && p.id != 0
    ensures (forall p :: p in permissions ==> p.id != 0) ==> (b <==> exists p :: p in permissions && Matches(p, action, target))
  {
    var id := CheckGetId(permissions, action, target);
    b := id.Some? && id.value != 0;
  }

  /** What the gate's before-hook answers: abstain (null) or allow, with
      the reason the allowance is given. It never denies. */
  datatype GateDecision = Abstain | Allow(reason: string)

  function GrantReason(id: nat): string
  {
    "Bouncer granted permission via permission #" + Decimal(id)
  }

  /** The callback `registerAt` installs on the gate: abstain when an extra
      argument is passed; allow, citing the permission's id, when
      `checkGetId` finds one; abstain otherwise. */
  method Before(permissions: seq<Permission>, action: string, target: Option<Entity>, additional: bool)
    returns (d: GateDecision)
    ensures additional ==> d == Abstain
    ensures d.Allow? ==> exists p :: p in permissions && Matches(p, action, target) && p.id != 0 && d.reason == GrantReason(p.id)
    ensures !additional && (forall p :: p in permissions ==> p.id != 0) ==>
      (d.Allow? <==> exists p :: p in permissions && Matches(p, action, target))
  {
    if additional {
      return Abstain;
    }
    var id := CheckGetId(permissions, action, target);
    if id.Some? && id.value != 0 {
      return Allow(GrantReason(id.value));
    }
    return Abstain;
  }

  // ---------------------------------------------------------------------
  // Role checks

  /** `Collection::intersect`: the held roles that are also listed, in the
      order they are held. */
  function Intersect(held: seq<string>, roles: seq<string>): (r: seq<string>)
    ensures forall x :: x in r <==> x in held && x in roles
    ensures |r| <= |held|
  {
    if held == [] then []
    else (if held[0] in roles then [held[0]] else []) + Intersect(held[1..], roles)
  }

  /** `checkRole`: at least one listed role held ("or"), none held ("not"),
      or as many held as roles listed (any other mode). */
  function CheckRole(held: seq<string>, roles: seq<string>, mode: string): (b: bool)
    ensures mode == "or" ==> (b <==> exists r :: r in roles && r in held)
    ensures mode == "not" ==> (b <==> forall r :: r in roles ==> r !in held)
  {
    var available := Intersect(held, roles);
    if mode == "or" then
      assert |available| > 0 <==> exists r :: r in roles && r in held by {
        if |available| > 0 { assert available[0] in available; }
      }
      |available| > 0
    else if mode == "not" then
      assert |available| == 0 <==> forall r :: r in roles ==> r !in held by {
        if |available| > 0 { assert available[0] in available; }
      }
      |available| == 0
    else
      |available| == |roles|
  }

  lemma {:induction false} DistinctCard<T>(s: seq<T>)
    requires Distinct(s)
    ensures |set x | x in s| == |s|
  {
    if s != [] {
      DistinctTail(s);
      DistinctCard(s[1..]);
      assert (set x | x in s) == (set x | x in s[1..]) + {s[0]};
    }
  }

  lemma {:induction false} IntersectDistinct(held: seq<string>, roles: seq<string>)
    requires Distinct(held)
    ensures Distinct(Intersect(held, roles))
  {
    if held != [] {
      DistinctTail(held);
      IntersectDistinct(held[1..], roles);
      var rest := Intersect(held[1..], roles);
      if held[0] in roles {
        DistinctCons(held[0], rest);
      } else {
        assert Intersect(held, roles) == rest;
      }
    }
  }

  /** With no role held or listed twice, the "and" mode means every listed
      role is held. */
  lemma AllModeMeansAllHeld(held: seq<string>, roles: seq<string>)
    requires Distinct(held) && Distinct(roles)
    ensures CheckRole(held, roles, "and") <==> forall r :: r in roles ==> r in held
  {
    var available := Intersect(held, roles);
    IntersectDistinct(held, roles);
    DistinctCard(available);
    DistinctCard(roles);
    var a := set x | x in available;
    var b := set x | x in roles;
    assert a <= b;
    assert b == a + (b - a);
    assert |b| == |a| + |b - a|;
    if |available| == |roles| {
      assert b - a == {};
      forall r | r in roles ensures r in held {
        assert r in b;
      }
    } else {
      assert b - a != {};
      var r :| r in b - a;
      assert r in roles && r !in held;
    }
  }

  /** The "and" mode does not deduplicate the list it is given: a user who
      holds "admin" fails `isAll('admin', 'admin')`. */
  lemma AllModeCountsDuplicates()
    ensures !CheckRole(["admin"], ["admin", "admin"], "and")
  {
    assert Intersect(["admin"], ["admin", "admin"]) == ["admin"];
  }

  /** `is`: the user holds at least one of the roles. */
  function Is(held: seq<string>, roles: seq<string>): (b: bool)
    ensures b <==> exists r :: r in roles && r in held
  {
    CheckRole(held, roles, "or")
  }

  /** `isNot`: the user holds none of the roles. */
  function IsNot(held: seq<string>, roles: seq<string>): (b: bool)
    ensures b <==> forall r :: r in roles ==> r !in held
  {
    CheckRole(held, roles, "not")
  }

  /** `isAll`: every listed role is held, when no role is listed twice
      (the roles a user holds are always distinct, see GetRolesDistinct). */
  function IsAll(held: seq<string>, roles: seq<string>): (b: bool)
    ensures Distinct(held) && Distinct(roles) ==> (b <==> forall r :: r in roles ==> r in held)
  {
    if Distinct(held) && Distinct(roles) then AllModeMeansAllHeld(held, roles); CheckRole(held, roles, "and")
    else CheckRole(held, roles, "and")
  }
}
