/** The Permission record: its derived identifier and slug, the query
    scopes `simplePermission` and `forModel`, and `createForModel`. */
module PermissionModel {
  import opened Base
  import opened Text
  import opened Database

  /** A grant or check target: a model class name (`new $model` gives an
      instance that does not exist), or a model instance with its morph
      class, its `exists` flag (`persisted`) and its key. */
  datatype Entity = ClassName(morphClass: string) | Model(morphClass: string, persisted: bool, key: nat)

  predicate Exists(e: Entity)
  {
    e.Model? && e.persisted
  }

  /** PHP truthiness of a nullable string column: null, "" and "0" are false. */
  predicate TruthyString(s: Option<string>)
  {
    s.Some? && s.value != "" && s.value != "0"
  }

  /** PHP truthiness of a nullable integer column: null and 0 are false. */
  predicate TruthyKey(k: Option<nat>)
  {
    k.Some? && k.value != 0
  }

  /** `getIdentifierAttribute`: the name, then "-" and the entity type when
      that column is truthy, then "-" and the entity id when that column is
      truthy, all lower-cased. */
  function Identifier(p: Permission): (r: string)
    ensures IsLowerCase(r)
    ensures |p.name| <= |r| && r[..|p.name|] == Lower(p.name)
    ensures !TruthyString(p.entityType) && !TruthyKey(p.entityId) ==> r == Lower(p.name)
  {
    var typed := if TruthyString(p.entityType) then p.name + "-" + p.entityType.value else p.name;
    var slug := if TruthyKey(p.entityId) then typed + "-" + Decimal(p.entityId.value) else typed;
    LowerIsLowerCase(slug);
    assert slug[..|p.name|] == p.name;
    Lower(slug)
  }

  /** `getSlugAttribute`: the slug is the identifier. */
  function Slug(p: Permission): (r: string)
    ensures r == Identifier(p)
  {
    Identifier(p)
  }

  /** `scopeSimplePermission`: both scope columns are null. */
  predicate SimplePermission(p: Permission)
    ensures SimplePermission(p) ==> Identifier(p) == Lower(p.name)
  {
    p.entityId.None? && p.entityType.None?
  }

  /** `scopeForModel`: the entity type is the target's morph class, and the
      entity id is null (unless the target exists and the lookup is strict)
      or equal to the key (if the target exists). */
  predicate ForModel(p: Permission, e: Entity, strict: bool)
    ensures ForModel(p, e, strict) ==> p.entityType == Some(e.morphClass)
    ensures !Exists(e) ==> (ForModel(p, e, strict) <==> p.entityType == Some(e.morphClass) && p.entityId.None?)
    ensures Exists(e) && strict ==> (ForModel(p, e, strict) <==> p.entityType == Some(e.morphClass) && p.entityId == Some(e.key))
    ensures Exists(e) && !strict ==>
      (ForModel(p, e, strict) <==> p.entityType == Some(e.morphClass) && (p.entityId.None? || p.entityId == Some(e.key)))
  {
    var nullClause := !Exists(e) || !strict;
    var keyClause := Exists(e);
    && p.entityType == Some(e.morphClass)
    && ((nullClause && p.entityId.None?) || (keyClause && p.entityId == Some(e.key)))
  }

  /** The row `createForModel` inserts: the name, the target's morph class,
      and its key only when the target exists. It is the one scope that a
      strict `forModel` lookup by the same name finds. */
  function RowForModel(id: nat, name: string, e: Entity): (p: Permission)
    ensures p.id == id && p.name == name
    ensures ForModel(p, e, true) && ForModel(p, e, false) && !SimplePermission(p)
    ensures forall q: Permission :: q.name == name && ForModel(q, e, true) <==> SameScope(q, p)
  {
    Permission(id, name, Some(e.morphClass), if Exists(e) then Some(e.key) else None)
  }

  /** `where('name', $name)->forModel($entity, true)->first()`. */
  function FirstForModel(ps: seq<Permission>, name: string, e: Entity): (r: Option<Permission>)
    ensures r.Some? ==> r.value in ps && r.value.name == name && ForModel(r.value, e, true)
    ensures r.None? <==> forall q :: q in ps ==> !(q.name == name && ForModel(q, e, true))
  {
    if ps == [] then None
    else if ps[0].name == name && ForModel(ps[0], e, true) then Some(ps[0])
    else FirstForModel(ps[1..], name, e)
  }

  /** In a valid table at most one row answers a strict lookup, so the row
      found is the row there is. */
  lemma StrictLookupUnique(ps: seq<Permission>, next: nat, name: string, e: Entity, p: Permission, q: Permission)
    requires PermissionsValid(ps, next)
    requires p in ps && q in ps
    requires p.name == name && ForModel(p, e, true)
    requires q.name == name && ForModel(q, e, true)
    ensures p == q
  {
    var row := RowForModel(0, name, e);
    assert SameScope(p, row) && SameScope(q, row);
    var i :| 0 <= i < |ps| && ps[i] == p;
    var j :| 0 <= j < |ps| && ps[j] == q;
    if i != j {
      assert SameScope(ps[i], ps[j]);
    }
  }

  /** Once a row answering the lookup has been appended to a table in which
      nothing answered it, the lookup finds that row. */
  lemma {:induction false} FirstForModelAppend(ps: seq<Permission>, name: string, e: Entity, p: Permission)
    requires FirstForModel(ps, name, e).None?
    requires p.name == name && ForModel(p, e, true)
    ensures FirstForModel(ps + [p], name, e) == Some(p)
  {
    if ps != [] {
      assert (ps + [p])[1..] == ps[1..] + [p];
      FirstForModelAppend(ps[1..], name, e, p);
    }
  }

  /** `createForModel`: insert the row for the target. */
  method CreateForModel(store: Store, e: Entity, name: string) returns (p: Permission)
    modifies store
    ensures p == RowForModel(old(store.nextPermissionId), name, e)
    ensures store.State() == old(store.State()).(
      permissions := old(store.permissions) + [p], nextPermissionId := old(store.nextPermissionId) + 1)
  {
    p := store.InsertPermission(name, Some(e.morphClass), if Exists(e) then Some(e.key) else None);
  }
}
