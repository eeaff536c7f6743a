/** The caching clipboard: a read-through cache, keyed per user in two
    namespaces, in front of the resolver; per-user and bulk invalidation. */
module Cache {
  import opened Base
  import opened Text
  import opened Database
  import opened PermissionModel
  import opened Clipboard

  /** A serialized attribute value: null, an integer or a string. */
  datatype Attr = Null | Int(n: nat) | Str(s: string)

  /** `$permission->getAttributes()`: column name to value. */
  type Attributes = map<string, Attr>

  /** What the clipboard stores: serialized permission rows under a
      permissions key, the list of role names under a roles key. */
  datatype CacheValue = PermissionRows(rows: seq<Attributes>) | RoleNames(names: seq<string>)

  const Tag: string := "silber-bouncer"

  function PermissionsKey(user: nat): (r: string)
    ensures |r| == 27 + |Decimal(user)|
    ensures r[..27] == "silber-bouncer-permissions-" && r[27..] == Decimal(user)
  {
    Tag + "-permissions-" + Decimal(user)
  }

  function RolesKey(user: nat): (r: string)
    ensures |r| == 21 + |Decimal(user)|
    ensures r[..21] == "silber-bouncer-roles-" && r[21..] == Decimal(user)
  {
    Tag + "-roles-" + Decimal(user)
  }

  /** Keys of the two namespaces never meet, and within one namespace
      different users have different keys. */
  lemma KeysDistinct(u: nat, v: nat)
    ensures PermissionsKey(u) != RolesKey(v)
    ensures PermissionsKey(u) == PermissionsKey(v) ==> u == v
    ensures RolesKey(u) == RolesKey(v) ==> u == v
  {
    assert PermissionsKey(u)[15] == 'p';
    assert RolesKey(v)[15] == 'r';
    assert PermissionsKey(u)[27..] == Decimal(u);
    assert PermissionsKey(v)[27..] == Decimal(v);
    assert RolesKey(u)[21..] == Decimal(u);
    assert RolesKey(v)[21..] == Decimal(v);
    DecimalInjective(u, v);
  }

  // ---------------------------------------------------------------------
  // Serialization

  /** The four attributes of a row hold the permission's columns, a
      missing scope as null. */
  predicate Describes(a: Attributes, p: Permission)
  {
    && "id" in a && a["id"] == Int(p.id)
    && "name" in a && a["name"] == Str(p.name)
    && "entity_type" in a && a["entity_type"] == (if p.entityType.Some? then Str(p.entityType.value) else Null)
    && "entity_id" in a && a["entity_id"] == (if p.entityId.Some? then Int(p.entityId.value) else Null)
  }

  /** `getAttributes`: the four columns by name. */
  function Serialize(p: Permission): (a: Attributes)
    ensures Describes(a, p) && a.Keys == {"id", "name", "entity_type", "entity_id"}
  {
    map[
      "id" := Int(p.id),
      "name" := Str(p.name),
      "entity_type" := (if p.entityType.Some? then Str(p.entityType.value) else Null),
      "entity_id" := (if p.entityId.Some? then Int(p.entityId.value) else Null)
    ]
  }

  /** The attributes hydrate to a permission: an integer id, a string name,
      a nullable string type and a nullable integer id. */
  predicate Hydratable(a: Attributes)
  {
    && "id" in a && a["id"].Int?
    && "name" in a && a["name"].Str?
    && "entity_type" in a && (a["entity_type"].Null? || a["entity_type"].Str?)
    && "entity_id" in a && (a["entity_id"].Null? || a["entity_id"].Int?)
  }

  /** `hydrate` of one attribute array. */
  function Hydrate(a: Attributes): (p: Permission)
    requires Hydratable(a)
    ensures Describes(a, p)
  {
    Permission(
      a["id"].n,
      a["name"].s,
      if a["entity_type"].Str? then Some(a["entity_type"].s) else None,
      if a["entity_id"].Int? then Some(a["entity_id"].n) else None)
  }

  /** `serializePermissions`: the attribute array of every permission. */
  function SerializePermissions(ps: seq<Permission>): (r: seq<Attributes>)
    ensures |r| == |ps|
    ensures forall i :: 0 <= i < |r| ==> Hydratable(r[i]) && Hydrate(r[i]) == ps[i]
  {
    seq(|ps|, i requires 0 <= i < |ps| => Serialize(ps[i]))
  }

  /** `deserializePermissions`: hydrate every attribute array. */
  function DeserializePermissions(rows: seq<Attributes>): (r: seq<Permission>)
    requires forall i :: 0 <= i < |rows| ==> Hydratable(rows[i])
    ensures |r| == |rows|
    ensures forall i :: 0 <= i < |rows| ==> Describes(rows[i], r[i])
  {
    seq(|rows|, i requires 0 <= i < |rows| => Hydrate(rows[i]))
  }

  /** Hydrating the serialized rows gives back the same permissions, every
      attribute included. */
  lemma SerializeRoundTrip(ps: seq<Permission>)
    ensures DeserializePermissions(SerializePermissions(ps)) == ps
  {
    var rows := SerializePermissions(ps);
    assert forall i :: 0 <= i < |ps| ==> DeserializePermissions(rows)[i] == ps[i];
  }

  // ---------------------------------------------------------------------
  // The cache as a map, and what each clipboard operation does to it

  /** What this code ever stores under its own keys: hydratable rows under
      a permissions key, role names under a roles key. Other keys of the
      store are not the clipboard's. */
  ghost predicate EntriesValid(entries: map<string, CacheValue>)
  {
    && (forall u: nat :: PermissionsKey(u) in entries ==>
          entries[PermissionsKey(u)].PermissionRows? &&
          forall i :: 0 <= i < |entries[PermissionsKey(u)].rows| ==> Hydratable(entries[PermissionsKey(u)].rows[i]))
    && (forall u: nat :: RolesKey(u) in entries ==> entries[RolesKey(u)].RoleNames?)
  }

  /** `$this->cache->get($key)` is truthy: present and a non-empty array. */
  predicate PermissionsHit(entries: map<string, CacheValue>, user: nat)
  {
    PermissionsKey(user) in entries && entries[PermissionsKey(user)].PermissionRows?
    && entries[PermissionsKey(user)].rows != []
  }

  /** What `getPermissions` returns. */
  function PermissionsRead(entries: map<string, CacheValue>, db: Db, user: nat): (r: seq<Permission>)
    requires EntriesValid(entries)
    ensures !PermissionsHit(entries, user) ==> r == GetPermissions(db, user)
    ensures PermissionsHit(entries, user) ==> 0 < |r| == |entries[PermissionsKey(user)].rows|
    ensures r == [] ==> r == GetPermissions(db, user)
  {
    if PermissionsHit(entries, user) then DeserializePermissions(entries[PermissionsKey(user)].rows)
    else GetPermissions(db, user)
  }

  /** The cache after `getPermissions`: unchanged on a hit; on a miss, the
      serialized result stored forever under the user's key. */
  function AfterPermissionsRead(entries: map<string, CacheValue>, db: Db, user: nat): (r: map<string, CacheValue>)
    requires EntriesValid(entries)
    ensures EntriesValid(r)
  {
    if PermissionsHit(entries, user) then entries
    else
      var r := entries[PermissionsKey(user) := PermissionRows(SerializePermissions(GetPermissions(db, user)))];
      forall u: nat ensures PermissionsKey(u) != RolesKey(user) && (PermissionsKey(u) == PermissionsKey(user) ==> u == user)
                     && RolesKey(u) != PermissionsKey(user) {
        KeysDistinct(u, user);
        KeysDistinct(user, u);
      }
      r
  }

  /** What `getRoles` returns: `sear` treats any stored value, even an empty
      list, as a hit. */
  function RolesRead(entries: map<string, CacheValue>, db: Db, user: nat): (r: seq<string>)
    requires EntriesValid(entries)
    ensures RolesKey(user) in entries ==> r == entries[RolesKey(user)].names
    ensures RolesKey(user) !in entries ==> r == GetRoles(db, user)
  {
    if RolesKey(user) in entries then entries[RolesKey(user)].names else GetRoles(db, user)
  }

  function AfterRolesRead(entries: map<string, CacheValue>, db: Db, user: nat): (r: map<string, CacheValue>)
    requires EntriesValid(entries)
    ensures EntriesValid(r)
  {
    if RolesKey(user) in entries then entries
    else
      var r := entries[RolesKey(user) := RoleNames(GetRoles(db, user))];
      forall u: nat ensures PermissionsKey(u) != RolesKey(user) && (RolesKey(u) == RolesKey(user) ==> u == user) {
        KeysDistinct(u, user);
      }
      r
  }

  /** `refreshFor`: both of the user's keys forgotten. */
  function RefreshForEntries(entries: map<string, CacheValue>, user: nat): (r: map<string, CacheValue>)
    requires EntriesValid(entries)
    ensures EntriesValid(r)
  {
    entries - {PermissionsKey(user), RolesKey(user)}
  }

  function UserKeys(users: seq<nat>): set<string>
  {
    (set u | u in users :: PermissionsKey(u)) + (set u | u in users :: RolesKey(u))
  }

  /** The keys of one more user. */
  lemma UserKeysSnoc(users: seq<nat>, i: nat)
    requires i < |users|
    ensures UserKeys(users[..i + 1]) == UserKeys(users[..i]) + {PermissionsKey(users[i]), RolesKey(users[i])}
  {
    assert users[..i + 1] == users[..i] + [users[i]];
  }

  /** `refresh()` without a user: a tagged cache is flushed; otherwise the
      keys of every user of the users table are forgotten. */
  function RefreshAllEntries(entries: map<string, CacheValue>, tagged: bool, users: seq<nat>): (r: map<string, CacheValue>)
    requires EntriesValid(entries)
    ensures EntriesValid(r)
  {
    if tagged then map[] else entries - UserKeys(users)
  }

  // ---------------------------------------------------------------------
  // Properties of the cache

  /** Once `getPermissions` has returned a non-empty list, later reads
      return that list whatever the store then holds, until the key is
      invalidated: grants made in between are not seen. */
  lemma CachedPermissionsAreStale(entries: map<string, CacheValue>, db1: Db, db2: Db, user: nat)
    requires EntriesValid(entries)
    requires PermissionsRead(entries, db1, user) != []
    ensures PermissionsRead(AfterPermissionsRead(entries, db1, user), db2, user) == PermissionsRead(entries, db1, user)
  {
    if !PermissionsHit(entries, user) {
      SerializeRoundTrip(GetPermissions(db1, user));
    }
  }

  /** An empty permission list is stored but reads as a miss, so the next
      read consults the store again. */
  lemma EmptyPermissionsAreRecomputed(entries: map<string, CacheValue>, db1: Db, db2: Db, user: nat)
    requires EntriesValid(entries)
    requires !PermissionsHit(entries, user) && GetPermissions(db1, user) == []
    ensures PermissionsRead(AfterPermissionsRead(entries, db1, user), db2, user) == GetPermissions(db2, user)
  {
  }

  /** Once `getRoles` has run, later reads return the same names, even an
      empty list, until the key is invalidated. */
  lemma CachedRolesAreStale(entries: map<string, CacheValue>, db1: Db, db2: Db, user: nat)
    requires EntriesValid(entries)
    ensures RolesRead(AfterRolesRead(entries, db1, user), db2, user) == RolesRead(entries, db1, user)
  {
  }

  /** After `refreshFor(u)` the next reads for u come from the store. */
  lemma RefreshForThenRead(entries: map<string, CacheValue>, db: Db, user: nat)
    requires EntriesValid(entries)
    ensures PermissionsRead(RefreshForEntries(entries, user), db, user) == GetPermissions(db, user)
    ensures RolesRead(RefreshForEntries(entries, user), db, user) == GetRoles(db, user)
  {
  }

  /** `refreshFor(u)` leaves what every other user reads unchanged. */
  lemma RefreshForIsolation(entries: map<string, CacheValue>, db: Db, user: nat, other: nat)
    requires EntriesValid(entries)
    requires other != user
    ensures PermissionsRead(RefreshForEntries(entries, user), db, other) == PermissionsRead(entries, db, other)
    ensures RolesRead(RefreshForEntries(entries, user), db, other) == RolesRead(entries, db, other)
  {
    KeysDistinct(other, user);
    KeysDistinct(user, other);
  }

  /** Invalidating twice is invalidating once. */
  lemma RefreshForIdempotent(entries: map<string, CacheValue>, user: nat)
    requires EntriesValid(entries)
    ensures RefreshForEntries(RefreshForEntries(entries, user), user) == RefreshForEntries(entries, user)
  {
  }

  /** After `refresh()`, the reads of every user of the users table (of
      every user at all, on a tagged cache) come from the store. */
  lemma RefreshAllThenRead(entries: map<string, CacheValue>, tagged: bool, users: seq<nat>, db: Db, user: nat)
    requires EntriesValid(entries)
    requires tagged || user in users
    ensures PermissionsRead(RefreshAllEntries(entries, tagged, users), db, user) == GetPermissions(db, user)
    ensures RolesRead(RefreshAllEntries(entries, tagged, users), db, user) == GetRoles(db, user)
  {
  }

  // ---------------------------------------------------------------------
  // The cache backend and the caching clipboard

  /** A cache store shared by every clipboard built on it; `supportsTags`
      says whether it has a `tags` method. Flushing the tag is modelled as
      clearing the whole map. */
  class CacheStore {
    var entries: map<string, CacheValue>
    const supportsTags: bool

    constructor (supportsTags: bool)
      ensures entries == map[] && this.supportsTags == supportsTags
    {
      entries := map[];
      this.supportsTags := supportsTags;
    }

    method Forever(key: string, value: CacheValue)
      modifies this
      ensures entries == old(entries)[key := value]
    {
      entries := entries[key := value];
    }

    method Forget(key: string)
      modifies this
      ensures entries == old(entries) - {key}
    {
      entries := entries - {key};
    }

    method Flush()
      modifies this
      ensures entries == map[]
    {
      entries := map[];
    }
  }

  class CachedClipboard {
    var cache: CacheStore
    /** The cache is a TaggedCache: the store supported tags. */
    var tagged: bool

    constructor (store: CacheStore)
      ensures cache == store && tagged == store.supportsTags
    {
      cache := store;
      tagged := store.supportsTags;
    }

    /** `setCache`: a store with tags is wrapped in the "silber-bouncer"
        tag, another is used as it is. */
    method SetCache(store: CacheStore)
      modifies this
      ensures cache == store && tagged == store.supportsTags
    {
      cache := store;
      tagged := store.supportsTags;
    }

    /** `getPermissions`. */
    method GetPermissions(store: Store, user: nat) returns (ps: seq<Permission>)
      requires EntriesValid(cache.entries)
      modifies cache
      ensures ps == PermissionsRead(old(cache.entries), store.State(), user)
      ensures cache.entries == AfterPermissionsRead(old(cache.entries), store.State(), user)
    {
      var key := PermissionsKey(user);
      if key in cache.entries && cache.entries[key].PermissionRows? && cache.entries[key].rows != [] {
        return DeserializePermissions(cache.entries[key].rows);
      }
      ps := Clipboard.GetPermissions(store.State(), user);
      cache.Forever(key, PermissionRows(SerializePermissions(ps)));
    }

    /** `getRoles`, through `sear`. */
    method GetRoles(store: Store, user: nat) returns (names: seq<string>)
      requires EntriesValid(cache.entries)
      modifies cache
      ensures names == RolesRead(old(cache.entries), store.State(), user)
      ensures cache.entries == AfterRolesRead(old(cache.entries), store.State(), user)
    {
      var key := RolesKey(user);
      if key in cache.entries {
        return cache.entries[key].names;
      }
      names := Clipboard.GetRoles(store.State(), user);
      cache.Forever(key, RoleNames(names));
    }

    /** `check`, answered from the cached permissions. */
    method Check(store: Store, user: nat, action: string, target: Option<Entity>) returns (b: bool)
      requires EntriesValid(cache.entries)
      modifies cache
      ensures cache.entries == AfterPermissionsRead(old(cache.entries), store.State(), user)
      ensures b ==> exists p :: p in PermissionsRead(old(cache.entries), store.State(), user) && Matches(p, action, target)
      ensures (forall p :: p in PermissionsRead(old(cache.entries), store.State(), user) ==> p.id != 0) ==>
        (b <==> exists p :: p in PermissionsRead(old(cache.entries), store.State(), user) && Matches(p, action, target))
    {
      var ps := GetPermissions(store, user);
      b := Clipboard.Check(ps, action, target);
    }

    /** `checkRole`, answered from the cached role names. */
    method CheckRole(store: Store, user: nat, roles: seq<string>, mode: string) returns (b: bool)
      requires EntriesValid(cache.entries)
      modifies cache
      ensures cache.entries == AfterRolesRead(old(cache.entries), store.State(), user)
      ensures b == Clipboard.CheckRole(RolesRead(old(cache.entries), store.State(), user), roles, mode)
    {
      var held := GetRoles(store, user);
      b := Clipboard.CheckRole(held, roles, mode);
    }

    /** `refreshFor`. */
    method RefreshFor(user: nat)
      requires EntriesValid(cache.entries)
      modifies cache
      ensures cache.entries == RefreshForEntries(old(cache.entries), user)
    {
      cache.Forget(PermissionsKey(user));
      cache.Forget(RolesKey(user));
    }

    /** `refresh`: for one user, `refreshFor`; for all, a flush of the tag or
        a `refreshFor` of every user id in the users table. */
    method Refresh(user: Option<nat>, store: Store)
      requires EntriesValid(cache.entries)
      modifies cache
      ensures user.Some? ==> cache.entries == RefreshForEntries(old(cache.entries), user.value)
      ensures user.None? ==> cache.entries == RefreshAllEntries(old(cache.entries), tagged, store.users)
    {
      if user.Some? {
        RefreshFor(user.value);
        return;
      }
      if tagged {
        cache.Flush();
        return;
      }
      var ids := store.users;
      var i := 0;
      while i < |ids|
        invariant 0 <= i <= |ids|
        invariant cache.entries == old(cache.entries) - UserKeys(ids[..i])
        invariant EntriesValid(cache.entries)
      {
        UserKeysSnoc(ids, i);
        RefreshFor(ids[i]);
        i := i + 1;
      }
      assert ids[..i] == ids;
    }
  }
}
