# Bouncer authorization core, modelled in Dafny

Bouncer is a role-and-permission package for Laravel. A permission is a row
with a name (the action) and an optional scope: a whole model class (the
"blanket" permission) or one stored instance of it. Permissions are linked
to users directly or to roles, and users are linked to roles. The core
modelled here is the part that writes and reads those links:

- the Permission record (`src/Database/Permission.php`): its identifier
  and slug, the `simplePermission` and `forModel` query scopes, and
  `createForModel`;
- the resolver (`src/Clipboard.php`): it compiles the identifiers a check
  looks for and resolves a user's roles and effective permissions. It also
  answers point checks and role checks and provides the gate's before-hook.
  The `is`, `isNot` and `isAll` helpers of
  `src/Database/HasRolesAndPermissions.php` are folded in as aliases of the
  role check;
- the caching resolver (`src/CachedClipboard.php`): a read-through cache
  keyed per user, with per-user and bulk invalidation;
- the grant conductor (`src/Conductors/GivesPermission.php`): it finds or
  creates permission rows and roles, then attaches only the links that are
  missing;
- the revoke conductor (`src/Conductors/RemovesPermission.php`): it finds
  the grantee without creating anything, collects ids from a mixed operand
  and detaches them;
- the `whereCan` query scopes (`src/Database/Constraints/Permissions.php`).

The relational store is a `Database.Db` snapshot. Its fields are the
permissions, roles and users tables and the three link tables, plus the two
auto-increment counters. `Database.Store` is a class whose fields are those
tables, and every write of the core goes through its methods.
`Database.Consistent` states the uniqueness rules of the schema
(`migrations/create_bouncer_tables.php`) with NULL read as a value: two rows
with the same name and the same null scope columns count as duplicates. An
SQL unique index treats NULLs as distinct and would accept such rows; the
conductors never create them, since they look a row up before inserting it.
The conductors are proved to preserve `Database.Consistent`.

Pure logic is written as functions. Stateful operations are methods of
classes (`Store`, `CacheStore`, `CachedClipboard`, and the two conductors,
each holding its grantee as a `const`). Each conductor method is proved to
do exactly what a pure "effect" function says: it maps the old snapshot to
a result and a new snapshot. The properties of the conductors are lemmas
about those functions.

The code is followed wherever it differs from the package's own prose:

- `checkRole` in 'and' mode compares the number of held roles found with
  the number of roles asked for, without removing duplicates from the
  request. Asking for `["admin", "admin"]` therefore fails even for an
  admin (`Clipboard.AllModeCountsDuplicates`).
- A cached empty permission list counts as a cache miss, since the cache
  read is tested for truthiness. A cached empty role list counts as a hit,
  since `sear` only tests for null.

PHP truthiness is modelled explicitly. An `entity_type` of `""` or `"0"`
and an `entity_id` of `0` are left out of an identifier, and a permission
id of `0` does not pass a check.

## Model

| member | source | states |
|---|---|---|
| Text.Lower | src/Database/Permission.php:77 | `strtolower` keeps the length and maps each ASCII capital to lower case, leaving every other character alone; the result is lower case |
| Text.Decimal | src/Database/Permission.php:73-75 | the decimal rendering of a key is non-empty, made of digits, and has two digits or more exactly when the key is 10 or more |
| Text.DecimalInjective | src/Database/Permission.php:73-75 | different keys render differently, so identifiers and cache keys tell keys apart |
| Database.AppendPermissionValid | migrations/create_bouncer_tables.php:18-24 | inserting a row with the next id and a scope no row has keeps ids and (name, entity_type, entity_id) unique |
| Database.AppendRowsValid | migrations/create_bouncer_tables.php:18-24 | inserting several rows with consecutive fresh ids and pairwise new scopes keeps the table valid |
| Database.AppendRoleValid | migrations/create_bouncer_tables.php:28-29 | inserting a role with the next id and a new name keeps role ids and names unique |
| Database.AttachAll | src/Conductors/GivesPermission.php:61 | after `attach` the owner is linked to every id given, other links are unchanged, and only the link tables change |
| Database.DetachAll | src/Conductors/RemovesPermission.php:43 | after `detach` the owner is linked to none of the ids given, other links are unchanged, and only the link tables change |
| Database.RoleNamed | src/Conductors/RemovesPermission.php:60 | the lookup of a role by name returns a role with that name, and returns nothing exactly when no role has it |
| Database.ExistingOwner | src/Conductors/RemovesPermission.php:54-61 | a role name resolves to an owner exactly when a role of that name exists |
| Database.Store.Attach | src/Conductors/GivesPermission.php:61 | the store's link tables become `AttachAll` of the old state; the caller must pass distinct ids that are not yet linked, as the composite unique index demands |
| Database.Store.Detach | src/Conductors/RemovesPermission.php:43 | the store becomes `DetachAll` of the old state |
| Database.Store.InsertPermission | src/Database/Permission.php:33-37 | a new row gets the next auto-increment id and is appended; nothing else changes |
| Database.Store.InsertRole | src/Conductors/GivesPermission.php:75 | a new role gets the next auto-increment id and is appended; nothing else changes |
| PermissionModel.Identifier | src/Database/Permission.php:65-78 | the identifier is lower case and starts with the lower-cased name; with neither scope column truthy it is exactly the lower-cased name |
| PermissionModel.Slug | src/Database/Permission.php:85-88 | the slug is the identifier |
| PermissionModel.SimplePermission | src/Database/Permission.php:96-101 | a row with both scope columns null has the lower-cased name as its identifier |
| PermissionModel.ForModel | src/Database/Permission.php:111-131 | the scope always requires the target's morph class. For a class or an unsaved instance it requires a null id. For an existing instance it requires the key when strict, and a null id or the key when not strict |
| PermissionModel.RowForModel | src/Database/Permission.php:31-38 | the row `createForModel` builds passes both the strict and the non-strict lookup for its target, is not simple, and has the only scope a strict lookup by that name accepts |
| PermissionModel.FirstForModel | src/Conductors/GivesPermission.php:109 | the strict lookup returns a row with that name that the strict scope accepts, and returns nothing exactly when no row qualifies |
| PermissionModel.StrictLookupUnique | src/Conductors/GivesPermission.php:109 | in a valid table at most one row answers a strict lookup |
| PermissionModel.FirstForModelAppend | src/Conductors/GivesPermission.php:109-111 | after a row is created for a lookup that found nothing, the lookup finds that row |
| PermissionModel.CreateForModel | src/Database/Permission.php:31-38 | inserts `RowForModel` with the next id: the name, the morph class, and the key only when the target exists |
| Clipboard.CompileModelPermissionIdentifiers | src/Clipboard.php:115-126 | one identifier for a class or an unsaved instance, two for a stored one, the second being the first followed by "-" and the key; with a truthy class name the first is the identifier of the blanket row a grant creates, and the second (for a non-zero key) that of the instance row |
| Clipboard.CompilePermissionIdentifiers | src/Clipboard.php:99-106 | with no target, the identifier of the simple permission of that name; two identifiers exactly when the target exists |
| Clipboard.SimpleGrantScope | src/Clipboard.php:99-106 | a simple permission answers an untargeted check exactly when its name equals the action up to ASCII case |
| Clipboard.BlanketGrantScope | src/Clipboard.php:115-126 | a blanket permission on a class answers every check on that class: against the class name, an unsaved instance, or any stored instance |
| Clipboard.InstanceGrantScope | src/Clipboard.php:115-126 | a permission on the stored instance with key k answers a check on a target of that class exactly when the target exists and has key k |
| Clipboard.SimpleNameCollidesWithBlanket | src/Clipboard.php:119 | identifiers are not injective: a simple permission named action-class answers a check on that class |
| Clipboard.GetRoles | src/Clipboard.php:134-137 | the names returned are exactly the names of the roles linked to the user |
| Clipboard.GetRolesDistinct | src/Clipboard.php:134-137 | in a valid store no role name is listed twice |
| Clipboard.GetPermissions | src/Clipboard.php:145-178 | the rows returned are exactly the rows linked to the user directly, or through a role linked to the user, for a user in the users table |
| Clipboard.GetPermissionsDistinct | src/Clipboard.php:145-150 | in a valid store no row and no id is returned twice |
| Clipboard.IdentifierList | src/Clipboard.php:57 | the list holds the identifier of each permission, position by position |
| Clipboard.FirstRequested | src/Clipboard.php:61-67 | the loop returns the position of the first identifier in the requested list, and nothing exactly when no identifier is requested |
| Clipboard.CheckGetId | src/Clipboard.php:55-68 | returns nothing exactly when no permission's identifier is requested; otherwise returns the id of the first permission in order whose identifier is requested |
| Clipboard.Check | src/Clipboard.php:42-45 | true only if some permission matches with a non-zero id; when all ids are non-zero, true exactly when some permission matches |
| Clipboard.Before | src/Clipboard.php:23-31 | the hook abstains when extra arguments are passed. It allows only for a matching permission with a non-zero id, giving that id as the reason, and with non-zero ids it allows whenever one matches |
| Clipboard.CheckRole | src/Clipboard.php:78-90 | 'or' holds exactly when some requested role is held; 'not' holds exactly when none is held |
| Clipboard.AllModeMeansAllHeld | src/Clipboard.php:89 | for duplicate-free lists, 'and' holds exactly when every requested role is held |
| Clipboard.AllModeCountsDuplicates | src/Clipboard.php:89 | a repeated requested role makes 'and' fail even though the user holds it |
| Clipboard.Is | src/Database/HasRolesAndPermissions.php:108-115 | holds exactly when the user holds one of the roles |
| Clipboard.IsNot | src/Database/HasRolesAndPermissions.php:123-130 | holds exactly when the user holds none of the roles |
| Clipboard.IsAll | src/Database/HasRolesAndPermissions.php:138-145 | for duplicate-free lists, holds exactly when the user holds all of the roles |
| Cache.PermissionsKey | src/CachedClipboard.php:73 | the permissions key is the tag, "-permissions-", then the user's key in decimal |
| Cache.RolesKey | src/CachedClipboard.php:94 | the roles key is the tag, "-roles-", then the user's key in decimal |
| Cache.KeysDistinct | src/CachedClipboard.php:73-94 | permission keys and role keys never coincide, and different users get different keys in each namespace |
| Cache.Serialize | src/CachedClipboard.php:163 | `getAttributes` holds exactly the four columns, each with the permission's value, a missing scope as null |
| Cache.Hydrate | src/CachedClipboard.php:151 | the hydrated permission has the columns the attributes describe |
| Cache.DeserializePermissions | src/CachedClipboard.php:149-152 | every attribute array becomes, in order, the permission whose columns it holds |
| Cache.SerializePermissions | src/CachedClipboard.php:160-165 | every serialized row can be hydrated back to the row it came from |
| Cache.SerializeRoundTrip | src/CachedClipboard.php:149-165 | deserializing the serialized list gives back the same list of rows |
| Cache.PermissionsRead | src/CachedClipboard.php:71-84 | a read returns the store's rows on a miss, the cached rows (never an empty list) on a hit, and an empty answer only from the store |
| Cache.RolesRead | src/CachedClipboard.php:92-99 | a read returns whatever list is cached under the key, even an empty one, and the store's role names only when the key is absent |
| Cache.AfterPermissionsRead | src/CachedClipboard.php:71-84 | a permissions read keeps the cache well formed: the clipboard's keys hold rows or role names as expected |
| Cache.AfterRolesRead | src/CachedClipboard.php:92-99 | a roles read keeps the cache well formed |
| Cache.RefreshForEntries | src/CachedClipboard.php:132-141 | forgetting a user's two keys keeps the cache well formed |
| Cache.RefreshAllEntries | src/CachedClipboard.php:107-124 | a flush or a per-user sweep keeps the cache well formed |
| Cache.CachedPermissionsAreStale | src/CachedClipboard.php:75-77 | after a non-empty permissions list is cached, later reads return it whatever the store then holds |
| Cache.EmptyPermissionsAreRecomputed | src/CachedClipboard.php:75 | an empty permissions list is never served from the cache: the next read queries the store again |
| Cache.CachedRolesAreStale | src/CachedClipboard.php:96-98 | after a roles read, later reads return the same names whatever the store then holds, including an empty list |
| Cache.RefreshForThenRead | src/CachedClipboard.php:132-141 | after `refreshFor` a user's reads come from the store again |
| Cache.RefreshForIsolation | src/CachedClipboard.php:132-141 | `refreshFor` does not change what any other user reads |
| Cache.RefreshForIdempotent | src/CachedClipboard.php:132-141 | refreshing a user twice is the same as refreshing once |
| Cache.RefreshAllThenRead | src/CachedClipboard.php:107-124 | after `refresh()` every user of the users table (every user at all, for a tagged cache) reads from the store again |
| Cache.CacheStore.Forever | src/CachedClipboard.php:81 | the key is bound to the value and nothing else changes |
| Cache.CacheStore.Forget | src/CachedClipboard.php:136-138 | the key is removed and nothing else changes |
| Cache.CacheStore.Flush | src/CachedClipboard.php:114 | the tagged cache is emptied |
| Cache.CachedClipboard.constructor | src/CachedClipboard.php:33-36 | the clipboard uses the given store, tagged exactly when the store supports tags |
| Cache.CachedClipboard.SetCache | src/CachedClipboard.php:44-53 | the clipboard uses the given store, tagged exactly when the store supports tags |
| Cache.CachedClipboard.GetPermissions | src/CachedClipboard.php:71-84 | returns the cached rows on a hit, otherwise the store's rows, which it caches forever |
| Cache.CachedClipboard.GetRoles | src/CachedClipboard.php:92-99 | returns any cached value, otherwise the store's role names, which it caches |
| Cache.CachedClipboard.Check | src/Clipboard.php:42-45 | the check answers from the permissions the cache serves: true only when one of them matches, and, when none of them has id 0, true exactly when one matches |
| Cache.CachedClipboard.CheckRole | src/Clipboard.php:78-90 | the role check answers from the roles the cache serves |
| Cache.CachedClipboard.RefreshFor | src/CachedClipboard.php:132-141 | the user's two keys are forgotten and nothing else changes |
| Cache.CachedClipboard.Refresh | src/CachedClipboard.php:107-124 | with a user, `refreshFor`. Without one, a tagged cache is flushed; otherwise the loop over the users table forgets exactly those users' keys |
| GivesPermission.GetEntityInstance | src/Conductors/GivesPermission.php:120-136 | an instance that does not exist is refused with the invalid-argument error; classes and stored instances pass unchanged |
| GivesPermission.Unique | src/Conductors/GivesPermission.php:146 | `array_unique` keeps exactly the names given, without repetition (membership only, not order) |
| GivesPermission.UniqueOfDistinct | src/Conductors/GivesPermission.php:146 | a list without repetitions is left as it is |
| GivesPermission.Without | src/Conductors/GivesPermission.php:164 | `array_diff` keeps exactly the elements of the first list that are not in the second (membership only, not order) |
| GivesPermission.SimpleNamed | src/Conductors/GivesPermission.php:148 | the query returns exactly the simple permissions whose name is listed |
| GivesPermission.GranteeEffect | src/Conductors/GivesPermission.php:69-76 | after `getModel` the grantee exists as the owner returned; a role is created only when none has the name; only the roles table changes |
| GivesPermission.GranteeConsistent | src/Conductors/GivesPermission.php:75 | `firstOrCreate` keeps role ids and names unique |
| GivesPermission.GranteeStable | src/Conductors/GivesPermission.php:75 | resolving the grantee again finds the same owner and creates nothing |
| GivesPermission.ModelPermissionEffect | src/Conductors/GivesPermission.php:105-112 | the row returned has the name, passes the strict lookup for the target, and is what that lookup finds afterwards; a row is created only when the lookup found none |
| GivesPermission.ModelPermissionConsistent | src/Conductors/GivesPermission.php:109-111 | finding or creating the target's row keeps the permissions table valid |
| GivesPermission.ByNameEffect | src/Conductors/GivesPermission.php:144-173 | `permissionsByName` changes only the permissions table and its counter; what it returns and creates is stated by the lemmas below |
| GivesPermission.ByNameCovers | src/Conductors/GivesPermission.php:144-173 | afterwards every name given has a simple permission whose id is returned; every id returned is such a permission; and every simple permission with one of the names is returned |
| GivesPermission.ByNameConsistent | src/Conductors/GivesPermission.php:144-173 | on a valid store the lookup keeps the table valid and returns each id once, so the merge of found and created rows loses nothing |
| GivesPermission.ByNameStable | src/Conductors/GivesPermission.php:144-173 | looking the same names up again returns the same ids and creates nothing |
| GivesPermission.IdsEffect | src/Conductors/GivesPermission.php:85-96 | only an unsaved instance target with a name fails, with the invalid-argument error; on success only the permissions table changes |
| GivesPermission.IdsConsistent | src/Conductors/GivesPermission.php:85-96 | on a valid store the ids are distinct and the store stays valid |
| GivesPermission.IdsStable | src/Conductors/GivesPermission.php:85-96 | resolving the same abilities again returns the same ids and creates nothing |
| GivesPermission.GiveEffect | src/Conductors/GivesPermission.php:55-62 | afterwards the owner is linked to every id given, other links are unchanged, and only the link tables change |
| GivesPermission.GiveTwice | src/Conductors/GivesPermission.php:57-59 | giving the same ids twice is the same as giving them once |
| GivesPermission.GrantEffect | src/Conductors/GivesPermission.php:39-46 | a failed grant writes nothing; a successful one answers true |
| GivesPermission.GrantIdempotent | src/Conductors/GivesPermission.php:39-62 | repeating a grant returns the same answer and leaves the store as the first grant left it |
| GivesPermission.GrantConsistent | src/Conductors/GivesPermission.php:39-46 | granting keeps a valid store valid |
| GivesPermission.GrantLinks | src/Conductors/GivesPermission.php:39-46 | after a grant the grantee exists. It is linked to the given Permission model; or to a row with the name that the strict lookup accepts for the target; or, with no target, to a simple permission for each name |
| GivesPermission.GrantThenCheck | src/Conductors/GivesPermission.php:39-46 | a name granted to a user of the users table passes the resolver's untargeted check for that name |
| GivesPermission.GivesPermission.To | src/Conductors/GivesPermission.php:39-46 | the store afterwards and the answer are those of `GrantEffect`, and the store stays valid |
| GivesPermission.GivesPermission.GivePermissions | src/Conductors/GivesPermission.php:55-62 | performs `GiveEffect`, attaching only ids not linked yet, as the unique index requires |
| GivesPermission.GivesPermission.GetModel | src/Conductors/GivesPermission.php:69-76 | performs `GranteeEffect` |
| GivesPermission.GivesPermission.GetPermissionIds | src/Conductors/GivesPermission.php:85-96 | performs `IdsEffect`, leaves the store untouched on failure, and returns distinct ids |
| GivesPermission.GivesPermission.GetModelPermission | src/Conductors/GivesPermission.php:105-112 | refuses an unsaved instance without writing; otherwise performs `ModelPermissionEffect` |
| GivesPermission.GivesPermission.PermissionsByName | src/Conductors/GivesPermission.php:144-153 | performs `ByNameEffect` |
| GivesPermission.GivesPermission.CreateMissingPermissions | src/Conductors/GivesPermission.php:162-173 | its loop inserts one simple permission per missing name, in order, with consecutive ids |
| RemovesPermission.FilterNumericPermissions | src/Conductors/RemovesPermission.php:105-108 | returns exactly the integer elements |
| RemovesPermission.IdsFromModels | src/Conductors/RemovesPermission.php:116-127 | returns exactly the keys of the Permission models among the elements |
| RemovesPermission.Strings | src/Conductors/RemovesPermission.php:137 | returns exactly the string elements |
| RemovesPermission.NamedIds | src/Conductors/RemovesPermission.php:143 | returns exactly the ids of rows with one of the names, whatever their scope |
| RemovesPermission.GetPermissionIdsFromStrings | src/Conductors/RemovesPermission.php:135-144 | no names gives no ids; otherwise exactly the ids of rows with one of the names |
| RemovesPermission.GetModelPermissionId | src/Conductors/RemovesPermission.php:92-97 | returns the id of a row with the name that the strict lookup accepts for the target, and nothing exactly when there is no such row |
| RemovesPermission.IdsToDetach | src/Conductors/RemovesPermission.php:70-83 | with a target, the id `getModelPermissionId` finds when it is truthy, and nothing otherwise. Without one, exactly the integer ids, the Permission models' keys, and the ids of rows named by the strings |
| RemovesPermission.RevokeEffect | src/Conductors/RemovesPermission.php:36-47 | answers true exactly when the grantee exists. In that case the ids are detached from it and every other link is unchanged; otherwise nothing changes. No table but the link tables ever changes |
| RemovesPermission.RevokeTargetedUnlinksFound | src/Conductors/RemovesPermission.php:70-97 | revoking a name on a target unlinks only the row the strict lookup finds (the instance row for a stored instance, the blanket row for a class or an unsaved instance), and only when its id is truthy; with no such row nothing changes |
| RemovesPermission.RevokeConsistent | src/Conductors/RemovesPermission.php:36-47 | revoking keeps a valid store valid |
| RemovesPermission.RevokeIdempotent | src/Conductors/RemovesPermission.php:36-47 | repeating a revoke returns the same answer and changes nothing more |
| RemovesPermission.RevokeFromUnknownRole | src/Conductors/RemovesPermission.php:38-40 | revoking from a role name with no role answers false, writes nothing and creates no role |
| RemovesPermission.RevokeNameUnlinksAllScopes | src/Conductors/RemovesPermission.php:135-144 | revoking a name without a target unlinks every row of that name, simple or scoped |
| RemovesPermission.RevokeOnInstanceKeepsBlanket | src/Conductors/RemovesPermission.php:92-97 | revoking a name on a stored instance leaves the blanket row for its class linked as it was |
| RemovesPermission.RevokeAfterGrant | src/Conductors/RemovesPermission.php:36-47 | revoking a name just granted leaves the grantee linked to no row of that name, and every other owner's links as the grant left them |
| RemovesPermission.RemovesPermission.To | src/Conductors/RemovesPermission.php:36-47 | the answer and the store afterwards are those of `RevokeEffect`; detach is skipped when there is nothing to detach |
| RemovesPermission.RemovesPermission.GetModel | src/Conductors/RemovesPermission.php:54-61 | returns the model, or the role of that name when one exists, and never creates one |
| RemovesPermission.RemovesPermission.GetPermissionIds | src/Conductors/RemovesPermission.php:70-97 | returns `IdsToDetach` of the current table |
| RemovesPermission.RemovesPermission.GetPermissionIdsFromModels | src/Conductors/RemovesPermission.php:116-127 | its loop collects exactly the keys of the Permission models, in order |
| Constraints.PermissionConstraint | src/Database/Constraints/Permissions.php:48-59 | an accepted row has the name and, with a target, the target's morph class; every row the strict lookup accepts for the target is accepted |
| Constraints.PermissionConstraintCases | src/Database/Constraints/Permissions.php:48-59 | the name must match exactly. With no target any scope is accepted. With a class or an unsaved instance only its blanket row is accepted; with a stored instance its blanket row or its instance row |
| Constraints.ConstrainRoles | src/Database/Constraints/Permissions.php:34-39 | returns exactly the roles linked to a permission that satisfies the constraint |
| Constraints.RoleConstraint | src/Database/Constraints/Permissions.php:68-73 | a user satisfies the role constraint exactly when one of their roles is among those `constrainRoles` selects |
| Constraints.ConstrainUsers | src/Database/Constraints/Permissions.php:17-24 | returns exactly the users with a satisfying permission linked directly or through one of their roles (`getRoleConstraint`, lines 68-73) |
| Constraints.ConstrainUsersMatchesGetPermissions | src/Database/Constraints/Permissions.php:17-24 | a user is selected exactly when one of the rows the resolver returns for that user satisfies the constraint |
| Constraints.TargetConstraintImpliesMatch | src/Database/Constraints/Permissions.php:55-57 | with a target whose class name is truthy, every row the constraint accepts answers the resolver's check on that target |
| Constraints.ConstraintWiderThanCheck | src/Database/Constraints/Permissions.php:53-55 | without a target, a row scoped to one instance is accepted although it does not answer the untargeted check |
| Constraints.ConstraintIsCaseSensitive | src/Database/Constraints/Permissions.php:53 | names are compared exactly: "Edit" does not satisfy the constraint for "edit", though it answers the check for "edit" |

## Left out

- Timestamps and every column other than id, name, entity_type and entity_id: no operation of the core reads them.
- SQL string comparison: names are compared exactly. A case-insensitive collation in the database would make `whereIn('name', ...)`, `where('name', ...)` and the unique indexes ignore case.
- Referential actions (`ON DELETE CASCADE`) and deleting users, roles or permissions: no operation of the core deletes rows.
- `assign`, `retract`, the facade in `src/Bouncer.php`, the class registry `src/Database/Models.php` and `src/Database/Role.php` are not part of this model. The morph class of a target is given as data rather than derived from its class.
- `strtolower` is modelled on ASCII letters only; other characters are left alone.
- Store failures (connection loss, constraint violations) are not modelled. The unique index of a link table is a precondition of `Database.Store.Attach`, and `GivesPermission.GivesPermission.GivePermissions` is proved to meet it.
- The `existing` query of `givePermissions` joins the permissions table. The model takes the linked ids directly; the two agree whenever link rows refer to existing permissions, which the foreign keys of the migration guarantee.
- Eloquent's `merge` removes rows with equal keys. The model concatenates the two lists, which `GivesPermission.ByNameConsistent` shows loses nothing on a valid store.
- `first()` and `value('id')` without an ordering are taken as the first row in table order. On a valid store at most one row qualifies (`PermissionModel.StrictLookupUnique`).
- The Laravel gate itself is not modelled: the before-hook returns a `GateDecision` (abstain, or allow with a reason).
- Cache: entries never expire (`forever`); only the clipboard's own keys are modelled; flushing the tag empties the modelled store. The `sear` race between reading and storing is not modelled.
- RemovesPermission operand elements other than non-negative integers, strings and Permission models are not modelled. PHP would ignore them. A negative integer would be detached as given, and no row could have it.
- GivesPermission.WellFormedCall: with a target, `to` takes a Permission model or a single name. An array of names with a target is excluded, because the source would pass the array to a `where('name', ...)` clause.
- RemovesPermission.WellFormedCall: with a target, the operand must be a single name, as `getModelPermissionId` expects.
- `in_array` in `checkGetId` compares loosely, so two numeric strings such as "10" and "1e1" would be equal in PHP. The model compares identifiers exactly.
- Concurrency between requests is not modelled: every operation is one sequential run against one store.
- Stores that already hold two rows with the same name and the same null scope columns (inserted directly, or by two grants racing, which the unique index does not stop because it treats NULLs as distinct) are outside the model. Every lemma about a valid store assumes `Database.Consistent`, and on such a store which row `first()` returns depends on the database.
- Cache.CachedClipboard.GetRoles: the untagged case calls `sear` on the raw cache store, which does not provide it, so `getRoles` would fail there; the model answers it as the tagged repository does.
- GivesPermission.Unique and GivesPermission.Without: their contracts state membership and the absence of repetition, not that the elements keep their first-occurrence order.
