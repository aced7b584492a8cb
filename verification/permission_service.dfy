/** The permission service: validated permission rows, their assignment to
    roles, and the two cached reads the authorization check relies on. */
module Permissions {
  import opened Wrappers
  import opened Strings
  import opened Tables
  import opened Sorting
  import opened Store
  import opened KeyValue
  import opened AuditLog

  /** Seconds a cached answer stays live. */
  const CacheExpiry := 3600

  /** The request fields; `None` is a key that is absent or null. */
  datatype PermissionInput = PermissionInput(
    name: Option<string>, description: Option<string>, resource: Option<string>, action: Option<string>)

  /** A present field must be 3 to 50 characters of `[A-Za-z0-9_]`. */
  predicate FieldOk(o: Option<string>) {
    o.Some? ==> WordField(o.value)
  }

  /** The data `validatePermissionData` accepts. */
  predicate PermissionDataOk(input: PermissionInput, isUpdate: bool) {
    (!isUpdate ==> !IsEmpty(input.name) && !IsEmpty(input.resource) && !IsEmpty(input.action))
    && FieldOk(input.name) && ShortText(input.description, 200)
    && FieldOk(input.resource) && FieldOk(input.action)
  }

  const MissingFields := "Missing required fields"
  const NameLength := "Permission name must be between 3 and 50 characters"
  const NameCharset := "Permission name can only contain letters, numbers, and underscores"
  const DescriptionLength := "Description cannot exceed 200 characters"
  const ResourceLength := "Resource must be between 3 and 50 characters"
  const ResourceCharset := "Resource can only contain letters, numbers, and underscores"
  const ActionLength := "Action must be between 3 and 50 characters"
  const ActionCharset := "Action can only contain letters, numbers, and underscores"

  /** A required field is absent or PHP-empty on create. */
  predicate MissingRequired(input: PermissionInput, isUpdate: bool) {
    !isUpdate && (IsEmpty(input.name) || IsEmpty(input.resource) || IsEmpty(input.action))
  }

  /** The checks of `validatePermissionData`, in the order it makes them. */
  function PermissionRules(input: PermissionInput, isUpdate: bool): (rules: seq<(bool, string)>)
    ensures |rules| == 8
  {
    [ (!MissingRequired(input, isUpdate), MissingFields),
      (input.name.None? || LengthBetween(input.name.value, 3, 50), NameLength),
      (input.name.None? || IsWordString(input.name.value), NameCharset),
      (ShortText(input.description, 200), DescriptionLength),
      (input.resource.None? || LengthBetween(input.resource.value, 3, 50), ResourceLength),
      (input.resource.None? || IsWordString(input.resource.value), ResourceCharset),
      (input.action.None? || LengthBetween(input.action.value, 3, 50), ActionLength),
      (input.action.None? || IsWordString(input.action.value), ActionCharset) ]
  }

  /** `validatePermissionData`: passes exactly on acceptable data, and reports
      a missing field before any other problem and the name before the other fields. */
  function ValidatePermissionData(input: PermissionInput, isUpdate: bool): (r: Check)
    ensures r.Pass? <==> PermissionDataOk(input, isUpdate)
    ensures MissingRequired(input, isUpdate) ==> r == Fail(MissingFields)
    ensures !MissingRequired(input, isUpdate) && input.name.Some? && !LengthBetween(input.name.value, 3, 50)
      ==> r == Fail(NameLength)
  {
    var rules := PermissionRules(input, isUpdate);
    assert rules[0].0 && rules[1].0 && rules[2].0 && rules[3].0 && rules[4].0 && rules[5].0 && rules[6].0 && rules[7].0
      <==> PermissionDataOk(input, isUpdate);
    FirstFailure(rules)
  }

  const AssignedToRoles := "Cannot delete permission that is assigned to roles"
  const InvalidPermission := "Invalid permission"

  /** Audit action names and detail keys. */
  const PermissionCreated := "permission_created"
  const PermissionUpdated := "permission_updated"
  const PermissionDeleted := "permission_deleted"
  const PermissionAssigned := "permission_assigned"
  const PermissionRemoved := "permission_removed"
  const NameKey := "name"
  const PermissionNameKey := "permission_name"

  /** The row `createPermission` inserts for accepted data. */
  function NewPermission(id: int, input: PermissionInput, applicationId: int, now: int): (p: Permission)
    requires PermissionDataOk(input, false)
    ensures WellFormedPermission(p)
    ensures p.id == id && p.applicationId == applicationId && p.createdAt == now && p.updatedAt == now
    ensures p.name == input.name.value && p.description == input.description
    ensures p.resource == input.resource.value && p.action == input.action.value
  {
    Permission(id, input.name.value, input.description, input.resource.value, input.action.value,
               applicationId, now, now)
  }

  /** No field to update: `updatePermission` writes nothing. */
  predicate NoFields(input: PermissionInput) {
    input.name.None? && input.description.None? && input.resource.None? && input.action.None?
  }

  /** The row after `UPDATE ... SET` of the supplied fields. */
  function Patch(p: Permission, input: PermissionInput, now: int): (q: Permission)
    ensures q.id == p.id && q.applicationId == p.applicationId && q.createdAt == p.createdAt
    ensures q.updatedAt == now
    ensures q.name == (if input.name.Some? then input.name.value else p.name)
    ensures q.description == (if input.description.Some? then input.description else p.description)
    ensures q.resource == (if input.resource.Some? then input.resource.value else p.resource)
    ensures q.action == (if input.action.Some? then input.action.value else p.action)
  {
    p.(name := if input.name.Some? then input.name.value else p.name,
       description := if input.description.Some? then input.description else p.description,
       resource := if input.resource.Some? then input.resource.value else p.resource,
       action := if input.action.Some? then input.action.value else p.action,
       updatedAt := now)
  }

  /** An accepted update keeps a well-formed row well-formed. */
  lemma PatchKeepsWellFormed(p: Permission, input: PermissionInput, now: int)
    requires WellFormedPermission(p) && PermissionDataOk(input, true)
    ensures WellFormedPermission(Patch(p, input, now))
  {
  }

  /** Applying the same update twice is applying it once. */
  lemma PatchIdempotent(p: Permission, input: PermissionInput, now: int)
    ensures Patch(Patch(p, input, now), input, now) == Patch(p, input, now)
  {
  }

  /** What `updatePermission` logs as the name: the supplied one, else the stored one, else null. */
  function UpdatedName(input: PermissionInput, stored: Option<Permission>): Json {
    if input.name.Some? then JStr(input.name.value)
    else if stored.Some? then JStr(stored.value.name)
    else JNull
  }

  /** Some `role_permissions` row references the permission. */
  predicate Referenced(rolePermissions: set<(int, int)>, permissionId: int) {
    exists pr :: pr in rolePermissions && pr.0 == permissionId
  }

  /** The permission exists and belongs to the caller's application. */
  predicate InScope(permissions: map<int, Permission>, permissionId: int, applicationId: int) {
    permissionId in permissions && permissions[permissionId].applicationId == applicationId
  }

  /** The columns `getRolePermissions` selects. */
  datatype RolePermissionEntry = RolePermissionEntry(
    id: int, name: string, description: Option<string>, resource: string, action: string)

  function EntryOf(p: Permission): RolePermissionEntry {
    RolePermissionEntry(p.id, p.name, p.description, p.resource, p.action)
  }

  /** The columns `getPermissionsByApplication` selects. */
  datatype PermissionListing = PermissionListing(
    id: int, name: string, description: Option<string>, resource: string, action: string,
    createdAt: int, updatedAt: int)

  function ListingOf(p: Permission): PermissionListing {
    PermissionListing(p.id, p.name, p.description, p.resource, p.action, p.createdAt, p.updatedAt)
  }

  /** `ORDER BY resource, action`. */
  predicate ResourceActionLe(r1: string, a1: string, r2: string, a2: string) {
    if r1 == r2 then StrLe(a1, a2) else StrLe(r1, r2)
  }

  lemma ResourceActionTotal(r1: string, a1: string, r2: string, a2: string)
    ensures ResourceActionLe(r1, a1, r2, a2) || ResourceActionLe(r2, a2, r1, a1)
  {
    StrLeTotal(r1, r2);
    StrLeTotal(a1, a2);
  }

  predicate EntryLe(x: RolePermissionEntry, y: RolePermissionEntry) {
    ResourceActionLe(x.resource, x.action, y.resource, y.action)
  }

  predicate ListingLe(x: PermissionListing, y: PermissionListing) {
    ResourceActionLe(x.resource, x.action, y.resource, y.action)
  }

  lemma EntryLeTotal()
    ensures Total(EntryLe)
  {
    forall x: RolePermissionEntry, y: RolePermissionEntry
      ensures EntryLe(x, y) || EntryLe(y, x)
    {
      ResourceActionTotal(x.resource, x.action, y.resource, y.action);
    }
  }

  lemma ListingLeTotal()
    ensures Total(ListingLe)
  {
    forall x: PermissionListing, y: PermissionListing
      ensures ListingLe(x, y) || ListingLe(y, x)
    {
      ResourceActionTotal(x.resource, x.action, y.resource, y.action);
    }
  }

  /** The join condition of `getRolePermissions`: linked to the role and in the application. */
  function LinkedTo(rolePermissions: set<(int, int)>, roleId: int, applicationId: int): Permission -> bool {
    (p: Permission) => (p.id, roleId) in rolePermissions && p.applicationId == applicationId
  }

  /** The join `getRolePermissions` runs on a miss, ordered by resource then action. */
  function RolePermissionsOf(permissions: map<int, Permission>, next: int, rolePermissions: set<(int, int)>,
                             roleId: int, applicationId: int): seq<RolePermissionEntry>
    requires IdsUnder(permissions, next)
  {
    EntryLeTotal();
    SortBy(Project(permissions, next, LinkedTo(rolePermissions, roleId, applicationId), EntryOf), EntryLe)
  }

  /** The join returns exactly the role's permissions of that application, ordered:
      one entry for each linked permission, none twice. */
  lemma RolePermissionsOfContents(permissions: map<int, Permission>, next: int,
                                  rolePermissions: set<(int, int)>, roleId: int, applicationId: int)
    requires IdsUnder(permissions, next)
    ensures forall e :: e in RolePermissionsOf(permissions, next, rolePermissions, roleId, applicationId) <==>
      (exists k :: k in permissions && (permissions[k].id, roleId) in rolePermissions
        && permissions[k].applicationId == applicationId && EntryOf(permissions[k]) == e)
    ensures multiset(RolePermissionsOf(permissions, next, rolePermissions, roleId, applicationId))
      == multiset(Project(permissions, next, LinkedTo(rolePermissions, roleId, applicationId), EntryOf))
    ensures Sorted(RolePermissionsOf(permissions, next, rolePermissions, roleId, applicationId), EntryLe)
  {
    EntryLeTotal();
    SortByContents(Project(permissions, next, LinkedTo(rolePermissions, roleId, applicationId), EntryOf), EntryLe);
  }

  /** Once a pair is removed, the role's listing no longer shows that permission. */
  lemma RemovedPermissionNotListed(permissions: map<int, Permission>, next: int,
                                   rolePermissions: set<(int, int)>, permissionId: int, roleId: int, applicationId: int)
    requires IdsUnder(permissions, next)
    requires forall k :: k in permissions ==> permissions[k].id == k
    ensures forall e :: (e in RolePermissionsOf(permissions, next, rolePermissions - {(permissionId, roleId)}, roleId, applicationId)
      ==> e.id != permissionId)
  {
    RolePermissionsOfContents(permissions, next, rolePermissions - {(permissionId, roleId)}, roleId, applicationId);
  }

  /** The `WHERE` of `getPermissionsByApplication`. */
  function OfApplication(applicationId: int): Permission -> bool {
    (p: Permission) => p.applicationId == applicationId
  }

  /** `getPermissionsByApplication`: the application's permissions ordered by
      resource then action, one entry for each. */
  function PermissionsByApplication(permissions: map<int, Permission>, next: int, applicationId: int): (r: seq<PermissionListing>)
    requires IdsUnder(permissions, next)
    ensures Sorted(r, ListingLe)
    ensures forall x :: x in r <==>
      (exists k :: k in permissions && permissions[k].applicationId == applicationId && ListingOf(permissions[k]) == x)
    ensures multiset(r) == multiset(Project(permissions, next, OfApplication(applicationId), ListingOf))
  {
    ListingLeTotal();
    var listed := Project(permissions, next, OfApplication(applicationId), ListingOf);
    SortByContents(listed, ListingLe);
    SortBy(listed, ListingLe)
  }

  /** The `COUNT(*) > 0` of `hasPermission`: some role of the user is linked to a
      permission of the application with that resource and action. */
  predicate Grants(permissions: map<int, Permission>, rolePermissions: set<(int, int)>, userRoles: set<(int, int)>,
                   userId: int, resource: string, action: string, applicationId: int)
  {
    exists pr :: pr in rolePermissions && pr.0 in permissions
      && permissions[pr.0].resource == resource && permissions[pr.0].action == action
      && permissions[pr.0].applicationId == applicationId && (pr.1, userId) in userRoles
  }

  /** Stored resources and actions are word strings, so a resource or action
      with a colon is never granted. */
  lemma NoGrantWithColon(permissions: map<int, Permission>, rolePermissions: set<(int, int)>, userRoles: set<(int, int)>,
                         userId: int, resource: string, action: string, applicationId: int)
    requires forall k :: k in permissions ==> WellFormedPermission(permissions[k])
    requires ':' in resource || ':' in action
    ensures !Grants(permissions, rolePermissions, userRoles, userId, resource, action, applicationId)
  {
    forall pr | pr in rolePermissions && pr.0 in permissions
      ensures !(permissions[pr.0].resource == resource && permissions[pr.0].action == action)
    {
      StoredFieldsHaveNoColon(permissions, pr.0);
    }
  }

  lemma StoredFieldsHaveNoColon(permissions: map<int, Permission>, k: int)
    requires k in permissions && forall k :: k in permissions ==> WellFormedPermission(permissions[k])
    ensures ':' !in permissions[k].resource && ':' !in permissions[k].action
  {
    WordStringHasNoSeparators(permissions[k].resource);
    WordStringHasNoSeparators(permissions[k].action);
  }

  /** The cache key families. */
  const RoleFamily := "role_permissions:"
  const UserFamily := "user_permission:"

  /** The pattern `role_permissions:{roleId}:*` without its star. */
  function RoleCachePrefix(roleId: int): string {
    RoleFamily + IntToString(roleId) + ":"
  }

  function RolePermissionsKey(roleId: int, applicationId: int): (k: string)
    ensures RoleCachePrefix(roleId) <= k && RoleFamily <= k
  {
    RoleCachePrefix(roleId) + IntToString(applicationId)
  }

  function UserPermissionKey(userId: int, resource: string, action: string, applicationId: int): (k: string)
    ensures UserFamily <= k
  {
    UserFamily + IntToString(userId) + ":" + resource + ":" + action + ":" + IntToString(applicationId)
  }

  /** A role's prefix covers its own keys, for every application, and no other role's. */
  lemma RolePrefixSelectsRole(roleId: int, otherRole: int, applicationId: int)
    ensures RoleCachePrefix(roleId) <= RolePermissionsKey(otherRole, applicationId) <==> roleId == otherRole
  {
    var n := |RoleFamily|;
    var p, k := RoleCachePrefix(roleId), RolePermissionsKey(otherRole, applicationId);
    var x, y, z := IntToString(roleId), IntToString(otherRole), IntToString(applicationId);
    if p <= k {
      assert p[n..] == x + ":";
      assert k[n..] == y + ":" + z;
      assert x + ":" <= y + ":" + z;
      ColonPrefixSame(x, y, z);
      IntToStringInjective(roleId, otherRole);
    }
  }

  /** The two families never share a key. */
  lemma FamiliesDisjoint(k: string)
    ensures !(RoleFamily <= k && UserFamily <= k)
  {
    if RoleFamily <= k {
      assert k[0] == 'r';
    }
  }

  /** A `user_permission:` key names its user and application exactly, and
      resource and action up to the colon that joins them. */
  lemma UserPermissionKeyParts(u1: int, r1: string, a1: string, p1: int, u2: int, r2: string, a2: string, p2: int)
    requires UserPermissionKey(u1, r1, a1, p1) == UserPermissionKey(u2, r2, a2, p2)
    ensures u1 == u2 && p1 == p2 && r1 + ":" + a1 == r2 + ":" + a2
  {
    var n := |UserFamily|;
    var U1, P1, U2, P2 := IntToString(u1), IntToString(p1), IntToString(u2), IntToString(p2);
    var rest1 := r1 + ":" + a1 + ":" + P1;
    var rest2 := r2 + ":" + a2 + ":" + P2;
    assert UserPermissionKey(u1, r1, a1, p1)[n..] == U1 + ":" + rest1;
    assert UserPermissionKey(u2, r2, a2, p2)[n..] == U2 + ":" + rest2;
    SplitAtFirstColon(U1, rest1, U2, rest2);
    IntToStringInjective(u1, u2);
    SplitAtLastColon(r1 + ":" + a1, P1, r2 + ":" + a2, P2);
    IntToStringInjective(p1, p2);
  }

  /** Two questions that share a cache key get the same true answer: either
      they are the same question, or both name a resource or action with a
      colon, which no stored permission has. */
  lemma KeyCollisionsAreHarmless(permissions: map<int, Permission>, rolePermissions: set<(int, int)>,
                                 userRoles: set<(int, int)>,
                                 u1: int, r1: string, a1: string, p1: int, u2: int, r2: string, a2: string, p2: int)
    requires forall k :: k in permissions ==> WellFormedPermission(permissions[k])
    requires UserPermissionKey(u1, r1, a1, p1) == UserPermissionKey(u2, r2, a2, p2)
    ensures Grants(permissions, rolePermissions, userRoles, u1, r1, a1, p1)
         == Grants(permissions, rolePermissions, userRoles, u2, r2, a2, p2)
  {
    UserPermissionKeyParts(u1, r1, a1, p1, u2, r2, a2, p2);
    if ':' !in r1 && ':' !in a1 {
      SplitAtOnlyColon(r1, a1, r2, a2);
    } else if ':' !in r2 && ':' !in a2 {
      SplitAtOnlyColon(r2, a2, r1, a1);
    } else {
      NoGrantWithColon(permissions, rolePermissions, userRoles, u1, r1, a1, p1);
      NoGrantWithColon(permissions, rolePermissions, userRoles, u2, r2, a2, p2);
    }
  }

  /** What the cache holds. */
  datatype CachedValue = Flag(granted: bool) | Listing(entries: seq<RolePermissionEntry>)

  /** Role keys hold listings and user keys hold flags. */
  predicate CacheTyped(entries: map<string, Entry<CachedValue>>) {
    forall k :: k in entries ==>
      (RoleFamily <= k ==> entries[k].value.Listing?) && (UserFamily <= k ==> entries[k].value.Flag?)
  }

  /** Clearing one role's prefix drops that role's keys for every application
      and leaves other roles' keys and every `user_permission:` key as they were. */
  lemma ClearRoleCacheEffect(entries: map<string, Entry<CachedValue>>, roleId: int)
    ensures forall a :: RolePermissionsKey(roleId, a) !in WithoutPrefix(entries, RoleCachePrefix(roleId))
    ensures forall r, a :: r != roleId && RolePermissionsKey(r, a) in entries ==>
      RolePermissionsKey(r, a) in WithoutPrefix(entries, RoleCachePrefix(roleId))
    ensures forall k :: k in entries && UserFamily <= k ==> k in WithoutPrefix(entries, RoleCachePrefix(roleId))
  {
    forall r, a | r != roleId
      ensures !(RoleCachePrefix(roleId) <= RolePermissionsKey(r, a))
    {
      RolePrefixSelectsRole(roleId, r, a);
    }
    forall k | k in entries && UserFamily <= k
      ensures !(RoleCachePrefix(roleId) <= k)
    {
      FamiliesDisjoint(k);
    }
  }

  class PermissionService {
    const db: Database
    const cache: Cache<CachedValue>
    const audit: AuditLogService

    constructor (db: Database, cache: Cache<CachedValue>)
      requires db.Valid() && CacheTyped(cache.entries)
      ensures this.db == db && this.cache == cache && Valid()
    {
      this.db := db;
      this.cache := cache;
      this.audit := new AuditLogService(db);
    }

    predicate Valid()
      reads db, cache
    {
      audit.db == db && db.Valid() && CacheTyped(cache.entries)
    }

    /** `getPermissionById`. */
    function GetPermissionById(permissionId: int): (r: Option<Permission>)
      reads db`permissions
      ensures r.Some? <==> permissionId in db.permissions
      ensures r.Some? ==> r.value == db.permissions[permissionId]
    {
      if permissionId in db.permissions then Some(db.permissions[permissionId]) else None
    }

    /** `createPermission`: validates, inserts under the next id, logs `permission_created`. */
    method CreatePermission(input: PermissionInput, applicationId: int, now: int) returns (r: Result<Permission>)
      requires Valid()
      modifies db`permissions, db`nextPermissionId, db`auditLogs
      ensures Valid()
      ensures ValidatePermissionData(input, false).Fail? ==>
        r == Err(Exception(ValidatePermissionData(input, false).message)) && unchanged(db)
      ensures ValidatePermissionData(input, false).Pass? ==>
        var p := NewPermission(old(db.nextPermissionId), input, applicationId, now);
        && r == Ok(p)
        && p.id !in old(db.permissions)
        && db.permissions == old(db.permissions)[p.id := p]
        && db.nextPermissionId == old(db.nextPermissionId) + 1
        && db.auditLogs == old(db.auditLogs)
          + [RowOf(|old(db.auditLogs)| + 1, Event(Some(applicationId), None, PermissionCreated, map[NameKey := JStr(p.name)]), now)]
    {
      var check := ValidatePermissionData(input, false);
      if check.Fail? {
        return Err(Exception(check.message));
      }
      var id := db.nextPermissionId;
      var p := NewPermission(id, input, applicationId, now);
      PermissionTablePut(db.permissions, id, db.rolePermissions, p);
      db.permissions := db.permissions[id := p];
      db.nextPermissionId := id + 1;
      var permission := GetPermissionById(id);
      audit.Log(Event(Some(applicationId), None, PermissionCreated, map[NameKey := JStr(input.name.value)]), now);
      return Ok(permission.value);
    }

    /** The `UPDATE ... SET` of an accepted update and the row read back
        after it: the patched row, or null for an unknown id. */
    method WritePatch(permissionId: int, input: PermissionInput, now: int) returns (stored: Option<Permission>)
      requires Valid() && PermissionDataOk(input, true)
      modifies db`permissions
      ensures Valid()
      ensures stored == (if permissionId in old(db.permissions)
        then Some(Patch(old(db.permissions)[permissionId], input, now)) else None)
      ensures db.permissions == (if stored.Some? then old(db.permissions)[permissionId := stored.value] else old(db.permissions))
    {
      stored := None;
      if permissionId in db.permissions {
        var q := Patch(db.permissions[permissionId], input, now);
        PatchKeepsWellFormed(db.permissions[permissionId], input, now);
        PermissionTablePut(db.permissions, db.nextPermissionId, db.rolePermissions, q);
        db.permissions := db.permissions[permissionId := q];
        stored := Some(q);
      }
    }

    /** `updatePermission`: writes only the supplied fields; with none it only reads. */
    method UpdatePermission(permissionId: int, input: PermissionInput, applicationId: int, now: int)
      returns (r: Result<Permission>)
      requires Valid()
      modifies db`permissions, db`auditLogs
      ensures Valid()
      ensures !PermissionDataOk(input, true) ==>
        r == Err(Exception(ValidatePermissionData(input, true).message)) && unchanged(db)
      ensures PermissionDataOk(input, true) && NoFields(input) ==>
        unchanged(db)
        && r == (if permissionId in db.permissions then Ok(db.permissions[permissionId]) else Err(NullReturned))
      ensures PermissionDataOk(input, true) && !NoFields(input) ==>
        var stored := if permissionId in old(db.permissions)
          then Some(Patch(old(db.permissions)[permissionId], input, now)) else None;
        && db.permissions == (if stored.Some? then old(db.permissions)[permissionId := stored.value] else old(db.permissions))
        && r == (if stored.Some? then Ok(stored.value) else Err(NullReturned))
        && db.auditLogs == old(db.auditLogs)
          + [RowOf(|old(db.auditLogs)| + 1,
                   Event(Some(applicationId), None, PermissionUpdated, map[NameKey := UpdatedName(input, stored)]), now)]
    {
      var check := ValidatePermissionData(input, true);
      if check.Fail? {
        return Err(Exception(check.message));
      }
      var found := GetPermissionById(permissionId);
      if NoFields(input) {
        if found.Some? {
          return Ok(found.value);
        }
        return Err(NullReturned);
      }
      var stored := WritePatch(permissionId, input, now);
      audit.Log(Event(Some(applicationId), None, PermissionUpdated, map[NameKey := UpdatedName(input, stored)]), now);
      if stored.Some? {
        return Ok(stored.value);
      }
      return Err(NullReturned);
    }

    /** `deletePermission`: false for an unknown id, an error while any role
        holds the permission, otherwise exactly that row goes. */
    method DeletePermission(permissionId: int, applicationId: int, now: int) returns (r: Result<bool>)
      requires Valid()
      modifies db`permissions, db`auditLogs
      ensures Valid()
      ensures permissionId !in old(db.permissions) ==> r == Ok(false) && unchanged(db)
      ensures permissionId in old(db.permissions) && Referenced(db.rolePermissions, permissionId) ==>
        r == Err(Exception(AssignedToRoles)) && unchanged(db)
      ensures permissionId in old(db.permissions) && !Referenced(db.rolePermissions, permissionId) ==>
        && r == Ok(true)
        && db.permissions == old(db.permissions) - {permissionId}
        && db.auditLogs == old(db.auditLogs)
          + [RowOf(|old(db.auditLogs)| + 1, Event(Some(applicationId), None, PermissionDeleted,
                   map[NameKey := JStr(old(db.permissions)[permissionId].name)]), now)]
    {
      var permission := GetPermissionById(permissionId);
      if permission.None? {
        return Ok(false);
      }
      if exists pr :: pr in db.rolePermissions && pr.0 == permissionId {
        return Err(Exception(AssignedToRoles));
      }
      db.permissions := db.permissions - {permissionId};
      audit.Log(Event(Some(applicationId), None, PermissionDeleted, map[NameKey := JStr(permission.value.name)]), now);
      return Ok(true);
    }

    /** `clearRolePermissionCache`: deletes every key under `role_permissions:{roleId}:`. */
    method ClearRolePermissionCache(roleId: int)
      requires CacheTyped(cache.entries)
      modifies cache
      ensures cache.entries == WithoutPrefix(old(cache.entries), RoleCachePrefix(roleId))
      ensures CacheTyped(cache.entries)
    {
      cache.DeleteMatching(RoleCachePrefix(roleId));
    }

    /** `assignPermissionToRole`: scope check, then an idempotent insert that
        logs and clears the role's cached listings only when it adds the pair. */
    method AssignPermissionToRole(permissionId: int, roleId: int, applicationId: int, now: int)
      returns (r: Result<bool>)
      requires Valid()
      modifies db`rolePermissions, db`auditLogs, cache
      ensures Valid()
      ensures !InScope(db.permissions, permissionId, applicationId) ==>
        r == Err(Exception(InvalidPermission)) && unchanged(db) && unchanged(cache)
      ensures InScope(db.permissions, permissionId, applicationId) && (permissionId, roleId) in old(db.rolePermissions) ==>
        r == Ok(true) && unchanged(db) && unchanged(cache)
      ensures InScope(db.permissions, permissionId, applicationId) && (permissionId, roleId) !in old(db.rolePermissions) ==>
        && r == Ok(true)
        && db.rolePermissions == old(db.rolePermissions) + {(permissionId, roleId)}
        && db.auditLogs == old(db.auditLogs)
          + [RowOf(|old(db.auditLogs)| + 1, Event(Some(applicationId), None, PermissionAssigned,
                   map[PermissionNameKey := JStr(db.permissions[permissionId].name)]), now)]
        && cache.entries == WithoutPrefix(old(cache.entries), RoleCachePrefix(roleId))
    {
      var permission := GetPermissionById(permissionId);
      if permission.None? || permission.value.applicationId != applicationId {
        return Err(Exception(InvalidPermission));
      }
      if (permissionId, roleId) in db.rolePermissions {
        return Ok(true);
      }
      db.rolePermissions := db.rolePermissions + {(permissionId, roleId)};
      audit.Log(Event(Some(applicationId), None, PermissionAssigned,
                      map[PermissionNameKey := JStr(permission.value.name)]), now);
      ClearRolePermissionCache(roleId);
      return Ok(true);
    }

    /** `removePermissionFromRole`: scope check, then the pair is deleted (if
        present), the removal logged and the role's cached listings cleared. */
    method RemovePermissionFromRole(permissionId: int, roleId: int, applicationId: int, now: int)
      returns (r: Result<bool>)
      requires Valid()
      modifies db`rolePermissions, db`auditLogs, cache
      ensures Valid()
      ensures !InScope(db.permissions, permissionId, applicationId) ==>
        r == Err(Exception(InvalidPermission)) && unchanged(db) && unchanged(cache)
      ensures InScope(db.permissions, permissionId, applicationId) ==>
        && r == Ok(true)
        && db.rolePermissions == old(db.rolePermissions) - {(permissionId, roleId)}
        && db.auditLogs == old(db.auditLogs)
          + [RowOf(|old(db.auditLogs)| + 1, Event(Some(applicationId), None, PermissionRemoved,
                   map[PermissionNameKey := JStr(db.permissions[permissionId].name)]), now)]
        && cache.entries == WithoutPrefix(old(cache.entries), RoleCachePrefix(roleId))
    {
      var permission := GetPermissionById(permissionId);
      if permission.None? || permission.value.applicationId != applicationId {
        return Err(Exception(InvalidPermission));
      }
      db.rolePermissions := db.rolePermissions - {(permissionId, roleId)};
      audit.Log(Event(Some(applicationId), None, PermissionRemoved,
                      map[PermissionNameKey := JStr(permission.value.name)]), now);
      ClearRolePermissionCache(roleId);
      return Ok(true);
    }

    /** `getRolePermissions`: a live cached listing is returned as is; on a
        miss the join is run and cached for an hour. */
    method GetRolePermissions(roleId: int, applicationId: int, now: int) returns (r: seq<RolePermissionEntry>)
      requires Valid()
      modifies cache
      ensures Valid()
      ensures var key := RolePermissionsKey(roleId, applicationId);
        old(cache.Get(key, now)).Some? ==>
          old(cache.Get(key, now)).value.Listing? && r == old(cache.Get(key, now)).value.entries
          && cache.entries == old(cache.entries)
      ensures var key := RolePermissionsKey(roleId, applicationId);
        old(cache.Get(key, now)).None? ==>
          && r == RolePermissionsOf(db.permissions, db.nextPermissionId, db.rolePermissions, roleId, applicationId)
          && cache.entries == old(cache.entries)[key := Entry(Listing(r), now + CacheExpiry)]
    {
      var key := RolePermissionsKey(roleId, applicationId);
      var cached := cache.Get(key, now);
      if cached.Some? {
        return cached.value.entries;
      }
      r := RolePermissionsOf(db.permissions, db.nextPermissionId, db.rolePermissions, roleId, applicationId);
      FamiliesDisjoint(key);
      cache.SetEx(key, CacheExpiry, Listing(r), now);
    }

    /** `hasPermission`: a live cached answer is returned as is; on a miss the
        join is counted and the answer, false included, cached for an hour. */
    method HasPermission(userId: int, resource: string, action: string, applicationId: int, now: int)
      returns (r: bool)
      requires Valid()
      modifies cache
      ensures Valid()
      ensures var key := UserPermissionKey(userId, resource, action, applicationId);
        old(cache.Get(key, now)).Some? ==>
          old(cache.Get(key, now)).value.Flag? && r == old(cache.Get(key, now)).value.granted
          && cache.entries == old(cache.entries)
      ensures var key := UserPermissionKey(userId, resource, action, applicationId);
        old(cache.Get(key, now)).None? ==>
          && r == Grants(db.permissions, db.rolePermissions, db.userRoles, userId, resource, action, applicationId)
          && cache.entries == old(cache.entries)[key := Entry(Flag(r), now + CacheExpiry)]
    {
      var key := UserPermissionKey(userId, resource, action, applicationId);
      var cached := cache.Get(key, now);
      if cached.Some? {
        return cached.value.granted;
      }
      r := exists pr :: (pr in db.rolePermissions && pr.0 in db.permissions
        && db.permissions[pr.0].resource == resource && db.permissions[pr.0].action == action
        && db.permissions[pr.0].applicationId == applicationId && (pr.1, userId) in db.userRoles);
      FamiliesDisjoint(key);
      cache.SetEx(key, CacheExpiry, Flag(r), now);
    }
  }
}
