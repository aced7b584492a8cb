/** The role service: validated role rows of an application and their
    assignment to users. */
module Roles {
  import opened Wrappers
  import opened Strings
  import opened Tables
  import opened Sorting
  import opened Store
  import opened AuditLog

  /** The request fields; `None` is a key that is absent or null. */
  datatype RoleInput = RoleInput(name: Option<string>, description: Option<string>)

  /** The data `validateRoleData` accepts. */
  predicate RoleDataOk(input: RoleInput, isUpdate: bool) {
    (!isUpdate ==> !IsEmpty(input.name))
    && (input.name.Some? ==> WordField(input.name.value))
    && ShortText(input.description, 200)
  }

  const NameRequired := "Role name is required"
  const NameLength := "Role name must be between 3 and 50 characters"
  const NameCharset := "Role name can only contain letters, numbers, and underscores"
  const DescriptionLength := "Description cannot exceed 200 characters"
  const AssignedToUsers := "Cannot delete role that is assigned to users"
  const InvalidRole := "Invalid role"

  /** Audit action names and detail keys. */
  const RoleCreated := "role_created"
  const RoleUpdated := "role_updated"
  const RoleDeleted := "role_deleted"
  const RoleAssigned := "role_assigned"
  const RoleRemoved := "role_removed"
  const NameKey := "name"
  const RoleNameKey := "role_name"

  /** The checks of `validateRoleData`, in the order it makes them. */
  function RoleRules(input: RoleInput, isUpdate: bool): (rules: seq<(bool, string)>)
    ensures |rules| == 4
  {
    [ (isUpdate || !IsEmpty(input.name), NameRequired),
      (input.name.None? || LengthBetween(input.name.value, 3, 50), NameLength),
      (input.name.None? || IsWordString(input.name.value), NameCharset),
      (ShortText(input.description, 200), DescriptionLength) ]
  }

  /** `validateRoleData`: passes exactly on acceptable data; a missing name on
      create is reported first, and a bad length before a bad charset. */
  function ValidateRoleData(input: RoleInput, isUpdate: bool): (r: Check)
    ensures r.Pass? <==> RoleDataOk(input, isUpdate)
    ensures !isUpdate && IsEmpty(input.name) ==> r == Fail(NameRequired)
    ensures (isUpdate || !IsEmpty(input.name)) && input.name.Some? && !LengthBetween(input.name.value, 3, 50)
      ==> r == Fail(NameLength)
  {
    var rules := RoleRules(input, isUpdate);
    assert rules[0].0 && rules[1].0 && rules[2].0 && rules[3].0 <==> RoleDataOk(input, isUpdate);
    FirstFailure(rules)
  }

  /** The row `createRole` inserts for accepted data. */
  function NewRole(id: int, input: RoleInput, applicationId: int, now: int): (r: Role)
    requires RoleDataOk(input, false)
    ensures WellFormedRole(r)
    ensures r.id == id && r.applicationId == applicationId && r.createdAt == now && r.updatedAt == now
    ensures r.name == input.name.value && r.description == input.description
  {
    Role(id, input.name.value, input.description, applicationId, now, now)
  }

  /** No field to update: `updateRole` writes nothing. */
  predicate NoFields(input: RoleInput) {
    input.name.None? && input.description.None?
  }

  /** The row after `UPDATE roles SET` of the supplied fields. */
  function Patch(r: Role, input: RoleInput, now: int): (q: Role)
    ensures q.id == r.id && q.applicationId == r.applicationId && q.createdAt == r.createdAt
    ensures q.updatedAt == now
    ensures q.name == (if input.name.Some? then input.name.value else r.name)
    ensures q.description == (if input.description.Some? then input.description else r.description)
  {
    r.(name := if input.name.Some? then input.name.value else r.name,
       description := if input.description.Some? then input.description else r.description,
       updatedAt := now)
  }

  /** An accepted update keeps a well-formed row well-formed. */
  lemma PatchKeepsWellFormed(r: Role, input: RoleInput, now: int)
    requires WellFormedRole(r) && RoleDataOk(input, true)
    ensures WellFormedRole(Patch(r, input, now))
  {
  }

  /** What `updateRole` logs as the name: the supplied one, else the stored one, else null. */
  function UpdatedName(input: RoleInput, stored: Option<Role>): Json {
    if input.name.Some? then JStr(input.name.value)
    else if stored.Some? then JStr(stored.value.name)
    else JNull
  }

  /** Some `user_roles` row references the role. */
  predicate Assigned(userRoles: set<(int, int)>, roleId: int) {
    exists ru :: ru in userRoles && ru.0 == roleId
  }

  /** The role exists and belongs to the caller's application. */
  predicate InScope(roles: map<int, Role>, roleId: int, applicationId: int) {
    roleId in roles && roles[roleId].applicationId == applicationId
  }

  /** The columns `getRolesByApplication` selects. */
  datatype RoleListing = RoleListing(
    id: int, name: string, description: Option<string>, createdAt: int, updatedAt: int)

  function ListingOf(r: Role): RoleListing {
    RoleListing(r.id, r.name, r.description, r.createdAt, r.updatedAt)
  }

  /** The columns `getUserRoles` selects. */
  datatype UserRoleEntry = UserRoleEntry(id: int, name: string, description: Option<string>)

  function EntryOf(r: Role): UserRoleEntry {
    UserRoleEntry(r.id, r.name, r.description)
  }

  /** `ORDER BY name`. */
  predicate ListingLe(x: RoleListing, y: RoleListing) {
    StrLe(x.name, y.name)
  }

  predicate EntryLe(x: UserRoleEntry, y: UserRoleEntry) {
    StrLe(x.name, y.name)
  }

  lemma ListingLeTotal()
    ensures Total(ListingLe)
  {
    forall x: RoleListing, y: RoleListing
      ensures ListingLe(x, y) || ListingLe(y, x)
    {
      StrLeTotal(x.name, y.name);
    }
  }

  lemma EntryLeTotal()
    ensures Total(EntryLe)
  {
    forall x: UserRoleEntry, y: UserRoleEntry
      ensures EntryLe(x, y) || EntryLe(y, x)
    {
      StrLeTotal(x.name, y.name);
    }
  }

  /** The `WHERE` of `getRolesByApplication`. */
  function OfApplication(applicationId: int): Role -> bool {
    (x: Role) => x.applicationId == applicationId
  }

  /** The join condition of `getUserRoles`: assigned to the user and in the application. */
  function AssignedTo(userRoles: set<(int, int)>, userId: int, applicationId: int): Role -> bool {
    (x: Role) => (x.id, userId) in userRoles && x.applicationId == applicationId
  }

  /** `getRolesByApplication`: the application's roles ordered by name, one entry for each. */
  function RolesByApplication(roles: map<int, Role>, next: int, applicationId: int): (r: seq<RoleListing>)
    requires IdsUnder(roles, next)
    ensures Sorted(r, ListingLe)
    ensures forall x :: x in r <==>
      (exists k :: k in roles && roles[k].applicationId == applicationId && ListingOf(roles[k]) == x)
    ensures multiset(r) == multiset(Project(roles, next, OfApplication(applicationId), ListingOf))
  {
    ListingLeTotal();
    var listed := Project(roles, next, OfApplication(applicationId), ListingOf);
    SortByContents(listed, ListingLe);
    SortBy(listed, ListingLe)
  }

  /** The join of `getUserRoles`: the user's roles in the application, ordered by
      name, one entry for each. */
  function UserRolesOf(roles: map<int, Role>, next: int, userRoles: set<(int, int)>, userId: int, applicationId: int)
    : (r: seq<UserRoleEntry>)
    requires IdsUnder(roles, next)
    ensures Sorted(r, EntryLe)
    ensures forall e :: e in r <==>
      (exists k :: k in roles && (roles[k].id, userId) in userRoles
        && roles[k].applicationId == applicationId && EntryOf(roles[k]) == e)
    ensures multiset(r) == multiset(Project(roles, next, AssignedTo(userRoles, userId, applicationId), EntryOf))
  {
    EntryLeTotal();
    var listed := Project(roles, next, AssignedTo(userRoles, userId, applicationId), EntryOf);
    SortByContents(listed, EntryLe);
    SortBy(listed, EntryLe)
  }

  /** After `assignRoleToUser` adds a pair, the user's roles in that
      application list the role. */
  lemma AssignedRoleListed(roles: map<int, Role>, next: int, userRoles: set<(int, int)>,
                           roleId: int, userId: int, applicationId: int)
    requires IdsUnder(roles, next) && forall k :: k in roles ==> roles[k].id == k
    requires InScope(roles, roleId, applicationId)
    ensures EntryOf(roles[roleId]) in UserRolesOf(roles, next, userRoles + {(roleId, userId)}, userId, applicationId)
  {
  }

  /** After `removeRoleFromUser`, the user's roles no longer list the role. */
  lemma RemovedRoleNotListed(roles: map<int, Role>, next: int, userRoles: set<(int, int)>,
                             roleId: int, userId: int, applicationId: int)
    requires IdsUnder(roles, next) && forall k :: k in roles ==> roles[k].id == k
    ensures forall e :: (e in UserRolesOf(roles, next, userRoles - {(roleId, userId)}, userId, applicationId)
      ==> e.id != roleId)
  {
  }

  class RoleService {
    const db: Database
    const audit: AuditLogService

    constructor (db: Database)
      requires db.Valid()
      ensures this.db == db && Valid()
    {
      this.db := db;
      this.audit := new AuditLogService(db);
    }

    predicate Valid()
      reads db
    {
      audit.db == db && db.Valid()
    }

    /** `getRoleById`. */
    function GetRoleById(roleId: int): (r: Option<Role>)
      reads db`roles
      ensures r.Some? <==> roleId in db.roles
      ensures r.Some? ==> r.value == db.roles[roleId]
    {
      if roleId in db.roles then Some(db.roles[roleId]) else None
    }

    /** `createRole`: validates, inserts under the next id, logs `role_created`. */
    method CreateRole(input: RoleInput, applicationId: int, now: int) returns (r: Result<Role>)
      requires Valid()
      modifies db`roles, db`nextRoleId, db`auditLogs
      ensures Valid()
      ensures !RoleDataOk(input, false) ==>
        r == Err(Exception(ValidateRoleData(input, false).message)) && unchanged(db)
      ensures RoleDataOk(input, false) ==>
        var role := NewRole(old(db.nextRoleId), input, applicationId, now);
        && r == Ok(role)
        && role.id !in old(db.roles)
        && db.roles == old(db.roles)[role.id := role]
        && db.nextRoleId == old(db.nextRoleId) + 1
        && db.auditLogs == old(db.auditLogs)
          + [RowOf(|old(db.auditLogs)| + 1, Event(Some(applicationId), None, RoleCreated, map[NameKey := JStr(role.name)]), now)]
    {
      var check := ValidateRoleData(input, false);
      if check.Fail? {
        return Err(Exception(check.message));
      }
      var id := db.nextRoleId;
      var role := NewRole(id, input, applicationId, now);
      RoleTablePut(db.roles, id, db.userRoles, role);
      db.roles := db.roles[id := role];
      db.nextRoleId := id + 1;
      var stored := GetRoleById(id);
      audit.Log(Event(Some(applicationId), None, RoleCreated, map[NameKey := JStr(input.name.value)]), now);
      return Ok(stored.value);
    }

    /** The `UPDATE roles SET` of an accepted update and the row read back
        after it: the patched row, or null for an unknown id. */
    method WritePatch(roleId: int, input: RoleInput, now: int) returns (stored: Option<Role>)
      requires Valid() && RoleDataOk(input, true)
      modifies db`roles
      ensures Valid()
      ensures stored == (if roleId in old(db.roles) then Some(Patch(old(db.roles)[roleId], input, now)) else None)
      ensures db.roles == (if stored.Some? then old(db.roles)[roleId := stored.value] else old(db.roles))
    {
      stored := None;
      if roleId in db.roles {
        var q := Patch(db.roles[roleId], input, now);
        PatchKeepsWellFormed(db.roles[roleId], input, now);
        RoleTablePut(db.roles, db.nextRoleId, db.userRoles, q);
        db.roles := db.roles[roleId := q];
        stored := Some(q);
      }
    }

    /** `updateRole`: writes only the supplied fields; with none it only reads. */
    method UpdateRole(roleId: int, input: RoleInput, applicationId: int, now: int) returns (r: Result<Role>)
      requires Valid()
      modifies db`roles, db`auditLogs
      ensures Valid()
      ensures !RoleDataOk(input, true) ==>
        r == Err(Exception(ValidateRoleData(input, true).message)) && unchanged(db)
      ensures RoleDataOk(input, true) && NoFields(input) ==>
        unchanged(db) && r == (if roleId in db.roles then Ok(db.roles[roleId]) else Err(NullReturned))
      ensures RoleDataOk(input, true) && !NoFields(input) ==>
        var stored := if roleId in old(db.roles) then Some(Patch(old(db.roles)[roleId], input, now)) else None;
        && db.roles == (if stored.Some? then old(db.roles)[roleId := stored.value] else old(db.roles))
        && r == (if stored.Some? then Ok(stored.value) else Err(NullReturned))
        && db.auditLogs == old(db.auditLogs)
          + [RowOf(|old(db.auditLogs)| + 1,
                   Event(Some(applicationId), None, RoleUpdated, map[NameKey := UpdatedName(input, stored)]), now)]
    {
      var check := ValidateRoleData(input, true);
      if check.Fail? {
        return Err(Exception(check.message));
      }
      var found := GetRoleById(roleId);
      if NoFields(input) {
        if found.Some? {
          return Ok(found.value);
        }
        return Err(NullReturned);
      }
      var stored := WritePatch(roleId, input, now);
      audit.Log(Event(Some(applicationId), None, RoleUpdated, map[NameKey := UpdatedName(input, stored)]), now);
      if stored.Some? {
        return Ok(stored.value);
      }
      return Err(NullReturned);
    }

    /** `deleteRole`: false for an unknown id, an error while any user holds
        the role, otherwise exactly that row goes. */
    method DeleteRole(roleId: int, applicationId: int, now: int) returns (r: Result<bool>)
      requires Valid()
      modifies db`roles, db`auditLogs
      ensures Valid()
      ensures roleId !in old(db.roles) ==> r == Ok(false) && unchanged(db)
      ensures roleId in old(db.roles) && Assigned(db.userRoles, roleId) ==>
        r == Err(Exception(AssignedToUsers)) && unchanged(db)
      ensures roleId in old(db.roles) && !Assigned(db.userRoles, roleId) ==>
        && r == Ok(true)
        && db.roles == old(db.roles) - {roleId}
        && db.auditLogs == old(db.auditLogs)
          + [RowOf(|old(db.auditLogs)| + 1, Event(Some(applicationId), None, RoleDeleted,
                   map[NameKey := JStr(old(db.roles)[roleId].name)]), now)]
    {
      var role := GetRoleById(roleId);
      if role.None? {
        return Ok(false);
      }
      if exists ru :: ru in db.userRoles && ru.0 == roleId {
        return Err(Exception(AssignedToUsers));
      }
      db.roles := db.roles - {roleId};
      audit.Log(Event(Some(applicationId), None, RoleDeleted, map[NameKey := JStr(role.value.name)]), now);
      return Ok(true);
    }

    /** `assignRoleToUser`: scope check, then an idempotent insert that logs
        only when it adds the pair. */
    method AssignRoleToUser(roleId: int, userId: int, applicationId: int, now: int) returns (r: Result<bool>)
      requires Valid()
      modifies db`userRoles, db`auditLogs
      ensures Valid()
      ensures !InScope(db.roles, roleId, applicationId) ==> r == Err(Exception(InvalidRole)) && unchanged(db)
      ensures InScope(db.roles, roleId, applicationId) && (roleId, userId) in old(db.userRoles) ==>
        r == Ok(true) && unchanged(db)
      ensures InScope(db.roles, roleId, applicationId) && (roleId, userId) !in old(db.userRoles) ==>
        && r == Ok(true)
        && db.userRoles == old(db.userRoles) + {(roleId, userId)}
        && db.auditLogs == old(db.auditLogs)
          + [RowOf(|old(db.auditLogs)| + 1, Event(Some(applicationId), Some(userId), RoleAssigned,
                   map[RoleNameKey := JStr(db.roles[roleId].name)]), now)]
    {
      var role := GetRoleById(roleId);
      if role.None? || role.value.applicationId != applicationId {
        return Err(Exception(InvalidRole));
      }
      if (roleId, userId) in db.userRoles {
        return Ok(true);
      }
      db.userRoles := db.userRoles + {(roleId, userId)};
      audit.Log(Event(Some(applicationId), Some(userId), RoleAssigned, map[RoleNameKey := JStr(role.value.name)]), now);
      return Ok(true);
    }

    /** `removeRoleFromUser`: scope check, then the pair is deleted (if present)
        and the removal logged. */
    method RemoveRoleFromUser(roleId: int, userId: int, applicationId: int, now: int) returns (r: Result<bool>)
      requires Valid()
      modifies db`userRoles, db`auditLogs
      ensures Valid()
      ensures !InScope(db.roles, roleId, applicationId) ==> r == Err(Exception(InvalidRole)) && unchanged(db)
      ensures InScope(db.roles, roleId, applicationId) ==>
        && r == Ok(true)
        && db.userRoles == old(db.userRoles) - {(roleId, userId)}
        && db.auditLogs == old(db.auditLogs)
          + [RowOf(|old(db.auditLogs)| + 1, Event(Some(applicationId), Some(userId), RoleRemoved,
                   map[RoleNameKey := JStr(db.roles[roleId].name)]), now)]
    {
      var role := GetRoleById(roleId);
      if role.None? || role.value.applicationId != applicationId {
        return Err(Exception(InvalidRole));
      }
      db.userRoles := db.userRoles - {(roleId, userId)};
      audit.Log(Event(Some(applicationId), Some(userId), RoleRemoved, map[RoleNameKey := JStr(role.value.name)]), now);
      return Ok(true);
    }
  }
}
