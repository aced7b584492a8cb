/** The relational store behind the services: one table per entity, the two
    link tables, and the audit log. Each table maps an auto-increment id to its
    row; `next*Id` is the value the counter hands out next. */
module Store {
  import opened Wrappers
  import opened Strings
  import opened Tables
  import Hex

  datatype Permission = Permission(
    id: int, name: string, description: Option<string>, resource: string, action: string,
    applicationId: int, createdAt: int, updatedAt: int)

  datatype Role = Role(
    id: int, name: string, description: Option<string>, applicationId: int,
    createdAt: int, updatedAt: int)

  /** What `password_hash` stores: the salt it drew and the password it commits
      to. The column never holds the plain password, only this value. */
  datatype PasswordHash = PasswordHash(salt: seq<Hex.byte>, committed: string)

  /** `password_verify`. */
  predicate PasswordVerify(password: string, hash: PasswordHash) {
    hash.committed == password
  }

  datatype User = User(
    id: int, username: string, email: string, password: PasswordHash,
    createdAt: int, updatedAt: int)

  datatype Application = Application(
    id: int, name: string, description: Option<string>, apiKey: string,
    createdAt: int, updatedAt: int)

  /** A row of `audit_logs`; `details` is the sanitised map that was JSON-encoded. */
  datatype AuditRow = AuditRow(
    id: int, userId: Option<int>, applicationId: Option<int>, action: Option<string>,
    resource: Option<string>, ipAddress: Option<string>, userAgent: Option<string>,
    status: Option<string>, details: map<string, Json>, createdAt: int)

  /** The columns the lookups of users select: never the password. */
  datatype UserView = UserView(id: int, username: string, email: string, createdAt: int, updatedAt: int)

  /** The columns the lookups of applications select: never the API key. */
  datatype ApplicationView = ApplicationView(
    id: int, name: string, description: Option<string>, createdAt: int, updatedAt: int)

  function ViewOfUser(u: User): (v: UserView)
    ensures v.id == u.id && v.username == u.username && v.email == u.email
  {
    UserView(u.id, u.username, u.email, u.createdAt, u.updatedAt)
  }

  function ViewOfApplication(a: Application): (v: ApplicationView)
    ensures v.id == a.id && v.name == a.name && v.description == a.description
  {
    ApplicationView(a.id, a.name, a.description, a.createdAt, a.updatedAt)
  }

  /** The rules the validators impose, as facts about every stored row. */
  predicate WordField(s: string) {
    LengthBetween(s, 3, 50) && IsWordString(s)
  }

  predicate ShortText(d: Option<string>, max: nat) {
    d.Some? ==> |d.value| <= max
  }

  predicate WellFormedPermission(p: Permission) {
    WordField(p.name) && WordField(p.resource) && WordField(p.action) && ShortText(p.description, 200)
  }

  predicate WellFormedRole(r: Role) {
    WordField(r.name) && ShortText(r.description, 200)
  }

  predicate WellFormedUser(u: User) {
    WordField(u.username) && |u.password.committed| >= 8
  }

  predicate WellFormedApplication(a: Application) {
    LengthBetween(a.name, 3, 100) && ShortText(a.description, 500) && Hex.IsApiKey(a.apiKey)
  }

  predicate PermissionTable(permissions: map<int, Permission>, next: int, rolePermissions: set<(int, int)>) {
    1 <= next && IdsUnder(permissions, next)
    && (forall k :: k in permissions ==> permissions[k].id == k && WellFormedPermission(permissions[k]))
    && (forall pr :: pr in rolePermissions ==> pr.0 in permissions)
  }

  /** Storing a well-formed row under its own id keeps the permission table valid. */
  lemma PermissionTablePut(permissions: map<int, Permission>, next: int, rolePermissions: set<(int, int)>, p: Permission)
    requires PermissionTable(permissions, next, rolePermissions)
    requires 1 <= p.id <= next && WellFormedPermission(p)
    ensures PermissionTable(permissions[p.id := p], if p.id == next then next + 1 else next, rolePermissions)
  {
  }

  predicate RoleTable(roles: map<int, Role>, next: int, userRoles: set<(int, int)>) {
    1 <= next && IdsUnder(roles, next)
    && (forall k :: k in roles ==> roles[k].id == k && WellFormedRole(roles[k]))
    && (forall ru :: ru in userRoles ==> ru.0 in roles)
  }

  /** Storing a well-formed row under its own id keeps the role table valid. */
  lemma RoleTablePut(roles: map<int, Role>, next: int, userRoles: set<(int, int)>, r: Role)
    requires RoleTable(roles, next, userRoles)
    requires 1 <= r.id <= next && WellFormedRole(r)
    ensures RoleTable(roles[r.id := r], if r.id == next then next + 1 else next, userRoles)
  {
  }

  predicate UserTable(users: map<int, User>, next: int) {
    1 <= next && IdsUnder(users, next)
    && forall k :: k in users ==> users[k].id == k && WellFormedUser(users[k])
  }

  /** Storing a well-formed row under its own id keeps the user table valid. */
  lemma UserTablePut(users: map<int, User>, next: int, u: User)
    requires UserTable(users, next)
    requires 1 <= u.id <= next && WellFormedUser(u)
    ensures UserTable(users[u.id := u], if u.id == next then next + 1 else next)
  {
  }

  predicate ApplicationTable(applications: map<int, Application>, next: int) {
    1 <= next && IdsUnder(applications, next)
    && forall k :: k in applications ==> applications[k].id == k && WellFormedApplication(applications[k])
  }

  /** Storing a well-formed row under its own id keeps the application table valid. */
  lemma ApplicationTablePut(applications: map<int, Application>, next: int, a: Application)
    requires ApplicationTable(applications, next)
    requires 1 <= a.id <= next && WellFormedApplication(a)
    ensures ApplicationTable(applications[a.id := a], if a.id == next then next + 1 else next)
  {
  }

  class Database {
    var permissions: map<int, Permission>
    var nextPermissionId: int
    var roles: map<int, Role>
    var nextRoleId: int
    var users: map<int, User>
    var nextUserId: int
    var applications: map<int, Application>
    var nextApplicationId: int
    /** `role_permissions` rows as (permission_id, role_id). */
    var rolePermissions: set<(int, int)>
    /** `user_roles` rows as (role_id, user_id). */
    var userRoles: set<(int, int)>
    var auditLogs: seq<AuditRow>

    constructor ()
      ensures permissions == map[] && roles == map[] && users == map[] && applications == map[]
      ensures rolePermissions == {} && userRoles == {} && auditLogs == []
      ensures nextPermissionId == 1 && nextRoleId == 1 && nextUserId == 1 && nextApplicationId == 1
      ensures Valid()
    {
      permissions, roles, users, applications := map[], map[], map[], map[];
      nextPermissionId, nextRoleId, nextUserId, nextApplicationId := 1, 1, 1, 1;
      rolePermissions, userRoles, auditLogs := {}, {}, [];
    }

    /** Permission rows are keyed by their id, validated, and never referenced
        by a `role_permissions` row once gone. */
    predicate PermissionsValid()
      reads this`permissions, this`nextPermissionId, this`rolePermissions
    {
      PermissionTable(permissions, nextPermissionId, rolePermissions)
    }

    /** Role rows are keyed by their id, validated, and never referenced by a
        `user_roles` row once gone. */
    predicate RolesValid()
      reads this`roles, this`nextRoleId, this`userRoles
    {
      RoleTable(roles, nextRoleId, userRoles)
    }

    predicate UsersValid()
      reads this`users, this`nextUserId
    {
      UserTable(users, nextUserId)
    }

    predicate ApplicationsValid()
      reads this`applications, this`nextApplicationId
    {
      ApplicationTable(applications, nextApplicationId)
    }

    /** Audit rows are only ever appended, so a row's id is its position plus one. */
    predicate AuditValid()
      reads this`auditLogs
    {
      forall i :: 0 <= i < |auditLogs| ==> auditLogs[i].id == i + 1
    }

    predicate Valid()
      reads this
    {
      PermissionsValid() && RolesValid() && UsersValid() && ApplicationsValid() && AuditValid()
    }
  }
}
