/** The user service: validated user rows with hashed passwords. Users are
    global; the application id only scopes the audit rows. */
module Users {
  import opened Wrappers
  import opened Strings
  import opened Tables
  import opened Store
  import opened AuditLog
  import Hex

  /** The request fields; `None` is a key that is absent or null. */
  datatype UserInput = UserInput(username: Option<string>, email: Option<string>, password: Option<string>)

  /** `filter_var($email, FILTER_VALIDATE_EMAIL)` is a parameter of the model. */
  type EmailCheck = string -> bool

  /** The data `validateUserData` accepts. */
  predicate UserDataOk(input: UserInput, isUpdate: bool, isEmail: EmailCheck) {
    (!isUpdate ==> !IsEmpty(input.username) && !IsEmpty(input.email) && !IsEmpty(input.password))
    && (input.username.Some? ==> WordField(input.username.value))
    && (input.email.Some? ==> isEmail(input.email.value))
    && (input.password.Some? ==> |input.password.value| >= 8)
  }

  const MissingFields := "Missing required fields"
  const UsernameLength := "Username must be between 3 and 50 characters"
  const UsernameCharset := "Username can only contain letters, numbers, and underscores"
  const InvalidEmail := "Invalid email format"
  const PasswordLength := "Password must be at least 8 characters long"

  /** Audit action names and detail keys. */
  const UserCreated := "user_created"
  const UserUpdated := "user_updated"
  const UserDeleted := "user_deleted"
  const UsernameKey := "username"
  const EmailKey := "email"

  /** A required field is absent or PHP-empty on create. */
  predicate MissingRequired(input: UserInput, isUpdate: bool) {
    !isUpdate && (IsEmpty(input.username) || IsEmpty(input.email) || IsEmpty(input.password))
  }

  /** The checks of `validateUserData`, in the order it makes them. */
  function UserRules(input: UserInput, isUpdate: bool, isEmail: EmailCheck): (rules: seq<(bool, string)>)
    ensures |rules| == 5
  {
    [ (!MissingRequired(input, isUpdate), MissingFields),
      (input.username.None? || LengthBetween(input.username.value, 3, 50), UsernameLength),
      (input.username.None? || IsWordString(input.username.value), UsernameCharset),
      (input.email.None? || isEmail(input.email.value), InvalidEmail),
      (input.password.None? || |input.password.value| >= 8, PasswordLength) ]
  }

  /** `validateUserData`: passes exactly on acceptable data; a missing field is
      reported before any other problem and a short password last. */
  function ValidateUserData(input: UserInput, isUpdate: bool, isEmail: EmailCheck): (r: Check)
    ensures r.Pass? <==> UserDataOk(input, isUpdate, isEmail)
    ensures MissingRequired(input, isUpdate) ==> r == Fail(MissingFields)
    ensures (UserDataOk(input.(password := None), isUpdate, isEmail) && !MissingRequired(input, isUpdate)
      && input.password.Some? && |input.password.value| < 8) ==> r == Fail(PasswordLength)
  {
    var rules := UserRules(input, isUpdate, isEmail);
    assert rules[0].0 && rules[1].0 && rules[2].0 && rules[3].0 && rules[4].0 <==> UserDataOk(input, isUpdate, isEmail);
    FirstFailure(rules)
  }

  /** `password_hash($password, PASSWORD_DEFAULT)` with the salt it draws. */
  function HashPassword(password: string, salt: seq<Hex.byte>): (h: PasswordHash)
    ensures forall p :: PasswordVerify(p, h) <==> p == password
  {
    PasswordHash(salt, password)
  }

  /** The row `createUser` inserts for accepted data. */
  function NewUser(id: int, input: UserInput, salt: seq<Hex.byte>, now: int): (u: User)
    requires UserDataOk(input, false, _ => true)
    ensures WellFormedUser(u)
    ensures u.id == id && u.createdAt == now && u.updatedAt == now && u.username == input.username.value && u.email == input.email.value
    ensures forall p :: PasswordVerify(p, u.password) <==> p == input.password.value
  {
    User(id, input.username.value, input.email.value, HashPassword(input.password.value, salt), now, now)
  }

  /** No field to update: `updateUser` writes nothing. */
  predicate NoFields(input: UserInput) {
    input.username.None? && input.email.None? && input.password.None?
  }

  /** The row after `UPDATE users SET` of the supplied fields; a new password
      is hashed with a fresh salt. */
  function Patch(u: User, input: UserInput, salt: seq<Hex.byte>, now: int): (q: User)
    ensures q.id == u.id && q.createdAt == u.createdAt && q.updatedAt == now
    ensures q.username == (if input.username.Some? then input.username.value else u.username)
    ensures q.email == (if input.email.Some? then input.email.value else u.email)
    ensures input.password.None? ==> q.password == u.password
    ensures input.password.Some? ==> forall p :: PasswordVerify(p, q.password) <==> p == input.password.value
  {
    u.(username := if input.username.Some? then input.username.value else u.username,
       email := if input.email.Some? then input.email.value else u.email,
       password := if input.password.Some? then HashPassword(input.password.value, salt) else u.password,
       updatedAt := now)
  }

  /** An accepted update keeps a well-formed row well-formed. */
  lemma PatchKeepsWellFormed(u: User, input: UserInput, salt: seq<Hex.byte>, now: int, isEmail: EmailCheck)
    requires WellFormedUser(u) && UserDataOk(input, true, isEmail)
    ensures WellFormedUser(Patch(u, input, salt, now))
  {
  }

  /** What `updateUser` logs as the username: the supplied one, else the stored one, else null. */
  function UpdatedUsername(input: UserInput, stored: Option<User>): Json {
    if input.username.Some? then JStr(input.username.value)
    else if stored.Some? then JStr(stored.value.username)
    else JNull
  }

  /** `getUserByUsername`: the first row, in id order, with that username. */
  function UserByUsername(users: map<int, User>, next: int, username: string): (r: Option<UserView>)
    requires IdsUnder(users, next)
    ensures r.Some? ==> r.value.username == username && exists k :: k in users && ViewOfUser(users[k]) == r.value
    ensures r.None? <==> forall k :: k in users ==> users[k].username != username
  {
    var u := First(users, next, (x: User) => x.username == username);
    if u.Some? then Some(ViewOfUser(u.value)) else None
  }

  class UserService {
    const db: Database
    const audit: AuditLogService
    const isEmail: EmailCheck

    constructor (db: Database, isEmail: EmailCheck)
      requires db.Valid()
      ensures this.db == db && this.isEmail == isEmail && Valid()
    {
      this.db := db;
      this.isEmail := isEmail;
      this.audit := new AuditLogService(db);
    }

    predicate Valid()
      reads db
    {
      audit.db == db && db.Valid()
    }

    /** `getUserById`: the row without its password. */
    function GetUserById(userId: int): (r: Option<UserView>)
      reads db`users
      ensures r.Some? <==> userId in db.users
      ensures r.Some? ==> r.value == ViewOfUser(db.users[userId])
    {
      if userId in db.users then Some(ViewOfUser(db.users[userId])) else None
    }

    /** `createUser`: validates, stores the hashed password under the next id,
        logs `user_created` with username and email. */
    method CreateUser(input: UserInput, applicationId: int, salt: seq<Hex.byte>, now: int) returns (r: Result<UserView>)
      requires Valid()
      modifies db`users, db`nextUserId, db`auditLogs
      ensures Valid()
      ensures !UserDataOk(input, false, isEmail) ==>
        r == Err(Exception(ValidateUserData(input, false, isEmail).message)) && unchanged(db)
      ensures UserDataOk(input, false, isEmail) ==>
        var u := NewUser(old(db.nextUserId), input, salt, now);
        && r == Ok(ViewOfUser(u))
        && u.id !in old(db.users)
        && db.users == old(db.users)[u.id := u]
        && db.nextUserId == old(db.nextUserId) + 1
        && db.auditLogs == old(db.auditLogs)
          + [RowOf(|old(db.auditLogs)| + 1, Event(Some(applicationId), Some(u.id), UserCreated,
                   map[UsernameKey := JStr(u.username), EmailKey := JStr(u.email)]), now)]
    {
      var check := ValidateUserData(input, false, isEmail);
      if check.Fail? {
        return Err(Exception(check.message));
      }
      var id := db.nextUserId;
      var u := NewUser(id, input, salt, now);
      UserTablePut(db.users, id, u);
      db.users := db.users[id := u];
      db.nextUserId := id + 1;
      var user := GetUserById(id);
      audit.Log(Event(Some(applicationId), Some(id), UserCreated,
                      map[UsernameKey := JStr(input.username.value), EmailKey := JStr(input.email.value)]), now);
      return Ok(user.value);
    }

    /** The `UPDATE users SET` of an accepted update and the row read back
        after it: the patched row, or null for an unknown id. */
    method WritePatch(userId: int, input: UserInput, salt: seq<Hex.byte>, now: int) returns (stored: Option<User>)
      requires Valid() && UserDataOk(input, true, isEmail)
      modifies db`users
      ensures Valid()
      ensures stored == (if userId in old(db.users) then Some(Patch(old(db.users)[userId], input, salt, now)) else None)
      ensures db.users == (if stored.Some? then old(db.users)[userId := stored.value] else old(db.users))
    {
      stored := None;
      if userId in db.users {
        var q := Patch(db.users[userId], input, salt, now);
        PatchKeepsWellFormed(db.users[userId], input, salt, now, isEmail);
        UserTablePut(db.users, db.nextUserId, q);
        db.users := db.users[userId := q];
        stored := Some(q);
      }
    }

    /** `updateUser`: writes only the supplied fields; with none it only reads. */
    method UpdateUser(userId: int, input: UserInput, applicationId: int, salt: seq<Hex.byte>, now: int)
      returns (r: Result<UserView>)
      requires Valid()
      modifies db`users, db`auditLogs
      ensures Valid()
      ensures !UserDataOk(input, true, isEmail) ==>
        r == Err(Exception(ValidateUserData(input, true, isEmail).message)) && unchanged(db)
      ensures UserDataOk(input, true, isEmail) && NoFields(input) ==>
        unchanged(db) && r == (if userId in db.users then Ok(ViewOfUser(db.users[userId])) else Err(NullReturned))
      ensures UserDataOk(input, true, isEmail) && !NoFields(input) ==>
        var stored := if userId in old(db.users) then Some(Patch(old(db.users)[userId], input, salt, now)) else None;
        && db.users == (if stored.Some? then old(db.users)[userId := stored.value] else old(db.users))
        && r == (if stored.Some? then Ok(ViewOfUser(stored.value)) else Err(NullReturned))
        && db.auditLogs == old(db.auditLogs)
          + [RowOf(|old(db.auditLogs)| + 1, Event(Some(applicationId), Some(userId), UserUpdated,
                   map[UsernameKey := UpdatedUsername(input, stored)]), now)]
    {
      var check := ValidateUserData(input, true, isEmail);
      if check.Fail? {
        return Err(Exception(check.message));
      }
      var found := GetUserById(userId);
      if NoFields(input) {
        if found.Some? {
          return Ok(found.value);
        }
        return Err(NullReturned);
      }
      var stored := WritePatch(userId, input, salt, now);
      audit.Log(Event(Some(applicationId), Some(userId), UserUpdated,
                      map[UsernameKey := UpdatedUsername(input, stored)]), now);
      if stored.Some? {
        return Ok(ViewOfUser(stored.value));
      }
      return Err(NullReturned);
    }

    /** `deleteUser`: false for an unknown id, otherwise exactly that row goes. */
    method DeleteUser(userId: int, applicationId: int, now: int) returns (r: bool)
      requires Valid()
      modifies db`users, db`auditLogs
      ensures Valid()
      ensures r <==> userId in old(db.users)
      ensures !r ==> unchanged(db)
      ensures r ==>
        && db.users == old(db.users) - {userId}
        && db.auditLogs == old(db.auditLogs)
          + [RowOf(|old(db.auditLogs)| + 1, Event(Some(applicationId), Some(userId), UserDeleted,
                   map[UsernameKey := JStr(old(db.users)[userId].username)]), now)]
    {
      var user := GetUserById(userId);
      if user.None? {
        return false;
      }
      db.users := db.users - {userId};
      audit.Log(Event(Some(applicationId), Some(userId), UserDeleted, map[UsernameKey := JStr(user.value.username)]), now);
      return true;
    }
  }
}
