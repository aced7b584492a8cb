# Multi-tenant authorization backend, modelled in Dafny

The backend serves several client applications at once. Each application owns:

- a 64-hex-digit API key;
- its users, roles and permissions;
- the links between them.

The model covers the services behind it and the two middlewares in front of it:

- **Permissions, roles, users and applications.** Validated create, update and delete, each logged in the audit table.
- **Links.** Permissions are assigned to roles and roles to users, scoped to the caller's application.
- **Authorization queries.** `hasPermission` and `getRolePermissions` answer from a Redis cache with a one-hour lifetime. `clearRolePermissionCache` deletes a role's cached listings.
- **Tokens.** Login with a password, refresh of an access/refresh token pair, and validation of JWTs.
- **The authorization middleware.** It extracts the bearer token, rejects refresh tokens, asks the permission service, logs the decision, and passes the request on or answers 401.
- **The security middleware.** A fixed-window rate limit per client address, and five security headers.
- **The audit log.** Sensitive detail keys are removed. Queries are filtered, ordered newest first and paged.

Tables are maps from auto-increment ids to rows held by the class `Store.Database`, whose fields the service methods update in place. Redis is the class `KeyValue.Cache`, a map from keys to entries with an expiry time; the rate limiter holds its own counters. A scan returns rows in id order (`Tables`); `ORDER BY` is a stable sort under a total order (`Sorting`). Exceptions are `Result` values: `Exception(message)` for a thrown `\Exception`, and `NullReturned` / `ObjectAsArray` for the PHP `TypeError` / `Error` that `catch (\Exception)` does not catch.

## Model

| member | source | states |
|---|---|---|
| `Wrappers.FirstFailure` | backend/src/Services/PermissionService.php:312-352 | A validator passes exactly when every rule holds, and otherwise throws the message of the first rule that fails. |
| `Strings.PcreWordMatchAcceptsTrailingNewline` | backend/src/Services/PermissionService.php:324 | `preg_match('/^[a-zA-Z0-9_]+$/')` accepts `"abc\n"`, which is not a word string. |
| `Strings.WordStringHasNoSeparators` | backend/src/Services/PermissionService.php:339 | A string that really is `[A-Za-z0-9_]+` has no colon and no line feed, and the PCRE pattern accepts it. |
| `Strings.PcreWordMatchExtra` | backend/src/Services/PermissionService.php:324 | What the pattern as written accepts beyond `[A-Za-z0-9_]+` is a word string and one final line feed: no other line feed and no colon. |
| `Strings.PcreWordMatchAfterWord` | backend/src/Services/PermissionService.php:324 | Every word string followed by one line feed passes the pattern as written; with two line feeds it does not. |
| `Strings.IsEmpty` | backend/src/Services/PermissionService.php:315 | `empty` is false for every present string of two or more characters. |
| `Strings.EmptyValues` | backend/src/Services/PermissionService.php:315 | `empty` holds for a missing field, `""` and `"0"`, and not for `"00"`, `" "` or `"false"`. |
| `Strings.ToLower` | backend/src/Services/AuditLogService.php:69 | `strtolower` keeps the length and lowers each ASCII letter. |
| `Strings.IntToString` | backend/src/Services/PermissionService.php:269 | The decimal form of an id, sign included, never holds a colon. |
| `Strings.NatToStringInjective` | backend/src/Services/PermissionService.php:241 | Distinct ids render as distinct decimal strings inside cache keys. |
| `Strings.IntToStringInjective` | backend/src/Services/PermissionService.php:269 | Distinct ids, negative ones included, render differently. |
| `Strings.SplitAtFirstColon` | backend/src/Services/PermissionService.php:269 | A colon-free prefix is recovered from `prefix:rest`. |
| `Strings.SplitAtLastColon` | backend/src/Services/PermissionService.php:269 | A colon-free suffix is recovered from `rest:suffix`. |
| `Strings.SplitAtOnlyColon` | backend/src/Services/PermissionService.php:269 | `x:y` with colon-free parts determines both parts. |
| `Strings.ColonPrefixSame` | backend/src/Services/PermissionService.php:304 | `x:` is a prefix of `y:z` (x, y decimal) only when x equals y. |
| `Strings.StrLeTotal` | backend/src/Services/RoleService.php:140 | The string order used for `ORDER BY name` is total. |
| `Strings.StrLeAntisymmetric` | backend/src/Services/RoleService.php:228 | The order is antisymmetric. |
| `Strings.StrLeTransitive` | backend/src/Services/PermissionService.php:156 | The order is transitive. |
| `Tables.IdsBelow` | backend/src/Services/RoleService.php:134-145 | The table's ids below the counter, strictly ascending. |
| `Tables.AcceptedIds` | backend/src/Services/RoleService.php:134-145 | Exactly the ids below the counter whose rows the condition accepts, strictly ascending. |
| `Tables.Rows` | backend/src/Services/RoleService.php:134-145 | The rows stored under the given ids, one per id and in the same order. |
| `Tables.Select` | backend/src/Services/RoleService.php:134-145 | One row per accepted id, in id order: the scan holds each accepted row once, and nothing else. |
| `Tables.Project` | backend/src/Services/RoleService.php:221-236 | One projection per accepted row, in id order, and nothing else. |
| `Tables.First` | backend/src/Services/UserService.php:126-136 | `fetch()` gives a stored row that matches, or nothing exactly when no row matches. |
| `Tables.Filter` | backend/src/Services/AuditLogService.php:107-110 | Keeps exactly the accepted elements, each as often as it occurs in the input. |
| `Tables.FilterCongruence` | backend/src/Services/AuditLogService.php:82-103 | Two conditions that agree on every element filter alike. |
| `Sorting.Insert` | backend/src/Services/PermissionService.php:156 | Insertion keeps a sorted list sorted and adds one element. |
| `Sorting.SortBy` | backend/src/Services/PermissionService.php:253 | `ORDER BY` yields a sorted permutation of its input. |
| `Sorting.SortByContents` | backend/src/Services/RoleService.php:228 | Sorting keeps the elements and the length. |
| `Hex.HexEncode` | backend/src/Services/ApplicationService.php:24 | `bin2hex` gives two hex digits per byte. |
| `Hex.HexDecode` | backend/src/Services/ApplicationService.php:142 | Decoding a hex string gives one byte per two digits. |
| `Hex.DecodeEncode` | backend/src/Services/ApplicationService.php:142 | Hex decoding inverts `bin2hex`. |
| `Hex.EncodeInjective` | backend/src/Services/ApplicationService.php:142 | Distinct byte strings give distinct hex strings. |
| `Hex.ApiKeyOfThirtyTwoBytes` | backend/src/Services/ApplicationService.php:24 | 32 random bytes give a 64-hex-digit key. |
| `Store.PermissionTablePut` | backend/src/Services/PermissionService.php:28-41 | Storing a well-formed permission under the counter or an existing id keeps the table invariant. |
| `Store.RoleTablePut` | backend/src/Services/RoleService.php:20-46 | The same for roles. |
| `Store.UserTablePut` | backend/src/Services/UserService.php:20-46 | The same for users. |
| `Store.ApplicationTablePut` | backend/src/Services/ApplicationService.php:20-48 | The same for applications. |
| `Store.ViewOfUser` | backend/src/Services/UserService.php:114-124 | The columns a lookup returns: id, username and email of the row, and never the password hash. |
| `Store.ViewOfApplication` | backend/src/Services/ApplicationService.php:111-121 | The columns a lookup returns: id, name and description of the row, and never the API key. |
| `KeyValue.WithoutPrefix` | backend/src/Services/PermissionService.php:302-310 | `KEYS prefix*` then `DEL` keeps exactly the keys without the prefix, with their values. |
| `KeyValue.Cache.Get` | backend/src/Services/PermissionService.php:242-246 | `GET` returns a value exactly for a live entry, and that entry's value. |
| `KeyValue.Cache.SetEx` | backend/src/Services/PermissionService.php:262 | `SETEX` stores the entry, and reads within the TTL return it. |
| `KeyValue.Cache.DeleteMatching` | backend/src/Services/PermissionService.php:302-310 | The cache becomes `WithoutPrefix` of the old one. |
| `AuditLog.SanitizeDetails` | backend/src/Services/AuditLogService.php:55-71 | Keeps exactly the detail keys whose lower-case form is not one of the seven sensitive names, with their values. |
| `AuditLog.SanitizeIdempotent` | backend/src/Services/AuditLogService.php:55-71 | Sanitising twice is sanitising once. |
| `AuditLog.SanitizeIgnoresCase` | backend/src/Services/AuditLogService.php:68-70 | A sensitive name in any letter case is removed. |
| `AuditLog.SanitizeSameFold` | backend/src/Services/AuditLogService.php:68-70 | Two keys with the same lower-case form are kept or dropped together. |
| `AuditLog.RowOf` | backend/src/Services/AuditLogService.php:16-53 | Every column of the inserted row is given. The new id and time; the caller's application, user, action and resource; the address, user agent and status; and the sanitised details. No sensitive key remains, and absent details become empty. |
| `AuditLog.Event` | backend/src/Services/PermissionService.php:44-49 | A service's log call: the given application, user, action and details, and no request columns. |
| `AuditLog.Window` | backend/src/Services/AuditLogService.php:105-110 | `LIMIT/OFFSET` returns the right slice, at most `limit` long. |
| `AuditLog.ConsecutivePages` | backend/src/Services/AuditLogService.php:105-110 | Two consecutive pages together are the window of twice the size. |
| `AuditLog.NewerFirstTotal` | backend/src/Services/AuditLogService.php:109 | `ORDER BY created_at DESC` is a total order. |
| `AuditLog.QueryRowsMatch` | backend/src/Services/AuditLogService.php:73-124 | Every returned row is a logged row of the application that passes each truthy filter. |
| `AuditLog.QueryShape` | backend/src/Services/AuditLogService.php:105-123 | A page is newest first and holds at most `limit` rows; only a negative offset or limit errs. |
| `AuditLog.FirstPageIsComplete` | backend/src/Services/AuditLogService.php:105-123 | A first page with room for every row returns every matching row. |
| `AuditLog.ConditionsMeanCriteria` | backend/src/Services/AuditLogService.php:82-103 | The generated `WHERE ... AND ...` list selects exactly the rows the filters describe. |
| `AuditLog.AuditLogService.Log` | backend/src/Services/AuditLogService.php:16-53 | `log` appends exactly one sanitised row with the next id, and keeps the log valid. |
| `AuditLog.AuditLogService.GetAuditLogs` | backend/src/Services/AuditLogService.php:73-124 | `getAuditLogs` returns the query over the stored log and changes nothing. |
| `AuditLog.AuditLogService.constructor` | backend/src/Services/AuditLogService.php:11-14 | The service writes to the given database. |
| `Tokens.Judge` | backend/src/Services/JWTService.php:65-77 | A token is valid exactly while `iat <= now < exp`; expired exactly when `exp` is reached. |
| `Tokens.TokenClaims` | backend/src/Services/JWTService.php:46-63 | The payload carries the times, `APP_URL` as issuer and audience, the three user fields, the application and the refresh flag. |
| `Tokens.GenerateTokens` | backend/src/Services/JWTService.php:29-44 | The pair is the two signed payloads, `expires_in` the access lifetime, and type `Bearer`. |
| `Tokens.PairSharesClaims` | backend/src/Services/JWTService.php:29-44 | Access and refresh payloads differ only in `exp` and the refresh flag. |
| `Tokens.ValidateToken` | backend/src/Services/JWTService.php:65-77 | Each decoder outcome maps to its message, and a valid token yields its claims. |
| `Tokens.IsRefreshToken` | backend/src/Services/JWTService.php:79-82 | Only a present `is_refresh` flag can make a refresh token, and only the boolean `true` does: the comparison is strict. |
| `Tokens.GetUserIdAsWritten` | backend/src/Services/JWTService.php:84-87 | As written, reading the user id of any claims throws: the `user` claim is an object. |
| `Tokens.GetUserId` | backend/src/Services/JWTService.php:84-87 | The id is what indexing the `user` claim would give if it were the array the code expects. |
| `Tokens.ClaimsReadBack` | backend/src/Services/JWTService.php:46-91 | `getUserId`, `getApplicationId` and `isRefreshToken` read back the user, application and refresh flag that `generateToken` signed. |
| `Tokens.UserIdUnreadableAsWritten` | backend/src/Services/JWTService.php:84-87 | As written, reading the user id of even a live, freshly issued access token throws. |
| `Tokens.AccessTokenValidates` | backend/src/Services/JWTService.php:79-92 | A live access token validates to its claims: not a refresh token, and naming its user and application. |
| `Tokens.RefreshTokenValidates` | backend/src/Services/JWTService.php:79-92 | A live refresh token validates and is a refresh token. |
| `Tokens.AccessTokenExpires` | backend/src/Services/JWTService.php:70-71 | Once `exp` is reached the token reports "Token has expired". |
| `Permissions.ValidatePermissionData` | backend/src/Services/PermissionService.php:312-352 | Passes exactly on acceptable data. Missing fields are reported first, and a bad name length before the other fields. |
| `Permissions.NewPermission` | backend/src/Services/PermissionService.php:28-39 | The inserted row is well-formed. It holds the new id, the application, and the input's name, description, resource and action. Both `created_at` and `updated_at` are the time. |
| `Permissions.Patch` | backend/src/Services/PermissionService.php:58-89 | Exactly the supplied fields change, plus `updated_at`. |
| `Permissions.PatchKeepsWellFormed` | backend/src/Services/PermissionService.php:56-89 | An accepted update keeps a row well-formed. |
| `Permissions.PatchIdempotent` | backend/src/Services/PermissionService.php:58-89 | Repeating an update changes nothing more. |
| `Permissions.ResourceActionTotal` | backend/src/Services/PermissionService.php:156 | `ORDER BY resource, action` is total. |
| `Permissions.EntryLeTotal` | backend/src/Services/PermissionService.php:253 | The listing order of `getRolePermissions` is total. |
| `Permissions.ListingLeTotal` | backend/src/Services/PermissionService.php:156 | The listing order of `getPermissionsByApplication` is total. |
| `Permissions.RolePermissionsOfContents` | backend/src/Services/PermissionService.php:248-260 | The join lists exactly the role's permissions of the application, sorted. There is one entry per linked permission row, as many as the join yields. |
| `Permissions.RemovedPermissionNotListed` | backend/src/Services/PermissionService.php:216-224 | After removing a link, the role's listing no longer shows that permission. |
| `Permissions.PermissionsByApplication` | backend/src/Services/PermissionService.php:150-161 | Exactly the application's permissions, one entry per row, sorted by resource then action. |
| `Permissions.NoGrantWithColon` | backend/src/Services/PermissionService.php:276-295 | No stored permission grants a resource or action containing a colon. |
| `Permissions.StoredFieldsHaveNoColon` | backend/src/Services/PermissionService.php:335-350 | Validated resources and actions have no colon. |
| `Permissions.RolePermissionsKey` | backend/src/Services/PermissionService.php:241 | A role listing key starts with the role's prefix. |
| `Permissions.UserPermissionKey` | backend/src/Services/PermissionService.php:269 | A permission answer key lies in the `user_permission:` family. |
| `Permissions.RolePrefixSelectsRole` | backend/src/Services/PermissionService.php:304 | `role_permissions:{r}:*` covers role r's keys for every application, and no other role's. |
| `Permissions.FamiliesDisjoint` | backend/src/Services/PermissionService.php:241-269 | The two cache families never share a key. |
| `Permissions.UserPermissionKeyParts` | backend/src/Services/PermissionService.php:269 | A permission key determines the user, the application, and `resource:action`. |
| `Permissions.KeyCollisionsAreHarmless` | backend/src/Services/PermissionService.php:267-300 | Two questions sharing a key get the same answer from the stored data. |
| `Permissions.ClearRoleCacheEffect` | backend/src/Services/PermissionService.php:302-310 | Clearing drops the role's listings for every application, and keeps other roles' listings and every permission answer. |
| `Permissions.PermissionService.constructor` | backend/src/Services/PermissionService.php:17-22 | The service starts valid over the given database and cache. |
| `Permissions.PermissionService.GetPermissionById` | backend/src/Services/PermissionService.php:138-148 | The stored row, or null exactly for an unknown id. |
| `Permissions.PermissionService.CreatePermission` | backend/src/Services/PermissionService.php:24-52 | A validation failure changes nothing. Otherwise exactly the new row is inserted under a fresh id and one `permission_created` row is logged. |
| `Permissions.PermissionService.WritePatch` | backend/src/Services/PermissionService.php:85-91 | The update writes the patched row, or nothing for an unknown id, and reads it back. |
| `Permissions.PermissionService.UpdatePermission` | backend/src/Services/PermissionService.php:54-101 | Invalid data changes nothing. With no fields it only reads back, null being a TypeError. Otherwise it patches and logs the supplied or stored name. |
| `Permissions.PermissionService.DeletePermission` | backend/src/Services/PermissionService.php:103-136 | False for an unknown id, and an error while any role holds the permission. Otherwise exactly that row goes and one row is logged. |
| `Permissions.PermissionService.ClearRolePermissionCache` | backend/src/Services/PermissionService.php:302-310 | The cache loses exactly the keys under the role's prefix. |
| `Permissions.PermissionService.AssignPermissionToRole` | backend/src/Services/PermissionService.php:163-207 | Out-of-scope permission: error. Already linked: true, nothing changes. Otherwise one link is added, one row logged and the role's cache cleared. |
| `Permissions.PermissionService.RemovePermissionFromRole` | backend/src/Services/PermissionService.php:209-237 | Out-of-scope permission: error. Otherwise the link is gone, one row logged and the role's cache cleared. |
| `Permissions.PermissionService.GetRolePermissions` | backend/src/Services/PermissionService.php:239-265 | A live cached listing is returned unchanged. On a miss, the join's result is returned and cached for an hour. |
| `Permissions.PermissionService.HasPermission` | backend/src/Services/PermissionService.php:267-300 | A live cached answer is returned as is. On a miss, the answer is whether some role of the user holds a matching permission, and it is cached for an hour. |
| `Roles.ValidateRoleData` | backend/src/Services/RoleService.php:238-260 | Passes exactly on acceptable data. A missing name on create is reported first, and a bad length before a bad charset. |
| `Roles.NewRole` | backend/src/Services/RoleService.php:22-35 | The inserted role is well-formed. It holds the new id, the application, and the input's name and description. Both timestamps are the time. |
| `Roles.Patch` | backend/src/Services/RoleService.php:52-73 | Exactly the supplied fields change, plus `updated_at`. |
| `Roles.PatchKeepsWellFormed` | backend/src/Services/RoleService.php:50-73 | An accepted update keeps a role well-formed. |
| `Roles.ListingLeTotal` | backend/src/Services/RoleService.php:140 | `ORDER BY name` is total on listings. |
| `Roles.EntryLeTotal` | backend/src/Services/RoleService.php:228 | `ORDER BY r.name` is total on entries. |
| `Roles.RolesByApplication` | backend/src/Services/RoleService.php:134-145 | Exactly the application's roles, one entry per row, sorted by name. |
| `Roles.UserRolesOf` | backend/src/Services/RoleService.php:221-236 | Exactly the user's roles in the application, one entry per assigned role row, sorted by name. |
| `Roles.AssignedRoleListed` | backend/src/Services/RoleService.php:147-190 | After an assignment the user's roles list the role. |
| `Roles.RemovedRoleNotListed` | backend/src/Services/RoleService.php:192-219 | After a removal they no longer do. |
| `Roles.RoleService.GetRoleById` | backend/src/Services/RoleService.php:122-132 | The stored role, or null exactly for an unknown id. |
| `Roles.RoleService.constructor` | backend/src/Services/RoleService.php:14-18 | The service and its audit log share the given database. |
| `Roles.RoleService.CreateRole` | backend/src/Services/RoleService.php:20-46 | A validation failure changes nothing. Otherwise exactly the new role is inserted and `role_created` logged. |
| `Roles.RoleService.WritePatch` | backend/src/Services/RoleService.php:69-75 | The update writes the patched role, or nothing for an unknown id. |
| `Roles.RoleService.UpdateRole` | backend/src/Services/RoleService.php:48-85 | Invalid data changes nothing. With no fields it only reads back. Otherwise it patches and logs the name. |
| `Roles.RoleService.DeleteRole` | backend/src/Services/RoleService.php:87-120 | False for an unknown id, and an error while any user holds the role. Otherwise exactly that role goes and one row is logged. |
| `Roles.RoleService.AssignRoleToUser` | backend/src/Services/RoleService.php:147-190 | Out-of-scope role: error. Already assigned: true, nothing changes. Otherwise one link is added and `role_assigned` logged for the user. |
| `Roles.RoleService.RemoveRoleFromUser` | backend/src/Services/RoleService.php:192-219 | Out-of-scope role: error. Otherwise the link is gone and `role_removed` logged. |
| `Users.ValidateUserData` | backend/src/Services/UserService.php:138-166 | Passes exactly on acceptable data. Missing fields are reported first; a short password is reported when it is the only problem. |
| `Users.HashPassword` | backend/src/Services/UserService.php:32 | `password_verify` accepts exactly the hashed password. |
| `Users.NewUser` | backend/src/Services/UserService.php:22-35 | The inserted user is well-formed. It holds the new id and the input's username and email, and both timestamps are the time. Its hash verifies exactly the given password. |
| `Users.Patch` | backend/src/Services/UserService.php:52-78 | Exactly the supplied fields change. A new password is rehashed and verifies exactly; otherwise the hash is kept. |
| `Users.PatchKeepsWellFormed` | backend/src/Services/UserService.php:50-78 | An accepted update keeps a user well-formed. |
| `Users.UserByUsername` | backend/src/Services/UserService.php:126-136 | A stored user with that username, without the hash, or null exactly when none exists. |
| `Users.UserService.GetUserById` | backend/src/Services/UserService.php:114-124 | The stored user without the hash, or null exactly for an unknown id. |
| `Users.UserService.constructor` | backend/src/Services/UserService.php:14-18 | The service and its audit log share the given database. |
| `Users.UserService.CreateUser` | backend/src/Services/UserService.php:20-46 | A validation failure changes nothing. Otherwise exactly the new user is inserted and `user_created` logged against its id. |
| `Users.UserService.WritePatch` | backend/src/Services/UserService.php:74-80 | The update writes the patched user, or nothing for an unknown id. |
| `Users.UserService.UpdateUser` | backend/src/Services/UserService.php:48-90 | Invalid data changes nothing. With no fields it only reads back. Otherwise it patches and logs the username. |
| `Users.UserService.DeleteUser` | backend/src/Services/UserService.php:92-112 | True exactly when the user existed; then exactly that row goes and one row is logged. |
| `Applications.ValidateApplicationData` | backend/src/Services/ApplicationService.php:167-186 | Passes exactly on acceptable data; a missing name on create is reported first. |
| `Applications.NewApiKey` | backend/src/Services/ApplicationService.php:24 | The key is 64 hex digits and decodes back to the random bytes. |
| `Applications.NewApiKeyInjective` | backend/src/Services/ApplicationService.php:142 | Distinct draws give distinct keys. |
| `Applications.NewApplication` | backend/src/Services/ApplicationService.php:24-35 | The inserted application is well-formed. It holds the new id, the input's name and description, and the new key. Both timestamps are the time. |
| `Applications.Patch` | backend/src/Services/ApplicationService.php:54-75 | Exactly the supplied fields change, and the key is kept. |
| `Applications.PatchKeepsWellFormed` | backend/src/Services/ApplicationService.php:52-75 | An accepted update keeps an application well-formed. |
| `Applications.Rekey` | backend/src/Services/ApplicationService.php:142-153 | Only the key and `updated_at` change. |
| `Applications.RekeyHidesKey` | backend/src/Services/ApplicationService.php:155-164 | The returned view is the same whatever key was drawn, so the new key is never disclosed. |
| `Applications.ApplicationByApiKey` | backend/src/Services/ApplicationService.php:123-133 | A stored application holding the key, or null exactly when none does. |
| `Applications.MalformedKeyFindsNothing` | backend/src/Services/ApplicationService.php:123-133 | A string that is not 64 hex digits finds no application. |
| `Applications.ApplicationService.GetApplicationById` | backend/src/Services/ApplicationService.php:111-121 | The stored application without its key, or null exactly for an unknown id. |
| `Applications.ApplicationService.constructor` | backend/src/Services/ApplicationService.php:14-18 | The service and its audit log share the given database. |
| `Applications.ApplicationService.CreateApplication` | backend/src/Services/ApplicationService.php:20-48 | A validation failure changes nothing. Otherwise exactly the new application with its key is inserted and logged against its own id. |
| `Applications.ApplicationService.WritePatch` | backend/src/Services/ApplicationService.php:71-77 | The update writes the patched application, or nothing for an unknown id. |
| `Applications.ApplicationService.UpdateApplication` | backend/src/Services/ApplicationService.php:50-87 | Invalid data changes nothing. With no fields it only reads back. Otherwise it patches and logs the name. |
| `Applications.ApplicationService.DeleteApplication` | backend/src/Services/ApplicationService.php:89-109 | True exactly when the application existed; then exactly that row goes and one row is logged. |
| `Applications.ApplicationService.RegenerateApiKey` | backend/src/Services/ApplicationService.php:135-165 | Unknown id: "Application not found" and nothing changes. Otherwise only the key changes, one row is logged, and the view is returned. |
| `Authentication.ClaimUserOf` | backend/src/Services/JWTService.php:53-57 | The token's user holds the row's id, username and email. |
| `Authentication.LoginRowIsJoin` | backend/src/Services/AuthService.php:25-37 | The join yields a stored user with that username exactly when the application exists and such a user exists. |
| `Authentication.ValidateApiKey` | backend/src/Services/AuthService.php:99-111 | True exactly when the application exists and holds that key. |
| `Authentication.OnlyTheIssuedKeyValidates` | backend/src/Services/AuthService.php:99-111 | The issued key validates; another draw's key and any non-key string do not. |
| `Authentication.RefreshUser` | backend/src/Services/AuthService.php:68-85 | Succeeds exactly for a valid refresh token of this application whose user still exists. Token errors pass through unchanged. Otherwise the first failing check gives its message, in order: "Invalid refresh token", "Invalid application", "User not found". |
| `Authentication.AccessTokenCannotRefresh` | backend/src/Services/AuthService.php:72-74 | A live access token is refused as "Invalid refresh token". |
| `Authentication.RefreshTokenRefreshes` | backend/src/Services/AuthService.php:68-97 | A live refresh token is accepted for its own application and refused for any other. |
| `Authentication.AuthService.Authenticate` | backend/src/Services/AuthService.php:23-66 | No row or a wrong password: "Invalid credentials" and one `login_failed` row. Otherwise the user's token pair and one `login_success` row. |
| `Authentication.AuthService.Conclude` | backend/src/Services/AuthService.php:39-65 | The same, for a row already fetched. |
| `Authentication.AuthService.RefreshToken` | backend/src/Services/AuthService.php:68-97 | On a failed check: that check's error (token error, "Invalid refresh token", "Invalid application" or "User not found", in that order) and nothing logged. Otherwise a new pair for the user and one `token_refresh` row. |
| `Authentication.AuthService.constructor` | backend/src/Services/AuthService.php:16-21 | The service, its token settings and its audit log share the given database. |
| `Authorization.SkipSpaces` | backend/src/Middleware/AuthMiddleware.php:27 | `\s+` consumes exactly a maximal run of whitespace. |
| `Authorization.BearerFrom` | backend/src/Middleware/AuthMiddleware.php:27-31 | No match exactly when `Bearer\s` occurs nowhere. Otherwise the capture follows the leftmost occurrence and its spaces. |
| `Authorization.ExtractBearer` | backend/src/Middleware/AuthMiddleware.php:27-31 | The same over the whole header; the token never starts with a space. |
| `Authorization.SkipSpacesRun` | backend/src/Middleware/AuthMiddleware.php:27 | Skipping from inside a run of spaces ends at the run's end. |
| `Authorization.BearerRoundTrip` | backend/src/Middleware/AuthMiddleware.php:27-31 | `Bearer` in any case, spaces and a token give back exactly the token. |
| `Authorization.CompactBearer` | backend/src/Middleware/AuthMiddleware.php:27-31 | `"Bearer " + jwt` gives back the JWT. |
| `Authorization.Precheck` | backend/src/Middleware/AuthMiddleware.php:26-37 | Passes exactly for a present header with a bearer token that validates and is not a refresh token. A missing or empty header, or one without `Bearer`, is "No token provided". A token that fails validation passes its error through. A refresh token is "Refresh token cannot be used for authorization". |
| `Authorization.IssuedTokensPrecheck` | backend/src/Middleware/AuthMiddleware.php:26-37 | The issued access token passes while live, and the refresh token of the same pair is refused. |
| `Authorization.Unauthorized` | backend/src/Middleware/AuthMiddleware.php:98-101 | The error answer has status 401 and a JSON content type. Its body is exactly `{"error": "Unauthorized", "message": <message>}`. |
| `Authorization.AnswerIsCachedForAnHour` | backend/src/Services/PermissionService.php:267-300 | On a miss the answer is the stored grant. Once cached it is returned for an hour, whatever the data becomes. |
| `Authorization.AuthMiddleware.Handle` | backend/src/Middleware/AuthMiddleware.php:22-103 | A failed precheck logs one `auth_error` row without ids and answers 401. Denied: `access_denied`, then `auth_error` with ids, and 401. Granted: `access_granted`, and `next` sees the user and application. Its answer is returned. If `next` throws, `auth_error` with ids is logged and 401 carries its message. |
| `Authorization.AuthMiddleware.Decide` | backend/src/Middleware/AuthMiddleware.php:55-101 | The rows logged and the answer once the permission answer is known, including when `next` throws. |
| `Authorization.AuthMiddleware.constructor` | backend/src/Middleware/AuthMiddleware.php:15-20 | The middleware asks the given permission service and decodes with the given codec. |
| `RateLimiting.RateLimitKeyInjective` | backend/src/Middleware/SecurityMiddleware.php:63 | Distinct addresses have distinct counters. |
| `RateLimiting.RateLimitKey` | backend/src/Middleware/SecurityMiddleware.php:63 | The counter key is `rate_limit:` followed by the address. |
| `RateLimiting.ClientIp` | backend/src/Middleware/SecurityMiddleware.php:52-59 | The first set of `X-Forwarded-For`, `Client-IP` and `REMOTE_ADDR`, else `0.0.0.0`. |
| `RateLimiting.ClientIpIsSupplied` | backend/src/Middleware/SecurityMiddleware.php:52-59 | The address is a supplied parameter or the fallback. |
| `RateLimiting.ForwardedForChoosesCounter` | backend/src/Middleware/SecurityMiddleware.php:55 | The client-written `X-Forwarded-For` alone picks the counter. |
| `RateLimiting.StepTouchesOnlyItsKey` | backend/src/Middleware/SecurityMiddleware.php:61-77 | A check changes only its own counter. |
| `RateLimiting.StepKeepsBound` | backend/src/Middleware/SecurityMiddleware.php:61-77 | Every counter stays between 1 and the limit. |
| `RateLimiting.StepOnLiveCounter` | backend/src/Middleware/SecurityMiddleware.php:71-76 | On a live counter: admitted exactly below the limit, and then one more with the same expiry. Refused means nothing changes. |
| `RateLimiting.StepWithoutLiveCounter` | backend/src/Middleware/SecurityMiddleware.php:66-69 | Without a live counter: admitted, and a window opens at 1. |
| `RateLimiting.Run` | backend/src/Middleware/SecurityMiddleware.php:61-77 | One verdict per request. |
| `RateLimiting.RunInWindow` | backend/src/Middleware/SecurityMiddleware.php:61-77 | Inside a live window with count n, the i-th further request passes exactly when n + i is below the limit. |
| `RateLimiting.FirstLimitAdmitted` | backend/src/Middleware/SecurityMiddleware.php:61-77 | Within one window the first request and then exactly the first `limit` requests pass. |
| `RateLimiting.ExpiredCounterResets` | backend/src/Middleware/SecurityMiddleware.php:64-69 | After the window closes, the next request starts a new one. |
| `RateLimiting.Configured` | backend/src/Middleware/SecurityMiddleware.php:21-22 | The variable when set, otherwise the default. |
| `RateLimiting.ConfiguredAsWritten` | backend/src/Middleware/SecurityMiddleware.php:21-22 | As written, a missing variable yields 0, not the default; a set one yields its value. |
| `RateLimiting.UnsetConfigAdmitsAll` | backend/src/Middleware/SecurityMiddleware.php:21-22 | As written, with both variables unset, every request is admitted. |
| `RateLimiting.DefaultConfigRefusesOverflow` | backend/src/Middleware/SecurityMiddleware.php:21-22 | With the defaults, 100 requests in an hour pass and the 101st is refused. |
| `RateLimiting.TooManyRequests` | backend/src/Middleware/SecurityMiddleware.php:31-39 | 429, JSON content type, body `{"error": "Rate limit exceeded"}`. |
| `Http.WithHeader` | backend/src/Middleware/SecurityMiddleware.php:43-47 | `withHeader` sets the header and drops every other spelling of its name. Headers with other names are kept unchanged, and nothing new appears. |
| `RateLimiting.Secured` | backend/src/Middleware/SecurityMiddleware.php:41-49 | The handler's answer with its status and body and the five security headers set. Any other spelling of their names the handler used is gone, and every other header is kept. |
| `RateLimiting.RateLimiter.constructor` | backend/src/Middleware/SecurityMiddleware.php:17-23 | Limit and window are the configured values or 100 and 3600. |
| `RateLimiting.RateLimiter.CheckRateLimit` | backend/src/Middleware/SecurityMiddleware.php:61-77 | The verdict and the new counters are those of one step. |
| `RateLimiting.RateLimiter.Process` | backend/src/Middleware/SecurityMiddleware.php:25-50 | A refused request gets 429 without calling the handler. An admitted one gets the handler's answer with the security headers. |

## Left out

- Database access is modelled on in-memory tables. SQL collations, character sets and `NOW()` precision are out: string equality is exact, and times are integers the caller supplies.
- Foreign keys and cascades are not modelled. Deleting a role, user or application leaves the link rows that name it. No service checks references, except permission and role deletion.
- Concurrency is out: each method runs alone. The read-modify-write of the rate counter and of the cache is therefore atomic in the model.
- `password_hash` and `password_verify` are symbolic. The hash records the password, and the model proves only that it verifies exactly that password.
- `filter_var(..., FILTER_VALIDATE_EMAIL)` is a parameter of the user service (`Users.EmailCheck`).
- `random_bytes(32)` is a parameter of the methods that draw keys. `time()` and `NOW()` are parameters too.
- JWT signing and verification (HS256) are a codec parameter. The lemmas assume it decodes what it encoded as the library's time checks do (`Tokens.Faithful`), and that tokens are compact serializations (`Authorization.CompactTokens`).
- Environment variables are `Option<int>`; the string-to-integer cast of a set variable is not modelled.
- Fetched ids are integers, so the `!==` comparisons against `$applicationId` compare integers. A driver returning ids as strings would make them always unequal.
- The controllers, routes and the Angular frontend are not part of this model. Neither are Redis connection setup, `Database::getInstance` and the `Redis.php` configuration.
- Callers pass `log` four arguments while `AuditLogService::log` takes one array, and the services build the audit service without its `PDO` argument. The model reads the four arguments as the array's `application_id`, `user_id`, `action` and `details` (`AuditLog.Event`).
- The audit columns `resource`, `ip_address` and `status` are read without `??`. A missing key would raise a warning and store null, which is what the model stores.
- The middleware's request is a value with the `Authorization` header, resource, action and server parameters; `getHeader`, `getResource`, `setUser` and `response()` are that value's fields.
- `Authorization.ExtractBearer`, `Authorization.Precheck` and `Authorization.AuthMiddleware.Handle` require an `Authorization` header without a line feed. HTTP field values cannot carry one (section 5.5 of RFC 9110), and only there would `.` and `$` differ.
- The cache stores answers as values, not JSON text. The `json_encode`/`json_decode` round trip and the `(bool)` cast of the stored `"0"`/`"1"` are taken as exact.
- A cached permission answer is not cleared when links change; `clearRolePermissionCache` clears only role listings. The model states this: `Permissions.ClearRoleCacheEffect` keeps every `user_permission:` key, and `Authorization.AnswerIsCachedForAnHour` shows a cached answer outlives changes for up to an hour.
- Redis `SETEX` with a non-positive TTL is refused by the server; the model stores an already-expired entry instead. Both read as absent and the request is admitted either way.
- A negative `LIMIT` or `OFFSET` in `getAuditLogs` is a database error, modelled as `Err` without the driver's message.
- ValidateUserData (`Users.ValidateUserData`): does not state the exact message for each single-field failure other than missing fields and the password length, because that needs distinctness of every message pair; the `Pass` case is stated in full.
- Lengths are counted in characters. PHP `strlen` counts bytes, so a name with non-ASCII letters is longer for the source than for the model. This affects the bounds at PermissionService.php:321-345, RoleService.php:247-256, UserService.php:147-162 and ApplicationService.php:176-182.
- `next` is modelled as returning a response or throwing an `\Exception` (`Http.Outcome`). A PHP `Error` thrown downstream escapes `catch (\Exception)` and is not modelled.
- ValidatePermissionData (`Permissions.ValidatePermissionData`): checks charsets with the corrected `Strings.IsWordString`, not the pattern as written (first row under Findings). A name, resource or action ending in one line feed is refused here but passes the source.
- ValidateRoleData (`Roles.ValidateRoleData`): the same corrected charset check (first row under Findings).
- ValidateUserData (`Users.ValidateUserData`): the same corrected charset check for the username (first row under Findings).
- constructor (`RateLimiting.RateLimiter.constructor`): applies the corrected defaults of `RateLimiting.Configured`, not the source's 0 for an unset variable (second row under Findings). `RateLimiting.UnsetConfigAdmitsAll` states what the source does.
- RefreshUser (`Authentication.RefreshUser`): reads the user id with the corrected `Tokens.GetUserId` (third row under Findings). As written, a refresh that passes the refresh and application checks throws an `Error` instead.
- RefreshTokenRefreshes (`Authentication.RefreshTokenRefreshes`): stated over the corrected `Tokens.GetUserId` (third row under Findings).
- RefreshToken (`Authentication.AuthService.RefreshToken`): uses the corrected `Tokens.GetUserId` (third row under Findings).
- Handle (`Authorization.AuthMiddleware.Handle`): reads the user id as the `user` claim's field, as the corrected `Tokens.GetUserId` does (third row under Findings). It passes the claim on as is. As written, every valid access token leads to an `Error` at AuthMiddleware.php:40 that `catch (\Exception)` does not catch.
- Decide (`Authorization.AuthMiddleware.Decide`): asks about and logs the user id as the corrected `Tokens.GetUserId` reads it (third row under Findings).
- `createApplication` and `regenerateApiKey` read the row back without `api_key`, so the new key never reaches the caller (`Applications.RekeyHidesKey`). This is modelled as written.

## Findings

| source | as written | input that shows it | evidently intended | confidence | as-written member | corrected member |
|---|---|---|---|---|---|---|
| backend/src/Services/PermissionService.php:324 | `/^[a-zA-Z0-9_]+$/` without the `D` modifier lets `$` match before a final line feed (same pattern in RoleService.php:250 and UserService.php:150) | the name `"abc\n"` passes the charset check | names of word characters only | not executed | `Strings.PcreWordMatch` | `Strings.IsWordString` |
| backend/src/Middleware/SecurityMiddleware.php:21-22 | `(int)$_ENV['RATE_LIMIT'] ?? 100`: the cast applies first and yields 0 for a missing variable, and 0 is not null, so the default never applies | `RATE_LIMIT` and `RATE_LIMIT_WINDOW` unset: limit 0 and window 0, and every request is admitted (`RateLimiting.UnsetConfigAdmitsAll`) | defaults 100 requests per 3600 seconds | not executed | `RateLimiting.ConfiguredAsWritten` | `RateLimiting.Configured` |
| backend/src/Services/JWTService.php:84-87 | `$decoded['user']['id']`: `JWT::decode` returns the `user` claim as an object, and `(array)` converts only the outer one, so indexing it throws an `Error` that `catch (\Exception)` does not catch | any live access token (`Tokens.UserIdUnreadableAsWritten`): no request is authorized and no refresh succeeds | read the id of the user claim | not executed | `Tokens.GetUserIdAsWritten` | `Tokens.GetUserId` |
