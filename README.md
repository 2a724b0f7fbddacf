# User administration core, modelled in Dafny

This project models the core of a small role-based user-administration web application written in
Java. The core has these parts:

- the `User` and `Role` entities and their bean-validation constraints;
- a generic JDBC data-access object, with its user and role subclasses, over two SQL tables;
- `UserService`, which applies the business rules on top of the stores;
- `UserValidator`, the form-level checks that collect messages instead of throwing;
- `AuthenticationService`, the login check;
- `SessionUtils`, which keeps the current user in the HTTP session;
- `UserListTag`, the JSP tag that renders the user table as HTML.

The model states what each operation returns, how it changes the store, and which failure it
raises in each case. The modules follow the Java packages:

| file | models |
|---|---|
| `wrappers.dfy` | `null` as `Option`, a thrown exception as `Result.Failure` |
| `failures.dfy` | the exceptions the core throws or wraps |
| `entities.dfy` | `User`, `Role`, their annotations, and `String.trim` and `Long.toString` |
| `generic_dao.dfy` | `GenericJdbcDao` and the `Table` it talks to |
| `jdbc_users.dfy`, `jdbc_roles.dfy` | `JdbcUserDao` and `JdbcRoleDao` |
| `services.dfy` | `UserService` |
| `validation.dfy` | `UserValidator` and its e-mail pattern |
| `authentication.dfy` | `AuthenticationService` |
| `sessions.dfy` | `SessionUtils` |
| `tags.dfy` | `UserListTag` |

How the database is modelled:

- A `Table` holds rows keyed by their generated id, the next id, and whether a connection can be
  had.
- Each column declares NOT NULL, UNIQUE, a VARCHAR length or another SQL type. The users table is
  `login VARCHAR(50) NOT NULL UNIQUE`, `password VARCHAR(255) NOT NULL`,
  `email VARCHAR(100) NOT NULL UNIQUE`, `first_name` and `last_name VARCHAR(50)`, `birthday DATE`
  and `role_id BIGINT`. The roles table is `name VARCHAR(50) NOT NULL UNIQUE`.
- A statement that would break a constraint fails and is rolled back, so the rows stay as they were.
- Without a connection, every DAO operation fails with that operation's own message.
- The DAO hooks (parameters, row mapping, id access) are functions handed to the generic
  operations, as the abstract methods are in Java.
- `UserService` uses the same table model, in place of its Hibernate DAOs.

Parameters stand in for what the core reads from outside:

- `today` and `oldest` (the date 150 years back) for `LocalDate.now()`;
- an `ageOf` function for `Period.between(...).getYears()`;
- `isEmail` for the `@Email` check of the bean-validation library.

Methods that change fields in place (`setEntityId`, `setPassword`) return the changed value
instead. `doStartTag` returns the sequence of strings written to the page, in order.

## Model

| member | source | states |
|---|---|---|
| Entities.Trim | src/main/java/com/example/service/AuthenticationService.java:13-14 | `trim()` never lengthens a string; the result is empty exactly when the string is blank, and otherwise it starts and ends with a character above U+0020 |
| Entities.TrimSplits | src/main/java/com/example/service/UserService.java:152 | trimming removes only padding: the string is a blank prefix, then its trim, then a blank suffix |
| Entities.TrimIdempotent | src/main/java/com/example/service/UserService.java:152 | trimming twice gives the same result as trimming once |
| Entities.Violations | src/main/java/com/example/model/User.java:29-52 | `Validator.validate` reports no violation exactly when every annotated constraint on `User` holds |
| Entities.RoleViolations | src/main/java/com/example/model/Role.java:29-32 | no violation exactly when the name is non-blank and 2 to 50 characters long; an empty name breaks both constraints |
| Entities.PasswordHasNoUpperBound | src/main/java/com/example/model/User.java:33-36 | the password constraints set a lower bound only: any non-blank password of at least 3 characters passes |
| Entities.TodayIsNotPast | src/main/java/com/example/model/User.java:50-52 | `@Past` rejects a birthday equal to today, with the message "Birthday must be in the past" |
| Entities.NewUser | src/main/java/com/example/model/User.java:58-66 | the seven-argument constructor sets exactly the seven fields it is given and leaves the id null |
| Entities.NewRole | src/main/java/com/example/model/Role.java:37-39 | the constructor sets the name and leaves the id null |
| GenericDao.Table.constructor | src/test/java/com/example/dao/BaseDaoTest.java:51-70 | a new store is empty, its first generated id is 1, and its invariant holds |
| GenericDao.Create | src/main/java/com/example/dao/GenericJdbcDao.java:28-53 | no connection, or a refused insert, gives "Error creating entity" and leaves the table unchanged; a throwing hook propagates its failure; success stores the record under the next id, advances the id and returns the entity carrying that id |
| GenericDao.Update | src/main/java/com/example/dao/GenericJdbcDao.java:55-74 | success exactly when connected, the hook succeeds, the id has a row and the new record is admitted beside the other rows; only that row changes; any other outcome fails with "Error updating entity" (or the hook's failure) and changes nothing |
| GenericDao.Remove | src/main/java/com/example/dao/GenericJdbcDao.java:76-95 | a null id fails when unboxed; no connection, or an id with no row, gives "Error deleting entity"; success removes exactly that row |
| GenericDao.MapResultSetToList | src/main/java/com/example/dao/GenericJdbcDao.java:133-139 | one entity per result row, in the rows' order |
| GenericDao.FindAll | src/main/java/com/example/dao/GenericJdbcDao.java:97-108 | "Error finding all entities" without a connection; otherwise every row exactly once, sorted by the ORDER BY column, each mapped to an entity |
| GenericDao.ScanExists | src/main/java/com/example/dao/GenericJdbcDao.java:97-102 | every table can be listed in column order, each row exactly once |
| GenericDao.SortKeys | src/main/java/com/example/dao/JdbcUserDao.java:21-23 | any list of keys has a permutation sorted by a column |
| GenericDao.Insert | src/main/java/com/example/dao/JdbcUserDao.java:21-23 | adding one key to a sorted list keeps it sorted and adds exactly that key |
| GenericDao.FindById | src/main/java/com/example/dao/GenericJdbcDao.java:110-131 | a null id gives null without a query; "Error finding entity by id" without a connection; otherwise the row with that id, mapped, or null |
| GenericDao.UniqueMatch | src/main/java/com/example/dao/JdbcUserDao.java:151-162 | two rows never hold the same non-NULL value in a UNIQUE column |
| GenericDao.FindWhere | src/main/java/com/example/dao/JdbcUserDao.java:156-161 | `WHERE col = ?` finds the row holding the value, or none when no row holds it; a NULL parameter matches nothing |
| JdbcUsers.InsertParameters | src/main/java/com/example/dao/JdbcUserDao.java:97-116 | binds one value per column; fails with a null-pointer failure exactly when the user has a role without an id; the values fit the columns exactly when login, password and email are present and within their lengths (read back by RoundTrip) |
| JdbcUsers.UpdateParameters | src/main/java/com/example/dao/JdbcUserDao.java:118-139 | binds the same seven values as the insert, then the user's id as the key; a null id fails when unboxed |
| JdbcUsers.MapResultSetToEntity | src/main/java/com/example/dao/JdbcUserDao.java:72-95 | the row's id becomes the user's; a role is set exactly when `role_id` is not NULL, with that id and the joined name; a row that fits the schema gives a user with login, password and email |
| JdbcUsers.RoundTrip | src/main/java/com/example/dao/JdbcUserDao.java:72-116 | a user written by `setInsertParameters` reads back through `mapResultSetToEntity` as the same user with the row's id; only the role name can differ, and it is the one the join finds |
| JdbcUsers.UserRecordFits | src/main/java/com/example/dao/JdbcUserDao.java:97-116 | the bound parameters fit the columns exactly when login, password and email are present and every text is within its column's length |
| JdbcUsers.CollidesIffSameKey | src/main/java/com/example/dao/JdbcUserDao.java:97-116 | a stored row clashes with a user's parameters exactly when it holds the same login or the same email |
| JdbcUsers.AcceptedIffAdmitted | src/main/java/com/example/dao/JdbcUserDao.java:97-116 | the table's constraints, stated on a user: the columns fit, and no row holds the login or the email |
| JdbcUsers.JdbcUserDao.constructor | src/main/java/com/example/dao/JdbcUserDao.java:34-40 | the DAO works over a users table and a roles table with their schemas |
| JdbcUsers.JdbcUserDao.StoredUsersHaveLoginAndEmail | src/main/java/com/example/dao/JdbcUserDao.java:72-78 | every stored row has a login and an email (NOT NULL) |
| JdbcUsers.JdbcUserDao.LoginAndEmailUnique | src/main/java/com/example/dao/JdbcUserDao.java:151-187 | two different stored users never share a login, nor an email |
| JdbcUsers.JdbcUserDao.LoginLookupFindsOther | src/main/java/com/example/service/UserService.java:95-98 | the lookup by login finds a user with an id other than `self` exactly when another stored user holds the login |
| JdbcUsers.JdbcUserDao.EmailLookupFindsOther | src/main/java/com/example/service/UserService.java:99-102 | the same for the email |
| JdbcUsers.JdbcUserDao.Create | src/main/java/com/example/dao/JdbcUserDao.java:97-116 | success exactly when connected, the role (if any) has an id, and the table accepts the user; a role without an id fails with a null-pointer failure, anything else with "Error creating entity", and failure changes nothing; on success the row is the user's parameters under the next id, and when the user's role is the stored one it reads back as the returned user |
| JdbcUsers.JdbcUserDao.Update | src/main/java/com/example/dao/JdbcUserDao.java:118-139 | success exactly when connected, both ids are present, the row exists and the other rows leave the login and email free; all seven columns are overwritten; a null id fails when unboxed |
| JdbcUsers.JdbcUserDao.Remove | src/main/java/com/example/dao/JdbcUserDao.java:141-144 | success exactly when connected and the id has a row; exactly that row goes |
| JdbcUsers.JdbcUserDao.FindAll | src/main/java/com/example/dao/JdbcUserDao.java:21-23 | every stored user once, in non-decreasing login order |
| JdbcUsers.JdbcUserDao.FindById | src/main/java/com/example/dao/JdbcUserDao.java:24-26 | the stored user with that id, or null; null for a null id; "Error finding entity by id" without a connection |
| JdbcUsers.JdbcUserDao.FindByLogin | src/main/java/com/example/dao/JdbcUserDao.java:151-168 | the stored user with exactly that login, or null when no stored user has it; "Error finding user by login" without a connection |
| JdbcUsers.JdbcUserDao.FindByEmail | src/main/java/com/example/dao/JdbcUserDao.java:170-187 | the same for the email, with "Error finding user by email" |
| JdbcRoles.RoundTrip | src/main/java/com/example/dao/JdbcRoleDao.java:59-70 | a role written by `setInsertParameters` reads back as the same role with the row's id |
| JdbcRoles.InsertParameters | src/main/java/com/example/dao/JdbcRoleDao.java:67-70 | always succeeds with one value; it fits the column exactly when the name is present and at most 50 characters long |
| JdbcRoles.UpdateParameters | src/main/java/com/example/dao/JdbcRoleDao.java:72-76 | the same value as the insert, then the role's id as the key; a null id fails when unboxed |
| JdbcRoles.MapResultSetToEntity | src/main/java/com/example/dao/JdbcRoleDao.java:59-65 | the row's id becomes the role's; a row that fits the schema gives a name of at most 50 characters |
| JdbcRoles.NameAcceptedIffAdmitted | src/main/java/com/example/dao/JdbcRoleDao.java:67-70 | the table accepts a role name exactly when it is present, at most 50 characters long, and not already held |
| JdbcRoles.EmptyNameStoredButInvalid | src/main/java/com/example/model/Role.java:29-32 | the table accepts an empty name, which the bean constraints on `Role` reject |
| JdbcRoles.JdbcRoleDao.constructor | src/main/java/com/example/dao/JdbcRoleDao.java:22-27 | the DAO works over a roles table with its schema |
| JdbcRoles.JdbcRoleDao.StoredNamesNotNull | src/main/java/com/example/dao/JdbcRoleDao.java:59-65 | every stored role has a name |
| JdbcRoles.JdbcRoleDao.Create | src/main/java/com/example/dao/JdbcRoleDao.java:67-70 | success exactly when connected and the name is accepted; any failure is "Error creating entity" and changes nothing; the new row reads back as the returned role |
| JdbcRoles.JdbcRoleDao.Update | src/main/java/com/example/dao/JdbcRoleDao.java:72-76 | success exactly when connected, the id is present and has a row, and no other row holds the name; a null id fails when unboxed |
| JdbcRoles.JdbcRoleDao.Remove | src/main/java/com/example/dao/JdbcRoleDao.java:78-80 | success exactly when connected and the id has a row; exactly that row goes |
| JdbcRoles.JdbcRoleDao.FindAll | src/main/java/com/example/dao/JdbcRoleDao.java:17 | every stored role once, in non-decreasing name order |
| JdbcRoles.JdbcRoleDao.FindById | src/main/java/com/example/dao/JdbcRoleDao.java:18 | the stored role with that id, or null |
| JdbcRoles.JdbcRoleDao.FindByName | src/main/java/com/example/dao/JdbcRoleDao.java:88-105 | the stored role with exactly that name, or null when none has it; "Error finding role by name" without a connection |
| Services.SameIdAsWrittenIsPartial | src/main/java/com/example/service/UserService.java:118 | the self-delete guard as written fires only for the acting user's own id, and for every such id only within -128..127 |
| Services.SelfDeleteGuardMissesId1000 | src/main/java/com/example/service/UserService.java:118 | with id 1000 the guard as written does not fire for the acting user's own id |
| Services.UserService.constructor | src/main/java/com/example/service/UserService.java:24-32 | the service shares one roles table between its user and role stores |
| Services.UserService.GetAllUsers | src/main/java/com/example/service/UserService.java:34-41 | every stored user in login order; without a connection, "Error retrieving users" wrapping the DAO's failure |
| Services.UserService.GetAllRoles | src/main/java/com/example/service/UserService.java:137-144 | every stored role in name order; without a connection, "Error retrieving roles" |
| Services.UserService.GetUserById | src/main/java/com/example/service/UserService.java:43-54 | a null id is refused with "User ID cannot be null"; otherwise the stored user or null; a store failure becomes "Error retrieving user" |
| Services.UserService.NullIdDivergence | src/main/java/com/example/service/UserService.java:44-46 | for a null id the service throws, while the DAO answers null |
| Services.UserService.GetUserByLogin | src/main/java/com/example/service/UserService.java:146-157 | null for a null or blank login, with no lookup; otherwise the stored user with the trimmed login, found exactly when some user holds it; a store failure becomes "Error retrieving user" |
| Services.UserService.GetUserByEmail | src/main/java/com/example/service/UserService.java:159-170 | the same for the email |
| Services.UserService.GetRoleById | src/main/java/com/example/service/UserService.java:172-183 | null for a null id; otherwise the stored role or null; a store failure becomes "Error retrieving role" |
| Services.UserService.ValidateUser | src/main/java/com/example/service/UserService.java:185-202 | passes exactly when the user is present and bean-valid; a null user gives "User cannot be null"; a user with violations gets all their messages; every failure is an IllegalArgumentException |
| Services.UserService.PasswordRequiredIsUnreachable | src/main/java/com/example/service/UserService.java:199-201 | the separate "Password is required" refusal never fires: `@NotBlank` has already refused a blank password |
| Services.UserService.CreateUser | src/main/java/com/example/service/UserService.java:56-76 | validation failures come first; then a stored login gives "Login already exists: <login>", then a stored email gives "Email already exists: <email>"; success exactly when the user is bean-valid, connected, the login and email are free and the columns fit; on success the store gains exactly the new row and the user gets the next id; on failure nothing changes |
| Services.UserService.InsertFree | src/main/java/com/example/service/UserService.java:68 | once the login and email are free, the insert fails only for an overlong password |
| Services.UserService.UserAcceptedUnless | src/main/java/com/example/service/UserService.java:93-104 | for a bean-valid user, the table refuses nothing except a login or email held by another row, and a password over 255 characters |
| Services.UserService.UserAcceptedWhenFree | src/main/java/com/example/service/UserService.java:60-68 | the same, for the insert of createUser |
| Services.UserService.UpdateUser | src/main/java/com/example/service/UserService.java:78-112 | gives "User ID is required for update" for a null id and "User not found with ID: <id>" for a missing row; otherwise the password is substituted as KeptPassword says; the result succeeds exactly when the substituted user is bean-valid, no other user holds its login or email, and its columns fit; only that row is rewritten; the stored password afterwards is the old one unless a password update was asked for with a non-blank password, and then it is the supplied one; a null user gives a null-pointer failure |
| Services.UserService.ValidateAndRewrite | src/main/java/com/example/service/UserService.java:93-104 | the second half of updateUser: validation, then the login and the email checks that ignore the user's own row, then the rewrite |
| Services.UserService.RewriteFree | src/main/java/com/example/service/UserService.java:104 | once no other row holds the login or email, the rewrite fails only for an overlong password |
| Services.UserService.RewriteStored | src/main/java/com/example/service/UserService.java:89-104 | with the stored user found, the stored password replaces the supplied one unless a non-blank new password is to be set; the update succeeds exactly when the resulting user is bean-valid, its login and email are free of other users and its columns fit; only its row changes, and the stored password afterwards is the old one or the supplied one accordingly |
| Services.UserService.StoredPasswordAfterUpdate | src/main/java/com/example/service/UserService.java:89-104 | after the rewrite, the stored password is the one the update chose |
| Services.UserService.DeleteUser | src/main/java/com/example/service/UserService.java:114-135 | a null id is refused; the acting user's own id gives the checked "can't delete yoursefl", before any lookup; otherwise success exactly when connected; an id with no row changes nothing, any other id loses exactly its row; the acting user's own row is never deleted |
| Validation.IndexOf | src/main/java/com/example/validator/UserValidator.java:14-15 | the first index of a character, or -1 when it does not occur |
| Validation.LastIndexOf | src/main/java/com/example/validator/UserValidator.java:14-15 | the last index of a character, or -1 when it does not occur |
| Validation.SplitIsForced | src/main/java/com/example/validator/UserValidator.java:14-15 | in any match of EMAIL_PATTERN, the '@' is the first one and the dot before the top-level domain is the last one |
| Validation.OnlySplit | src/main/java/com/example/validator/UserValidator.java:14-15 | a string matches the pattern only with that split |
| Validation.MatchesEmail | src/main/java/com/example/validator/UserValidator.java:121 | the matcher is true exactly when the string matches `^[A-Za-z0-9+_.-]+@([A-Za-z0-9.-]+\.[A-Za-z]{2,})$` |
| Validation.EmailHasOneAt | src/main/java/com/example/validator/UserValidator.java:14-15 | an accepted address has exactly one '@' |
| Validation.LoginMessages | src/main/java/com/example/validator/UserValidator.java:111-117 | at most one message; none exactly when the login is non-blank and 3 to 50 characters long; "Login is required" for a blank login |
| Validation.EmailMessages | src/main/java/com/example/validator/UserValidator.java:119-125 | at most one message; none exactly when the email is non-blank, matches the pattern and is at most 100 characters long; the length message only for a matching address |
| Validation.NameMessages | src/main/java/com/example/validator/UserValidator.java:127-137 | at most one message; none exactly when the name is non-blank and at most 50 characters long |
| Validation.BirthdayMessages | src/main/java/com/example/validator/UserValidator.java:139-147 | the future message exactly when the birthday is after today, and the 150-year message exactly when it is before the oldest date; when the oldest date is not after today, at most one appears |
| Validation.BasicFieldErrors | src/main/java/com/example/validator/UserValidator.java:105-151 | the caller's list is kept as a prefix; a null user adds exactly "User cannot be null"; a present user without a role gets "Role is required" as the last message |
| Validation.BasicFieldsAccept | src/main/java/com/example/validator/UserValidator.java:105-151 | a present user gets no message exactly when every field rule holds, and at most six messages |
| Validation.CreatePasswordMessages | src/main/java/com/example/validator/UserValidator.java:26-30 | at most one message; none exactly when the password is non-blank and at least 3 characters long |
| Validation.UpdatePasswordMessages | src/main/java/com/example/validator/UserValidator.java:68-75 | no message when the password is not being changed; otherwise the create rule with its own blank message |
| Validation.IdMessages | src/main/java/com/example/validator/UserValidator.java:64-66 | a message exactly when the id is null |
| Validation.ClashMessages | src/main/java/com/example/validator/UserValidator.java:77-88 | the clash message when the lookup finds a user with an id other than `self`; no message when it finds nobody or only the user's own row; the caught exception's message when the lookup throws |
| Validation.CheckLogin | src/main/java/com/example/validator/UserValidator.java:111-117 | appends exactly the login messages |
| Validation.CheckEmail | src/main/java/com/example/validator/UserValidator.java:119-125 | appends exactly the email messages |
| Validation.CheckName | src/main/java/com/example/validator/UserValidator.java:127-137 | appends exactly one name's messages |
| Validation.CheckBirthday | src/main/java/com/example/validator/UserValidator.java:139-147 | appends exactly the birthday messages |
| Validation.CheckCreatePassword | src/main/java/com/example/validator/UserValidator.java:26-30 | appends exactly the create password messages |
| Validation.CheckUpdatePassword | src/main/java/com/example/validator/UserValidator.java:68-75 | appends exactly the update password messages |
| Validation.CheckId | src/main/java/com/example/validator/UserValidator.java:64-66 | appends exactly the id message |
| Validation.AppendClash | src/main/java/com/example/validator/UserValidator.java:32-54 | appends exactly one try-block's messages |
| Validation.ValidateBasicFields | src/main/java/com/example/validator/UserValidator.java:105-151 | appends the field messages in field order; a null user gets only its one message |
| Validation.CheckForCreate | src/main/java/com/example/validator/UserValidator.java:22-57 | the create list for a present user: the basic fields, the password, then the two try-blocks |
| Validation.CheckForUpdate | src/main/java/com/example/validator/UserValidator.java:59-103 | the update list: the basic fields, the id, the password when it changes, then the two try-blocks that ignore the user's own id |
| Validation.UserValidator.constructor | src/main/java/com/example/validator/UserValidator.java:17 | the validator works through one service over valid stores |
| Validation.UserValidator.LoginUniqueness | src/main/java/com/example/validator/UserValidator.java:32-42 | at most one message from the login try-block |
| Validation.UserValidator.EmailUniqueness | src/main/java/com/example/validator/UserValidator.java:44-54 | at most one message from the email try-block |
| Validation.UserValidator.LoginUniquenessMeaning | src/main/java/com/example/validator/UserValidator.java:77-88 | no message for a blank login; "System error. Please try again." without a connection; otherwise "Login already exists" exactly when a user other than `self` holds the trimmed login |
| Validation.UserValidator.EmailUniquenessMeaning | src/main/java/com/example/validator/UserValidator.java:90-101 | the same for the email |
| Validation.UserValidator.ValidateForCreate | src/main/java/com/example/validator/UserValidator.java:22-57 | a null user fails with a null-pointer failure; otherwise the list of CheckForCreate over the service's two lookups |
| Validation.UserValidator.ValidateForUpdate | src/main/java/com/example/validator/UserValidator.java:59-103 | a null user fails with a null-pointer failure; otherwise the list of CheckForUpdate over the two lookups |
| Validation.UserValidator.CreateAcceptsIff | src/main/java/com/example/validator/UserValidator.java:22-57 | the create list is empty exactly when every field rule and the password rule hold, the store answers, and nobody holds the trimmed login or the trimmed email |
| Validation.UserValidator.UpdateAcceptsIff | src/main/java/com/example/validator/UserValidator.java:59-103 | the update list is empty exactly when every field rule holds, the id is present, the password rule holds if the password changes, the store answers, and no user with another id holds the trimmed login or email |
| Validation.UserValidator.ReadMessagesUnreachable | src/main/java/com/example/validator/UserValidator.java:36-38 | the "Unable to verify ..." messages never appear: the service has already wrapped every DatabaseReadException |
| Validation.AcceptedIsBeanValid | src/main/java/com/example/validator/UserValidator.java:105-151 | a user the validator accepts is bean-valid, given that the pattern implies `@Email` and the birthday is not today |
| Validation.TodayBirthdayDivergence | src/main/java/com/example/validator/UserValidator.java:139-147 | the validator accepts a birthday of today, which `@Past` rejects |
| Authentication.AuthenticationService.constructor | src/main/java/com/example/service/AuthenticationService.java:10 | the service works over a valid user store |
| Authentication.AuthenticationService.Authenticate | src/main/java/com/example/service/AuthenticationService.java:12-29 | null for a null or blank login or password, and whenever the store fails; a user it returns is stored under its id, has the trimmed login, and has exactly the given password |
| Authentication.AuthenticationService.LookupGivesCredentials | src/main/java/com/example/service/AuthenticationService.java:19-20 | a user found by login with this password is a stored user with these credentials |
| Authentication.AuthenticationService.CredentialsGiveLookup | src/main/java/com/example/service/AuthenticationService.java:19-20 | logins are unique, so a stored user with these credentials is the one the lookup finds |
| Authentication.AuthenticationService.AuthenticateIff | src/main/java/com/example/service/AuthenticationService.java:12-29 | with the store up and non-blank arguments, authentication succeeds exactly when a stored user has the trimmed login and the untrimmed password |
| Authentication.AuthenticationService.PasswordNotTrimmed | src/main/java/com/example/service/AuthenticationService.java:20 | the password is compared untrimmed: a padded copy of a password that works is rejected |
| Sessions.Request.GetCurrentUser | src/main/java/com/example/util/SessionUtils.java:15-21 | null without a session (none is created); with a session, exactly its "currentUser" attribute |
| Sessions.Request.IsLoggedIn | src/main/java/com/example/util/SessionUtils.java:23-25 | true exactly when a session exists and holds a user |
| Sessions.Request.IsAdmin | src/main/java/com/example/util/SessionUtils.java:27-31 | true exactly when the session holds a user whose role is present and named "ADMIN"; an administrator is always logged in |
| Sessions.Request.SetCurrentUser | src/main/java/com/example/util/SessionUtils.java:10-13 | a session exists afterwards (created when missing) and the current user is the one given |
| Sessions.Request.Logout | src/main/java/com/example/util/SessionUtils.java:33-38 | afterwards there is no session, no current user, nobody is logged in, and nobody is admin |
| Tags.Replace | src/main/java/com/example/tag/UserListTag.java:113-117 | `String.replace` changes nothing when the character does not occur |
| Tags.EscapeHtml | src/main/java/com/example/tag/UserListTag.java:109-118 | "" for null |
| Tags.EscapeChar | src/main/java/com/example/tag/UserListTag.java:113-117 | each of the five special characters becomes its entity, any other character stays; the result has no markup |
| Tags.ChainIsPerChar | src/main/java/com/example/tag/UserListTag.java:113-117 | `Chain`, the chain of five replacements, ampersand first, escapes character by character: no replacement re-reads an earlier one's output |
| Tags.EscapedHasNoMarkup | src/main/java/com/example/tag/UserListTag.java:109-118 | the output of escapeHtml holds no '<', '>', '"' or '\'' |
| Tags.EscapedAmpersandsAreEntities | src/main/java/com/example/tag/UserListTag.java:109-118 | every '&' in the output of escapeHtml begins one of the five entities |
| Tags.EscapeIdentityOnSafe | src/main/java/com/example/tag/UserListTag.java:109-118 | a string without special characters is left as it is |
| Tags.RowChunks | src/main/java/com/example/tag/UserListTag.java:47-90 | the writer receives exactly 15 chunks per user |
| Tags.RowCells | src/main/java/com/example/tag/UserListTag.java:47-90 | a row opens and closes a table row and holds, in order, the login, the two names, the age, the role and the two action links; the age cell is "-" without a birthday and the age in years otherwise; the role cell is "-" without a role, the Admin or User badge for those two names, and otherwise a neutral badge around the escaped name |
| Tags.RoleBadgeIdentifies | src/main/java/com/example/tag/UserListTag.java:65-78 | the role cell tells the roles apart: the Admin badge appears exactly for a role named "ADMIN", the User badge exactly for "USER", and "-" exactly for a user without a role |
| Tags.FlattenSlice | src/main/java/com/example/tag/UserListTag.java:46-91 | rows of equal length written in sequence: row `i` sits at positions `15*i` up to `15*i + 15` |
| Tags.FlattenLength | src/main/java/com/example/tag/UserListTag.java:46-91 | the rows written in sequence have length 15 times the number of users |
| Tags.Rows | src/main/java/com/example/tag/UserListTag.java:46-91 | the table body has 15 chunks per user |
| Tags.NoUsersHasNoTable | src/main/java/com/example/tag/UserListTag.java:25-30 | the "No users found" block never opens a table |
| Tags.PageFrame | src/main/java/com/example/tag/UserListTag.java:32-95 | for a non-empty list, the page is the header, then the rows, then the footer that closes the table |
| Tags.RowsInOrder | src/main/java/com/example/tag/UserListTag.java:46-91 | the body's row `i` is exactly the chunks of user `i` |
| Tags.UserListTag.constructor | src/main/java/com/example/tag/UserListTag.java:15-18 | the two attributes the page sets |
| Tags.UserListTag.DoStartTag | src/main/java/com/example/tag/UserListTag.java:21-102 | writes exactly the page for the list and returns SKIP_BODY; a null or empty list writes only the "No users found" block and no table |
| Tags.WriteRow | src/main/java/com/example/tag/UserListTag.java:47-90 | the loop body writes exactly one user's row |
| Tags.WriteTextCells | src/main/java/com/example/tag/UserListTag.java:47-53 | writes the row opening and the three escaped text cells |
| Tags.WriteAgeAndRole | src/main/java/com/example/tag/UserListTag.java:55-78 | writes the age cell and the role cell, with their branches |
| Tags.WriteActions | src/main/java/com/example/tag/UserListTag.java:80-90 | writes the edit and delete links and closes the row |

## Left out

- The controllers, servlet filters, JavaScript and the Hibernate DAOs are outside this core and are not part of this model. UserService's Hibernate stores are replaced by the JDBC table model.
- Connections, transactions, `DatabaseManager` and logging are left out. Only their effect is modelled: a missing connection fails the operation, and a rollback leaves the rows unchanged. One `connected` flag stands for every SQL failure that is not a constraint violation.
- A failed insert does not burn a generated id in the model. A real database may skip that id; nothing else observable changes.
- The `role_id` foreign key is not modelled, since it spans two tables. A user row may reference any role id, and deleting a role that users reference is not refused.
- Role's lazily loaded `users` back-reference is left out, since no core operation reads it.
- A null entity passed to the DAO methods is left out: the callers in the core never pass one.
- Entities.Violations: `UserService` joins the violation messages from a hash set into one string in unspecified order. Only the set of messages is modelled.
- Entities.Violations: `@Email` belongs to the validation library and is the uninterpreted parameter `isEmail`.
- Strings are sequences of characters. UTF-16 surrogate pairs and `length()` counting code units are not distinguished.
- The clock is a parameter: `today` and `oldest` stand for `LocalDate.now()` and `now.minusYears(150)`, and `ageOf` for `Period.between(...).getYears()`.
- Validation.UserValidator.ValidateForCreate: a null user is modelled as a null-pointer failure, because Java throws after "User cannot be null" has been added to a list the caller never sees. The list itself is not returned.
- Validation.UserValidator.ValidateForCreate: both uniqueness lookups are taken before the messages are built. They only read the store, so the result is the same.
- Validation.CheckForUpdate: the email try-block reports a DatabaseReadException with the login message (UserValidator.java:97). This is modelled as written; the branch cannot be reached (see ReadMessagesUnreachable).
- Tags.UserListTag.DoStartTag: an `IOException` from the writer, rethrown as `JspException`, is not modelled, since the output is a sequence.
- doEndTag is not modelled, because it always returns EVAL_PAGE and touches nothing.
- Sessions: only the "currentUser" attribute of the session is modelled. Other attributes and session expiry are left out.
- GenericDao.FindAll: the order among rows with equal sort keys is whatever the database chooses. Logins and role names are unique, so this order is fully determined for the two concrete DAOs.

## Findings

| source | as written | input that shows it | evidently intended | confidence | as-written member | corrected member |
|---|---|---|---|---|---|---|
| src/main/java/com/example/service/UserService.java:118 | `curUser.getId() == userId` compares two `Long` objects by reference | an administrator with id 1000 deletes user 1000: the two boxed values are distinct objects outside the `Long.valueOf` cache (-128..127), so the guard does not fire and the account is deleted | refuse whenever the two ids are equal as numbers | high for ids outside -128..127; not executed | Services.SameIdAsWritten, Services.SelfDeleteGuardMissesId1000 | Services.SameId, Services.UserService.DeleteUser |
