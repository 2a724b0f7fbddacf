/**
 * UserService: the business rules on top of the user and role stores. Every store failure it
 * does not expect is wrapped in a RuntimeException with the service's own message; its own
 * refusals are IllegalArgumentExceptions.
 */
module Services {
  import opened Wrappers
  import opened Failures
  import opened Entities
  import opened GenericDao
  import opened JdbcUsers
  import opened JdbcRoles

  /** The messages of the service's own exceptions (the two "already exists" and the "not found"
      message are prefixes the offending value is appended to). */
  const ERROR_RETRIEVING_USERS := "Error retrieving users"
  const ERROR_RETRIEVING_ROLES := "Error retrieving roles"
  const ERROR_RETRIEVING_USER := "Error retrieving user"
  const ERROR_RETRIEVING_ROLE := "Error retrieving role"
  const ERROR_CREATING_USER := "Error creating user"
  const ERROR_UPDATING_USER := "Error updating user"
  const ERROR_DELETING_USER := "Error deleting user"
  const ID_NULL := "User ID cannot be null"
  const USER_MISSING := "User cannot be null"
  const PASSWORD_MISSING := "Password is required"
  const UPDATE_ID_MISSING := "User ID is required for update"
  const LOGIN_TAKEN := "Login already exists: "
  const EMAIL_TAKEN := "Email already exists: "
  const USER_NOT_FOUND := "User not found with ID: "
  const SELF_DELETE := "can't delete yoursefl"

  /** `catch (Exception e) { throw new RuntimeException(message, e); }` around a store call. */
  function Rethrow<T>(message: string, r: Result<T, Failure>): (w: Result<T, Failure>)
    ensures r.Success? ==> w == r
    ensures r.Failure? ==> w == Failure(Runtime(message, r.error))
  {
    if r.Failure? then Failure(Runtime(message, r.error)) else r
  }

  /**
   * The self-deletion guard as written: `curUser.getId() == userId` compares two boxed Longs by
   * reference. Ids read from the store and parsed from a request are boxed separately, so they
   * are the same object only when Long.valueOf serves both from its cache of -128..127.
   */
  predicate SameIdAsWritten(curId: Option<int>, userId: int) {
    curId.Some? && curId.value == userId && -128 <= userId <= 127
  }

  /** The self-deletion guard as intended: the acting user's id is the target id. */
  predicate SameId(curId: Option<int>, userId: int) {
    curId == Some(userId)
  }

  /** The guard as written fires only for the intended cases, and for all of them among small ids. */
  lemma SameIdAsWrittenIsPartial(curId: Option<int>, userId: int)
    ensures SameIdAsWritten(curId, userId) ==> SameId(curId, userId)
    ensures -128 <= userId <= 127 ==> (SameIdAsWritten(curId, userId) <==> SameId(curId, userId))
  {
  }

  /** With id 1000 the written guard lets an administrator delete their own account. */
  lemma SelfDeleteGuardMissesId1000()
    ensures SameId(Some(1000), 1000) && !SameIdAsWritten(Some(1000), 1000)
  {
  }

  class UserService {
    const userDao: JdbcUserDao
    const roleDao: JdbcRoleDao
    /** The @Email check of the bean-validation library. */
    const isEmail: string -> bool

    ghost predicate Valid()
      reads this, userDao, roleDao, userDao.users, userDao.roles, roleDao.roles
    {
      userDao.Valid() && roleDao.Valid() && roleDao.roles == userDao.roles
    }

    constructor (userDao: JdbcUserDao, roleDao: JdbcRoleDao, isEmail: string -> bool)
      requires userDao.Valid() && roleDao.Valid() && roleDao.roles == userDao.roles
      ensures Valid() && this.userDao == userDao && this.roleDao == roleDao && this.isEmail == isEmail
    {
      this.userDao := userDao;
      this.roleDao := roleDao;
      this.isEmail := isEmail;
    }

    /** getAllUsers: all users ordered by login; a store failure becomes "Error retrieving users". */
    method GetAllUsers() returns (r: Result<seq<User>, Failure>, ghost order: seq<int>)
      requires Valid()
      ensures !userDao.users.connected ==>
                r == Failure(Runtime(ERROR_RETRIEVING_USERS, DatabaseRead(FIND_ALL_FAILED)))
      ensures userDao.users.connected ==> && r.Success? && ScanOf(userDao.users.rows, LOGIN, order)
                                          && |r.value| == |order|
                                          && forall i | 0 <= i < |order| :: r.value[i] == userDao.UserAt(order[i])
    {
      var found;
      found, order := userDao.FindAll();
      r := Rethrow(ERROR_RETRIEVING_USERS, found);
    }

    /** getAllRoles: all roles ordered by name; a store failure becomes "Error retrieving roles". */
    method GetAllRoles() returns (r: Result<seq<Role>, Failure>, ghost order: seq<int>)
      requires Valid()
      ensures !roleDao.roles.connected ==>
                r == Failure(Runtime(ERROR_RETRIEVING_ROLES, DatabaseRead(FIND_ALL_FAILED)))
      ensures roleDao.roles.connected ==> && r.Success? && ScanOf(roleDao.roles.rows, NAME, order)
                                          && |r.value| == |order|
                                          && forall i | 0 <= i < |order| :: r.value[i] == roleDao.RoleAt(order[i])
    {
      var found;
      found, order := roleDao.FindAll();
      r := Rethrow(ERROR_RETRIEVING_ROLES, found);
    }

    /** getUserById: a null id is refused (unlike the DAO, which answers null); otherwise the stored
        user, or null; a store failure becomes ERROR_RETRIEVING_USER. */
    function GetUserById(id: Option<int>): (r: Result<Option<User>, Failure>)
      reads this, userDao, userDao.users, userDao.roles
      ensures id.None? ==> r == Failure(IllegalArgument(ID_NULL))
      ensures id.Some? && !userDao.users.connected ==>
                r == Failure(Runtime(ERROR_RETRIEVING_USER, DatabaseRead(FIND_BY_ID_FAILED)))
      ensures id.Some? && userDao.users.connected ==>
                r == Success(if id.value in userDao.users.rows then Some(userDao.UserAt(id.value)) else None)
    {
      if id.None? then Failure(IllegalArgument(ID_NULL))
      else Rethrow(ERROR_RETRIEVING_USER, userDao.FindById(id))
    }

    /** The service and the DAO answer a null id differently. */
    lemma NullIdDivergence()
      ensures GetUserById(None).Failure? && userDao.FindById(None) == Success(None)
    {
    }

    /**
     * getUserByLogin: null for a null or blank login, without a lookup; otherwise the stored user
     * whose login is the trimmed argument, or null; a store failure becomes "Error retrieving user".
     */
    function GetUserByLogin(login: Option<string>): (r: Result<Option<User>, Failure>)
      reads this, userDao, userDao.users, userDao.roles
      requires userDao.Valid()
      ensures NullOrBlank(login) ==> r == Success(None)
      ensures !NullOrBlank(login) && !userDao.users.connected ==>
                r == Failure(Runtime(ERROR_RETRIEVING_USER, DatabaseRead(FIND_BY_LOGIN_FAILED)))
      ensures !NullOrBlank(login) && userDao.users.connected ==>
                r.Success? && (r.value.None? <==> !userDao.LoginTaken(Some(Trim(login.value))))
      ensures r.Success? && r.value.Some? ==>
                && !NullOrBlank(login) && r.value.value.login == Some(Trim(login.value))
                && r.value.value.id.Some? && r.value.value.id.value in userDao.users.rows
                && r.value.value == userDao.UserAt(r.value.value.id.value)
    {
      if NullOrBlank(login) then Success(None)
      else Rethrow(ERROR_RETRIEVING_USER, userDao.FindByLogin(Some(Trim(login.value))))
    }

    /**
     * getUserByEmail: null for a null or blank email, without a lookup; otherwise the stored user
     * whose email is the trimmed argument, or null; a store failure becomes "Error retrieving user".
     */
    function GetUserByEmail(email: Option<string>): (r: Result<Option<User>, Failure>)
      reads this, userDao, userDao.users, userDao.roles
      requires userDao.Valid()
      ensures NullOrBlank(email) ==> r == Success(None)
      ensures !NullOrBlank(email) && !userDao.users.connected ==>
                r == Failure(Runtime(ERROR_RETRIEVING_USER, DatabaseRead(FIND_BY_EMAIL_FAILED)))
      ensures !NullOrBlank(email) && userDao.users.connected ==>
                r.Success? && (r.value.None? <==> !userDao.EmailTaken(Some(Trim(email.value))))
      ensures r.Success? && r.value.Some? ==>
                && !NullOrBlank(email) && r.value.value.email == Some(Trim(email.value))
                && r.value.value.id.Some? && r.value.value.id.value in userDao.users.rows
                && r.value.value == userDao.UserAt(r.value.value.id.value)
    {
      if NullOrBlank(email) then Success(None)
      else Rethrow(ERROR_RETRIEVING_USER, userDao.FindByEmail(Some(Trim(email.value))))
    }

    /** getRoleById: null for a null id; otherwise the stored role, or null; a store failure
        becomes ERROR_RETRIEVING_ROLE. */
    function GetRoleById(roleId: Option<int>): (r: Result<Option<Role>, Failure>)
      reads this, roleDao, roleDao.roles
      ensures roleId.None? ==> r == Success(None)
      ensures roleId.Some? && !roleDao.roles.connected ==>
                r == Failure(Runtime(ERROR_RETRIEVING_ROLE, DatabaseRead(FIND_BY_ID_FAILED)))
      ensures roleId.Some? && roleDao.roles.connected ==>
                r == Success(if roleId.value in roleDao.roles.rows then Some(roleDao.RoleAt(roleId.value)) else None)
    {
      if roleId.None? then Success(None)
      else Rethrow(ERROR_RETRIEVING_ROLE, roleDao.FindById(roleId))
    }

    /**
     * validateUser: refuses a null user, then a user with bean-validation violations (all their
     * messages), then, when asked to, a blank password.
     */
    function ValidateUser(user: Option<User>, validatePassword: bool, today: Date): (r: Result<(), Failure>)
      reads this
      ensures r.Success? <==> user.Some? && BeanValid(user.value, today, isEmail)
      ensures r.Failure? ==> IsIllegalArgument(r.error)
      ensures user.None? ==> r == Failure(IllegalArgument(USER_MISSING))
      ensures user.Some? && !BeanValid(user.value, today, isEmail) ==>
                r == Failure(ConstraintViolations(Violations(user.value, today, isEmail)))
    {
      if user.None? then Failure(IllegalArgument(USER_MISSING))
      else
        var violations := Violations(user.value, today, isEmail);
        if violations != {} then Failure(ConstraintViolations(violations))
        else if validatePassword && NullOrBlank(user.value.password) then Failure(IllegalArgument(PASSWORD_MISSING))
        else Success(())
    }

    /** The separate blank-password refusal never fires: @NotBlank on the password already refused it. */
    lemma PasswordRequiredIsUnreachable(user: Option<User>, validatePassword: bool, today: Date)
      ensures ValidateUser(user, validatePassword, today) != Failure(IllegalArgument(PASSWORD_MISSING))
    {
      if user.Some? && Violations(user.value, today, isEmail) == {} {
        assert BeanValid(user.value, today, isEmail);
      }
    }

    /**
     * createUser: validates the user, refuses a login or email that is already stored, then stores
     * the user. Validation and uniqueness refusals happen before any write; any other failure
     * becomes "Error creating user". The store changes only on success, by exactly the new row.
     */
    method CreateUser(user: Option<User>, today: Date) returns (r: Result<User, Failure>)
      requires Valid()
      modifies userDao.users
      ensures Valid() && userDao.users.connected == old(userDao.users.connected)
      ensures r.Failure? ==> userDao.users.rows == old(userDao.users.rows)
      ensures ValidateUser(user, true, today).Failure? ==> r == Failure(ValidateUser(user, true, today).error)
      ensures ValidateUser(user, true, today).Success? && old(userDao.users.connected) && old(userDao.LoginTaken(user.value.login))
              ==> r == Failure(IllegalArgument(LOGIN_TAKEN + StringOf(user.value.login)))
      ensures ValidateUser(user, true, today).Success? && old(userDao.users.connected) && !old(userDao.LoginTaken(user.value.login))
              && old(userDao.EmailTaken(user.value.email))
              ==> r == Failure(IllegalArgument(EMAIL_TAKEN + StringOf(user.value.email)))
      ensures r.Success? <==> && user.Some? && BeanValid(user.value, today, isEmail) && old(userDao.users.connected)
                              && !old(userDao.LoginTaken(user.value.login)) && !old(userDao.EmailTaken(user.value.email))
                              && UserRecord(user.value).Success? && |user.value.password.value| <= 255
      ensures r.Success? ==> && r.value == user.value.(id := Some(old(userDao.users.nextId)))
                             && userDao.users.rows == old(userDao.users.rows)[old(userDao.users.nextId) := UserRecord(user.value).value]
    {
      var valid := ValidateUser(user, true, today);
      if valid.Failure? {
        return Failure(valid.error);
      }
      var u := user.value;
      match userDao.FindByLogin(u.login) {
        case Failure(e) => return Failure(Runtime(ERROR_CREATING_USER, e));
        case Success(withLogin) =>
          if withLogin.Some? {
            return Failure(IllegalArgument(LOGIN_TAKEN + StringOf(u.login)));
          }
      }
      match userDao.FindByEmail(u.email) {
        case Failure(e) => return Failure(Runtime(ERROR_CREATING_USER, e));
        case Success(withEmail) =>
          if withEmail.Some? {
            return Failure(IllegalArgument(EMAIL_TAKEN + StringOf(u.email)));
          }
      }
      r := InsertFree(u, today);
    }

    /** The last step of createUser, once the login and the email are known to be free: the insert. */
    method InsertFree(u: User, today: Date) returns (r: Result<User, Failure>)
      requires Valid() && userDao.users.connected && BeanValid(u, today, isEmail)
      requires !userDao.LoginTaken(u.login) && !userDao.EmailTaken(u.email)
      modifies userDao.users
      ensures Valid() && userDao.users.connected
      ensures r.Failure? ==> userDao.users.rows == old(userDao.users.rows)
      ensures r.Success? <==> UserRecord(u).Success? && |u.password.value| <= 255
      ensures r.Success? ==> && r.value == u.(id := Some(old(userDao.users.nextId)))
                             && userDao.users.rows == old(userDao.users.rows)[old(userDao.users.nextId) := UserRecord(u).value]
    {
      UserAcceptedWhenFree(u, today);
      var created := userDao.Create(u);
      match created {
        case Failure(e) => return Failure(Runtime(ERROR_CREATING_USER, e));
        case Success(stored) => r := Success(stored);
      }
    }

    /** For a bean-valid user, the table refuses nothing but a login or email held by a row outside
        `except`, and an overlong password: bean validation sets no upper bound on the password,
        while its column holds 255 characters. */
    lemma UserAcceptedUnless(u: User, today: Date, except: set<int>)
      requires userDao.Valid() && BeanValid(u, today, isEmail)
      ensures UserAccepted(userDao.users.rows - except, u) <==>
                && (forall k | k in userDao.users.rows && k !in except ::
                      userDao.UserAt(k).login != u.login && userDao.UserAt(k).email != u.email)
                && |u.password.value| <= 255
    {
      var rows := userDao.users.rows;
      forall k | k in rows && k !in except
        ensures GetString(At((rows - except)[k], LOGIN)) == userDao.UserAt(k).login
        ensures GetString(At((rows - except)[k], EMAIL)) == userDao.UserAt(k).email
      {
      }
    }

    /** For a bean-valid user whose login and email are free, only an overlong password is refused. */
    lemma UserAcceptedWhenFree(u: User, today: Date)
      requires userDao.Valid() && BeanValid(u, today, isEmail)
      ensures UserAccepted(userDao.users.rows, u) <==>
                !userDao.LoginTaken(u.login) && !userDao.EmailTaken(u.email) && |u.password.value| <= 255
    {
      UserAcceptedUnless(u, today, {});
      assert userDao.users.rows - {} == userDao.users.rows;
    }

    /** The password an update stores: the supplied one when a password update was asked for and it
        is not blank, otherwise the one already stored. */
    function KeptPassword(supplied: Option<string>, updatePassword: bool, existing: Option<string>): (p: Option<string>)
      ensures updatePassword && !NullOrBlank(supplied) ==> p == supplied
      ensures !updatePassword || NullOrBlank(supplied) ==> p == existing
    {
      if !updatePassword || NullOrBlank(supplied) then existing else supplied
    }

    /**
     * updateUser: refuses a null id and an id with no stored user; keeps the stored password unless
     * a non-blank new one is to be set; validates; refuses a login or email held by a user with a
     * different id; then rewrites the row. `updated` is the argument after the password was
     * substituted into it. The store changes only on success, and only in that row.
     */
    method UpdateUser(user: Option<User>, updatePassword: bool, today: Date)
      returns (updated: Option<User>, r: Result<(), Failure>)
      requires Valid()
      modifies userDao.users
      ensures Valid() && userDao.users.connected == old(userDao.users.connected)
      ensures r.Failure? ==> userDao.users.rows == old(userDao.users.rows)
      ensures user.None? ==> r == Failure(NullPointer)
      ensures user.Some? && user.value.id.None? ==> r == Failure(IllegalArgument(UPDATE_ID_MISSING))
      ensures user.Some? && user.value.id.Some? && old(userDao.users.connected) && user.value.id.value !in old(userDao.users.rows)
              ==> r == Failure(IllegalArgument(USER_NOT_FOUND + IntToString(user.value.id.value)))
      ensures user.Some? && user.value.id.Some? && old(userDao.users.connected) && user.value.id.value in old(userDao.users.rows)
              ==> updated == Some(user.value.(password := KeptPassword(user.value.password, updatePassword,
                                                                       old(userDao.UserAt(user.value.id.value)).password)))
      ensures r.Success? <==> && user.Some? && user.value.id.Some? && old(userDao.users.connected)
                              && user.value.id.value in old(userDao.users.rows)
                              && updated.Some? && BeanValid(updated.value, today, isEmail)
                              && !old(userDao.LoginTakenByOther(updated.value.login, user.value.id.value))
                              && !old(userDao.EmailTakenByOther(updated.value.email, user.value.id.value))
                              && UserRecord(updated.value).Success? && |updated.value.password.value| <= 255
      ensures r.Success? ==> userDao.users.rows == old(userDao.users.rows)[user.value.id.value := UserRecord(updated.value).value]
      ensures r.Success? && (!updatePassword || NullOrBlank(user.value.password)) ==>
                userDao.UserAt(user.value.id.value).password == old(userDao.UserAt(user.value.id.value)).password
      ensures r.Success? && updatePassword && !NullOrBlank(user.value.password) ==>
                userDao.UserAt(user.value.id.value).password == user.value.password
    {
      updated := user;
      if user.None? {
        return updated, Failure(NullPointer);
      }
      var u := user.value;
      if u.id.None? {
        return updated, Failure(IllegalArgument(UPDATE_ID_MISSING));
      }
      var id := u.id.value;
      match userDao.FindById(u.id) {
        case Failure(e) => return updated, Failure(Runtime(ERROR_UPDATING_USER, e));
        case Success(existing) =>
          if existing.None? {
            return updated, Failure(IllegalArgument(USER_NOT_FOUND + IntToString(id)));
          }
          var rewritten;
          rewritten, r := RewriteStored(u, existing.value.password, updatePassword, today);
          updated := Some(rewritten);
      }
    }

    /** The rest of updateUser once the stored user is found: its stored password `existing` is
        substituted unless a non-blank new one is to be set, then the user is validated and stored. */
    method RewriteStored(u: User, existing: Option<string>, updatePassword: bool, today: Date)
      returns (updated: User, r: Result<(), Failure>)
      requires Valid() && userDao.users.connected && u.id.Some? && u.id.value in userDao.users.rows
      requires existing == userDao.UserAt(u.id.value).password
      modifies userDao.users
      ensures Valid() && userDao.users.connected
      ensures updated == u.(password := KeptPassword(u.password, updatePassword, existing))
      ensures r.Failure? ==> userDao.users.rows == old(userDao.users.rows)
      ensures r.Success? <==> && BeanValid(updated, today, isEmail)
                              && !old(userDao.LoginTakenByOther(updated.login, u.id.value))
                              && !old(userDao.EmailTakenByOther(updated.email, u.id.value))
                              && UserRecord(updated).Success? && |updated.password.value| <= 255
      ensures r.Success? ==> userDao.users.rows == old(userDao.users.rows)[u.id.value := UserRecord(updated).value]
      ensures r.Success? && (!updatePassword || NullOrBlank(u.password)) ==> userDao.UserAt(u.id.value).password == existing
      ensures r.Success? && updatePassword && !NullOrBlank(u.password) ==> userDao.UserAt(u.id.value).password == u.password
    {
      updated := u;
      if !updatePassword || NullOrBlank(u.password) {
        updated := u.(password := existing);
      }
      r := ValidateAndRewrite(updated, updatePassword, today);
      if r.Success? {
        StoredPasswordAfterUpdate(updated, updatePassword, u.password, existing);
      }
    }

    /** The second half of updateUser, once the stored user is known to exist: validation, the
        uniqueness checks that ignore the user's own row, and the rewrite of that row. */
    method ValidateAndRewrite(u: User, updatePassword: bool, today: Date) returns (r: Result<(), Failure>)
      requires Valid() && userDao.users.connected && u.id.Some? && u.id.value in userDao.users.rows
      modifies userDao.users
      ensures Valid() && userDao.users.connected
      ensures r.Failure? ==> userDao.users.rows == old(userDao.users.rows)
      ensures ValidateUser(Some(u), updatePassword, today).Failure? ==> r == Failure(ValidateUser(Some(u), updatePassword, today).error)
      ensures BeanValid(u, today, isEmail) && old(userDao.LoginTakenByOther(u.login, u.id.value)) ==>
                r == Failure(IllegalArgument(LOGIN_TAKEN + StringOf(u.login)))
      ensures BeanValid(u, today, isEmail) && !old(userDao.LoginTakenByOther(u.login, u.id.value))
              && old(userDao.EmailTakenByOther(u.email, u.id.value)) ==>
                r == Failure(IllegalArgument(EMAIL_TAKEN + StringOf(u.email)))
      ensures r.Success? <==> && BeanValid(u, today, isEmail)
                              && !old(userDao.LoginTakenByOther(u.login, u.id.value))
                              && !old(userDao.EmailTakenByOther(u.email, u.id.value))
                              && UserRecord(u).Success? && |u.password.value| <= 255
      ensures r.Success? ==> userDao.users.rows == old(userDao.users.rows)[u.id.value := UserRecord(u).value]
    {
      var valid := ValidateUser(Some(u), updatePassword, today);
      if valid.Failure? {
        return Failure(valid.error);
      }
      userDao.LoginLookupFindsOther(u.login, u.id.value);
      userDao.EmailLookupFindsOther(u.email, u.id.value);
      match userDao.FindByLogin(u.login) {
        case Failure(e) => return Failure(Runtime(ERROR_UPDATING_USER, e));
        case Success(withLogin) =>
          if withLogin.Some? && withLogin.value.id != u.id {
            return Failure(IllegalArgument(LOGIN_TAKEN + StringOf(u.login)));
          }
      }
      match userDao.FindByEmail(u.email) {
        case Failure(e) => return Failure(Runtime(ERROR_UPDATING_USER, e));
        case Success(withEmail) =>
          if withEmail.Some? && withEmail.value.id != u.id {
            return Failure(IllegalArgument(EMAIL_TAKEN + StringOf(u.email)));
          }
      }
      r := RewriteFree(u, today);
    }

    /** The last step of updateUser, once no other row holds the login or the email: the rewrite. */
    method RewriteFree(u: User, today: Date) returns (r: Result<(), Failure>)
      requires Valid() && userDao.users.connected && u.id.Some? && u.id.value in userDao.users.rows
      requires BeanValid(u, today, isEmail)
      requires !userDao.LoginTakenByOther(u.login, u.id.value) && !userDao.EmailTakenByOther(u.email, u.id.value)
      modifies userDao.users
      ensures Valid() && userDao.users.connected
      ensures r.Failure? ==> userDao.users.rows == old(userDao.users.rows)
      ensures r.Success? <==> UserRecord(u).Success? && |u.password.value| <= 255
      ensures r.Success? ==> userDao.users.rows == old(userDao.users.rows)[u.id.value := UserRecord(u).value]
    {
      UserAcceptedUnless(u, today, {u.id.value});
      var written := userDao.Update(u);
      match written {
        case Failure(e) => return Failure(Runtime(ERROR_UPDATING_USER, e));
        case Success(_) => r := Success(());
      }
    }

    /** Once the row holds `u`, whose password KeptPassword chose, the stored password is the old
        one unless a non-blank password was to be set, and then it is the supplied one. */
    lemma StoredPasswordAfterUpdate(u: User, updatePassword: bool, supplied: Option<string>, existing: Option<string>)
      requires userDao.Valid() && u.id.Some? && u.id.value in userDao.users.rows
      requires UserRecord(u).Success? && userDao.users.rows[u.id.value] == UserRecord(u).value
      requires u.password == KeptPassword(supplied, updatePassword, existing)
      ensures !updatePassword || NullOrBlank(supplied) ==> userDao.UserAt(u.id.value).password == existing
      ensures updatePassword && !NullOrBlank(supplied) ==> userDao.UserAt(u.id.value).password == supplied
    {
    }

    /**
     * deleteUser: refuses a null id; refuses, before any lookup, to delete the acting user's own
     * account (a checked exception); deleting an id with no user does nothing; otherwise exactly
     * that user's row is removed. A store failure becomes "Error deleting user".
     */
    method DeleteUser(userId: Option<int>, curUser: Option<User>) returns (r: Result<(), Failure>)
      requires Valid()
      modifies userDao.users
      ensures Valid() && userDao.users.connected == old(userDao.users.connected)
      ensures r.Failure? ==> userDao.users.rows == old(userDao.users.rows)
      ensures userId.None? ==> r == Failure(IllegalArgument(ID_NULL))
      ensures userId.Some? && curUser.None? ==> r == Failure(NullPointer)
      ensures userId.Some? && curUser.Some? && SameId(curUser.value.id, userId.value) ==>
                r == Failure(Checked(SELF_DELETE))
      ensures userId.Some? && curUser.Some? && !SameId(curUser.value.id, userId.value) && !old(userDao.users.connected) ==>
                r == Failure(Runtime(ERROR_DELETING_USER, DatabaseRead(FIND_BY_ID_FAILED)))
      ensures r.Success? <==> userId.Some? && curUser.Some? && !SameId(curUser.value.id, userId.value) && old(userDao.users.connected)
      ensures r.Success? ==> userDao.users.rows == old(userDao.users.rows) - {userId.value}
      ensures r.Success? && curUser.value.id.Some? && curUser.value.id.value in old(userDao.users.rows) ==>
                curUser.value.id.value in userDao.users.rows
    {
      if userId.None? {
        return Failure(IllegalArgument(ID_NULL));
      }
      if curUser.None? {
        return Failure(NullPointer);
      }
      if SameId(curUser.value.id, userId.value) {
        return Failure(Checked(SELF_DELETE));
      }
      match userDao.FindById(userId) {
        case Failure(e) => return Failure(Runtime(ERROR_DELETING_USER, e));
        case Success(found) =>
          if found.Some? {
            var removed := userDao.Remove(found.value);
            match removed {
              case Failure(e) => return Failure(Runtime(ERROR_DELETING_USER, e));
              case Success(_) => r := Success(());
            }
          } else {
            r := Success(());
          }
      }
    }
  }
}
