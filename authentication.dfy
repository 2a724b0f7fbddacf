/**
 * AuthenticationService: the login check against the JDBC user store. Every store error is
 * swallowed into "not authenticated".
 */
module Authentication {
  import opened Wrappers
  import opened Failures
  import opened Entities
  import opened JdbcUsers

  class AuthenticationService {
    const userDao: JdbcUserDao

    ghost predicate Valid()
      reads this, userDao, userDao.users, userDao.roles
    {
      userDao.Valid()
    }

    constructor (userDao: JdbcUserDao)
      requires userDao.Valid()
      ensures Valid() && this.userDao == userDao
    {
      this.userDao := userDao;
    }

    /** Some stored user has exactly this login and exactly this password. */
    ghost predicate Credentials(login: string, password: string)
      reads this, userDao, userDao.users, userDao.roles
    {
      exists k | k in userDao.users.rows ::
        userDao.UserAt(k).login == Some(login) && userDao.UserAt(k).password == Some(password)
    }

    /**
     * authenticate: null for a null or blank login or password, before any lookup; otherwise the
     * user stored under the trimmed login when the untrimmed password equals its password exactly;
     * null when there is none, the password differs, or the store fails.
     */
    function Authenticate(login: Option<string>, password: Option<string>): (r: Option<User>)
      reads this, userDao, userDao.users, userDao.roles
      requires Valid()
      ensures NullOrBlank(login) || NullOrBlank(password) ==> r.None?
      ensures !userDao.users.connected ==> r.None?
      ensures r.Some? ==>
                && r.value.id.Some? && r.value.id.value in userDao.users.rows
                && r.value == userDao.UserAt(r.value.id.value)
                && r.value.login == Some(Trim(login.value))
                && r.value.password == password
    {
      if NullOrBlank(login) || NullOrBlank(password) then None
      else
        match userDao.FindByLogin(Some(Trim(login.value)))
        case Success(found) =>
          if found.Some? && password == found.value.password then found else None
        case Failure(_) => None
    }

    /** A stored user found under a login, with this password, is a witness of the credentials. */
    lemma LookupGivesCredentials(login: string, password: string)
      requires Valid() && userDao.users.connected
      ensures var found := userDao.FindByLogin(Some(login)).value;
              found.Some? && found.value.password == Some(password) ==> Credentials(login, password)
    {
      var found := userDao.FindByLogin(Some(login)).value;
      if found.Some? && found.value.password == Some(password) {
        var j := found.value.id.value;
        assert userDao.UserAt(j).login == Some(login) && userDao.UserAt(j).password == Some(password);
      }
    }

    /** Logins are unique, so the lookup finds the very user the credentials name. */
    lemma CredentialsGiveLookup(login: string, password: string)
      requires Valid() && userDao.users.connected
      requires Credentials(login, password)
      ensures var found := userDao.FindByLogin(Some(login)).value;
              found.Some? && found.value.password == Some(password)
    {
      var found := userDao.FindByLogin(Some(login)).value;
      var k :| k in userDao.users.rows && userDao.UserAt(k).login == Some(login)
               && userDao.UserAt(k).password == Some(password);
      assert found.Some?;
      var j := found.value.id.value;
      if j != k {
        userDao.LoginAndEmailUnique(j, k);
      }
      assert found.value == userDao.UserAt(k);
    }

    /** With the store up and both arguments non-blank, authentication succeeds exactly when a
        stored user has the trimmed login and the password as given. */
    lemma AuthenticateIff(login: string, password: string)
      requires Valid() && userDao.users.connected
      requires !IsBlank(login) && !IsBlank(password)
      ensures Authenticate(Some(login), Some(password)).Some? <==> Credentials(Trim(login), password)
    {
      var found := userDao.FindByLogin(Some(Trim(login))).value;
      assert Authenticate(Some(login), Some(password)).Some? <==> found.Some? && found.value.password == Some(password);
      LookupGivesCredentials(Trim(login), password);
      if Credentials(Trim(login), password) {
        CredentialsGiveLookup(Trim(login), password);
      }
    }

    /** The password is compared untrimmed: a padded copy of a stored password is rejected. */
    lemma PasswordNotTrimmed(login: string, password: string)
      requires Valid() && userDao.users.connected
      requires !IsBlank(login) && !IsBlank(password)
      requires Authenticate(Some(login), Some(password)).Some?
      ensures Authenticate(Some(login), Some(password + " ")).None?
    {
      var found := userDao.FindByLogin(Some(Trim(login))).value;
      assert found.value.password == Some(password);
      assert |password + " "| != |password|;
    }
  }
}
