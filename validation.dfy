/**
 * UserValidator: the form-level checks that collect one message per problem instead of throwing,
 * including uniqueness checks against the store through UserService. The current date and the
 * date 150 years before it are parameters.
 */
module Validation {
  import opened Wrappers
  import opened Failures
  import opened Entities
  import opened JdbcUsers
  import opened Services

  // ---------------------------------------------------------------------------
  // EMAIL_PATTERN: ^[A-Za-z0-9+_.-]+@([A-Za-z0-9.-]+\.[A-Za-z]{2,})$
  // ---------------------------------------------------------------------------

  predicate IsAsciiLetter(c: char) {
    'A' <= c <= 'Z' || 'a' <= c <= 'z'
  }

  predicate IsAsciiDigit(c: char) {
    '0' <= c <= '9'
  }

  /** The class [A-Za-z0-9+_.-] of the part before the '@'. */
  predicate IsLocalChar(c: char) {
    IsAsciiLetter(c) || IsAsciiDigit(c) || c == '+' || c == '_' || c == '.' || c == '-'
  }

  /** The class [A-Za-z0-9.-] of the domain before its final dot. */
  predicate IsDomainChar(c: char) {
    IsAsciiLetter(c) || IsAsciiDigit(c) || c == '.' || c == '-'
  }

  predicate AllLocal(t: string) {
    forall i | 0 <= i < |t| :: IsLocalChar(t[i])
  }

  predicate AllDomain(t: string) {
    forall i | 0 <= i < |t| :: IsDomainChar(t[i])
  }

  predicate AllLetters(t: string) {
    forall i | 0 <= i < |t| :: IsAsciiLetter(t[i])
  }

  /** `s` matches the pattern with its '@' at index `at` and the dot before the top-level domain at
      index `dot`: a non-empty local part, a non-empty domain part, and at least two letters after. */
  predicate EmailSplit(s: string, at: int, dot: int) {
    && 1 <= at && at + 2 <= dot && dot + 3 <= |s|
    && AllLocal(s[..at]) && s[at] == '@'
    && AllDomain(s[at + 1..dot]) && s[dot] == '.'
    && AllLetters(s[dot + 1..])
  }

  /** The strings Matcher.matches() accepts for EMAIL_PATTERN. */
  ghost predicate EmailPattern(s: string) {
    exists at, dot :: EmailSplit(s, at, dot)
  }

  /** The first index of `c` in `s`, or -1. */
  function IndexOf(s: string, c: char): (r: int)
    ensures -1 <= r < |s|
    ensures r == -1 ==> forall i | 0 <= i < |s| :: s[i] != c
    ensures r >= 0 ==> s[r] == c && forall i | 0 <= i < r :: s[i] != c
  {
    if s == [] then -1
    else if s[0] == c then 0
    else
      var r := IndexOf(s[1..], c);
      if r == -1 then -1 else r + 1
  }

  /** The last index of `c` in `s`, or -1. */
  function LastIndexOf(s: string, c: char): (r: int)
    ensures -1 <= r < |s|
    ensures r == -1 ==> forall i | 0 <= i < |s| :: s[i] != c
    ensures r >= 0 ==> s[r] == c && forall i | r < i < |s| :: s[i] != c
  {
    if s == [] then -1
    else if s[|s| - 1] == c then |s| - 1
    else LastIndexOf(s[..|s| - 1], c)
  }

  /** In a match, the '@' is the first one (the local part has none) and the dot before the
      top-level domain is the last one (the top-level domain has none). */
  lemma SplitIsForced(s: string, at: int, dot: int)
    requires EmailSplit(s, at, dot)
    ensures IndexOf(s, '@') == at && LastIndexOf(s, '.') == dot
  {
    forall i | at < i < |s| ensures s[i] != '@' {
      if i < dot { assert s[at + 1..dot][i - at - 1] == s[i]; }
      else if i > dot { assert s[dot + 1..][i - dot - 1] == s[i]; }
    }
    forall i | dot < i < |s| ensures s[i] != '.' {
      assert s[dot + 1..][i - dot - 1] == s[i];
    }
  }

  lemma OnlySplit(s: string)
    ensures EmailPattern(s) ==> EmailSplit(s, IndexOf(s, '@'), LastIndexOf(s, '.'))
  {
    if EmailPattern(s) {
      var at, dot :| EmailSplit(s, at, dot);
      SplitIsForced(s, at, dot);
    }
  }

  /** A matcher for EMAIL_PATTERN that tries only the split at the first '@' and the last '.'. */
  function MatchesEmail(s: string): (b: bool)
    ensures b <==> EmailPattern(s)
  {
    OnlySplit(s);
    EmailSplit(s, IndexOf(s, '@'), LastIndexOf(s, '.'))
  }

  /** An address the pattern accepts has exactly one '@'. */
  lemma EmailHasOneAt(s: string, at: int, dot: int)
    requires EmailSplit(s, at, dot)
    ensures forall i | 0 <= i < |s| :: s[i] == '@' <==> i == at
  {
    forall i | 0 <= i < |s| && i != at ensures s[i] != '@' {
      if i < at { assert s[..at][i] == s[i]; }
      else if i < dot { assert s[at + 1..dot][i - at - 1] == s[i]; }
      else if i > dot { assert s[dot + 1..][i - dot - 1] == s[i]; }
    }
  }

  // ---------------------------------------------------------------------------
  // validateBasicFields, one field at a time
  // ---------------------------------------------------------------------------

  /** The messages the validator reports. */
  const LOGIN_REQUIRED := "Login is required"
  const LOGIN_TOO_SHORT := "Login must be at least 3 characters long"
  const LOGIN_TOO_LONG := "Login must not exceed 50 characters"
  const EMAIL_REQUIRED := "Email is required"
  const EMAIL_INVALID := "Please enter a valid email address"
  const EMAIL_TOO_LONG := "Email must not exceed 100 characters"
  const BIRTHDAY_IN_FUTURE := "Birthday cannot be in the future"
  const BIRTHDAY_TOO_OLD := "Birthday cannot be more than 150 years ago"
  const ROLE_REQUIRED := "Role is required"
  const USER_NULL := "User cannot be null"
  const PASSWORD_REQUIRED := "Password is required"
  const PASSWORD_TOO_SHORT := "Password must be at least 3 characters long"
  const PASSWORD_EMPTY_ON_UPDATE := "Password cannot be empty when updating password"
  const ID_REQUIRED := "User ID is required for update"
  const LOGIN_EXISTS := "Login already exists"
  const EMAIL_EXISTS := "Email already exists"

  /** Login: blank, else shorter than 3, else longer than 50. */
  function LoginMessages(login: Option<string>): (m: seq<string>)
    ensures |m| <= 1
    ensures m == [] <==> NotBlank(login) && SizeWithin(login, 3, Some(50))
    ensures NullOrBlank(login) ==> m == [LOGIN_REQUIRED]
  {
    if NullOrBlank(login) then [LOGIN_REQUIRED]
    else if |login.value| < 3 then [LOGIN_TOO_SHORT]
    else if |login.value| > 50 then [LOGIN_TOO_LONG]
    else []
  }

  /** Email: blank, else not matching the pattern, else longer than 100. */
  function EmailMessages(email: Option<string>): (m: seq<string>)
    ensures |m| <= 1
    ensures m == [] <==> NotBlank(email) && EmailPattern(email.value) && |email.value| <= 100
    ensures NullOrBlank(email) ==> m == [EMAIL_REQUIRED]
    ensures EMAIL_TOO_LONG in m ==>
              email.Some? && EmailPattern(email.value) && |email.value| > 100
  {
    if NullOrBlank(email) then [EMAIL_REQUIRED]
    else if !MatchesEmail(email.value) then [EMAIL_INVALID]
    else if |email.value| > 100 then [EMAIL_TOO_LONG]
    else []
  }

  const FIRST_NAME_REQUIRED := "First name is required"
  const FIRST_NAME_TOO_LONG := "First name must not exceed 50 characters"
  const LAST_NAME_REQUIRED := "Last name is required"
  const LAST_NAME_TOO_LONG := "Last name must not exceed 50 characters"

  /** First or last name: blank, else longer than 50; `required` and `tooLong` are that field's
      two messages. */
  function NameMessages(name: Option<string>, required: string, tooLong: string): (m: seq<string>)
    ensures |m| <= 1
    ensures m == [] <==> NotBlank(name) && SizeWithin(name, 0, Some(50))
    ensures NullOrBlank(name) ==> m == [required]
  {
    if NullOrBlank(name) then [required]
    else if |name.value| > 50 then [tooLong]
    else []
  }

  /** Birthday: the two date checks are independent; `oldest` is today minus 150 years. */
  function BirthdayMessages(birthday: Option<Date>, today: Date, oldest: Date): (m: seq<string>)
    ensures (BIRTHDAY_IN_FUTURE in m) <==> birthday.Some? && birthday.value > today
    ensures (BIRTHDAY_TOO_OLD in m) <==> birthday.Some? && birthday.value < oldest
    ensures m == [] <==> birthday.None? || oldest <= birthday.value <= today
    ensures oldest <= today ==> |m| <= 1
  {
    if birthday.None? then []
    else
      (if birthday.value > today then [BIRTHDAY_IN_FUTURE] else [])
      + (if birthday.value < oldest then [BIRTHDAY_TOO_OLD] else [])
  }

  function RoleMessages(role: Option<Role>): (m: seq<string>)
    ensures m == [] <==> role.Some?
    ensures role.None? ==> m == [ROLE_REQUIRED]
  {
    if role.None? then [ROLE_REQUIRED] else []
  }

  /** What validateBasicFields accepts. */
  ghost predicate FieldsValid(u: User, today: Date, oldest: Date) {
    && NotBlank(u.login) && SizeWithin(u.login, 3, Some(50))
    && NotBlank(u.email) && EmailPattern(u.email.value) && |u.email.value| <= 100
    && NotBlank(u.firstName) && SizeWithin(u.firstName, 0, Some(50))
    && NotBlank(u.lastName) && SizeWithin(u.lastName, 0, Some(50))
    && (u.birthday.Some? ==> oldest <= u.birthday.value <= today)
    && u.role.Some?
  }

  /** The list validateBasicFields leaves behind, given the list it was handed: it only appends,
      and for a null user it appends exactly one message. */
  function BasicFieldErrors(errors: seq<string>, user: Option<User>, today: Date, oldest: Date): (m: seq<string>)
    ensures |errors| <= |m| && m[..|errors|] == errors
    ensures user.None? ==> m == errors + [USER_NULL]
    ensures user.Some? && user.value.role.None? ==> |m| > |errors| && m[|m| - 1] == ROLE_REQUIRED
  {
    if user.None? then errors + [USER_NULL]
    else
      var u := user.value;
      errors + LoginMessages(u.login) + EmailMessages(u.email)
      + NameMessages(u.firstName, FIRST_NAME_REQUIRED, FIRST_NAME_TOO_LONG)
      + NameMessages(u.lastName, LAST_NAME_REQUIRED, LAST_NAME_TOO_LONG)
      + BirthdayMessages(u.birthday, today, oldest) + RoleMessages(u.role)
  }

  /** A present user gets no basic-field message exactly when every field rule holds, and at most
      one message per field. */
  lemma BasicFieldsAccept(errors: seq<string>, u: User, today: Date, oldest: Date)
    ensures BasicFieldErrors(errors, Some(u), today, oldest) == errors <==> FieldsValid(u, today, oldest)
    ensures oldest <= today ==> |BasicFieldErrors(errors, Some(u), today, oldest)| <= |errors| + 6
  {
    var login, email := LoginMessages(u.login), EmailMessages(u.email);
    var first := NameMessages(u.firstName, FIRST_NAME_REQUIRED, FIRST_NAME_TOO_LONG);
    var last := NameMessages(u.lastName, LAST_NAME_REQUIRED, LAST_NAME_TOO_LONG);
    var birthday, role := BirthdayMessages(u.birthday, today, oldest), RoleMessages(u.role);
    var m := BasicFieldErrors(errors, Some(u), today, oldest);
    assert |m| == |errors| + |login| + |email| + |first| + |last| + |birthday| + |role|;
    if m == errors {
      assert login == [] && email == [] && first == [] && last == [] && birthday == [] && role == [];
    }
  }

  /** validateForCreate's password rule. */
  function CreatePasswordMessages(password: Option<string>): (m: seq<string>)
    ensures |m| <= 1
    ensures m == [] <==> NotBlank(password) && SizeWithin(password, 3, None)
    ensures NullOrBlank(password) ==> m == [PASSWORD_REQUIRED]
  {
    if NullOrBlank(password) then [PASSWORD_REQUIRED]
    else if |password.value| < 3 then [PASSWORD_TOO_SHORT]
    else []
  }

  /** validateForUpdate's password rule, applied only when the password is being changed. */
  function UpdatePasswordMessages(password: Option<string>, updatePassword: bool): (m: seq<string>)
    ensures |m| <= 1
    ensures !updatePassword ==> m == []
    ensures updatePassword ==> (m == [] <==> NotBlank(password) && SizeWithin(password, 3, None))
    ensures updatePassword && NullOrBlank(password) ==> m == [PASSWORD_EMPTY_ON_UPDATE]
  {
    if !updatePassword then []
    else if NullOrBlank(password) then [PASSWORD_EMPTY_ON_UPDATE]
    else if |password.value| < 3 then [PASSWORD_TOO_SHORT]
    else []
  }

  /** The update check's id rule. */
  function IdMessages(id: Option<int>): (m: seq<string>)
    ensures m == [] <==> id.Some?
  {
    if id.None? then [ID_REQUIRED] else []
  }

  const LOGIN_NOT_UNIQUE := "Unable to verify login uniqueness. Please try again."
  const EMAIL_NOT_UNIQUE := "Unable to verify email uniqueness. Please try again."
  const SYSTEM_ERROR := "System error. Please try again."

  /** The two catch clauses around a lookup: a DatabaseReadException gives `readMessage`, any other
      runtime exception the generic message. */
  function CaughtMessage(e: Failure, readMessage: string): (m: string)
    ensures e.DatabaseRead? ==> m == readMessage
    ensures !e.DatabaseRead? ==> m == SYSTEM_ERROR
  {
    if e.DatabaseRead? then readMessage else SYSTEM_ERROR
  }

  /** The messages of one uniqueness try-block, given what the lookup returned: `clash` when it
      found a user whose id is not `self`, the caught exception's message when it threw. */
  function ClashMessages(lookup: Result<Option<User>, Failure>, self: Option<int>, clash: string,
                         readMessage: string): (m: seq<string>)
    ensures |m| <= 1
    ensures m == [clash] <== lookup.Success? && lookup.value.Some? && lookup.value.value.id != self
    ensures lookup.Success? && !(lookup.value.Some? && lookup.value.value.id != self) ==> m == []
    ensures lookup.Failure? ==> m == [CaughtMessage(lookup.error, readMessage)]
  {
    match lookup
    case Success(found) => if found.Some? && found.value.id != self then [clash] else []
    case Failure(e) => [CaughtMessage(e, readMessage)]
  }

  // ---------------------------------------------------------------------------
  // The checks as UserValidator performs them: statements that append to the error list. Each
  // block's messages are defined once, by the function above it names; the method only performs
  // the appends, and its ensures ties it to that definition.
  // ---------------------------------------------------------------------------

  /** The login block of validateBasicFields. */
  method CheckLogin(errors: seq<string>, login: Option<string>) returns (extended: seq<string>)
    ensures extended == errors + LoginMessages(login)
  {
    extended := errors;
    if NullOrBlank(login) {
      extended := extended + [LOGIN_REQUIRED];
    } else if |login.value| < 3 {
      extended := extended + [LOGIN_TOO_SHORT];
    } else if |login.value| > 50 {
      extended := extended + [LOGIN_TOO_LONG];
    }
  }

  /** The email block of validateBasicFields. */
  method CheckEmail(errors: seq<string>, email: Option<string>) returns (extended: seq<string>)
    ensures extended == errors + EmailMessages(email)
  {
    extended := errors;
    if NullOrBlank(email) {
      extended := extended + [EMAIL_REQUIRED];
    } else if !MatchesEmail(email.value) {
      extended := extended + [EMAIL_INVALID];
    } else if |email.value| > 100 {
      extended := extended + [EMAIL_TOO_LONG];
    }
  }

  /** The first-name or last-name block of validateBasicFields. */
  method CheckName(errors: seq<string>, name: Option<string>, required: string, tooLong: string)
    returns (extended: seq<string>)
    ensures extended == errors + NameMessages(name, required, tooLong)
  {
    extended := errors;
    if NullOrBlank(name) {
      extended := extended + [required];
    } else if |name.value| > 50 {
      extended := extended + [tooLong];
    }
  }

  /** The birthday block of validateBasicFields. */
  method CheckBirthday(errors: seq<string>, birthday: Option<Date>, today: Date, oldest: Date)
    returns (extended: seq<string>)
    ensures extended == errors + BirthdayMessages(birthday, today, oldest)
  {
    extended := errors;
    if birthday.Some? {
      if birthday.value > today {
        extended := extended + [BIRTHDAY_IN_FUTURE];
      }
      if birthday.value < oldest {
        extended := extended + [BIRTHDAY_TOO_OLD];
      }
    }
  }

  /** The password block of validateForCreate. */
  method CheckCreatePassword(errors: seq<string>, password: Option<string>) returns (extended: seq<string>)
    ensures extended == errors + CreatePasswordMessages(password)
  {
    extended := errors;
    if NullOrBlank(password) {
      extended := extended + [PASSWORD_REQUIRED];
    } else if |password.value| < 3 {
      extended := extended + [PASSWORD_TOO_SHORT];
    }
  }

  /** The password block of validateForUpdate. */
  method CheckUpdatePassword(errors: seq<string>, password: Option<string>, updatePassword: bool)
    returns (extended: seq<string>)
    ensures extended == errors + UpdatePasswordMessages(password, updatePassword)
  {
    extended := errors;
    if updatePassword {
      if NullOrBlank(password) {
        extended := extended + [PASSWORD_EMPTY_ON_UPDATE];
      } else if |password.value| < 3 {
        extended := extended + [PASSWORD_TOO_SHORT];
      }
    }
  }

  /**
   * One uniqueness try-block, given what its lookup returned. On create `self` is None and every
   * looked-up user has an id, so the test is the create path's non-null test; on update it also
   * skips the user's own record.
   */
  method AppendClash(errors: seq<string>, lookup: Result<Option<User>, Failure>, self: Option<int>,
                     clash: string, readMessage: string) returns (extended: seq<string>)
    ensures extended == errors + ClashMessages(lookup, self, clash, readMessage)
  {
    extended := errors;
    match lookup {
      case Success(existing) =>
        if existing.Some? && existing.value.id != self {
          extended := extended + [clash];
        }
      case Failure(e) =>
        if e.DatabaseRead? {
          extended := extended + [readMessage];
        } else {
          extended := extended + [SYSTEM_ERROR];
        }
    }
  }

  /** The id block of validateForUpdate. */
  method CheckId(errors: seq<string>, id: Option<int>) returns (extended: seq<string>)
    ensures extended == errors + IdMessages(id)
  {
    extended := errors;
    if id.None? {
      extended := extended + [ID_REQUIRED];
    }
  }

  /**
   * validateBasicFields: appends to the caller's list; a null user gets its one message and
   * nothing else is checked. Each field's block is a helper method below.
   */
  method ValidateBasicFields(user: Option<User>, errors: seq<string>, today: Date, oldest: Date)
    returns (extended: seq<string>)
    ensures extended == BasicFieldErrors(errors, user, today, oldest)
  {
    extended := errors;
    if user.None? {
      extended := extended + [USER_NULL];
      return;
    }
    var u := user.value;
    extended := CheckLogin(extended, u.login);
    extended := CheckEmail(extended, u.email);
    extended := CheckName(extended, u.firstName, FIRST_NAME_REQUIRED, FIRST_NAME_TOO_LONG);
    extended := CheckName(extended, u.lastName, LAST_NAME_REQUIRED, LAST_NAME_TOO_LONG);
    extended := CheckBirthday(extended, u.birthday, today, oldest);
    if u.role.None? {
      extended := extended + [ROLE_REQUIRED];
    }
  }

/** The list validateForCreate returns for a present user, given what the two lookups returned:
      the basic fields, the password rule, then the login and the email try-blocks, where any user
      found is a clash. */
  function CreateMessages(u: User, today: Date, oldest: Date, byLogin: Result<Option<User>, Failure>,
                          byEmail: Result<Option<User>, Failure>): seq<string>
  {
    BasicFieldErrors([], Some(u), today, oldest) + CreatePasswordMessages(u.password)
    + ClashMessages(byLogin, None, LOGIN_EXISTS, LOGIN_NOT_UNIQUE)
    + ClashMessages(byEmail, None, EMAIL_EXISTS, EMAIL_NOT_UNIQUE)
  }

  /** The list validateForUpdate returns for a present user: the basic fields, the id, the password
      when it changes, then the two try-blocks, which ignore a match with the user's own id. Both
      report a store failure with the login message. */
  function UpdateMessages(u: User, updatePassword: bool, today: Date, oldest: Date,
                          byLogin: Result<Option<User>, Failure>, byEmail: Result<Option<User>, Failure>): seq<string>
  {
    BasicFieldErrors([], Some(u), today, oldest) + IdMessages(u.id) + UpdatePasswordMessages(u.password, updatePassword)
    + ClashMessages(byLogin, u.id, LOGIN_EXISTS, LOGIN_NOT_UNIQUE)
    + ClashMessages(byEmail, u.id, EMAIL_EXISTS, LOGIN_NOT_UNIQUE)
  }

  /** The body of validateForCreate for a present user, given what the two lookups returned; it
      always returns the list. */
  method CheckForCreate(u: User, today: Date, oldest: Date, byLogin: Result<Option<User>, Failure>,
                        byEmail: Result<Option<User>, Failure>) returns (r: Result<seq<string>, Failure>)
    ensures r == Success(CreateMessages(u, today, oldest, byLogin, byEmail))
  {
    var errors := ValidateBasicFields(Some(u), [], today, oldest);
    errors := CheckCreatePassword(errors, u.password);
    errors := AppendClash(errors, byLogin, None, LOGIN_EXISTS, LOGIN_NOT_UNIQUE);
    errors := AppendClash(errors, byEmail, None, EMAIL_EXISTS, EMAIL_NOT_UNIQUE);
    r := Success(errors);
  }

  /** The body of validateForUpdate for a present user, given what the two lookups returned; it
      always returns the list. */
  method CheckForUpdate(u: User, updatePassword: bool, today: Date, oldest: Date,
                        byLogin: Result<Option<User>, Failure>, byEmail: Result<Option<User>, Failure>)
    returns (r: Result<seq<string>, Failure>)
    ensures r == Success(UpdateMessages(u, updatePassword, today, oldest, byLogin, byEmail))
  {
    var errors := ValidateBasicFields(Some(u), [], today, oldest);
    errors := CheckId(errors, u.id);
    errors := CheckUpdatePassword(errors, u.password, updatePassword);
    errors := AppendClash(errors, byLogin, u.id, LOGIN_EXISTS, LOGIN_NOT_UNIQUE);
    errors := AppendClash(errors, byEmail, u.id, EMAIL_EXISTS, LOGIN_NOT_UNIQUE);
    r := Success(errors);
  }

  /** The validator proper; its UserService is a fixed collaborator. */
  class UserValidator {
    const userService: UserService

    ghost predicate Valid()
      reads this, userService, userService.userDao, userService.userDao.users, userService.userDao.roles
    {
      userService.userDao.Valid()
    }

    constructor (userService: UserService)
      requires userService.userDao.Valid()
      ensures Valid() && this.userService == userService
    {
      this.userService := userService;
    }

    /** Someone stored, other than the user with id `self` (anyone when `self` is null), has this login. */
    ghost predicate LoginHeldByOther(login: Option<string>, self: Option<int>)
      reads this, userService, userService.userDao, userService.userDao.users, userService.userDao.roles
    {
      var dao := userService.userDao;
      exists k | k in dao.users.rows :: Some(k) != self && dao.UserAt(k).login == login
    }

    /** Someone stored, other than the user with id `self` (anyone when `self` is null), has this email. */
    ghost predicate EmailHeldByOther(email: Option<string>, self: Option<int>)
      reads this, userService, userService.userDao, userService.userDao.users, userService.userDao.roles
    {
      var dao := userService.userDao;
      exists k | k in dao.users.rows :: Some(k) != self && dao.UserAt(k).email == email
    }

    /** The login uniqueness messages of one lookup (see ClashMessages). */
    function LoginUniqueness(login: Option<string>, self: Option<int>, readMessage: string): (m: seq<string>)
      reads this, userService, userService.userDao, userService.userDao.users, userService.userDao.roles
      requires Valid()
      ensures |m| <= 1
    {
      ClashMessages(userService.GetUserByLogin(login), self, LOGIN_EXISTS, readMessage)
    }

    /** The email uniqueness messages of one lookup (see ClashMessages). */
    function EmailUniqueness(email: Option<string>, self: Option<int>, readMessage: string): (m: seq<string>)
      reads this, userService, userService.userDao, userService.userDao.users, userService.userDao.roles
      requires Valid()
      ensures |m| <= 1
    {
      ClashMessages(userService.GetUserByEmail(email), self, EMAIL_EXISTS, readMessage)
    }

    /** Login uniqueness: no lookup and no message for a blank login; the generic message when the
        store fails (the service has wrapped its error); otherwise "already exists" exactly when a
        user other than `self` holds the trimmed login. On create `self` is None: any holder counts. */
    lemma LoginUniquenessMeaning(login: Option<string>, self: Option<int>, readMessage: string)
      requires Valid()
      ensures var m := LoginUniqueness(login, self, readMessage);
              && (NullOrBlank(login) ==> m == [])
              && (!NullOrBlank(login) && !userService.userDao.users.connected ==> m == [SYSTEM_ERROR])
              && (!NullOrBlank(login) && userService.userDao.users.connected ==>
                    (m == [] <==> !LoginHeldByOther(Some(Trim(login.value)), self))
                    && (m != [] ==> m == [LOGIN_EXISTS]))
    {
      if !NullOrBlank(login) && userService.userDao.users.connected {
        var key := Some(Trim(login.value));
        var found := userService.GetUserByLogin(login).value;
        if found.Some? && found.value.id != self {
          assert found.value == userService.userDao.UserAt(found.value.id.value);
        } else if self.Some? {
          userService.userDao.LoginLookupFindsOther(key, self.value);
        }
      }
    }

    /** Email uniqueness, in the same terms. */
    lemma EmailUniquenessMeaning(email: Option<string>, self: Option<int>, readMessage: string)
      requires Valid()
      ensures var m := EmailUniqueness(email, self, readMessage);
              && (NullOrBlank(email) ==> m == [])
              && (!NullOrBlank(email) && !userService.userDao.users.connected ==> m == [SYSTEM_ERROR])
              && (!NullOrBlank(email) && userService.userDao.users.connected ==>
                    (m == [] <==> !EmailHeldByOther(Some(Trim(email.value)), self))
                    && (m != [] ==> m == [EMAIL_EXISTS]))
    {
      if !NullOrBlank(email) && userService.userDao.users.connected {
        var key := Some(Trim(email.value));
        var found := userService.GetUserByEmail(email).value;
        if found.Some? && found.value.id != self {
          assert found.value == userService.userDao.UserAt(found.value.id.value);
        } else if self.Some? {
          userService.userDao.EmailLookupFindsOther(key, self.value);
        }
      }
    }

    /**
     * validateForCreate. A null user gets its basic-field message and then the password read
     * throws. The lookups only read the store, so they are taken before the messages are built.
     */
    method ValidateForCreate(user: Option<User>, today: Date, oldest: Date) returns (r: Result<seq<string>, Failure>)
      requires Valid()
      ensures user.None? ==> r == Failure(NullPointer)
      ensures user.Some? ==>
                r == Success(CreateMessages(user.value, today, oldest, userService.GetUserByLogin(user.value.login),
                                            userService.GetUserByEmail(user.value.email)))
    {
      if user.None? {
        return Failure(NullPointer);
      }
      var u := user.value;
      var byLogin := userService.GetUserByLogin(u.login);
      var byEmail := userService.GetUserByEmail(u.email);
      r := CheckForCreate(u, today, oldest, byLogin, byEmail);
    }

    /** validateForUpdate, in the same shape. */
    method ValidateForUpdate(user: Option<User>, updatePassword: bool, today: Date, oldest: Date)
      returns (r: Result<seq<string>, Failure>)
      requires Valid()
      ensures user.None? ==> r == Failure(NullPointer)
      ensures user.Some? ==>
                r == Success(UpdateMessages(user.value, updatePassword, today, oldest,
                                            userService.GetUserByLogin(user.value.login),
                                            userService.GetUserByEmail(user.value.email)))
    {
      if user.None? {
        return Failure(NullPointer);
      }
      var u := user.value;
      var byLogin := userService.GetUserByLogin(u.login);
      var byEmail := userService.GetUserByEmail(u.email);
      r := CheckForUpdate(u, updatePassword, today, oldest, byLogin, byEmail);
    }

    /** The create check returns no message exactly when every field rule and the password rule
        hold, the store answers, and nobody holds the trimmed login or the trimmed email. */
    lemma CreateAcceptsIff(u: User, today: Date, oldest: Date)
      requires Valid()
      ensures CreateMessages(u, today, oldest, userService.GetUserByLogin(u.login), userService.GetUserByEmail(u.email)) == []
              <==> && FieldsValid(u, today, oldest) && NotBlank(u.password) && SizeWithin(u.password, 3, None)
                   && userService.userDao.users.connected
                   && !LoginHeldByOther(Some(Trim(u.login.value)), None)
                   && !EmailHeldByOther(Some(Trim(u.email.value)), None)
    {
      BasicFieldsAccept([], u, today, oldest);
      LoginUniquenessMeaning(u.login, None, LOGIN_NOT_UNIQUE);
      EmailUniquenessMeaning(u.email, None, EMAIL_NOT_UNIQUE);
      var basic := BasicFieldErrors([], Some(u), today, oldest);
      var password := CreatePasswordMessages(u.password);
      var login := LoginUniqueness(u.login, None, LOGIN_NOT_UNIQUE);
      var email := EmailUniqueness(u.email, None, EMAIL_NOT_UNIQUE);
      assert |basic + password + login + email| == |basic| + |password| + |login| + |email|;
    }

    /** The update check returns no message exactly when every field rule holds, the id is present,
        the password rule holds if the password changes, the store answers, and no user with
        another id holds the trimmed login or the trimmed email. */
    lemma UpdateAcceptsIff(u: User, updatePassword: bool, today: Date, oldest: Date)
      requires Valid()
      ensures UpdateMessages(u, updatePassword, today, oldest, userService.GetUserByLogin(u.login),
                             userService.GetUserByEmail(u.email)) == []
              <==> && FieldsValid(u, today, oldest) && u.id.Some?
                   && (updatePassword ==> NotBlank(u.password) && SizeWithin(u.password, 3, None))
                   && userService.userDao.users.connected
                   && !LoginHeldByOther(Some(Trim(u.login.value)), u.id)
                   && !EmailHeldByOther(Some(Trim(u.email.value)), u.id)
    {
      BasicFieldsAccept([], u, today, oldest);
      LoginUniquenessMeaning(u.login, u.id, LOGIN_NOT_UNIQUE);
      EmailUniquenessMeaning(u.email, u.id, LOGIN_NOT_UNIQUE);
      var basic := BasicFieldErrors([], Some(u), today, oldest);
      var id := IdMessages(u.id);
      var password := UpdatePasswordMessages(u.password, updatePassword);
      var login := LoginUniqueness(u.login, u.id, LOGIN_NOT_UNIQUE);
      var email := EmailUniqueness(u.email, u.id, LOGIN_NOT_UNIQUE);
      assert |basic + id + password + login + email| == |basic| + |id| + |password| + |login| + |email|;
    }

    /** Store failures never surface as exceptions, and the "Unable to verify" messages cannot
        appear: the service has already wrapped every DatabaseReadException. */
    lemma ReadMessagesUnreachable(login: Option<string>, email: Option<string>, self: Option<int>)
      requires Valid()
      ensures LOGIN_NOT_UNIQUE !in LoginUniqueness(login, self, LOGIN_NOT_UNIQUE)
      ensures EMAIL_NOT_UNIQUE !in EmailUniqueness(email, self, EMAIL_NOT_UNIQUE)
      ensures LOGIN_NOT_UNIQUE !in EmailUniqueness(email, self, LOGIN_NOT_UNIQUE)
    {
      LoginUniquenessMeaning(login, self, LOGIN_NOT_UNIQUE);
      EmailUniquenessMeaning(email, self, EMAIL_NOT_UNIQUE);
      EmailUniquenessMeaning(email, self, LOGIN_NOT_UNIQUE);
    }
  }

  /** A validator that accepts a user (no message, password included) accepts only bean-valid users,
      except that it checks the pattern instead of @Email and lets a birthday of today through. */
  lemma AcceptedIsBeanValid(u: User, today: Date, oldest: Date, isEmail: string -> bool)
    requires BasicFieldErrors([], Some(u), today, oldest) == [] && CreatePasswordMessages(u.password) == []
    requires u.email.Some? && EmailPattern(u.email.value) ==> isEmail(u.email.value)
    requires u.birthday != Some(today)
    ensures BeanValid(u, today, isEmail)
  {
  }

  /** The validator accepts a birthday equal to today, which @Past rejects. */
  lemma TodayBirthdayDivergence(u: User, today: Date, oldest: Date, isEmail: string -> bool)
    requires u.birthday == Some(today) && oldest <= today
    ensures BirthdayMessages(u.birthday, today, oldest) == []
    ensures !BeanValid(u, today, isEmail)
  {
  }
}
