/**
 * The JDBC DAO for users: the table `users (id, login VARCHAR(50) NOT NULL UNIQUE, password
 * VARCHAR(255) NOT NULL, email VARCHAR(100) NOT NULL UNIQUE, first_name VARCHAR(50), last_name
 * VARCHAR(50), birthday DATE, role_id BIGINT)`, read back joined with `roles` for the role's name.
 */
module JdbcUsers {
  import opened Wrappers
  import opened Failures
  import opened Entities
  import opened GenericDao
  import JdbcRoles

  /** The DatabaseReadException messages of the two lookups by a unique column. */
  const FIND_BY_LOGIN_FAILED := "Error finding user by login"
  const FIND_BY_EMAIL_FAILED := "Error finding user by email"

  /** Column indices of the users table (the id is the row's key). */
  const LOGIN: nat := 0
  const PASSWORD: nat := 1
  const EMAIL: nat := 2
  const FIRST_NAME: nat := 3
  const LAST_NAME: nat := 4
  const BIRTHDAY: nat := 5
  const ROLE_ID: nat := 6

  const UserSchema: Schema := [
    Column("login", Varchar(50), true, true),
    Column("password", Varchar(255), true, false),
    Column("email", Varchar(100), true, true),
    Column("first_name", Varchar(50), false, false),
    Column("last_name", Varchar(50), false, false),
    Column("birthday", SqlDate, false, false),
    Column("role_id", BigInt, false, false)]

  /** The seven column parameters shared by INSERT and UPDATE; a role without an id fails when
      the id is unboxed. A null birthday and a null role are bound as NULL. */
  function UserRecord(u: User): Result<Record, Failure> {
    if u.role.Some? && u.role.value.id.None? then Failure(NullPointer)
    else Success([StringParam(u.login), StringParam(u.password), StringParam(u.email),
                  StringParam(u.firstName), StringParam(u.lastName),
                  if u.birthday.Some? then Day(u.birthday.value) else Null,
                  if u.role.Some? then Number(u.role.value.id.value) else Null])
  }

  /** setInsertParameters: a value for each of the seven columns; only a role without an id fails,
      when the id is unboxed. The values fit the columns exactly when the user fits them. */
  function InsertParameters(u: User): (r: Result<Record, Failure>)
    ensures r.Failure? <==> u.role.Some? && u.role.value.id.None?
    ensures r.Failure? ==> r.error == NullPointer
    ensures r.Success? ==> |r.value| == |UserSchema| && (RecordFits(UserSchema, r.value) <==> UserFits(u))
  {
    if UserRecord(u).Success? then UserRecordFits(u); UserRecord(u) else UserRecord(u)
  }

  /** setUpdateParameters: the seven columns, then the id of the row; a null id fails when unboxed. */
  function UpdateParameters(u: User): (r: Result<(int, Record), Failure>)
    ensures r.Success? <==> InsertParameters(u).Success? && u.id.Some?
    ensures r.Failure? ==> r.error == NullPointer
    ensures r.Success? ==> r.value == (u.id.value, InsertParameters(u).value)
  {
    match UserRecord(u)
    case Failure(e) => Failure(e)
    case Success(rec) => if u.id.None? then Failure(NullPointer) else Success((u.id.value, rec))
  }

  function EntityId(u: User): Option<int> {
    u.id
  }

  function SetEntityId(u: User, id: int): User {
    u.(id := Some(id))
  }

  /** `r.name` of the LEFT JOIN: the name of the referenced role, NULL when there is none. */
  function JoinedRoleName(roleRows: map<int, Record>, rec: Record): Value {
    var ref := At(rec, ROLE_ID);
    if ref.Number? && ref.number in roleRows then At(roleRows[ref.number], JdbcRoles.NAME) else Null
  }

  /** mapResultSetToEntity: the user of one result row. getLong reads NULL as 0, so the role is
      set only when `role_id` was not NULL; it carries the joined role name. */
  function MapResultSetToEntity(id: int, rec: Record, roleName: Value): (u: User)
    ensures u.id == Some(id)
    ensures u.role.Some? <==> At(rec, ROLE_ID).Number?
    ensures u.role.Some? ==> u.role.value.id == Some(At(rec, ROLE_ID).number) && u.role.value.name == GetString(roleName)
    ensures RecordFits(UserSchema, rec) ==> u.login.Some? && u.password.Some? && u.email.Some?
  {
    var birthday := At(rec, BIRTHDAY);
    var roleId := At(rec, ROLE_ID);
    User(Some(id), GetString(At(rec, LOGIN)), GetString(At(rec, PASSWORD)), GetString(At(rec, EMAIL)),
         GetString(At(rec, FIRST_NAME)), GetString(At(rec, LAST_NAME)),
         if birthday.Day? then Some(birthday.day) else None,
         if roleId.Number? then Some(Role(Some(roleId.number), GetString(roleName))) else None)
  }

  /** A user's role is the stored role of that id, name included. */
  predicate RoleStored(roleRows: map<int, Record>, u: User) {
    u.role.Some? ==> && u.role.value.id.Some? && u.role.value.id.value in roleRows
                     && GetString(At(roleRows[u.role.value.id.value], JdbcRoles.NAME)) == u.role.value.name
  }

  /**
   * A stored user reads back as itself with the row's id. Without a role row of the given id, or
   * with a different name in it, only the role's name differs: it is the name the join finds.
   */
  lemma {:induction false} RoundTrip(u: User, id: int, roleRows: map<int, Record>)
    requires InsertParameters(u).Success?
    ensures var rec := InsertParameters(u).value;
            var back := MapResultSetToEntity(id, rec, JoinedRoleName(roleRows, rec));
            && back.(role := u.role) == SetEntityId(u, id)
            && (u.role.None? <==> back.role.None?)
            && (u.role.Some? ==> back.role.value.id == u.role.value.id)
            && (RoleStored(roleRows, u) ==> back == SetEntityId(u, id))
  {
    var rec := InsertParameters(u).value;
    assert At(rec, BIRTHDAY) == rec[BIRTHDAY] && At(rec, ROLE_ID) == rec[ROLE_ID];
  }

  /** A user's columns fit the table: the not-null ones are present and every text is within its
      column's length. */
  predicate UserFits(u: User) {
    && u.login.Some? && |u.login.value| <= 50
    && u.password.Some? && |u.password.value| <= 255
    && u.email.Some? && |u.email.value| <= 100
    && (u.firstName.None? || |u.firstName.value| <= 50)
    && (u.lastName.None? || |u.lastName.value| <= 50)
  }

  /** What the database accepts as a user's columns beside `rows`: login, password and email not
      null, every text within its column's length, and a login and an email no other row holds.
      A blank or one-character login is accepted; the referenced role is not checked. */
  predicate UserAccepted(rows: map<int, Record>, u: User) {
    && UserFits(u)
    && forall k | k in rows :: GetString(At(rows[k], LOGIN)) != u.login && GetString(At(rows[k], EMAIL)) != u.email
  }

  predicate RowsFit(rows: map<int, Record>) {
    forall k | k in rows :: RecordFits(UserSchema, rows[k])
  }

  lemma StringCellFits(c: Column, s: Option<string>)
    requires c.sqlType.Varchar?
    ensures CellFits(c, StringParam(s)) <==> (s.None? ==> !c.notNull) && (s.Some? ==> |s.value| <= c.sqlType.length)
  {
  }

  lemma UserRecordFits(u: User)
    requires UserRecord(u).Success?
    ensures RecordFits(UserSchema, UserRecord(u).value) <==> UserFits(u)
  {
    var rec := UserRecord(u).value;
    StringCellFits(UserSchema[LOGIN], u.login);
    StringCellFits(UserSchema[PASSWORD], u.password);
    StringCellFits(UserSchema[EMAIL], u.email);
    StringCellFits(UserSchema[FIRST_NAME], u.firstName);
    StringCellFits(UserSchema[LAST_NAME], u.lastName);
    if UserFits(u) {
      forall i | 0 <= i < |rec| ensures CellFits(UserSchema[i], rec[i]) {
        assert i == LOGIN || i == PASSWORD || i == EMAIL || i == FIRST_NAME || i == LAST_NAME || i == BIRTHDAY || i == ROLE_ID;
      }
    }
    if RecordFits(UserSchema, rec) {
      assert CellFits(UserSchema[LOGIN], rec[LOGIN]);
      assert CellFits(UserSchema[PASSWORD], rec[PASSWORD]);
      assert CellFits(UserSchema[EMAIL], rec[EMAIL]);
      assert CellFits(UserSchema[FIRST_NAME], rec[FIRST_NAME]);
      assert CellFits(UserSchema[LAST_NAME], rec[LAST_NAME]);
    }
  }

  /** A stored row clashes with a user's columns exactly when it holds the same login or email. */
  lemma CollidesIffSameKey(other: Record, u: User)
    requires RecordFits(UserSchema, other) && UserRecord(u).Success?
    ensures !Collides(UserSchema, other, UserRecord(u).value) <==>
            GetString(At(other, LOGIN)) != u.login && GetString(At(other, EMAIL)) != u.email
  {
    var rec := UserRecord(u).value;
    assert CellFits(UserSchema[LOGIN], other[LOGIN]) && CellFits(UserSchema[EMAIL], other[EMAIL]);
    if Collides(UserSchema, other, rec) {
      var i :| 0 <= i < |UserSchema| && i < |other| && i < |rec| && UserSchema[i].unique && !other[i].Null? && other[i] == rec[i];
      assert i == LOGIN || i == EMAIL;
    }
    if GetString(At(other, LOGIN)) == u.login {
      assert other[LOGIN] == rec[LOGIN];
    }
    if GetString(At(other, EMAIL)) == u.email {
      assert other[EMAIL] == rec[EMAIL];
    }
  }

  /** The table's constraints, stated for a user. */
  lemma AcceptedIffAdmitted(rows: map<int, Record>, u: User)
    requires RowsFit(rows) && UserRecord(u).Success?
    ensures Admits(UserSchema, rows, UserRecord(u).value) <==> UserAccepted(rows, u)
  {
    UserRecordFits(u);
    forall k | k in rows
      ensures !Collides(UserSchema, rows[k], UserRecord(u).value) <==>
              GetString(At(rows[k], LOGIN)) != u.login && GetString(At(rows[k], EMAIL)) != u.email
    {
      CollidesIffSameKey(rows[k], u);
    }
  }

  class JdbcUserDao {
    const users: Table
    /** The roles table, read through the join only. */
    const roles: Table

    ghost predicate Valid()
      reads this, users, roles
    {
      && users != roles
      && users.Valid() && users.schema == UserSchema
      && roles.Valid() && roles.schema == JdbcRoles.RoleSchema
    }

    constructor (users: Table, roles: Table)
      requires users != roles
      requires users.Valid() && users.schema == UserSchema
      requires roles.Valid() && roles.schema == JdbcRoles.RoleSchema
      ensures Valid() && this.users == users && this.roles == roles
    {
      this.users := users;
      this.roles := roles;
    }

    /** The user stored under `id`, as the joined queries read it. */
    function UserAt(id: int): User
      reads users, roles
      requires id in users.rows
    {
      MapResultSetToEntity(id, users.rows[id], JoinedRoleName(roles.rows, users.rows[id]))
    }

    /** Some stored user has this login. */
    predicate LoginTaken(login: Option<string>)
      reads users, roles
    {
      exists k | k in users.rows :: UserAt(k).login == login
    }

    /** Some stored user has this email. */
    predicate EmailTaken(email: Option<string>)
      reads users, roles
    {
      exists k | k in users.rows :: UserAt(k).email == email
    }

    /** A stored user other than the one with id `self` has this login. */
    predicate LoginTakenByOther(login: Option<string>, self: int)
      reads users, roles
    {
      exists k | k in users.rows :: k != self && UserAt(k).login == login
    }

    /** A stored user other than the one with id `self` has this email. */
    predicate EmailTakenByOther(email: Option<string>, self: int)
      reads users, roles
    {
      exists k | k in users.rows :: k != self && UserAt(k).email == email
    }

    /** Login and email are NOT NULL, so every stored user has both. */
    lemma StoredUsersHaveLoginAndEmail()
      requires Valid()
      ensures forall k | k in users.rows :: users.rows[k][LOGIN].Text? && users.rows[k][EMAIL].Text?
    {
      forall k | k in users.rows ensures users.rows[k][LOGIN].Text? && users.rows[k][EMAIL].Text? {
        assert CellFits(UserSchema[LOGIN], users.rows[k][LOGIN]);
        assert CellFits(UserSchema[EMAIL], users.rows[k][EMAIL]);
      }
    }

    /** Two stored users never share a login, nor an email. */
    lemma LoginAndEmailUnique(j: int, k: int)
      requires Valid() && j in users.rows && k in users.rows && j != k
      ensures UserAt(j).login != UserAt(k).login && UserAt(j).email != UserAt(k).email
    {
      StoredUsersHaveLoginAndEmail();
      var a, b := users.rows[j], users.rows[k];
      assert !Collides(UserSchema, a, b);
      assert a[LOGIN] != b[LOGIN] && a[EMAIL] != b[EMAIL];
    }

    /** Looking a login up and comparing the id found with `self` tells whether another user holds it. */
    lemma LoginLookupFindsOther(login: Option<string>, self: int)
      requires Valid() && users.connected
      ensures var found := FindByLogin(login).value;
              found.Some? && found.value.id != Some(self) <==> LoginTakenByOther(login, self)
    {
      var found := FindByLogin(login).value;
      if found.Some? && found.value.id == Some(self) {
        forall k | k in users.rows && k != self ensures UserAt(k).login != login {
          LoginAndEmailUnique(k, self);
        }
      }
    }

    /** Looking an email up and comparing the id found with `self` tells whether another user holds it. */
    lemma EmailLookupFindsOther(email: Option<string>, self: int)
      requires Valid() && users.connected
      ensures var found := FindByEmail(email).value;
              found.Some? && found.value.id != Some(self) <==> EmailTakenByOther(email, self)
    {
      var found := FindByEmail(email).value;
      if found.Some? && found.value.id == Some(self) {
        forall k | k in users.rows && k != self ensures UserAt(k).email != email {
          LoginAndEmailUnique(k, self);
        }
      }
    }

    /**
     * create: stores the user under the next id and returns it carrying that id. A role without an
     * id fails when it is unboxed; a user the table refuses (a null login, password or email, a
     * text over its column's length, a login or email already taken) and every call without a
     * connection fail with "Error creating entity" and change nothing.
     */
    method Create(u: User) returns (r: Result<User, Failure>)
      requires Valid()
      modifies users
      ensures Valid() && users.connected == old(users.connected)
      ensures old(users.connected) && UserRecord(u).Failure? ==> r == Failure(NullPointer)
      ensures r.Success? <==> old(users.connected) && UserRecord(u).Success? && UserAccepted(old(users.rows), u)
      ensures r.Failure? && !(old(users.connected) && UserRecord(u).Failure?) ==> r == Failure(DatabaseWrite(CREATE_FAILED))
      ensures r.Failure? ==> users.rows == old(users.rows) && users.nextId == old(users.nextId)
      ensures r.Success? ==> && r.value == SetEntityId(u, old(users.nextId))
                             && old(users.nextId) !in old(users.rows)
                             && users.rows == old(users.rows)[old(users.nextId) := UserRecord(u).value]
                             && users.nextId == old(users.nextId) + 1
                             && (RoleStored(roles.rows, u) ==> UserAt(old(users.nextId)) == r.value)
    {
      if UserRecord(u).Success? {
        AcceptedIffAdmitted(users.rows, u);
        RoundTrip(u, users.nextId, roles.rows);
      }
      r := GenericDao.Create(users, u, InsertParameters, SetEntityId);
    }

    /**
     * update: overwrites all seven columns of the row with the user's id (a null birthday or role
     * clears the stored one). A role without an id or a null user id fails when it is unboxed; an
     * id with no row and columns the table refuses fail with "Error updating entity". The row's own
     * login and email are not a clash.
     */
    method Update(u: User) returns (r: Result<(), Failure>)
      requires Valid()
      modifies users
      ensures Valid() && users.connected == old(users.connected) && users.nextId == old(users.nextId)
      ensures old(users.connected) && UpdateParameters(u).Failure? ==> r == Failure(NullPointer)
      ensures r.Success? <==> && old(users.connected) && UserRecord(u).Success? && u.id.Some?
                              && u.id.value in old(users.rows) && UserAccepted(old(users.rows) - {u.id.value}, u)
      ensures r.Failure? && !(old(users.connected) && UpdateParameters(u).Failure?) ==> r == Failure(DatabaseWrite(UPDATE_FAILED))
      ensures r.Failure? ==> users.rows == old(users.rows)
      ensures r.Success? ==> && users.rows == old(users.rows)[u.id.value := UserRecord(u).value]
                             && (RoleStored(roles.rows, u) ==> UserAt(u.id.value) == u)
    {
      if UserRecord(u).Success? && u.id.Some? {
        assert RowsFit(users.rows - {u.id.value});
        AcceptedIffAdmitted(users.rows - {u.id.value}, u);
        RoundTrip(u, u.id.value, roles.rows);
      }
      r := GenericDao.Update(users, u, UpdateParameters);
    }

    /**
     * remove: deletes the row with the user's id. A null id fails when it is unboxed; an id with no
     * row fails with "Error deleting entity".
     */
    method Remove(u: User) returns (r: Result<(), Failure>)
      requires Valid()
      modifies users
      ensures Valid() && users.connected == old(users.connected) && users.nextId == old(users.nextId)
      ensures !old(users.connected) ==> r == Failure(DatabaseWrite(DELETE_FAILED))
      ensures old(users.connected) && u.id.None? ==> r == Failure(NullPointer)
      ensures r.Success? <==> old(users.connected) && u.id.Some? && u.id.value in old(users.rows)
      ensures r.Failure? && u.id.Some? ==> r == Failure(DatabaseWrite(DELETE_FAILED))
      ensures r.Failure? ==> users.rows == old(users.rows)
      ensures r.Success? ==> users.rows == old(users.rows) - {u.id.value}
    {
      r := GenericDao.Remove(users, u, EntityId);
    }

    /** findAll: every stored user once, ordered by login; "Error finding all entities" without a connection. */
    method FindAll() returns (r: Result<seq<User>, Failure>, ghost order: seq<int>)
      requires Valid()
      ensures !users.connected ==> r == Failure(DatabaseRead(FIND_ALL_FAILED))
      ensures users.connected ==> && r.Success? && ScanOf(users.rows, LOGIN, order)
                                  && |r.value| == |order| == |users.rows|
                                  && (forall i | 0 <= i < |order| :: r.value[i] == UserAt(order[i]))
      ensures users.connected ==> forall i, j | 0 <= i < j < |r.value| ::
                                    r.value[i].login.Some? && r.value[j].login.Some? &&
                                    TextLe(r.value[i].login.value, r.value[j].login.value)
    {
      var roleRows := roles.rows;
      r, order := GenericDao.FindAll(users, LOGIN, (id, rec) => MapResultSetToEntity(id, rec, JoinedRoleName(roleRows, rec)));
      if users.connected {
        assert |multiset(order)| == |multiset(users.rows.Keys)|;
        StoredUsersHaveLoginAndEmail();
      }
    }

    /** findById: the stored user with that id, null when there is none or the id is null. */
    function FindById(id: Option<int>): (r: Result<Option<User>, Failure>)
      reads users, roles
      ensures id.None? ==> r == Success(None)
      ensures id.Some? && !users.connected ==> r == Failure(DatabaseRead(FIND_BY_ID_FAILED))
      ensures id.Some? && users.connected ==>
                r == Success(if id.value in users.rows then Some(UserAt(id.value)) else None)
    {
      var roleRows := roles.rows;
      GenericDao.FindById(users, id, (k, rec) => MapResultSetToEntity(k, rec, JoinedRoleName(roleRows, rec)))
    }

    /**
     * findByLogin: the stored user with exactly that login (case matters, nothing is trimmed), null
     * when there is none or the login is null; "Error finding user by login" without a connection.
     */
    function FindByLogin(login: Option<string>): (r: Result<Option<User>, Failure>)
      reads this, users, roles
      requires Valid()
      ensures !users.connected ==> r == Failure(DatabaseRead(FIND_BY_LOGIN_FAILED))
      ensures users.connected ==> r.Success?
      ensures r.Success? && r.value.Some? ==>
                && r.value.value.id.Some? && r.value.value.id.value in users.rows
                && r.value.value == UserAt(r.value.value.id.value)
                && r.value.value.login == login
      ensures r.Success? && r.value.None? ==> forall k | k in users.rows :: UserAt(k).login != login
    {
      if !users.connected then Failure(DatabaseRead(FIND_BY_LOGIN_FAILED))
      else
        StoredUsersHaveLoginAndEmail();
        var key := FindWhere(users, LOGIN, StringParam(login));
        if key.Some? then Success(Some(UserAt(key.value))) else Success(None)
    }

    /**
     * findByEmail: the stored user with exactly that email, null when there is none or the email
     * is null; "Error finding user by email" without a connection.
     */
    function FindByEmail(email: Option<string>): (r: Result<Option<User>, Failure>)
      reads this, users, roles
      requires Valid()
      ensures !users.connected ==> r == Failure(DatabaseRead(FIND_BY_EMAIL_FAILED))
      ensures users.connected ==> r.Success?
      ensures r.Success? && r.value.Some? ==>
                && r.value.value.id.Some? && r.value.value.id.value in users.rows
                && r.value.value == UserAt(r.value.value.id.value)
                && r.value.value.email == email
      ensures r.Success? && r.value.None? ==> forall k | k in users.rows :: UserAt(k).email != email
    {
      if !users.connected then Failure(DatabaseRead(FIND_BY_EMAIL_FAILED))
      else
        StoredUsersHaveLoginAndEmail();
        var key := FindWhere(users, EMAIL, StringParam(email));
        if key.Some? then Success(Some(UserAt(key.value))) else Success(None)
    }
  }
}
