/**
 * The JDBC DAO for roles: the table `roles (id BIGINT AUTO_INCREMENT, name VARCHAR(50) NOT NULL
 * UNIQUE)` and the hooks that bind a Role to its statements and read it back.
 */
module JdbcRoles {
  import opened Wrappers
  import opened Failures
  import opened Entities
  import opened GenericDao

  /** The DatabaseReadException message of the lookup by name. */
  const FIND_BY_NAME_FAILED := "Error finding role by name"

  /** Column index of `name`. */
  const NAME: nat := 0

  const RoleSchema: Schema := [Column("name", Varchar(50), true, true)]

  /** setInsertParameters: the role's name, NULL when the name is null. */
  function InsertParameters(role: Role): (r: Result<Record, Failure>)
    ensures r.Success? && |r.value| == |RoleSchema|
    ensures RecordFits(RoleSchema, r.value) <==> role.name.Some? && |role.name.value| <= 50
  {
    var rec := [StringParam(role.name)];
    assert RecordFits(RoleSchema, rec) <==> CellFits(RoleSchema[NAME], rec[NAME]);
    Success(rec)
  }

  /** setUpdateParameters: the name, then the id of the row to update; a null id fails when it is unboxed. */
  function UpdateParameters(role: Role): (r: Result<(int, Record), Failure>)
    ensures r.Success? <==> role.id.Some?
    ensures r.Failure? ==> r.error == NullPointer
    ensures r.Success? ==> r.value == (role.id.value, InsertParameters(role).value)
  {
    if role.id.None? then Failure(NullPointer) else Success((role.id.value, [StringParam(role.name)]))
  }

  function EntityId(role: Role): Option<int> {
    role.id
  }

  function SetEntityId(role: Role, id: int): Role {
    role.(id := Some(id))
  }

  /** mapResultSetToEntity: id and name of one result row. */
  function MapResultSetToEntity(id: int, rec: Record): (r: Role)
    ensures r.id == Some(id)
    ensures RecordFits(RoleSchema, rec) ==> r.name.Some? && |r.name.value| <= 50
  {
    Role(Some(id), GetString(At(rec, NAME)))
  }

  /** What a role written to the table reads back as: the same role, carrying the row's id. */
  lemma {:induction false} RoundTrip(role: Role, id: int)
    ensures InsertParameters(role).Success?
    ensures MapResultSetToEntity(id, InsertParameters(role).value) == SetEntityId(role, id)
  {
  }

  /** The rows of the roles table as roles. */
  predicate RowsFit(rows: map<int, Record>) {
    forall k | k in rows :: RecordFits(RoleSchema, rows[k])
  }

  /** What the database accepts as the name column beside `rows`: a non-null name of at most
      50 characters that no other row holds. An empty or blank name is accepted. */
  predicate NameAccepted(rows: map<int, Record>, name: Option<string>) {
    && name.Some? && |name.value| <= 50
    && forall k | k in rows :: GetString(At(rows[k], NAME)) != name
  }

  /** The table's constraints, stated for a role. */
  lemma NameAcceptedIffAdmitted(rows: map<int, Record>, role: Role)
    requires RowsFit(rows)
    ensures Admits(RoleSchema, rows, [StringParam(role.name)]) <==> NameAccepted(rows, role.name)
  {
    var rec := [StringParam(role.name)];
    if NameAccepted(rows, role.name) {
      forall k | k in rows ensures !Collides(RoleSchema, rows[k], rec) {
        assert GetString(At(rows[k], NAME)) != role.name;
      }
    }
    if Admits(RoleSchema, rows, rec) {
      assert CellFits(RoleSchema[NAME], rec[NAME]);
      forall k | k in rows ensures GetString(At(rows[k], NAME)) != role.name {
        assert !Collides(RoleSchema, rows[k], rec);
        assert CellFits(RoleSchema[NAME], rows[k][NAME]);
      }
    }
  }

  /** The store accepts an empty role name, which bean validation does not. */
  lemma EmptyNameStoredButInvalid(rows: map<int, Record>)
    requires RowsFit(rows) && forall k | k in rows :: At(rows[k], NAME) != Text("")
    ensures Admits(RoleSchema, rows, [StringParam(Some(""))])
    ensures !RoleBeanValid(NewRole(Some("")))
  {
    NameAcceptedIffAdmitted(rows, NewRole(Some("")));
  }

  class JdbcRoleDao {
    const roles: Table

    ghost predicate Valid()
      reads this, roles
    {
      roles.Valid() && roles.schema == RoleSchema
    }

    constructor (roles: Table)
      requires roles.Valid() && roles.schema == RoleSchema
      ensures Valid() && this.roles == roles
    {
      this.roles := roles;
    }

    /** Every stored row has a name. */
    lemma StoredNamesNotNull()
      requires Valid()
      ensures forall k | k in roles.rows :: roles.rows[k][NAME].Text?
    {
      forall k | k in roles.rows ensures roles.rows[k][NAME].Text? {
        assert CellFits(RoleSchema[NAME], roles.rows[k][NAME]);
      }
    }

    /** The role stored under `id`, as findById and findAll read it. */
    function RoleAt(id: int): Role
      reads roles
      requires id in roles.rows
    {
      MapResultSetToEntity(id, roles.rows[id])
    }

    /**
     * create: stores the role under the next id and returns it carrying that id. A null name, a
     * name over 50 characters and a name already taken are refused with "Error creating entity";
     * so is everything when there is no connection.
     */
    method Create(role: Role) returns (r: Result<Role, Failure>)
      requires Valid()
      modifies roles
      ensures Valid() && roles.connected == old(roles.connected)
      ensures r.Success? <==> old(roles.connected) && NameAccepted(old(roles.rows), role.name)
      ensures r.Failure? ==> r.error == DatabaseWrite(CREATE_FAILED)
                             && roles.rows == old(roles.rows) && roles.nextId == old(roles.nextId)
      ensures r.Success? ==> && r.value == role.(id := Some(old(roles.nextId)))
                             && old(roles.nextId) !in old(roles.rows)
                             && roles.rows == old(roles.rows)[old(roles.nextId) := [StringParam(role.name)]]
                             && RoleAt(old(roles.nextId)) == r.value
    {
      NameAcceptedIffAdmitted(roles.rows, role);
      r := GenericDao.Create(roles, role, InsertParameters, SetEntityId);
      if r.Success? {
        RoundTrip(role, old(roles.nextId));
      }
    }

    /**
     * update: renames the row with the role's id. A null id fails when it is unboxed; an id with
     * no row, a null or over-long name and a name held by another row are refused with
     * "Error updating entity". Keeping a role's own name is not a clash.
     */
    method Update(role: Role) returns (r: Result<(), Failure>)
      requires Valid()
      modifies roles
      ensures Valid() && roles.connected == old(roles.connected) && roles.nextId == old(roles.nextId)
      ensures old(roles.connected) && role.id.None? ==> r == Failure(NullPointer)
      ensures r.Success? <==> && old(roles.connected) && role.id.Some? && role.id.value in old(roles.rows)
                              && NameAccepted(old(roles.rows) - {role.id.value}, role.name)
      ensures r.Failure? ==> roles.rows == old(roles.rows)
      ensures r.Failure? && !(old(roles.connected) && role.id.None?) ==> r == Failure(DatabaseWrite(UPDATE_FAILED))
      ensures r.Success? ==> roles.rows == old(roles.rows)[role.id.value := [StringParam(role.name)]]
                             && RoleAt(role.id.value) == role
    {
      if role.id.Some? {
        assert RowsFit(roles.rows - {role.id.value});
        NameAcceptedIffAdmitted(roles.rows - {role.id.value}, role);
      }
      r := GenericDao.Update(roles, role, UpdateParameters);
    }

    /**
     * remove: deletes the row with the role's id. A null id fails when it is unboxed; an id with no
     * row is refused with "Error deleting entity".
     */
    method Remove(role: Role) returns (r: Result<(), Failure>)
      requires Valid()
      modifies roles
      ensures Valid() && roles.connected == old(roles.connected) && roles.nextId == old(roles.nextId)
      ensures !old(roles.connected) ==> r == Failure(DatabaseWrite(DELETE_FAILED))
      ensures old(roles.connected) && role.id.None? ==> r == Failure(NullPointer)
      ensures r.Success? <==> old(roles.connected) && role.id.Some? && role.id.value in old(roles.rows)
      ensures r.Failure? && role.id.Some? ==> r == Failure(DatabaseWrite(DELETE_FAILED))
      ensures r.Success? ==> roles.rows == old(roles.rows) - {role.id.value}
      ensures r.Failure? ==> roles.rows == old(roles.rows)
    {
      r := GenericDao.Remove(roles, role, EntityId);
    }

    /**
     * findAll: every stored role once, ordered by name; "Error finding all entities" without a
     * connection.
     */
    method FindAll() returns (r: Result<seq<Role>, Failure>, ghost order: seq<int>)
      requires Valid()
      ensures !roles.connected ==> r == Failure(DatabaseRead(FIND_ALL_FAILED))
      ensures roles.connected ==> && r.Success? && ScanOf(roles.rows, NAME, order)
                                  && |r.value| == |order| == |roles.rows|
                                  && (forall i | 0 <= i < |order| :: r.value[i] == RoleAt(order[i]))
      ensures roles.connected ==> forall i, j | 0 <= i < j < |r.value| ::
                                    r.value[i].name.Some? && r.value[j].name.Some? &&
                                    TextLe(r.value[i].name.value, r.value[j].name.value)
    {
      r, order := GenericDao.FindAll(roles, NAME, MapResultSetToEntity);
      if roles.connected {
        assert |multiset(order)| == |multiset(roles.rows.Keys)|;
        forall i | 0 <= i < |order| ensures r.value[i].name.Some? && SortKey(roles.rows[order[i]], NAME) == r.value[i].name.value {
          assert CellFits(RoleSchema[NAME], roles.rows[order[i]][NAME]);
        }
      }
    }

    /** findById: the stored role with that id, null when there is none or the id is null. */
    function FindById(id: Option<int>): (r: Result<Option<Role>, Failure>)
      reads roles
      ensures id.None? ==> r == Success(None)
      ensures id.Some? && !roles.connected ==> r == Failure(DatabaseRead(FIND_BY_ID_FAILED))
      ensures id.Some? && roles.connected ==>
                r == Success(if id.value in roles.rows then Some(RoleAt(id.value)) else None)
    {
      GenericDao.FindById(roles, id, MapResultSetToEntity)
    }

    /**
     * findByName: the stored role with exactly that name (case matters, nothing is trimmed), null
     * when there is none or the name is null; "Error finding role by name" without a connection.
     */
    function FindByName(name: Option<string>): (r: Result<Option<Role>, Failure>)
      reads this, roles
      requires Valid()
      ensures !roles.connected ==> r == Failure(DatabaseRead(FIND_BY_NAME_FAILED))
      ensures r.Success? && r.value.Some? ==>
                && r.value.value.id.Some? && r.value.value.id.value in roles.rows
                && r.value.value == RoleAt(r.value.value.id.value)
                && r.value.value.name == name
      ensures r.Success? && r.value.None? ==> forall k | k in roles.rows :: RoleAt(k).name != name
      ensures roles.connected ==> r.Success?
    {
      if !roles.connected then Failure(DatabaseRead(FIND_BY_NAME_FAILED))
      else
        StoredNamesNotNull();
        var key := FindWhere(roles, NAME, StringParam(name));
        if key.Some? then Success(Some(RoleAt(key.value)))
        else Success(None)
    }
  }
}
