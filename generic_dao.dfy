/**
 * The generic JDBC data-access object: create, update, remove, findAll and findById written once
 * over the hooks each concrete DAO supplies (how an entity becomes statement parameters, how a
 * result row becomes an entity, how the id is read and written).
 *
 * The database behind it is a `Table`: the rows of one SQL table keyed by their generated id,
 * together with the NOT NULL, UNIQUE and VARCHAR-length constraints of its columns. A statement
 * that would break a constraint fails and the transaction is rolled back, so the rows stay as they
 * were. `connected` says whether a connection can be obtained at all; without one every operation
 * fails with the DAO's error message.
 */
module GenericDao {
  import opened Wrappers
  import opened Failures
  import opened Entities

  /** The DatabaseWriteException and DatabaseReadException messages of the generic operations. */
  const CREATE_FAILED := "Error creating entity"
  const UPDATE_FAILED := "Error updating entity"
  const DELETE_FAILED := "Error deleting entity"
  const FIND_ALL_FAILED := "Error finding all entities"
  const FIND_BY_ID_FAILED := "Error finding entity by id"

  /** One SQL value: NULL, a VARCHAR, a BIGINT or a DATE. */
  datatype Value = Null | Text(text: string) | Number(number: int) | Day(day: Date)

  /** PreparedStatement.setString: a null String is bound as SQL NULL. */
  function StringParam(s: Option<string>): Value {
    if s.None? then Null else Text(s.value)
  }

  /** ResultSet.getString: SQL NULL reads as a null String. */
  function GetString(v: Value): Option<string> {
    if v.Text? then Some(v.text) else None
  }

  /** The value in column `i`, or NULL past the end of the record. */
  function At(rec: seq<Value>, i: nat): Value {
    if i < |rec| then rec[i] else Null
  }

  /** The values of one row, column by column (the generated id is kept apart, as the row's key). */
  type Record = seq<Value>

  /** The SQL type of a column. */
  datatype SqlType = Varchar(length: nat) | BigInt | SqlDate

  /** A column and the constraints it declares. */
  datatype Column = Column(name: string, sqlType: SqlType, notNull: bool, unique: bool)

  type Schema = seq<Column>

  /** A value can be stored in a column: NULL only where the column allows it, a text no longer
      than its VARCHAR length, a number in a BIGINT column and a date in a DATE column. */
  predicate CellFits(c: Column, v: Value) {
    match v
    case Null => !c.notNull
    case Text(s) => c.sqlType.Varchar? && |s| <= c.sqlType.length
    case Number(_) => c.sqlType.BigInt?
    case Day(_) => c.sqlType.SqlDate?
  }

  /** A record has a value for every column and each value satisfies its column's constraints. */
  predicate RecordFits(schema: Schema, rec: Record) {
    |rec| == |schema| && forall i | 0 <= i < |rec| :: CellFits(schema[i], rec[i])
  }

  /** Two records repeat the same non-NULL value in a UNIQUE column (NULLs never clash). */
  predicate Collides(schema: Schema, a: Record, b: Record) {
    exists i | 0 <= i < |schema| && i < |a| && i < |b| :: schema[i].unique && !a[i].Null? && a[i] == b[i]
  }

  /** The database accepts `rec` beside `rows`: it fits its columns and clashes with none of them. */
  predicate Admits(schema: Schema, rows: map<int, Record>, rec: Record) {
    RecordFits(schema, rec) && forall k | k in rows :: !Collides(schema, rows[k], rec)
  }

  /** One SQL table. */
  class Table {
    const schema: Schema
    var rows: map<int, Record>
    /** The next value of the table's AUTO_INCREMENT id. */
    var nextId: int
    var connected: bool

    ghost predicate Valid()
      reads this
    {
      && 0 < nextId
      && (forall k | k in rows :: 0 < k < nextId && RecordFits(schema, rows[k]))
      && (forall j, k | j in rows && k in rows && j != k :: !Collides(schema, rows[j], rows[k]))
    }

    /** An empty table; the first generated id is 1. */
    constructor (schema: Schema, connected: bool)
      ensures Valid()
      ensures this.schema == schema && rows == map[] && nextId == 1 && this.connected == connected
    {
      this.schema := schema;
      rows := map[];
      nextId := 1;
      this.connected := connected;
    }
  }

  /** `Collides` does not depend on the order of its two records. */
  lemma CollidesSymmetric(schema: Schema, a: Record, b: Record)
    ensures Collides(schema, a, b) == Collides(schema, b, a)
  {
    if Collides(schema, a, b) {
      var i :| 0 <= i < |schema| && i < |a| && i < |b| && schema[i].unique && !a[i].Null? && a[i] == b[i];
      assert !b[i].Null? && b[i] == a[i];
    }
  }

  /**
   * create: an INSERT with the entity's parameters. A missing connection and a refused insert fail
   * with "Error creating entity" and leave the table as it was; a hook that throws (a null id
   * unboxed) propagates its failure. On success the row is stored under the next generated id and
   * the entity comes back carrying that id.
   */
  method Create<E>(t: Table, entity: E, insertParameters: E -> Result<Record, Failure>,
                   setEntityId: (E, int) -> E)
    returns (r: Result<E, Failure>)
    requires t.Valid()
    modifies t
    ensures t.Valid() && t.connected == old(t.connected)
    ensures !old(t.connected) ==> r == Failure(DatabaseWrite(CREATE_FAILED))
    ensures old(t.connected) && insertParameters(entity).Failure? ==> r == Failure(insertParameters(entity).error)
    ensures old(t.connected) && insertParameters(entity).Success? && !Admits(t.schema, old(t.rows), insertParameters(entity).value)
            ==> r == Failure(DatabaseWrite(CREATE_FAILED))
    ensures r.Failure? ==> t.rows == old(t.rows) && t.nextId == old(t.nextId)
    ensures r.Success? <==> old(t.connected) && insertParameters(entity).Success?
                            && Admits(t.schema, old(t.rows), insertParameters(entity).value)
    ensures r.Success? ==> && old(t.nextId) !in old(t.rows)
                           && t.rows == old(t.rows)[old(t.nextId) := insertParameters(entity).value]
                           && t.nextId == old(t.nextId) + 1
                           && r.value == setEntityId(entity, old(t.nextId))
  {
    if !t.connected {
      return Failure(DatabaseWrite(CREATE_FAILED));
    }
    var parameters := insertParameters(entity);
    if parameters.Failure? {
      return Failure(parameters.error);
    }
    var rec := parameters.value;
    if !Admits(t.schema, t.rows, rec) {
      return Failure(DatabaseWrite(CREATE_FAILED));
    }
    var key := t.nextId;
    forall k | k in t.rows ensures !Collides(t.schema, rec, t.rows[k]) {
      CollidesSymmetric(t.schema, rec, t.rows[k]);
    }
    t.rows := t.rows[key := rec];
    t.nextId := key + 1;
    r := Success(setEntityId(entity, key));
  }

  /**
   * update: an UPDATE of the row with the entity's id. A missing connection, an id with no row
   * (no rows affected) and a refused new record fail with "Error updating entity" and change
   * nothing; a hook that throws propagates its failure. On success only that row changes.
   */
  method Update<E>(t: Table, entity: E, updateParameters: E -> Result<(int, Record), Failure>)
    returns (r: Result<(), Failure>)
    requires t.Valid()
    modifies t
    ensures t.Valid() && t.connected == old(t.connected) && t.nextId == old(t.nextId)
    ensures !old(t.connected) ==> r == Failure(DatabaseWrite(UPDATE_FAILED))
    ensures old(t.connected) && updateParameters(entity).Failure? ==> r == Failure(updateParameters(entity).error)
    ensures r.Failure? ==> t.rows == old(t.rows)
    ensures r.Success? <==> && old(t.connected) && updateParameters(entity).Success?
                            && updateParameters(entity).value.0 in old(t.rows)
                            && Admits(t.schema, old(t.rows) - {updateParameters(entity).value.0}, updateParameters(entity).value.1)
    ensures r.Failure? && old(t.connected) && updateParameters(entity).Success? ==> r == Failure(DatabaseWrite(UPDATE_FAILED))
    ensures r.Success? ==> t.rows == old(t.rows)[updateParameters(entity).value.0 := updateParameters(entity).value.1]
  {
    if !t.connected {
      return Failure(DatabaseWrite(UPDATE_FAILED));
    }
    var parameters := updateParameters(entity);
    if parameters.Failure? {
      return Failure(parameters.error);
    }
    var (key, rec) := parameters.value;
    if key !in t.rows || !Admits(t.schema, t.rows - {key}, rec) {
      return Failure(DatabaseWrite(UPDATE_FAILED));
    }
    forall k | k in t.rows && k != key ensures !Collides(t.schema, rec, t.rows[k]) {
      assert k in t.rows - {key};
      CollidesSymmetric(t.schema, rec, t.rows[k]);
    }
    t.rows := t.rows[key := rec];
    r := Success(());
  }

  /**
   * remove: a DELETE of the row with the entity's id. A missing connection and an id with no row
   * fail with "Error deleting entity"; a null id fails when it is unboxed. On success exactly that
   * row is gone.
   */
  method Remove<E>(t: Table, entity: E, entityId: E -> Option<int>)
    returns (r: Result<(), Failure>)
    requires t.Valid()
    modifies t
    ensures t.Valid() && t.connected == old(t.connected) && t.nextId == old(t.nextId)
    ensures !old(t.connected) ==> r == Failure(DatabaseWrite(DELETE_FAILED))
    ensures old(t.connected) && entityId(entity).None? ==> r == Failure(NullPointer)
    ensures old(t.connected) && entityId(entity).Some? && entityId(entity).value !in old(t.rows)
            ==> r == Failure(DatabaseWrite(DELETE_FAILED))
    ensures r.Failure? ==> t.rows == old(t.rows)
    ensures r.Success? <==> old(t.connected) && entityId(entity).Some? && entityId(entity).value in old(t.rows)
    ensures r.Success? ==> t.rows == old(t.rows) - {entityId(entity).value}
  {
    if !t.connected {
      return Failure(DatabaseWrite(DELETE_FAILED));
    }
    var id := entityId(entity);
    if id.None? {
      return Failure(NullPointer);
    }
    if id.value !in t.rows {
      return Failure(DatabaseWrite(DELETE_FAILED));
    }
    t.rows := t.rows - {id.value};
    r := Success(());
  }

  // ---------------------------------------------------------------------------
  // Queries
  // ---------------------------------------------------------------------------

  /** The VARCHAR a result is ordered by (rows are ordered by NOT NULL text columns only). */
  function SortKey(rec: Record, col: nat): string {
    if col < |rec| && rec[col].Text? then rec[col].text else ""
  }

  /** The ordering of ORDER BY on a VARCHAR: lexicographic, character by character. */
  predicate TextLe(a: string, b: string) {
    a == [] || (b != [] && (a[0] < b[0] || (a[0] == b[0] && TextLe(a[1..], b[1..]))))
  }

  lemma {:induction false} TextLeTotal(a: string, b: string)
    ensures TextLe(a, b) || TextLe(b, a)
  {
    if a != [] && b != [] && a[0] == b[0] {
      TextLeTotal(a[1..], b[1..]);
    }
  }

  lemma {:induction false} TextLeTransitive(a: string, b: string, c: string)
    requires TextLe(a, b) && TextLe(b, c)
    ensures TextLe(a, c)
  {
    if a != [] && b != [] && c != [] && a[0] == b[0] && b[0] == c[0] {
      TextLeTransitive(a[1..], b[1..], c[1..]);
    }
  }

  lemma {:induction false} TextLeAntisymmetric(a: string, b: string)
    requires TextLe(a, b) && TextLe(b, a)
    ensures a == b
  {
    if a != [] && b != [] {
      TextLeAntisymmetric(a[1..], b[1..]);
      assert a == [a[0]] + a[1..];
      assert b == [b[0]] + b[1..];
    }
  }

  /** `ks` lists keys of `rows` in increasing order of column `col`. */
  predicate SortedBy(rows: map<int, Record>, col: nat, ks: seq<int>) {
    forall i, j | 0 <= i < j < |ks| && ks[i] in rows && ks[j] in rows ::
      TextLe(SortKey(rows[ks[i]], col), SortKey(rows[ks[j]], col))
  }

  /** `ks` is an order in which `SELECT … ORDER BY col` can return the rows: every row exactly once,
      in increasing order of the column. */
  predicate ScanOf(rows: map<int, Record>, col: nat, ks: seq<int>) {
    && (forall i | 0 <= i < |ks| :: ks[i] in rows)
    && multiset(ks) == multiset(rows.Keys)
    && SortedBy(rows, col, ks)
  }

  /** Puts key `k` into the sorted `ks` in front of the first key whose value is not below its own. */
  lemma {:induction false} Insert(rows: map<int, Record>, col: nat, ks: seq<int>, k: int) returns (r: seq<int>)
    requires k in rows && forall i | 0 <= i < |ks| :: ks[i] in rows
    requires SortedBy(rows, col, ks)
    ensures multiset(r) == multiset(ks) + multiset{k}
    ensures forall i | 0 <= i < |r| :: r[i] in rows
    ensures SortedBy(rows, col, r)
  {
    if ks == [] {
      r := [k];
    } else if TextLe(SortKey(rows[k], col), SortKey(rows[ks[0]], col)) {
      r := [k] + ks;
      InsertInFront(rows, col, ks, k);
    } else {
      assert ks == [ks[0]] + ks[1..];
      var tail := Insert(rows, col, ks[1..], k);
      r := [ks[0]] + tail;
      InsertBehind(rows, col, ks, k, tail);
    }
  }

  lemma InsertInFront(rows: map<int, Record>, col: nat, ks: seq<int>, k: int)
    requires k in rows && forall i | 0 <= i < |ks| :: ks[i] in rows
    requires ks != [] && SortedBy(rows, col, ks)
    requires TextLe(SortKey(rows[k], col), SortKey(rows[ks[0]], col))
    ensures SortedBy(rows, col, [k] + ks)
  {
    var r := [k] + ks;
    forall j | 0 < j < |r| ensures TextLe(SortKey(rows[r[0]], col), SortKey(rows[r[j]], col)) {
      if j > 1 {
        TextLeTransitive(SortKey(rows[k], col), SortKey(rows[ks[0]], col), SortKey(rows[r[j]], col));
      }
    }
  }

  lemma InsertBehind(rows: map<int, Record>, col: nat, ks: seq<int>, k: int, tail: seq<int>)
    requires k in rows && forall i | 0 <= i < |ks| :: ks[i] in rows
    requires ks != [] && SortedBy(rows, col, ks)
    requires !TextLe(SortKey(rows[k], col), SortKey(rows[ks[0]], col))
    requires multiset(tail) == multiset(ks[1..]) + multiset{k}
    requires forall i | 0 <= i < |tail| :: tail[i] in rows
    requires SortedBy(rows, col, tail)
    ensures SortedBy(rows, col, [ks[0]] + tail)
  {
    var r := [ks[0]] + tail;
    TextLeTotal(SortKey(rows[k], col), SortKey(rows[ks[0]], col));
    forall j | 0 < j < |r| ensures TextLe(SortKey(rows[r[0]], col), SortKey(rows[r[j]], col)) {
      assert r[j] == tail[j - 1];
      assert r[j] in multiset(tail);
      if r[j] != k {
        assert r[j] in multiset(ks[1..]);
        var m :| 0 <= m < |ks[1..]| && ks[1..][m] == r[j];
        assert ks[m + 1] == r[j];
      }
    }
  }

  /** Sorting a list of keys by insertion. */
  lemma {:induction false} SortKeys(rows: map<int, Record>, col: nat, ks: seq<int>) returns (sorted: seq<int>)
    requires forall i | 0 <= i < |ks| :: ks[i] in rows
    ensures forall i | 0 <= i < |sorted| :: sorted[i] in rows
    ensures multiset(sorted) == multiset(ks) && SortedBy(rows, col, sorted)
  {
    if ks == [] {
      sorted := [];
    } else {
      var rest := SortKeys(rows, col, ks[..|ks| - 1]);
      sorted := Insert(rows, col, rest, ks[|ks| - 1]);
      assert ks == ks[..|ks| - 1] + [ks[|ks| - 1]];
    }
  }

  /** Any finite set of keys can be listed, each once. */
  lemma {:induction false} ListKeys(keys: set<int>) returns (ks: seq<int>)
    ensures multiset(ks) == multiset(keys)
    decreases |keys|
  {
    if keys == {} {
      ks := [];
    } else {
      if forall x :: x !in keys { assert false; }  // a non-empty set has an element
      var k :| k in keys;
      var rest := ListKeys(keys - {k});
      ks := rest + [k];
      assert keys == (keys - {k}) + {k};
    }
  }

  /** Every table can be scanned in the order of any column. */
  lemma ScanExists(rows: map<int, Record>, col: nat) returns (ks: seq<int>)
    ensures ScanOf(rows, col, ks)
  {
    var listed := ListKeys(rows.Keys);
    forall i | 0 <= i < |listed| ensures listed[i] in rows {
      assert listed[i] in multiset(listed);
    }
    ks := SortKeys(rows, col, listed);
  }

  /**
   * mapResultSetToList: walks the result set row by row and maps each row to an entity, keeping
   * the order of the rows.
   */
  method MapResultSetToList<E>(rows: map<int, Record>, ks: seq<int>, mapRow: (int, Record) -> E)
    returns (entities: seq<E>)
    requires forall i | 0 <= i < |ks| :: ks[i] in rows
    ensures |entities| == |ks|
    ensures forall i | 0 <= i < |ks| :: entities[i] == mapRow(ks[i], rows[ks[i]])
  {
    entities := [];
    var i := 0;
    while i < |ks|
      invariant 0 <= i <= |ks| && |entities| == i
      invariant forall j | 0 <= j < i :: entities[j] == mapRow(ks[j], rows[ks[j]])
    {
      entities := entities + [mapRow(ks[i], rows[ks[i]])];
      i := i + 1;
    }
  }

  /**
   * findAll: every row, ordered by column `orderBy`, each mapped to an entity; a missing
   * connection fails with "Error finding all entities". `order` is the order the database chose.
   */
  method FindAll<E>(t: Table, orderBy: nat, mapRow: (int, Record) -> E)
    returns (r: Result<seq<E>, Failure>, ghost order: seq<int>)
    requires t.Valid()
    ensures !t.connected ==> r == Failure(DatabaseRead(FIND_ALL_FAILED))
    ensures t.connected ==> && r.Success? && ScanOf(t.rows, orderBy, order) && |r.value| == |order|
                            && forall i | 0 <= i < |order| :: r.value[i] == mapRow(order[i], t.rows[order[i]])
  {
    if !t.connected {
      return Failure(DatabaseRead(FIND_ALL_FAILED)), [];
    }
    ghost var some := ScanExists(t.rows, orderBy);
    var ks: seq<int> :| ScanOf(t.rows, orderBy, ks);
    assert ScanOf(t.rows, orderBy, ks);
    assert forall i | 0 <= i < |ks| :: ks[i] in t.rows;
    var entities := MapResultSetToList(t.rows, ks, mapRow);
    return Success(entities), ks;
  }

  /**
   * findById: a null id gives null without touching the database; otherwise the row with that id,
   * mapped to an entity, or null when there is none; a missing connection fails with
   * "Error finding entity by id".
   */
  function FindById<E>(t: Table, id: Option<int>, mapRow: (int, Record) -> E): (r: Result<Option<E>, Failure>)
    reads t
    ensures id.None? ==> r == Success(None)
    ensures id.Some? ==> (r.Failure? <==> !t.connected)
    ensures r.Failure? ==> r.error == DatabaseRead(FIND_BY_ID_FAILED)
    ensures r.Success? && id.Some? ==> (r.value.Some? <==> id.value in t.rows)
    ensures r.Success? && r.value.Some? ==> id.value in t.rows && r.value.value == mapRow(id.value, t.rows[id.value])
  {
    if id.None? then Success(None)
    else if !t.connected then Failure(DatabaseRead(FIND_BY_ID_FAILED))
    else if id.value in t.rows then Success(Some(mapRow(id.value, t.rows[id.value])))
    else Success(None)
  }

  /** Two rows never hold the same non-NULL value in a UNIQUE column. */
  lemma UniqueMatch(t: Table, col: nat, v: Value, j: int, k: int)
    requires t.Valid() && col < |t.schema| && t.schema[col].unique && !v.Null?
    requires j in t.rows && k in t.rows && t.rows[j][col] == v && t.rows[k][col] == v
    ensures j == k
  {
    if j != k {
      assert Collides(t.schema, t.rows[j], t.rows[k]);
    }
  }

  /**
   * `SELECT … WHERE col = ?` on a UNIQUE column: the key of the one row holding `v` there, if
   * any. A NULL parameter never matches, since `col = NULL` is never true in SQL.
   */
  function FindWhere(t: Table, col: nat, v: Value): (r: Option<int>)
    reads t
    requires t.Valid() && col < |t.schema| && t.schema[col].unique
    ensures r.Some? ==> !v.Null? && r.value in t.rows && col < |t.rows[r.value]| && t.rows[r.value][col] == v
    ensures r.None? ==> v.Null? || forall k | k in t.rows :: t.rows[k][col] != v
  {
    if !v.Null? && exists k | k in t.rows :: t.rows[k][col] == v then
      var k :| k in t.rows && t.rows[k][col] == v;
      Some(k)
    else
      None
  }
}
