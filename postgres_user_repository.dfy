/**
 * The PostgreSQL user repository: look-ups that answer `null` when no row
 * matches, an insert whose unique violation becomes "already exists", a
 * delete that answers whether a row went away, and an update whose `SET`
 * list and positional parameters (`$1`, `$2`, ...) are built one supplied
 * field at a time.  The `users` table is a map from id to row; the database
 * clock is a parameter.
 */
module PostgresUsers {

  import opened Common
  import opened Text
  import opened UserEntity

  /** A row of the `users` table. */
  datatype SqlUser = SqlUser(id: nat, email: string, password: string, name: string, createdAt: int, updatedAt: int)

  /** The fields `update` may change; only truthy ones are written. */
  datatype UserData = UserData(email: Option<string>, name: Option<string>, password: Option<string>)

  datatype Column = EmailColumn | NameColumn | PasswordColumn | UpdatedAtColumn

  /** One entry of the `SET` list: `column = $n`, or `updated_at = CURRENT_TIMESTAMP`. */
  datatype SetClause = Param(column: Column, index: nat) | Now(column: Column)

  /** A value bound to a positional parameter. */
  datatype SqlValue = Text(text: string) | Key(id: nat)

  /** Why a repository call throws. */
  datatype Cause = NoRows | SqlState(code: string)

  datatype RepoError =
    /** `create` met the unique index on the e-mail (SQL state 23505). */
    | EmailExists
    /** Any other failure, under the message prefix of the operation. */
    | Wrapped(prefix: string, cause: Cause)

  const UniqueViolation := "23505"
  const UpdatePrefix := "Error updating user"
  const CreatePrefix := "Error creating user"

  function ColumnName(c: Column): string {
    match c
    case EmailColumn => "email"
    case NameColumn => "name"
    case PasswordColumn => "password"
    case UpdatedAtColumn => "updated_at"
  }

  /** `_mapRowToUser(row)`: every column into the entity, under its camel-case name. */
  function MapRowToUser(row: SqlUser): (u: User)
    ensures u.ToJson() == UserJson(Some(row.id), Some(row.email), Some(row.name), Some(row.createdAt), Some(row.updatedAt))
    ensures u.password == Some(row.password)
    ensures u.IsValid() <==> row.email != "" && row.password != "" && row.name != ""
  {
    User(Some(row.id), Some(row.email), Some(row.password), Some(row.name), Some(row.createdAt), Some(row.updatedAt))
  }

  /** What `data` supplies for a column. */
  function Given(data: UserData, c: Column): Option<string> {
    match c
    case EmailColumn => data.email
    case NameColumn => data.name
    case PasswordColumn => data.password
    case UpdatedAtColumn => None
  }

  /** The columns `update` sets from `data`, in the order of its `if`s. */
  function Columns(data: UserData): (cols: seq<Column>)
    ensures forall c :: c in cols <==> TruthyStr(Given(data, c))
    ensures |cols| <= 3
    ensures forall i, j | 0 <= i < j < |cols| :: ColumnRank(cols[i]) < ColumnRank(cols[j])
  {
    (if TruthyStr(data.email) then [EmailColumn] else [])
    + (if TruthyStr(data.name) then [NameColumn] else [])
    + (if TruthyStr(data.password) then [PasswordColumn] else [])
  }

  /** The position of each column among the `if`s: e-mail, then name, then password. */
  function ColumnRank(c: Column): nat {
    match c
    case EmailColumn => 0
    case NameColumn => 1
    case PasswordColumn => 2
    case UpdatedAtColumn => 3
  }

  /** The `i`-th of `cols` is `$i+1`, bound to the text `data` gives for it. */
  predicate Numbered(data: UserData, cols: seq<Column>, fields: seq<SetClause>, values: seq<SqlValue>) {
    |fields| == |cols| && |values| == |cols|
    && forall i | 0 <= i < |cols| ::
         fields[i] == Param(cols[i], i + 1) && Given(data, cols[i]).Some?
         && values[i] == Text(Given(data, cols[i]).value)
  }

  /**
   * The numbering the update query relies on: the supplied columns are
   * `$1..$k` in order, each bound to its value, `updated_at` comes last with
   * no parameter, and the id is the last value, bound to `$k+1`.
   */
  predicate Placeholders(data: UserData, id: nat, fields: seq<SetClause>, values: seq<SqlValue>, idParam: nat) {
    var cols := Columns(data);
    var k := |cols|;
    |fields| == k + 1 && |values| == k + 1 && idParam == k + 1
    && Numbered(data, cols, fields[..k], values[..k])
    && fields[k] == Now(UpdatedAtColumn) && values[k] == Key(id)
  }

  /** Pushing the next supplied column keeps the numbering. */
  lemma NumberedPush(data: UserData, cols: seq<Column>, fields: seq<SetClause>, values: seq<SqlValue>, c: Column)
    requires Numbered(data, cols, fields, values) && TruthyStr(Given(data, c))
    ensures Numbered(data, cols + [c], fields + [Param(c, |cols| + 1)], values + [Text(Given(data, c).value)])
  {
  }

  /** The `fields`/`values` building of `update(id, userData)`, with its `paramCount` counter. */
  method BuildUpdate(id: nat, data: UserData) returns (fields: seq<SetClause>, values: seq<SqlValue>, idParam: nat)
    ensures Placeholders(data, id, fields, values, idParam)
    ensures idParam == |values| && values[idParam - 1] == Key(id)
  {
    fields, values := [], [];
    var paramCount := 1;
    ghost var cols: seq<Column> := [];
    if TruthyStr(data.email) {
      NumberedPush(data, cols, fields, values, EmailColumn);
      fields := fields + [Param(EmailColumn, paramCount)];
      paramCount := paramCount + 1;
      values := values + [Text(data.email.value)];
      cols := cols + [EmailColumn];
    }
    assert Numbered(data, cols, fields, values) && paramCount == |cols| + 1;
    if TruthyStr(data.name) {
      NumberedPush(data, cols, fields, values, NameColumn);
      fields := fields + [Param(NameColumn, paramCount)];
      paramCount := paramCount + 1;
      values := values + [Text(data.name.value)];
      cols := cols + [NameColumn];
    }
    assert Numbered(data, cols, fields, values) && paramCount == |cols| + 1;
    if TruthyStr(data.password) {
      NumberedPush(data, cols, fields, values, PasswordColumn);
      fields := fields + [Param(PasswordColumn, paramCount)];
      paramCount := paramCount + 1;
      values := values + [Text(data.password.value)];
      cols := cols + [PasswordColumn];
    }
    assert Numbered(data, cols, fields, values) && paramCount == |cols| + 1;
    assert cols == Columns(data);
    fields := fields + [Now(UpdatedAtColumn)];
    values := values + [Key(id)];
    assert fields[..|cols|] == fields[..|fields| - 1] && values[..|cols|] == values[..|values| - 1];
    idParam := paramCount;
  }

  function RenderClause(f: SetClause): string {
    match f
    case Param(c, n) => ColumnName(c) + " = $" + NatToString(n)
    case Now(c) => ColumnName(c) + " = CURRENT_TIMESTAMP"
  }

  /** `fields.join(', ')` */
  function JoinClauses(fields: seq<SetClause>): string
    decreases |fields|
  {
    if fields == [] then ""
    else if |fields| == 1 then RenderClause(fields[0])
    else RenderClause(fields[0]) + ", " + JoinClauses(fields[1..])
  }

  /** The text of the update statement. */
  function UpdateSql(fields: seq<SetClause>, idParam: nat): string {
    "UPDATE users SET " + JoinClauses(fields) + " WHERE id = $" + NatToString(idParam) + " RETURNING *"
  }

  /** One `SET` entry executed on a row, with `$n` replaced by `values[n-1]`. */
  function ApplyClause(row: SqlUser, f: SetClause, values: seq<SqlValue>, now: int): SqlUser {
    match f
    case Now(_) => row.(updatedAt := now)
    case Param(c, n) =>
      if 1 <= n <= |values| && values[n - 1].Text? then SetColumn(row, c, values[n - 1].text) else row
  }

  /** The `SET` list executed on a row, entry by entry. */
  function ApplySet(row: SqlUser, fields: seq<SetClause>, values: seq<SqlValue>, now: int): SqlUser
    decreases |fields|
  {
    if fields == [] then row else ApplySet(ApplyClause(row, fields[0], values, now), fields[1..], values, now)
  }

  /** The row the update is meant to produce: the truthy fields replaced and the stamp moved. */
  function Patched(row: SqlUser, data: UserData, now: int): (r: SqlUser)
    ensures r.id == row.id && r.createdAt == row.createdAt && r.updatedAt == now
    ensures r.email == (if TruthyStr(data.email) then data.email.value else row.email)
    ensures r.name == (if TruthyStr(data.name) then data.name.value else row.name)
    ensures r.password == (if TruthyStr(data.password) then data.password.value else row.password)
  {
    row.(email := if TruthyStr(data.email) then data.email.value else row.email,
         name := if TruthyStr(data.name) then data.name.value else row.name,
         password := if TruthyStr(data.password) then data.password.value else row.password,
         updatedAt := now)
  }

  /** Applying the same update again changes nothing but the stamp. */
  lemma PatchIdempotent(row: SqlUser, data: UserData, now: int, later: int)
    ensures Patched(Patched(row, data, now), data, later) == Patched(row, data, later)
  {
  }

  /** A row with one column set to a text. */
  function SetColumn(row: SqlUser, c: Column, v: string): SqlUser {
    match c
    case EmailColumn => row.(email := v)
    case NameColumn => row.(name := v)
    case PasswordColumn => row.(password := v)
    case UpdatedAtColumn => row
  }

  /** The columns set one after another to the texts `data` gives for them. */
  function PatchColumns(row: SqlUser, data: UserData, cols: seq<Column>): SqlUser
    decreases |cols|
  {
    if cols == [] then row
    else
      var v := if Given(data, cols[0]).Some? then Given(data, cols[0]).value else "";
      PatchColumns(SetColumn(row, cols[0], v), data, cols[1..])
  }

  /** From entry `i` on, the numbered `SET` list sets the remaining columns and then the stamp. */
  lemma {:induction false} ApplyFrom(r: SqlUser, data: UserData, id: nat, fields: seq<SetClause>,
                                     values: seq<SqlValue>, idParam: nat, i: nat, now: int)
    requires Placeholders(data, id, fields, values, idParam) && i <= |Columns(data)|
    ensures ApplySet(r, fields[i..], values, now) == PatchColumns(r, data, Columns(data)[i..]).(updatedAt := now)
    decreases |Columns(data)| - i
  {
    var cols := Columns(data);
    var k := |cols|;
    if i == k {
      assert fields[k..] == [Now(UpdatedAtColumn)];
      assert cols[k..] == [];
      assert ApplySet(r, fields[k..], values, now) == ApplySet(r.(updatedAt := now), [], values, now);
    } else {
      assert fields[..k][i] == fields[i] && values[..k][i] == values[i];
      assert fields[i..][0] == Param(cols[i], i + 1) && fields[i..][1..] == fields[i + 1..];
      assert cols[i..][0] == cols[i] && cols[i..][1..] == cols[i + 1..];
      var v := Given(data, cols[i]).value;
      assert ApplyClause(r, fields[i], values, now) == SetColumn(r, cols[i], v);
      ApplyFrom(SetColumn(r, cols[i], v), data, id, fields, values, idParam, i + 1, now);
    }
  }

  /** Setting the supplied columns in order is the intended patch. */
  lemma PatchColumnsIsPatched(row: SqlUser, data: UserData, now: int)
    ensures PatchColumns(row, data, Columns(data)).(updatedAt := now) == Patched(row, data, now)
  {
    var cols := Columns(data);
    var r := row;
    var rest := cols;
    if TruthyStr(data.email) {
      assert rest[0] == EmailColumn;
      assert PatchColumns(r, data, rest) == PatchColumns(r.(email := data.email.value), data, rest[1..]);
      r, rest := r.(email := data.email.value), rest[1..];
    }
    if TruthyStr(data.name) {
      assert rest[0] == NameColumn;
      assert PatchColumns(r, data, rest) == PatchColumns(r.(name := data.name.value), data, rest[1..]);
      r, rest := r.(name := data.name.value), rest[1..];
    }
    if TruthyStr(data.password) {
      assert rest[0] == PasswordColumn;
      assert PatchColumns(r, data, rest) == PatchColumns(r.(password := data.password.value), data, rest[1..]);
      r, rest := r.(password := data.password.value), rest[1..];
    }
    assert rest == [];
  }

  /** A query whose parameters are numbered as built sets each column to the value given for it. */
  lemma NumberingIsFaithful(row: SqlUser, data: UserData, id: nat,
                            fields: seq<SetClause>, values: seq<SqlValue>, idParam: nat, now: int)
    requires Placeholders(data, id, fields, values, idParam)
    ensures ApplySet(row, fields, values, now) == Patched(row, data, now)
  {
    ApplyFrom(row, data, id, fields, values, idParam, 0, now);
    assert fields[0..] == fields && Columns(data)[0..] == Columns(data);
    PatchColumnsIsPatched(row, data, now);
  }

  /** At most one row has a given e-mail: the column's unique index. */
  predicate EmailsUnique(rows: map<nat, SqlUser>) {
    forall a, b | a in rows && b in rows && a != b :: rows[a].email != rows[b].email
  }

  /** The `users` table behind the connection pool. */
  class UsersTable {
    var rows: map<nat, SqlUser>
    var nextId: nat

    ghost predicate Valid()
      reads this
    {
      nextId > 0 && (forall k | k in rows :: rows[k].id == k && k < nextId) && EmailsUnique(rows)
    }

    constructor ()
      ensures Valid() && rows == map[] && nextId == 1
    {
      rows := map[];
      nextId := 1;
    }

    /** `findByEmail(email)`: `null` exactly when no row has the e-mail. */
    method FindByEmail(email: string) returns (u: Option<User>)
      requires Valid()
      ensures u.None? <==> forall k | k in rows :: rows[k].email != email
      ensures u.Some? ==> exists k | k in rows :: rows[k].email == email && u.value == MapRowToUser(rows[k])
    {
      if k :| k in rows && rows[k].email == email {
        return Some(MapRowToUser(rows[k]));
      }
      return None;
    }

    /** `findById(id)`: `null` exactly when no row has the id. */
    method FindById(id: nat) returns (u: Option<User>)
      requires Valid()
      ensures u.None? <==> id !in rows
      ensures u.Some? ==> u.value == MapRowToUser(rows[id]) && u.value.id == Some(id)
    {
      if id !in rows {
        return None;
      }
      return Some(MapRowToUser(rows[id]));
    }

    /** `create(userData)`: an e-mail already stored is "already exists"; both stamps are `now`. */
    method Create(email: string, password: string, name: string, now: int) returns (r: Result<User, RepoError>)
      requires Valid()
      modifies this
      ensures Valid()
      ensures r.Err? <==> exists k | k in old(rows) :: old(rows)[k].email == email
      ensures r.Err? ==> r.error == EmailExists && rows == old(rows) && nextId == old(nextId)
      ensures r.Ok? ==>
                var row := SqlUser(old(nextId), email, password, name, now, now);
                old(nextId) !in old(rows) && rows == old(rows)[old(nextId) := row]
                && nextId == old(nextId) + 1 && r.value == MapRowToUser(row)
    {
      if k :| k in rows && rows[k].email == email {
        return Err(EmailExists);
      }
      var row := SqlUser(nextId, email, password, name, now, now);
      rows := rows[nextId := row];
      nextId := nextId + 1;
      r := Ok(MapRowToUser(row));
    }

    /**
     * `update(id, userData)`: the statement built by `BuildUpdate`, run on
     * the row with the id.  No such row is a wrapped "User not found"; an
     * e-mail held by another row is a wrapped unique violation.
     */
    method Update(id: nat, data: UserData, now: int) returns (r: Result<User, RepoError>)
      requires Valid()
      modifies this
      ensures Valid() && nextId == old(nextId)
      ensures id !in old(rows) ==> r == Err(Wrapped(UpdatePrefix, NoRows)) && rows == old(rows)
      ensures id in old(rows) ==>
                var row := Patched(old(rows)[id], data, now);
                ((exists k | k in old(rows) && k != id :: old(rows)[k].email == row.email) ==>
                   r == Err(Wrapped(UpdatePrefix, SqlState(UniqueViolation))) && rows == old(rows))
                && ((forall k | k in old(rows) && k != id :: old(rows)[k].email != row.email) ==>
                   r == Ok(MapRowToUser(row)) && rows == old(rows)[id := row])
    {
      var fields, values, idParam := BuildUpdate(id, data);
      if id !in rows {
        return Err(Wrapped(UpdatePrefix, NoRows));
      }
      NumberingIsFaithful(rows[id], data, id, fields, values, idParam, now);
      var row := ApplySet(rows[id], fields, values, now);
      if k :| k in rows && k != id && rows[k].email == row.email {
        return Err(Wrapped(UpdatePrefix, SqlState(UniqueViolation)));
      }
      rows := rows[id := row];
      r := Ok(MapRowToUser(row));
    }

    /** `delete(id)`: true exactly when a row went away. */
    method Delete(id: nat) returns (removed: bool)
      requires Valid()
      modifies this
      ensures Valid() && nextId == old(nextId)
      ensures removed <==> id in old(rows)
      ensures rows == old(rows) - {id}
    {
      removed := id in rows;
      rows := rows - {id};
    }
  }
}
