/**
 * Creating a user: the name, e-mail, format and password guards, the
 * lookup of the e-mail as given, the insert of the lower-cased e-mail, which
 * the unique `email` column checks once more, and then one role assignment
 * per requested role id.  The assignments run after the insert and outside
 * any transaction: a failing one leaves the user and the earlier roles in
 * place.  The password hash is a parameter: hashing is not modelled.
 */
module CreateUser {

  import opened Common
  import opened Text
  import opened Store
  import opened UserRoles
  import opened ErrorHandler

  /** The request body; an absent or `null` `roleIds` is the empty list. */
  datatype UserData = UserData(
    nombre: Option<string>,
    email: Option<string>,
    password: Option<string>,
    telefono: Option<string>,
    roleIds: seq<nat>)

  datatype CreateError =
    | MissingName
    | MissingEmail
    | BadEmailFormat
    | ShortPassword
    | EmailTaken
    | Db(error: DbError)

  /** The object the use case returns. */
  datatype UserView = UserView(
    id: nat,
    nombre: string,
    email: string,
    telefono: Option<string>,
    isActive: bool,
    roles: seq<string>,
    createdAt: int)

  /** `findByEmail(e)` finds a row: the lookup is exact. */
  predicate EmailRegistered(users: map<nat, UserRow>, email: string) {
    exists k | k in users :: users[k].email == email
  }

  /** The form checks: a name, an e-mail that matches the pattern, a password of at least six characters. */
  predicate FormOk(data: UserData) {
    !MissingOrBlank(data.nombre) && !MissingOrBlank(data.email) && EmailTest(data.email.value)
    && TruthyStr(data.password) && JsLength(data.password.value) >= 6
  }

  /** The guards, in source order; the last one looks the e-mail up as it was sent. */
  function Check(users: map<nat, UserRow>, data: UserData): (r: Outcome<CreateError>)
    ensures r == Fail(MissingName) <==> MissingOrBlank(data.nombre)
    ensures r == Fail(MissingEmail) <==> !MissingOrBlank(data.nombre) && MissingOrBlank(data.email)
    ensures r == Fail(BadEmailFormat) <==>
              !MissingOrBlank(data.nombre) && !MissingOrBlank(data.email) && !EmailTest(data.email.value)
    ensures r == Fail(ShortPassword) <==>
              !MissingOrBlank(data.nombre) && !MissingOrBlank(data.email) && EmailTest(data.email.value)
              && (!TruthyStr(data.password) || JsLength(data.password.value) < 6)
    ensures r == Fail(EmailTaken) <==> FormOk(data) && EmailRegistered(users, data.email.value)
    ensures r.Pass? <==> FormOk(data) && !EmailRegistered(users, data.email.value)
  {
    if MissingOrBlank(data.nombre) then Fail(MissingName)
    else if MissingOrBlank(data.email) then Fail(MissingEmail)
    else if !EmailTest(data.email.value) then Fail(BadEmailFormat)
    else if !TruthyStr(data.password) || JsLength(data.password.value) < 6 then Fail(ShortPassword)
    else if EmailRegistered(users, data.email.value) then Fail(EmailTaken)
    else Pass
  }

  /** `email.toLowerCase().trim()` */
  function NormalEmail(email: string): string {
    Trim(ToLower(email))
  }

  function StoredEmail(data: UserData): string
    requires data.email.Some?
  {
    NormalEmail(data.email.value)
  }

  /** The row `create` is asked to store at `id`. */
  function NewUser(id: nat, data: UserData, passwordHash: string, createdBy: Option<nat>, now: int): UserRow
    requires data.nombre.Some? && data.email.Some?
  {
    UserRow(id, Trim(data.nombre.value), StoredEmail(data), passwordHash,
            if data.telefono.Some? then OrNull(Trim(data.telefono.value)) else None,
            true, createdBy, now, createdBy, now)
  }

  function View(row: UserRow, roles: seq<string>): UserView {
    UserView(row.id, row.nombre, row.email, row.telefono, row.isActive, roles, row.createdAt)
  }

  /**
   * What is stored for a request that passes the checks: the trimmed name,
   * the lower-cased e-mail (which has no white space to trim and still
   * matches the pattern), the trimmed phone or `null`, an active user whose
   * creator is also its last editor.
   */
  lemma NewUserLaws(id: nat, data: UserData, passwordHash: string, createdBy: Option<nat>, now: int)
    requires FormOk(data)
    ensures var row := NewUser(id, data, passwordHash, createdBy, now);
            row.id == id && row.nombre == Trim(data.nombre.value) && row.nombre != []
            && row.email == ToLower(data.email.value) && EmailTest(row.email) && ToLower(row.email) == row.email
            && row.passwordHash == passwordHash
            && (data.telefono.None? ==> row.telefono.None?)
            && (row.telefono.Some? ==> row.telefono == Some(Trim(data.telefono.value)) && row.telefono.value != [])
            && row.isActive && row.createdBy == createdBy && row.updatedBy == createdBy
            && row.createdAt == now && row.updatedAt == now
  {
    EmailTestLower(data.email.value);
    EmailTestTrimmed(ToLower(data.email.value));
    ToLowerIdempotent(data.email.value);
  }

  /** The e-mail of every row is already in lower case. */
  ghost predicate EmailsLower(users: map<nat, UserRow>) {
    forall k | k in users :: ToLower(users[k].email) == users[k].email
  }

  /** The thrown error: plain errors for the guards, the database's own otherwise. */
  function Thrown(e: CreateError): (err: JsError)
    ensures e.Db? ==> err == PrismaError(e.error)
    ensures !e.Db? ==> err == JsError("Error", None, None, None, None)
  {
    if e.Db? then PrismaError(e.error) else JsError("Error", None, None, None, None)
  }

  /**
   * The same e-mail is answered in two ways: sent exactly as stored it meets
   * the lookup and is a plain error (500); sent in other letter case it slips
   * past the lookup and meets the unique column (409 on `email`).
   */
  lemma DuplicateEmailAnswers(users: map<nat, UserRow>, data: UserData)
    requires FormOk(data)
    ensures EmailRegistered(users, data.email.value) ==>
              HandleError(Thrown(Check(users, data).error)) == Response(500, "INTERNAL_ERROR", None)
    ensures !EmailRegistered(users, data.email.value) && EmailRegistered(users, StoredEmail(data)) ==>
              HandleError(Thrown(Db(UniqueViolation(["email"])))) == Response(409, "DUPLICATE_ENTRY", Some("email"))
  {
    DbErrorResponses(UniqueViolation(["email"]));
  }

  /** A created user keeps every stored e-mail in lower case. */
  lemma CreateKeepsLower(users: map<nat, UserRow>, id: nat, data: UserData, passwordHash: string,
                         createdBy: Option<nat>, now: int)
    requires EmailsLower(users) && FormOk(data)
    ensures EmailsLower(users[id := NewUser(id, data, passwordHash, createdBy, now)])
  {
    NewUserLaws(id, data, passwordHash, createdBy, now);
  }

  /**
   * An e-mail that differs from a stored one only in letter case passes the
   * lookup, and its lower-cased form is then the stored one.
   */
  lemma {:induction false} CaseVariantReachesColumn(users: map<nat, UserRow>, data: UserData)
    requires FormOk(data) && !EmailRegistered(users, data.email.value)
    requires EmailRegistered(users, ToLower(data.email.value))
    ensures Check(users, data).Pass?
    ensures EmailRegistered(users, StoredEmail(data))
  {
    EmailTestLower(data.email.value);
    EmailTestTrimmed(ToLower(data.email.value));
  }

  /** Such a request exists: "Ana@x.co" against a stored "ana@x.co". */
  lemma CaseVariantExample(row: UserRow, data: UserData)
    requires row.email == "ana@x.co" && data.email == Some("Ana@x.co") && FormOk(data)
    ensures !EmailRegistered(map[row.id := row], data.email.value)
    ensures EmailRegistered(map[row.id := row], ToLower(data.email.value))
  {
    var users := map[row.id := row];
    assert "Ana@x.co"[0] != "ana@x.co"[0];
    assert ToLower("Ana@x.co") == "ana@x.co";
    assert users[row.id].email == ToLower(data.email.value);
  }

  /** Inserting a row whose e-mail is new keeps the e-mails unique. */
  lemma InsertKeepsUnique(users: map<nat, UserRow>, id: nat, row: UserRow)
    requires UniqueEmails(users) && id !in users && !EmailRegistered(users, row.email)
    ensures UniqueEmails(users[id := row])
  {
    var m := users[id := row];
    forall a, b | a in m && b in m && m[a].email == m[b].email
      ensures a == b
    {
    }
  }

  /**
   * The role loop for a user that did not exist before: it succeeds exactly
   * when every id names a role and no id repeats, and then the user's role
   * ids are the requested ones, in the requested order.  The join rows still
   * refer to existing users.
   */
  lemma NewUserRoles(rows: seq<UserRole>, users: map<nat, UserRow>, roles: map<nat, RoleRow>,
                     id: nat, row: UserRow, ids: seq<nat>)
    requires RowsReferUsers(rows, users) && id !in users
    ensures var a := AssignAll(rows, users[id := row], roles, id, ids);
            (a.outcome.Pass? <==> (forall j | 0 <= j < |ids| :: ids[j] in roles) && Distinct(ids))
            && (a.outcome.Pass? ==> RoleIdsOf(a.rows, id) == ids)
            && RowsReferUsers(a.rows, users[id := row])
  {
    var u := users[id := row];
    NoRowsOfMissingUser(rows, users, id);
    AssignAllPasses(rows, u, roles, id, ids);
    assert RowsReferUsers(rows, u);
    AssignAllKeepsRefer(rows, u, roles, id, ids);
    var a := AssignAll(rows, u, roles, id, ids);
    if a.outcome.Pass? {
      RoleIdsOfAppend(rows, JoinRows(id, ids), id);
      RoleIdsOfJoinRows(id, ids, id);
    }
  }

  /**
   * A repeated role id stops the loop at its second occurrence with a unique
   * violation; the first one stays assigned and the user stays created.
   */
  lemma RepeatedRoleId(rows: seq<UserRole>, users: map<nat, UserRow>, roles: map<nat, RoleRow>, id: nat, x: nat)
    requires id in users && x in roles && UserRole(id, x) !in rows
    ensures AssignAll(rows, users, roles, id, [x, x]) ==
              Assignment(Fail(UniqueViolation(["userId", "roleId"])), rows + [UserRole(id, x)])
  {
    assert [x, x][..1] == [x];
    assert [x][..0] == [];
    assert AssignAll(rows, users, roles, id, []) == Assignment(Pass, rows);
    var first := AssignAll(rows, users, roles, id, [x]);
    assert first == Assignment(Pass, rows + [UserRole(id, x)]);
    assert UserRole(id, x) in first.rows;
  }

  /** `userRepository.create(row)`: the row is stored at the next id unless its e-mail is taken. */
  method Insert(db: Db, row: UserRow) returns (r: Result<UserRow, DbError>)
    requires db.Valid()
    modifies db`users, db`nextUserId
    ensures db.Valid()
    ensures r.Err? <==> EmailRegistered(old(db.users), row.email)
    ensures r.Err? ==> r.error == UniqueViolation(["email"])
                       && db.users == old(db.users) && db.nextUserId == old(db.nextUserId)
    ensures r.Ok? ==> r.value == row.(id := old(db.nextUserId))
                      && db.users == old(db.users)[old(db.nextUserId) := r.value]
                      && db.nextUserId == old(db.nextUserId) + 1
    ensures UniqueEmails(old(db.users)) ==> UniqueEmails(db.users)
  {
    if EmailRegistered(db.users, row.email) {
      return Err(UniqueViolation(["email"]));
    }
    var stored := row.(id := db.nextUserId);
    if UniqueEmails(db.users) {
      InsertKeepsUnique(db.users, db.nextUserId, stored);
    }
    db.users := db.users[db.nextUserId := stored];
    db.nextUserId := db.nextUserId + 1;
    r := Ok(stored);
  }

  /**
   * `execute(userData, createdBy)` at clock `now`, with the hash of the
   * password.  The guards and the insert write nothing when they fail; the
   * role loop then runs on the created user and may stop part way.
   */
  method Execute(db: Db, data: UserData, passwordHash: string, createdBy: Option<nat>, now: int)
    returns (r: Result<UserView, CreateError>)
    requires db.Valid()
    modifies db`users, db`nextUserId, db`userRoles
    ensures db.Valid()
    ensures Check(old(db.users), data).Fail? ==>
              r == Err(Check(old(db.users), data).error)
              && db.users == old(db.users) && db.nextUserId == old(db.nextUserId) && db.userRoles == old(db.userRoles)
    ensures Check(old(db.users), data).Pass? && EmailRegistered(old(db.users), StoredEmail(data)) ==>
              r == Err(Db(UniqueViolation(["email"])))
              && db.users == old(db.users) && db.nextUserId == old(db.nextUserId) && db.userRoles == old(db.userRoles)
    ensures Check(old(db.users), data).Pass? && !EmailRegistered(old(db.users), StoredEmail(data)) ==>
              var id := old(db.nextUserId);
              var row := NewUser(id, data, passwordHash, createdBy, now);
              var a := AssignAll(old(db.userRoles), db.users, old(db.roles), id, data.roleIds);
              db.users == old(db.users)[id := row] && db.nextUserId == id + 1 && db.userRoles == a.rows
              && (r.Ok? <==> a.outcome.Pass?)
              && (r.Err? ==> a.outcome.Fail? && r.error == Db(a.outcome.error))
              && (r.Ok? ==> r.value == View(row, RoleNames(RoleIdsOf(db.userRoles, id), old(db.roles))))
    ensures UniqueEmails(old(db.users)) ==> UniqueEmails(db.users)
  {
    var check := Check(db.users, data);
    if check.Fail? {
      return Err(check.error);
    }
    var inserted := Insert(db, NewUser(db.nextUserId, data, passwordHash, createdBy, now));
    if inserted.Err? {
      return Err(Db(inserted.error));
    }
    var user := inserted.value;
    var granted := AssignEach(db, user.id, data.roleIds);
    if granted.Fail? {
      return Err(Db(granted.error));
    }
    r := Ok(View(user, RoleNames(RoleIdsOf(db.userRoles, user.id), db.roles)));
  }
}
