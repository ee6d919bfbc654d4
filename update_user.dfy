/**
 * Editing a user.  The `updateData` object is built field by field: the
 * name, the e-mail and the password are checked, the e-mail stored in
 * lower case, the phone trimmed or `null`.  The row is written, and then,
 * when `roleIds` is sent, the user's roles are reconciled with it: the
 * missing ones are assigned, then the extra ones removed.  The role writes
 * come after the row write and outside any transaction.  The password hash
 * is a parameter: hashing is not modelled.
 */
module UpdateUser {

  import opened Common
  import opened Text
  import opened Store
  import opened UserRoles
  import CreateUser

  /**
   * The request body.  The outer `None` of a field is `undefined`; the inner
   * value is what was sent, `None` standing for `null`.  `isActive` is the
   * truthiness of the value sent (`Boolean(isActive)`).
   */
  datatype UserChanges = UserChanges(
    nombre: Option<Option<string>>,
    email: Option<Option<string>>,
    password: Option<Option<string>>,
    telefono: Option<Option<string>>,
    isActive: Option<bool>,
    roleIds: Option<Option<seq<nat>>>)

  /** `updateData`: the audit fields and the keys that were set, `None` for a key left out. */
  datatype UserPatch = UserPatch(
    updatedBy: Option<nat>,
    updatedAt: int,
    nombre: Option<string>,
    email: Option<string>,
    passwordHash: Option<string>,
    telefono: Option<Option<string>>,
    isActive: Option<bool>)

  datatype UpdateError =
    | UserNotFound
    /** `.trim()`, `.length` or `.map` on `null` throws a TypeError. */
    | NullName
    | BlankName
    | NullEmail
    | BlankEmail
    | BadEmailFormat
    | EmailInUse
    | NullPassword
    | ShortPassword
    | NullRoleIds
    | Db(error: DbError)

  /** The object the use case returns. */
  datatype UserView = UserView(
    id: nat,
    nombre: string,
    email: string,
    telefono: Option<string>,
    isActive: bool,
    roles: seq<string>,
    updatedAt: int)

  /** `findByEmail(email)` finds a user other than `id`. */
  predicate TakenByOther(users: map<nat, UserRow>, email: string, id: nat) {
    exists k | k in users && k != id :: users[k].email == email
  }

  /** Why the name check throws, if it does. */
  function NameError(nombre: Option<Option<string>>): (r: Option<UpdateError>)
    ensures r.None? <==> nombre.None? || (nombre.value.Some? && !IsBlank(nombre.value.value))
    ensures r == Some(NullName) <==> nombre == Some(None)
    ensures r == Some(BlankName) <==> nombre.Some? && nombre.value.Some? && IsBlank(nombre.value.value)
  {
    if nombre.None? then None
    else if nombre.value.None? then Some(NullName)
    else if IsBlank(nombre.value.value) then Some(BlankName)
    else None
  }

  /**
   * Why the e-mail check throws, if it does.  The other users are only
   * consulted when the lower-cased e-mail differs from the lower-cased
   * current one.
   */
  function EmailError(users: map<nat, UserRow>, id: nat, email: Option<Option<string>>): (r: Option<UpdateError>)
    requires id in users
    ensures r == Some(NullEmail) <==> email == Some(None)
    ensures r == Some(BlankEmail) <==> email.Some? && email.value.Some? && IsBlank(email.value.value)
    ensures r == Some(BadEmailFormat) <==>
              email.Some? && email.value.Some? && !IsBlank(email.value.value) && !EmailTest(email.value.value)
    ensures r == Some(EmailInUse) <==>
              email.Some? && email.value.Some? && EmailTest(email.value.value)
              && CreateUser.NormalEmail(email.value.value) != ToLower(users[id].email)
              && TakenByOther(users, CreateUser.NormalEmail(email.value.value), id)
    ensures r.None? <==>
              email.None?
              || (email.value.Some? && EmailTest(email.value.value)
                  && (CreateUser.NormalEmail(email.value.value) == ToLower(users[id].email)
                      || !TakenByOther(users, CreateUser.NormalEmail(email.value.value), id)))
  {
    if email.None? then None
    else if email.value.None? then Some(NullEmail)
    else if IsBlank(email.value.value) then Some(BlankEmail)
    else if !EmailTest(email.value.value) then Some(BadEmailFormat)
    else
      var lower := CreateUser.NormalEmail(email.value.value);
      if lower != ToLower(users[id].email) && TakenByOther(users, lower, id) then Some(EmailInUse)
      else None
  }

  /** Why the password check throws, if it does; an empty password is short, not missing. */
  function PasswordError(password: Option<Option<string>>): (r: Option<UpdateError>)
    ensures r == Some(NullPassword) <==> password == Some(None)
    ensures r == Some(ShortPassword) <==> password.Some? && password.value.Some? && JsLength(password.value.value) < 6
    ensures r.None? <==> password.None? || (password.value.Some? && JsLength(password.value.value) >= 6)
  {
    if password.None? then None
    else if password.value.None? then Some(NullPassword)
    else if JsLength(password.value.value) < 6 then Some(ShortPassword)
    else None
  }

  /** The first check that throws, in source order: name, e-mail, password. */
  function PatchError(users: map<nat, UserRow>, id: nat, changes: UserChanges): (r: Option<UpdateError>)
    requires id in users
    ensures r.None? <==>
              NameError(changes.nombre).None? && EmailError(users, id, changes.email).None?
              && PasswordError(changes.password).None?
    ensures NameError(changes.nombre).Some? ==> r == NameError(changes.nombre)
    ensures NameError(changes.nombre).None? && EmailError(users, id, changes.email).Some? ==>
              r == EmailError(users, id, changes.email)
  {
    if NameError(changes.nombre).Some? then NameError(changes.nombre)
    else if EmailError(users, id, changes.email).Some? then EmailError(users, id, changes.email)
    else PasswordError(changes.password)
  }

  /** `telefono?.trim() || null` */
  function PhoneOrNull(telefono: Option<string>): (r: Option<string>)
    ensures r.Some? ==> telefono.Some? && r.value == Trim(telefono.value) && r.value != []
    ensures r.None? <==> telefono.None? || IsBlank(telefono.value)
  {
    if telefono.Some? then OrNull(Trim(telefono.value)) else None
  }

  /** The object the use case passes to `update`, read declaratively: one key per defined field. */
  function PatchOf(changes: UserChanges, updatedBy: Option<nat>, now: int, passwordHash: string): UserPatch
    requires NameError(changes.nombre).None?
    requires changes.email.Some? ==> changes.email.value.Some?
    requires changes.password.Some? ==> changes.password.value.Some?
  {
    UserPatch(updatedBy, now,
              if changes.nombre.Some? then Some(Trim(changes.nombre.value.value)) else None,
              if changes.email.Some? then Some(CreateUser.NormalEmail(changes.email.value.value)) else None,
              if changes.password.Some? then Some(passwordHash) else None,
              if changes.telefono.Some? then Some(PhoneOrNull(changes.telefono.value)) else None,
              changes.isActive)
  }

  /** `prisma.user.update({ data })`: every key of the patch overwrites its column. */
  function Apply(row: UserRow, p: UserPatch): UserRow {
    row.(updatedBy := p.updatedBy, updatedAt := p.updatedAt,
         nombre := if p.nombre.Some? then p.nombre.value else row.nombre,
         email := if p.email.Some? then p.email.value else row.email,
         passwordHash := if p.passwordHash.Some? then p.passwordHash.value else row.passwordHash,
         telefono := if p.telefono.Some? then p.telefono.value else row.telefono,
         isActive := if p.isActive.Some? then p.isActive.value else row.isActive)
  }

  /**
   * Building `updateData` at clock `now`: the audit fields first, then one
   * `if` per field in source order.  A check may throw before the later
   * fields are looked at.
   */
  method BuildPatch(users: map<nat, UserRow>, id: nat, changes: UserChanges, updatedBy: Option<nat>,
                    now: int, passwordHash: string) returns (r: Result<UserPatch, UpdateError>)
    requires id in users
    ensures r.Err? <==> PatchError(users, id, changes).Some?
    ensures r.Err? ==> r.error == PatchError(users, id, changes).value
    ensures r.Ok? ==> r.value == PatchOf(changes, updatedBy, now, passwordHash)
  {
    var patch := UserPatch(updatedBy, now, None, None, None, None, None);
    if changes.nombre.Some? {
      if changes.nombre.value.None? {
        return Err(NullName);
      }
      if |Trim(changes.nombre.value.value)| == 0 {
        return Err(BlankName);
      }
      patch := patch.(nombre := Some(Trim(changes.nombre.value.value)));
    }
    if changes.email.Some? {
      if changes.email.value.None? {
        return Err(NullEmail);
      }
      var email := changes.email.value.value;
      if |Trim(email)| == 0 {
        return Err(BlankEmail);
      }
      if !EmailTest(email) {
        return Err(BadEmailFormat);
      }
      var lower := Trim(ToLower(email));
      if lower != ToLower(users[id].email) {
        if TakenByOther(users, lower, id) {
          return Err(EmailInUse);
        }
      }
      patch := patch.(email := Some(lower));
    }
    if changes.password.Some? {
      if changes.password.value.None? {
        return Err(NullPassword);
      }
      if JsLength(changes.password.value.value) < 6 {
        return Err(ShortPassword);
      }
      patch := patch.(passwordHash := Some(passwordHash));
    }
    if changes.telefono.Some? {
      patch := patch.(telefono := Some(PhoneOrNull(changes.telefono.value)));
    }
    if changes.isActive.Some? {
      patch := patch.(isActive := changes.isActive);
    }
    r := Ok(patch);
  }

  /**
   * Field by field: an undefined field keeps its value, a defined one takes
   * the trimmed name, the lower-cased e-mail, the new hash, the trimmed
   * phone or `null`; the id and the creation stamp never change, and the
   * audit fields are always written.
   */
  lemma {:induction false} UpdateFieldwise(users: map<nat, UserRow>, id: nat, changes: UserChanges,
                                           updatedBy: Option<nat>, now: int, passwordHash: string)
    requires id in users && PatchError(users, id, changes).None?
    ensures var row := users[id];
            var n := Apply(row, PatchOf(changes, updatedBy, now, passwordHash));
            n.id == row.id && n.createdBy == row.createdBy && n.createdAt == row.createdAt
            && n.updatedBy == updatedBy && n.updatedAt == now
            && n.nombre == (if changes.nombre.None? then row.nombre else Trim(changes.nombre.value.value))
            && (changes.nombre.Some? ==> n.nombre != [])
            && n.email == (if changes.email.None? then row.email else ToLower(changes.email.value.value))
            && (changes.email.Some? ==> EmailTest(n.email) && ToLower(n.email) == n.email)
            && n.passwordHash == (if changes.password.None? then row.passwordHash else passwordHash)
            && n.telefono == (if changes.telefono.None? then row.telefono else PhoneOrNull(changes.telefono.value))
            && n.isActive == (if changes.isActive.None? then row.isActive else changes.isActive.value)
  {
    if changes.email.Some? {
      var e := changes.email.value.value;
      EmailTestLower(e);
      EmailTestTrimmed(ToLower(e));
      ToLowerIdempotent(e);
    }
    if changes.nombre.Some? {
      TrimIdempotent(changes.nombre.value.value);
    }
  }

  /**
   * With e-mails unique and in lower case, as user creation and this edit
   * store them, the lookup catches every clash: the unique column is never
   * reached.  A stored e-mail with capitals, compared in lower case with the
   * one sent, would skip the lookup.
   */
  lemma {:induction false} LookupCatchesClash(users: map<nat, UserRow>, id: nat, changes: UserChanges,
                                              updatedBy: Option<nat>, now: int, passwordHash: string)
    requires id in users && UniqueEmails(users) && CreateUser.EmailsLower(users)
    requires PatchError(users, id, changes).None?
    ensures var p := PatchOf(changes, updatedBy, now, passwordHash);
            !(p.email.Some? && TakenByOther(users, p.email.value, id))
  {
    var p := PatchOf(changes, updatedBy, now, passwordHash);
    if p.email.Some? {
      assert ToLower(users[id].email) == users[id].email;
      assert forall k | k in users && k != id :: users[k].email != users[id].email;
    }
  }

  /** Writing a row whose e-mail no other user holds keeps the e-mails unique. */
  lemma {:induction false} WriteKeepsUnique(users: map<nat, UserRow>, id: nat, row: UserRow)
    requires UniqueEmails(users) && id in users && !TakenByOther(users, row.email, id)
    ensures UniqueEmails(users[id := row])
  {
    var m := users[id := row];
    forall a, b | a in m && b in m && m[a].email == m[b].email
      ensures a == b
    {
      if a != id && b != id {
        assert m[a] == users[a] && m[b] == users[b];
      }
    }
  }

  /** Both user use cases store lower-case e-mails only. */
  lemma {:induction false} WriteKeepsLower(users: map<nat, UserRow>, id: nat, changes: UserChanges,
                                           updatedBy: Option<nat>, now: int, passwordHash: string)
    requires id in users && CreateUser.EmailsLower(users) && PatchError(users, id, changes).None?
    ensures CreateUser.EmailsLower(users[id := Apply(users[id], PatchOf(changes, updatedBy, now, passwordHash))])
  {
    UpdateFieldwise(users, id, changes, updatedBy, now, passwordHash);
  }

  /**
   * The reconciliation over the rows: `toAdd` are the requested ids the user
   * lacks, `toRemove` the ids the user has and did not request; the
   * assignments run first and a failure skips the removals.
   */
  function Reconcile(rows: seq<UserRole>, users: map<nat, UserRow>, roles: map<nat, RoleRow>,
                     id: nat, roleIds: seq<nat>): Assignment
  {
    var current := RoleIdsOf(rows, id);
    var added := AssignAll(rows, users, roles, id, Filter(roleIds, current));
    if added.outcome.Fail? then added else RemoveAll(added.rows, id, Filter(current, roleIds))
  }

  /** The rows of a user carry distinct role ids when the rows are distinct. */
  lemma {:induction false} RoleIdsOfDistinct(rows: seq<UserRole>, id: nat)
    requires Distinct(rows)
    ensures Distinct(RoleIdsOf(rows, id))
  {
    if rows != [] {
      assert forall i, j | 0 <= i < j < |rows[1..]| :: rows[1..][i] == rows[i + 1] && rows[1..][j] == rows[j + 1];
      RoleIdsOfDistinct(rows[1..], id);
      if rows[0].userId == id {
        var rest := RoleIdsOf(rows[1..], id);
        var r := [rows[0].roleId] + rest;
        assert rows[0] !in rows[1..];
        assert rows[0] == UserRole(id, rows[0].roleId);
        forall i, j | 0 <= i < j < |r|
          ensures r[i] != r[j]
        {
          assert r[j] == rest[j - 1];
          if i > 0 {
            assert r[i] == rest[i - 1];
          }
        }
      }
    }
  }

  lemma JoinRowsOfUser(userId: nat, ids: seq<nat>, y: UserRole)
    requires y in JoinRows(userId, ids)
    ensures y.userId == userId && y.roleId in ids
  {
    var k :| 0 <= k < |JoinRows(userId, ids)| && JoinRows(userId, ids)[k] == y;
    assert ids[k] == y.roleId;
  }

  /**
   * Sending existing, distinct role ids sets the user's roles to exactly
   * those and leaves every other user's rows as they were.
   */
  lemma {:induction false} ReconcileSetsRoles(rows: seq<UserRole>, users: map<nat, UserRow>, roles: map<nat, RoleRow>,
                                              id: nat, roleIds: seq<nat>)
    requires id in users && Distinct(rows) && Distinct(roleIds)
    requires forall j | 0 <= j < |roleIds| :: roleIds[j] in roles
    ensures var a := Reconcile(rows, users, roles, id, roleIds);
            a.outcome.Pass?
            && (forall v :: UserRole(id, v) in a.rows <==> v in roleIds)
            && (forall y: UserRole | y.userId != id :: y in a.rows <==> y in rows)
  {
    var current := RoleIdsOf(rows, id);
    var toAdd := Filter(roleIds, current);
    var toRemove := Filter(current, roleIds);
    FilterDistinct(roleIds, toAdd);
    FilterDistinct(roleIds, current);
    assert Assignable(rows, users, roles, id, toAdd) by {
      forall j | 0 <= j < |toAdd|
        ensures toAdd[j] in roles && UserRole(id, toAdd[j]) !in rows
      {
        assert toAdd[j] in toAdd;
      }
    }
    AssignAllPasses(rows, users, roles, id, toAdd);
    var added := AssignAll(rows, users, roles, id, toAdd);
    assert added.rows == rows + JoinRows(id, toAdd);
    RoleIdsOfDistinct(rows, id);
    FilterDistinct(current, roleIds);
    assert forall j | 0 <= j < |toRemove| :: UserRole(id, toRemove[j]) in added.rows by {
      forall j | 0 <= j < |toRemove|
        ensures UserRole(id, toRemove[j]) in added.rows
      {
        assert toRemove[j] in toRemove;
      }
    }
    RemoveAllPasses(added.rows, id, toRemove);
    var a := RemoveAll(added.rows, id, toRemove);
    forall v
      ensures UserRole(id, v) in a.rows <==> v in roleIds
    {
      InJoinRows(id, toAdd, v);
    }
    forall y: UserRole | y.userId != id
      ensures y in a.rows <==> y in rows
    {
      if y in JoinRows(id, toAdd) {
        JoinRowsOfUser(id, toAdd, y);
      }
    }
  }

  /** The role reconciliation against the join table. */
  method ReconcileRoles(db: Db, id: nat, roleIds: seq<nat>) returns (r: Outcome<DbError>)
    requires db.Valid()
    modifies db`userRoles
    ensures db.Valid()
    ensures Assignment(r, db.userRoles) == Reconcile(old(db.userRoles), old(db.users), old(db.roles), id, roleIds)
  {
    var current := RoleIdsOf(db.userRoles, id);
    var toAdd := Filter(roleIds, current);
    var toRemove := Filter(current, roleIds);
    var added := AssignEach(db, id, toAdd);
    if added.Fail? {
      return added;
    }
    r := RemoveEach(db, id, toRemove);
  }

  /** `userRepository.update(userId, updateData)`: the `email` column is unique. */
  method Write(db: Db, id: nat, p: UserPatch) returns (r: Result<UserRow, DbError>)
    requires db.Valid() && id in db.users
    modifies db`users
    ensures db.Valid()
    ensures r.Err? <==> p.email.Some? && TakenByOther(old(db.users), p.email.value, id)
    ensures r.Err? ==> r.error == UniqueViolation(["email"]) && db.users == old(db.users)
    ensures r.Ok? ==> r.value == Apply(old(db.users)[id], p) && db.users == old(db.users)[id := r.value]
    ensures UniqueEmails(old(db.users)) ==> UniqueEmails(db.users)
  {
    if p.email.Some? && TakenByOther(db.users, p.email.value, id) {
      return Err(UniqueViolation(["email"]));
    }
    var updated := Apply(db.users[id], p);
    if UniqueEmails(db.users) {
      assert !TakenByOther(db.users, updated.email, id) by {
        if p.email.None? {
          assert updated.email == db.users[id].email;
          assert forall k | k in db.users && k != id :: db.users[k].email != db.users[id].email;
        }
      }
      WriteKeepsUnique(db.users, id, updated);
    }
    db.users := db.users[id := updated];
    r := Ok(updated);
  }

  function View(row: UserRow, roles: seq<string>): UserView {
    UserView(row.id, row.nombre, row.email, row.telefono, row.isActive, roles, row.updatedAt)
  }

  /**
   * `execute(userId, userData, updatedBy)` at clock `now`, with the hash of
   * the new password.  The checks write nothing when they fail; after the
   * row write a `null` `roleIds` throws and a role write can fail, and
   * neither undoes the row write.
   */
  method Execute(db: Db, id: nat, changes: UserChanges, updatedBy: Option<nat>, now: int, passwordHash: string)
    returns (r: Result<UserView, UpdateError>)
    requires db.Valid()
    modifies db`users, db`userRoles
    ensures db.Valid()
    ensures r == Err(UserNotFound) <==> id !in old(db.users)
    ensures id in old(db.users) && PatchError(old(db.users), id, changes).Some? ==>
              r == Err(PatchError(old(db.users), id, changes).value)
              && db.users == old(db.users) && db.userRoles == old(db.userRoles)
    ensures id in old(db.users) && PatchError(old(db.users), id, changes).None? ==>
              var p := PatchOf(changes, updatedBy, now, passwordHash);
              var n := Apply(old(db.users)[id], p);
              if p.email.Some? && TakenByOther(old(db.users), p.email.value, id) then
                r == Err(Db(UniqueViolation(["email"])))
                && db.users == old(db.users) && db.userRoles == old(db.userRoles)
              else
                db.users == old(db.users)[id := n]
                && (changes.roleIds.None? ==>
                      db.userRoles == old(db.userRoles)
                      && r == Ok(View(n, RoleNames(RoleIdsOf(db.userRoles, id), old(db.roles)))))
                && (changes.roleIds == Some(None) ==> r == Err(NullRoleIds) && db.userRoles == old(db.userRoles))
                && (changes.roleIds.Some? && changes.roleIds.value.Some? ==>
                      var a := Reconcile(old(db.userRoles), db.users, old(db.roles), id, changes.roleIds.value.value);
                      db.userRoles == a.rows
                      && (r.Ok? <==> a.outcome.Pass?)
                      && (r.Err? ==> a.outcome.Fail? && r.error == Db(a.outcome.error))
                      && (r.Ok? ==> r.value == View(n, RoleNames(RoleIdsOf(db.userRoles, id), old(db.roles)))))
    ensures UniqueEmails(old(db.users)) ==> UniqueEmails(db.users)
  {
    if id !in db.users {
      return Err(UserNotFound);
    }
    var built := BuildPatch(db.users, id, changes, updatedBy, now, passwordHash);
    if built.Err? {
      return Err(built.error);
    }
    var written := Write(db, id, built.value);
    if written.Err? {
      return Err(Db(written.error));
    }
    if changes.roleIds.Some? {
      if changes.roleIds.value.None? {
        return Err(NullRoleIds);
      }
      var reconciled := ReconcileRoles(db, id, changes.roleIds.value.value);
      if reconciled.Fail? {
        return Err(Db(reconciled.error));
      }
    }
    var user := db.users[id];
    r := Ok(View(user, RoleNames(RoleIdsOf(db.userRoles, id), db.roles)));
  }
}
