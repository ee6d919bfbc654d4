/**
 * Deleting a user: three guards (the user exists, is not the caller, is not
 * the main administrator), then either the soft delete, which only
 * deactivates the row and stamps the audit fields, or the hard delete,
 * which removes the row together with its role rows and refresh tokens, as
 * the schema's cascades do.  Whether some other table restricts the delete
 * (Prisma's P2003) depends on a schema this model does not see, so it is a
 * parameter.
 */
module DeleteUser {

  import opened Common
  import opened Store

  /** The seeded administrator's address: that account can never be deleted. */
  const MainAdminEmail := "admin@creditos.com"

  datatype DeleteError =
    | UserNotFound
    | DeletingSelf
    | MainAdministrator
    /** The hard delete met a restricting reference (P2003). */
    | RelatedData

  /** The guards shared by both deletes, in source order. */
  function GuardError(users: map<nat, UserRow>, userId: nat, deletedBy: nat): (r: Option<DeleteError>)
    ensures r == Some(UserNotFound) <==> userId !in users
    ensures r == Some(DeletingSelf) <==> userId in users && userId == deletedBy
    ensures r == Some(MainAdministrator) <==>
              userId in users && userId != deletedBy && users[userId].email == MainAdminEmail
    ensures r.None? <==> userId in users && userId != deletedBy && users[userId].email != MainAdminEmail
  {
    if userId !in users then Some(UserNotFound)
    else if userId == deletedBy then Some(DeletingSelf)
    else if users[userId].email == MainAdminEmail then Some(MainAdministrator)
    else None
  }

  /** The row after the soft delete. */
  function Deactivated(row: UserRow, deletedBy: nat, now: int): (n: UserRow)
    ensures !n.isActive && n.updatedBy == Some(deletedBy) && n.updatedAt == now
    ensures n.(isActive := row.isActive, updatedBy := row.updatedBy, updatedAt := row.updatedAt) == row
  {
    row.(isActive := false, updatedBy := Some(deletedBy), updatedAt := now)
  }

  /** Deactivating again only moves the stamp: the state reached is the same. */
  lemma DeactivateTwice(row: UserRow, deletedBy: nat, now: int, later: int)
    ensures Deactivated(Deactivated(row, deletedBy, now), deletedBy, later) == Deactivated(row, deletedBy, later)
  {
  }

  /** The role rows left when a user's rows cascade away. */
  function RowsWithout(rows: seq<UserRole>, userId: nat): (r: seq<UserRole>)
    ensures forall y :: y in r <==> y in rows && y.userId != userId
    ensures |r| <= |rows|
  {
    if rows == [] then []
    else if rows[0].userId == userId then RowsWithout(rows[1..], userId)
    else [rows[0]] + RowsWithout(rows[1..], userId)
  }

  lemma {:induction false} RowsWithoutDistinct(rows: seq<UserRole>, userId: nat)
    requires Distinct(rows)
    ensures Distinct(RowsWithout(rows, userId))
  {
    if rows != [] {
      assert forall i, j | 0 <= i < j < |rows[1..]| :: rows[1..][i] == rows[i + 1] && rows[1..][j] == rows[j + 1];
      RowsWithoutDistinct(rows[1..], userId);
      if rows[0].userId != userId {
        var t := RowsWithout(rows[1..], userId);
        var r := [rows[0]] + t;
        assert rows[0] !in rows[1..];
        forall i, j | 0 <= i < j < |r|
          ensures r[i] != r[j]
        {
          assert r[j] == t[j - 1];
          if i > 0 {
            assert r[i] == t[i - 1];
          }
        }
      }
    }
  }

  /** The refresh tokens left when a user's tokens cascade away. */
  function TokensWithout(tokens: map<string, TokenRow>, userId: nat): (r: map<string, TokenRow>)
    ensures forall t :: t in r <==> t in tokens && tokens[t].userId != userId
    ensures forall t | t in r :: r[t] == tokens[t]
  {
    map t | t in tokens && tokens[t].userId != userId :: tokens[t]
  }

  /**
   * After a hard delete every remaining role row still belongs to a
   * remaining user: the cascade leaves no dangling row.
   */
  lemma {:induction false} HardDeleteKeepsRefer(rows: seq<UserRole>, users: map<nat, UserRow>, userId: nat)
    requires RowsReferUsers(rows, users)
    ensures RowsReferUsers(RowsWithout(rows, userId), users - {userId})
  {
    var r := RowsWithout(rows, userId);
    forall i | 0 <= i < |r|
      ensures r[i].userId in users - {userId}
    {
      assert r[i] in r;
      var k :| 0 <= k < |rows| && rows[k] == r[i];
    }
  }

  /** `execute(userId, deletedBy)` at clock `now`: the soft delete. */
  method Execute(db: Db, userId: nat, deletedBy: nat, now: int) returns (r: Result<nat, DeleteError>)
    requires db.Valid()
    modifies db`users
    ensures db.Valid()
    ensures r.Err? <==> GuardError(old(db.users), userId, deletedBy).Some?
    ensures r.Err? ==> r.error == GuardError(old(db.users), userId, deletedBy).value && db.users == old(db.users)
    ensures r.Ok? ==> r.value == userId
                      && db.users == old(db.users)[userId := Deactivated(old(db.users)[userId], deletedBy, now)]
    ensures UniqueEmails(old(db.users)) ==> UniqueEmails(db.users)
  {
    if userId !in db.users {
      return Err(UserNotFound);
    }
    if userId == deletedBy {
      return Err(DeletingSelf);
    }
    var existing := db.users[userId];
    if existing.email == MainAdminEmail {
      return Err(MainAdministrator);
    }
    var updated := Deactivated(existing, deletedBy, now);
    assert updated.email == existing.email;
    db.users := db.users[userId := updated];
    r := Ok(userId);
  }

  /** `userRepository.delete(userId)` with its cascades. */
  method Remove(db: Db, userId: nat)
    requires db.Valid()
    modifies db`users, db`userRoles, db`refreshTokens
    ensures db.Valid()
    ensures db.users == old(db.users) - {userId}
    ensures db.userRoles == RowsWithout(old(db.userRoles), userId)
    ensures db.refreshTokens == TokensWithout(old(db.refreshTokens), userId)
  {
    RowsWithoutDistinct(db.userRoles, userId);
    db.users := db.users - {userId};
    db.userRoles := RowsWithout(db.userRoles, userId);
    db.refreshTokens := TokensWithout(db.refreshTokens, userId);
  }

  /**
   * `hardDelete(userId, deletedBy)`.  `restricted` stands for the schema
   * rejecting the delete because other rows refer to the user.  On success
   * the row, its role rows and its refresh tokens are gone and nothing else
   * changes.
   */
  method HardDelete(db: Db, userId: nat, deletedBy: nat, restricted: bool) returns (r: Result<nat, DeleteError>)
    requires db.Valid()
    modifies db`users, db`userRoles, db`refreshTokens
    ensures db.Valid()
    ensures GuardError(old(db.users), userId, deletedBy).Some? ==>
              r == Err(GuardError(old(db.users), userId, deletedBy).value)
    ensures GuardError(old(db.users), userId, deletedBy).None? && restricted ==> r == Err(RelatedData)
    ensures r.Err? ==> db.users == old(db.users) && db.userRoles == old(db.userRoles)
                       && db.refreshTokens == old(db.refreshTokens)
    ensures r.Ok? <==> GuardError(old(db.users), userId, deletedBy).None? && !restricted
    ensures r.Ok? ==> r.value == userId && db.users == old(db.users) - {userId}
                      && db.userRoles == RowsWithout(old(db.userRoles), userId)
                      && db.refreshTokens == TokensWithout(old(db.refreshTokens), userId)
  {
    var guard := GuardError(db.users, userId, deletedBy);
    if guard.Some? {
      return Err(guard.value);
    }
    if restricted {
      return Err(RelatedData);
    }
    Remove(db, userId);
    r := Ok(userId);
  }

  /** The invariants the hard delete keeps: unique e-mails, and role rows of existing users only. */
  lemma HardDeleteInvariants(users: map<nat, UserRow>, rows: seq<UserRole>, userId: nat)
    requires UniqueEmails(users) && RowsReferUsers(rows, users)
    ensures UniqueEmails(users - {userId}) && RowsReferUsers(RowsWithout(rows, userId), users - {userId})
  {
    HardDeleteKeepsRefer(rows, users, userId);
  }
}
