/**
 * The refresh-token table: revoking one token, revoking every token of a
 * user, deleting the expired ones, and the validity check.  Tokens are keyed
 * by their text; times are milliseconds, and the clock is a parameter.
 */
module RefreshTokens {

  import opened Common
  import opened Store

  /** `isValid(token)`: stored, not revoked, and not expired (`expiresAt < now` is expired). */
  predicate IsValid(tokens: map<string, TokenRow>, token: string, now: int) {
    token in tokens && !tokens[token].revoked && !(tokens[token].expiresAt < now)
  }

  /**
   * The table after `revoke(token)` on a stored token: that token is no
   * longer valid at any time and keeps its user and expiry; every other
   * token is as it was.
   */
  function Revoked(tokens: map<string, TokenRow>, token: string): (r: map<string, TokenRow>)
    requires token in tokens
    ensures r.Keys == tokens.Keys
    ensures forall now :: !IsValid(r, token, now)
    ensures r[token].userId == tokens[token].userId && r[token].expiresAt == tokens[token].expiresAt
    ensures forall t | t in tokens && t != token :: r[t] == tokens[t]
  {
    tokens[token := tokens[token].(revoked := true)]
  }

  /**
   * The table after `revokeAllByUser(userId)`: no token appears or
   * disappears, each of the user's tokens is revoked and no longer valid,
   * and every other user's tokens are unchanged.
   */
  function RevokedAll(tokens: map<string, TokenRow>, userId: nat): (r: map<string, TokenRow>)
    ensures r.Keys == tokens.Keys
    ensures forall t | t in tokens && tokens[t].userId == userId ::
              r[t] == tokens[t].(revoked := true) && forall now :: !IsValid(r, t, now)
    ensures forall t | t in tokens && tokens[t].userId != userId :: r[t] == tokens[t]
  {
    map t | t in tokens :: if tokens[t].userId == userId && !tokens[t].revoked then tokens[t].(revoked := true) else tokens[t]
  }

  /**
   * The table after `deleteExpired()` at `now`: exactly the tokens expired
   * before `now` are gone, the others are untouched, and so every valid
   * token survives.
   */
  function WithoutExpired(tokens: map<string, TokenRow>, now: int): (r: map<string, TokenRow>)
    ensures forall t :: t in r <==> t in tokens && tokens[t].expiresAt >= now
    ensures forall t | t in r :: r[t] == tokens[t]
    ensures forall t :: IsValid(r, t, now) <==> IsValid(tokens, t, now)
  {
    map t | t in tokens && !(tokens[t].expiresAt < now) :: tokens[t]
  }

  /** Revoking twice is revoking once. */
  lemma RevokeIdempotent(tokens: map<string, TokenRow>, token: string)
    requires token in tokens
    ensures Revoked(Revoked(tokens, token), token) == Revoked(tokens, token)
  {
  }

  /**
   * `create(tokenData)`: the token text is a unique column and the user id a
   * foreign key; the unique index is met first.
   */
  method Create(db: Db, token: string, row: TokenRow) returns (r: Outcome<DbError>)
    requires db.Valid()
    modifies db`refreshTokens
    ensures db.Valid()
    ensures r == Fail(UniqueViolation(["token"])) <==> token in old(db.refreshTokens)
    ensures r == Fail(ForeignKeyViolation) <==> token !in old(db.refreshTokens) && row.userId !in db.users
    ensures r.Fail? ==> r.error in {UniqueViolation(["token"]), ForeignKeyViolation}
                        && db.refreshTokens == old(db.refreshTokens)
    ensures r.Pass? ==> db.refreshTokens == old(db.refreshTokens)[token := row]
  {
    if token in db.refreshTokens {
      return Fail(UniqueViolation(["token"]));
    }
    if row.userId !in db.users {
      return Fail(ForeignKeyViolation);
    }
    db.refreshTokens := db.refreshTokens[token := row];
    r := Pass;
  }

  /** `revoke(token)`: an update by the unique key, which fails on a missing token. */
  method Revoke(db: Db, token: string) returns (r: Outcome<DbError>)
    requires db.Valid()
    modifies db`refreshTokens
    ensures db.Valid()
    ensures r.Fail? <==> token !in old(db.refreshTokens)
    ensures r.Fail? ==> r.error == RecordNotFound && db.refreshTokens == old(db.refreshTokens)
    ensures r.Pass? ==> db.refreshTokens == Revoked(old(db.refreshTokens), token)
  {
    if token !in db.refreshTokens {
      return Fail(RecordNotFound);
    }
    db.refreshTokens := Revoked(db.refreshTokens, token);
    r := Pass;
  }

  /** `revokeAllByUser(userId)` */
  method RevokeAllByUser(db: Db, userId: nat)
    requires db.Valid()
    modifies db`refreshTokens
    ensures db.Valid()
    ensures db.refreshTokens == RevokedAll(old(db.refreshTokens), userId)
  {
    db.refreshTokens := RevokedAll(db.refreshTokens, userId);
  }

  /** `deleteExpired()` at `now` */
  method DeleteExpired(db: Db, now: int)
    requires db.Valid()
    modifies db`refreshTokens
    ensures db.Valid()
    ensures db.refreshTokens == WithoutExpired(old(db.refreshTokens), now)
  {
    db.refreshTokens := WithoutExpired(db.refreshTokens, now);
  }
}
