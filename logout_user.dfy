/**
 * Logging out: revoking the refresh token presented, or every refresh token
 * of a user.  An unknown token is already logged out and succeeds without a
 * write.
 */
module LogoutUser {

  import opened Common
  import opened Store
  import opened RefreshTokens

  datatype LogoutError = MissingToken | MissingUserId | Db(error: DbError)

  /** `execute(refreshToken)` */
  method Execute(db: Db, refreshToken: Option<string>) returns (r: Outcome<LogoutError>)
    requires db.Valid()
    modifies db`refreshTokens
    ensures db.Valid()
    ensures r == Fail(MissingToken) <==> !TruthyStr(refreshToken)
    ensures r.Fail? ==> r == Fail(MissingToken)
    ensures !TruthyStr(refreshToken) || refreshToken.value !in old(db.refreshTokens) ==>
              db.refreshTokens == old(db.refreshTokens)
    ensures TruthyStr(refreshToken) && refreshToken.value in old(db.refreshTokens) ==>
              db.refreshTokens == Revoked(old(db.refreshTokens), refreshToken.value)
  {
    if !TruthyStr(refreshToken) {
      return Fail(MissingToken);
    }
    var token := refreshToken.value;
    if token !in db.refreshTokens {
      return Pass;
    }
    var revoked := Revoke(db, token);
    r := Pass;
  }

  /** `executeAll(userId)`: a falsy id is an error; otherwise every token of the user is revoked. */
  method ExecuteAll(db: Db, userId: Option<nat>) returns (r: Outcome<LogoutError>)
    requires db.Valid()
    modifies db`refreshTokens
    ensures db.Valid()
    ensures r.Fail? <==> !TruthyNat(userId)
    ensures r.Fail? ==> r.error == MissingUserId && db.refreshTokens == old(db.refreshTokens)
    ensures r.Pass? ==> db.refreshTokens == RevokedAll(old(db.refreshTokens), userId.value)
  {
    if !TruthyNat(userId) {
      return Fail(MissingUserId);
    }
    RevokeAllByUser(db, userId.value);
    r := Pass;
  }

  /** Logging out twice with the same token leaves the table as logging out once, and both succeed. */
  lemma LogoutTwice(tokens: map<string, TokenRow>, token: string, now: int)
    requires token in tokens
    ensures token in Revoked(tokens, token)
    ensures Revoked(Revoked(tokens, token), token) == Revoked(tokens, token)
    ensures !IsValid(Revoked(tokens, token), token, now)
  {
    RevokeIdempotent(tokens, token);
  }
}
