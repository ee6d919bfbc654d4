/**
 * Exchanging a refresh token for a new access token.  The token must verify
 * as a JWT, be stored, not revoked and not expired, and belong to an active
 * user.  With rotation switched on, the old token is revoked and a new one is
 * stored for the same user.  Signing and verifying tokens, the rotation
 * switch, the expiry date of a new token and the clock are parameters.
 */
module RefreshToken {

  import opened Common
  import opened Store
  import opened UserRoles
  import opened RefreshTokens

  /** What both tokens carry. */
  datatype Payload = Payload(userId: nat, email: string, nombre: string, roles: seq<string>)

  datatype Tokens = Tokens(accessToken: string, refreshToken: string)

  datatype RefreshError =
    | MissingToken
    | InvalidJwt
    | TokenNotFound
    | TokenRevoked
    | TokenExpired
    | InvalidUser
    | Db(error: DbError)

  /**
   * The guards of `execute(refreshToken)` in source order; `verify` is the
   * JWT verification, false where it throws.
   */
  function GuardError(tokens: map<string, TokenRow>, users: map<nat, UserRow>, refreshToken: Option<string>,
                      verify: string -> bool, now: int): (e: Option<RefreshError>)
    ensures e == Some(MissingToken) <==> !TruthyStr(refreshToken)
    ensures e == Some(InvalidJwt) <==> TruthyStr(refreshToken) && !verify(refreshToken.value)
    ensures e == Some(TokenNotFound) <==>
              TruthyStr(refreshToken) && verify(refreshToken.value) && refreshToken.value !in tokens
    ensures e == Some(TokenRevoked) <==>
              TruthyStr(refreshToken) && verify(refreshToken.value) && refreshToken.value in tokens
              && tokens[refreshToken.value].revoked
    ensures e == Some(TokenExpired) <==>
              TruthyStr(refreshToken) && verify(refreshToken.value) && refreshToken.value in tokens
              && !tokens[refreshToken.value].revoked && tokens[refreshToken.value].expiresAt < now
    ensures e.None? <==>
              TruthyStr(refreshToken) && verify(refreshToken.value) && IsValid(tokens, refreshToken.value, now)
              && tokens[refreshToken.value].userId in users && users[tokens[refreshToken.value].userId].isActive
    ensures e.Some? ==> !e.value.Db?
  {
    if !TruthyStr(refreshToken) then Some(MissingToken)
    else
      var t := refreshToken.value;
      if !verify(t) then Some(InvalidJwt)
      else if t !in tokens then Some(TokenNotFound)
      else if tokens[t].revoked then Some(TokenRevoked)
      else if tokens[t].expiresAt < now then Some(TokenExpired)
      else if tokens[t].userId !in users || !users[tokens[t].userId].isActive then Some(InvalidUser)
      else None
  }

  /**
   * The payload for a user: its id, e-mail, name and the names of its roles.
   * When every joined role exists, each of the user's join rows gives one
   * name, in join-row order; in any case only names of the user's roles appear.
   */
  function PayloadOf(user: UserRow, rows: seq<UserRole>, roles: map<nat, RoleRow>): (p: Payload)
    ensures p.userId == user.id && p.email == user.email && p.nombre == user.nombre
    ensures var ids := RoleIdsOf(rows, user.id);
            (forall j | 0 <= j < |ids| :: ids[j] in roles) ==>
              |p.roles| == |ids| && forall j | 0 <= j < |ids| :: p.roles[j] == roles[ids[j]].name
    ensures forall name | name in p.roles ::
              exists k | k in roles :: roles[k].name == name && UserRole(user.id, k) in rows
  {
    var ids := RoleIdsOf(rows, user.id);
    assert forall j | 0 <= j < |ids| :: ids[j] in ids;
    Payload(user.id, user.email, user.nombre, RoleNames(ids, roles))
  }

  /**
   * The table after a rotation: the old token is revoked, the new one is
   * stored with `row`, and every other token is as it was.
   */
  function Rotated(tokens: map<string, TokenRow>, current: string, issued: string, row: TokenRow): (r: map<string, TokenRow>)
    requires current in tokens && issued !in tokens
    ensures r.Keys == tokens.Keys + {issued}
    ensures forall now :: !IsValid(r, current, now)
    ensures r[issued] == row
    ensures forall t | t in tokens && t != current :: r[t] == tokens[t]
  {
    Revoked(tokens, current)[issued := row]
  }

  /** The guards on the stored token are exactly the repository's `isValid`. */
  lemma GuardsAreIsValid(tokens: map<string, TokenRow>, users: map<nat, UserRow>, token: string,
                         verify: string -> bool, now: int)
    requires token != "" && verify(token)
    ensures GuardError(tokens, users, Some(token), verify, now) in {None, Some(InvalidUser)} <==>
              IsValid(tokens, token, now)
  {
  }

  /** A rotated-out token is refused as revoked if it is presented again. */
  lemma ReplayAfterRotation(tokens: map<string, TokenRow>, users: map<nat, UserRow>, current: string, issued: string,
                            row: TokenRow, verify: string -> bool, now: int)
    requires current in tokens && issued !in tokens && current != "" && verify(current)
    ensures GuardError(Rotated(tokens, current, issued, row), users, Some(current), verify, now) == Some(TokenRevoked)
  {
    assert Rotated(tokens, current, issued, row)[current].revoked;
  }

  /** The new token of a rotation passes the guards while it is unexpired and its user is active. */
  lemma RotatedTokenAccepted(tokens: map<string, TokenRow>, users: map<nat, UserRow>, current: string, issued: string,
                             row: TokenRow, verify: string -> bool, now: int)
    requires current in tokens && issued !in tokens && issued != "" && verify(issued)
    requires !row.revoked && row.expiresAt >= now && row.userId in users && users[row.userId].isActive
    ensures GuardError(Rotated(tokens, current, issued, row), users, Some(issued), verify, now).None?
  {
  }

  /**
   * `execute(refreshToken)`.  Without rotation the same refresh token is
   * returned and nothing is written.  With rotation the old token is revoked
   * first; storing the new one then fails on a token text already stored,
   * leaving the old one revoked.  The user exists, so the foreign key of the
   * new token holds.
   */
  method Execute(db: Db, refreshToken: Option<string>, verify: string -> bool,
                 accessSign: Payload -> string, refreshSign: Payload -> string,
                 rotate: bool, refreshExpiry: int, now: int)
    returns (r: Result<Tokens, RefreshError>)
    requires db.Valid()
    modifies db`refreshTokens
    ensures db.Valid()
    ensures var e := GuardError(old(db.refreshTokens), db.users, refreshToken, verify, now);
            e.Some? ==> r == Err(e.value) && db.refreshTokens == old(db.refreshTokens)
    ensures GuardError(old(db.refreshTokens), db.users, refreshToken, verify, now).None? ==>
              var t := refreshToken.value;
              var user := db.users[old(db.refreshTokens)[t].userId];
              var p := PayloadOf(user, db.userRoles, db.roles);
              var row := TokenRow(user.id, refreshExpiry, false);
              (!rotate ==> r == Ok(Tokens(accessSign(p), t)) && db.refreshTokens == old(db.refreshTokens))
              && (rotate && refreshSign(p) in old(db.refreshTokens) ==>
                    r == Err(Db(UniqueViolation(["token"])))
                    && db.refreshTokens == Revoked(old(db.refreshTokens), t))
              && (rotate && refreshSign(p) !in old(db.refreshTokens) ==>
                    r == Ok(Tokens(accessSign(p), refreshSign(p)))
                    && db.refreshTokens == Rotated(old(db.refreshTokens), t, refreshSign(p), row))
  {
    var guard := GuardError(db.refreshTokens, db.users, refreshToken, verify, now);
    if guard.Some? {
      return Err(guard.value);
    }
    var token := refreshToken.value;
    var user := db.users[db.refreshTokens[token].userId];
    var payload := PayloadOf(user, db.userRoles, db.roles);
    var accessToken := accessSign(payload);
    var newRefreshToken := token;
    if rotate {
      var revoked := Revoke(db, token);
      newRefreshToken := refreshSign(payload);
      var created := Create(db, newRefreshToken, TokenRow(user.id, refreshExpiry, false));
      if created.Fail? {
        return Err(Db(created.error));
      }
    }
    r := Ok(Tokens(accessToken, newRefreshToken));
  }
}
