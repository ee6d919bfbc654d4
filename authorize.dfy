/**
 * The authorisation middlewares.  `authorize(...permissions)` lets a request
 * through when the authenticated user holds at least one of the required
 * permissions (or none is required); `authorizeRole(...roles)` when the user
 * has at least one of the required roles.  The permission names come from a
 * repository call that may fail; its answer is a parameter.
 */
module Authorize {

  import opened Common

  /** `req.user` as the authentication middleware leaves it. */
  datatype AuthUser = AuthUser(userId: Option<nat>, roles: Option<seq<string>>)

  /** What the middleware does: call `next`, or answer with an error. */
  datatype Decision =
    | Next
    | Unauthorized
    | Forbidden(required: seq<string>, held: seq<string>)
    | InternalError

  /** The HTTP status of each answer; `next` sends none. */
  function Status(d: Decision): (s: Option<int>)
    ensures s.None? <==> d.Next?
    ensures s.Some? ==> s.value in {401, 403, 500}
  {
    match d
    case Next => None
    case Unauthorized => Some(401)
    case Forbidden(_, _) => Some(403)
    case InternalError => Some(500)
  }

  /** `wanted.some(x => held.includes(x))` */
  function AnyIn(wanted: seq<string>, held: seq<string>): bool
    decreases |wanted|
  {
    if wanted == [] then false else wanted[0] in held || AnyIn(wanted[1..], held)
  }

  lemma {:induction false} AnyInMeaning(wanted: seq<string>, held: seq<string>)
    ensures AnyIn(wanted, held) <==> exists i | 0 <= i < |wanted| :: wanted[i] in held
    decreases |wanted|
  {
    if wanted != [] {
      AnyInMeaning(wanted[1..], held);
      if exists i | 0 <= i < |wanted| :: wanted[i] in held {
        var i :| 0 <= i < |wanted| && wanted[i] in held;
        if i > 0 {
          assert wanted[1..][i - 1] == wanted[i];
        }
      }
      if exists i | 0 <= i < |wanted[1..]| :: wanted[1..][i] in held {
        var i :| 0 <= i < |wanted[1..]| && wanted[1..][i] in held;
        assert wanted[i + 1] == wanted[1..][i];
      }
    }
  }

  predicate Authenticated(user: Option<AuthUser>) {
    user.Some? && TruthyNat(user.value.userId)
  }

  /**
   * `authorize(...required)` for `req.user`; `fetched` is the names of the
   * user's permissions, `None` when the repository call throws.  The call
   * is only made when a permission is required.
   */
  function Authorize(user: Option<AuthUser>, required: seq<string>, fetched: Option<seq<string>>): (d: Decision)
    ensures d == Unauthorized <==> !Authenticated(user)
    ensures Authenticated(user) && required == [] ==> d == Next
    ensures Authenticated(user) && required != [] && fetched.None? ==> d == InternalError
    ensures Authenticated(user) && required != [] && fetched.Some? ==>
              (d == Next <==> exists i | 0 <= i < |required| :: required[i] in fetched.value)
              && (d != Next ==> d == Forbidden(required, fetched.value))
  {
    AnyInMeaning(required, if fetched.Some? then fetched.value else []);
    if !Authenticated(user) then Unauthorized
    else if |required| == 0 then Next
    else if fetched.None? then InternalError
    else if AnyIn(required, fetched.value) then Next
    else Forbidden(required, fetched.value)
  }

  /**
   * `authorizeRole(...required)` for `req.user`.  Unlike `authorize`, an
   * empty list of required roles lets nobody through.
   */
  function AuthorizeRole(user: Option<AuthUser>, required: seq<string>): (d: Decision)
    ensures d == Unauthorized <==> user.None? || user.value.roles.None?
    ensures user.Some? && user.value.roles.Some? ==>
              (d == Next <==> exists i | 0 <= i < |required| :: required[i] in user.value.roles.value)
              && (d != Next ==> d == Forbidden(required, user.value.roles.value))
  {
    if user.None? || user.value.roles.None? then Unauthorized
    else
      AnyInMeaning(required, user.value.roles.value);
      if AnyIn(required, user.value.roles.value) then Next
      else Forbidden(required, user.value.roles.value)
  }

  /** The asymmetry of the two middlewares on an empty requirement. */
  lemma EmptyRequirement(user: Option<AuthUser>, fetched: Option<seq<string>>)
    requires Authenticated(user) && user.value.roles.Some?
    ensures Authorize(user, [], fetched) == Next
    ensures AuthorizeRole(user, []) == Forbidden([], user.value.roles.value)
  {
  }

  /** Holding more permissions never turns a pass into a refusal. */
  lemma MorePermissionsStillPass(user: Option<AuthUser>, required: seq<string>, held: seq<string>, more: seq<string>)
    requires forall p | p in held :: p in more
    requires Authorize(user, required, Some(held)) == Next
    ensures Authorize(user, required, Some(more)) == Next
  {
    if required != [] {
      var i :| 0 <= i < |required| && required[i] in held;
      assert required[i] in more;
    }
  }

  /** Accepting one more permission never turns a pass into a refusal. */
  lemma MoreAlternativesStillPass(user: Option<AuthUser>, required: seq<string>, extra: string, fetched: Option<seq<string>>)
    requires required != [] && Authorize(user, required, fetched) == Next
    ensures Authorize(user, required + [extra], fetched) == Next
  {
    var i :| 0 <= i < |required| && required[i] in fetched.value;
    assert (required + [extra])[i] == required[i];
  }
}
