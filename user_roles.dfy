/**
 * The user-role join table as the user use cases drive it: one
 * `assignRole` per id of a list, one `removeRole` per id of a list, each
 * loop stopping at the first database error it meets, the `filter` set
 * differences that choose what to add and what to remove, and the list of
 * role names a user's join rows yield.
 */
module UserRoles {

  import opened Common
  import opened Store

  /** The outcome of a run of join-table writes, with the rows it leaves. */
  datatype Assignment = Assignment(outcome: Outcome<DbError>, rows: seq<UserRole>)

  /** One join row per id, in order. */
  function JoinRows(userId: nat, ids: seq<nat>): (rs: seq<UserRole>)
    ensures |rs| == |ids| && forall j | 0 <= j < |ids| :: rs[j] == UserRole(userId, ids[j])
  {
    seq(|ids|, j requires 0 <= j < |ids| => UserRole(userId, ids[j]))
  }

  /** `for (const roleId of ids) await assignRole(userId, roleId)` over the rows: the first failure ends it. */
  function AssignAll(rows: seq<UserRole>, users: map<nat, UserRow>, roles: map<nat, RoleRow>, userId: nat, ids: seq<nat>)
    : (a: Assignment)
    ensures |a.rows| <= |rows| + |ids|
    decreases |ids|
  {
    if ids == [] then Assignment(Pass, rows)
    else
      var prev := AssignAll(rows, users, roles, userId, ids[..|ids| - 1]);
      var x := ids[|ids| - 1];
      if prev.outcome.Fail? then prev
      else if UserRole(userId, x) in prev.rows then Assignment(Fail(UniqueViolation(["userId", "roleId"])), prev.rows)
      else if userId !in users || x !in roles then Assignment(Fail(ForeignKeyViolation), prev.rows)
      else Assignment(Pass, prev.rows + [UserRole(userId, x)])
  }

  /** `for (const roleId of ids) await removeRole(userId, roleId)` over the rows: the first failure ends it. */
  function RemoveAll(rows: seq<UserRole>, userId: nat, ids: seq<nat>): (a: Assignment)
    ensures |a.rows| <= |rows|
    decreases |ids|
  {
    if ids == [] then Assignment(Pass, rows)
    else
      var prev := RemoveAll(rows, userId, ids[..|ids| - 1]);
      var x := ids[|ids| - 1];
      if prev.outcome.Fail? then prev
      else if UserRole(userId, x) !in prev.rows then Assignment(Fail(RecordNotFound), prev.rows)
      else Assignment(Pass, Without(prev.rows, UserRole(userId, x)))
  }

  /** Once the writes of a prefix have failed, the later ids change nothing. */
  lemma {:induction false} AssignAllAfterFailure(rows: seq<UserRole>, users: map<nat, UserRow>, roles: map<nat, RoleRow>,
                                                 userId: nat, ids: seq<nat>, i: nat)
    requires i <= |ids| && AssignAll(rows, users, roles, userId, ids[..i]).outcome.Fail?
    ensures AssignAll(rows, users, roles, userId, ids) == AssignAll(rows, users, roles, userId, ids[..i])
    decreases |ids|
  {
    if i < |ids| {
      var p := ids[..|ids| - 1];
      assert p[..i] == ids[..i];
      AssignAllAfterFailure(rows, users, roles, userId, p, i);
    } else {
      assert ids[..i] == ids;
    }
  }

  lemma {:induction false} RemoveAllAfterFailure(rows: seq<UserRole>, userId: nat, ids: seq<nat>, i: nat)
    requires i <= |ids| && RemoveAll(rows, userId, ids[..i]).outcome.Fail?
    ensures RemoveAll(rows, userId, ids) == RemoveAll(rows, userId, ids[..i])
    decreases |ids|
  {
    if i < |ids| {
      var p := ids[..|ids| - 1];
      assert p[..i] == ids[..i];
      RemoveAllAfterFailure(rows, userId, p, i);
    } else {
      assert ids[..i] == ids;
    }
  }

  lemma DistinctSnoc(p: seq<nat>, x: nat)
    ensures Distinct(p + [x]) <==> Distinct(p) && x !in p
  {
    var s := p + [x];
    if Distinct(s) {
      assert forall i, j | 0 <= i < j < |p| :: p[i] == s[i] && p[j] == s[j];
      assert forall k | 0 <= k < |p| :: p[k] == s[k] && s[k] != s[|p|];
    }
  }

  /** What the assignments need to all succeed: an existing user, existing roles, none assigned yet, no id twice. */
  ghost predicate Assignable(rows: seq<UserRole>, users: map<nat, UserRow>, roles: map<nat, RoleRow>, userId: nat, ids: seq<nat>) {
    (ids == [] || userId in users)
    && (forall j | 0 <= j < |ids| :: ids[j] in roles && UserRole(userId, ids[j]) !in rows)
    && Distinct(ids)
  }

  lemma InJoinRows(userId: nat, p: seq<nat>, x: nat)
    ensures UserRole(userId, x) in JoinRows(userId, p) <==> x in p
  {
    if UserRole(userId, x) in JoinRows(userId, p) {
      var k :| 0 <= k < |p| && JoinRows(userId, p)[k] == UserRole(userId, x);
      assert p[k] == x;
    }
    if x in p {
      var k :| 0 <= k < |p| && p[k] == x;
      assert JoinRows(userId, p)[k] == UserRole(userId, x);
    }
  }

  lemma AssignableSnoc(rows: seq<UserRole>, users: map<nat, UserRow>, roles: map<nat, RoleRow>,
                       userId: nat, p: seq<nat>, x: nat)
    ensures Assignable(rows, users, roles, userId, p + [x]) <==>
              Assignable(rows, users, roles, userId, p) && userId in users && x in roles
              && UserRole(userId, x) !in rows && x !in p
  {
    var ids := p + [x];
    DistinctSnoc(p, x);
    assert forall j | 0 <= j < |p| :: ids[j] == p[j];
    assert ids[|p|] == x;
  }

  /**
   * The assignments all succeed exactly when they are `Assignable`, and then
   * they append one row per id, in order.
   */
  lemma {:induction false} AssignAllPasses(rows: seq<UserRole>, users: map<nat, UserRow>, roles: map<nat, RoleRow>,
                                           userId: nat, ids: seq<nat>)
    ensures AssignAll(rows, users, roles, userId, ids).outcome.Pass? <==> Assignable(rows, users, roles, userId, ids)
    ensures AssignAll(rows, users, roles, userId, ids).outcome.Pass? ==>
              AssignAll(rows, users, roles, userId, ids).rows == rows + JoinRows(userId, ids)
    decreases |ids|
  {
    if ids != [] {
      var p := ids[..|ids| - 1];
      var x := ids[|ids| - 1];
      assert ids == p + [x];
      AssignAllPasses(rows, users, roles, userId, p);
      AssignableSnoc(rows, users, roles, userId, p, x);
      InJoinRows(userId, p, x);
      assert JoinRows(userId, ids) == JoinRows(userId, p) + [UserRole(userId, x)];
    }
  }

  /**
   * Removing distinct ids whose rows are all present always succeeds, and
   * leaves exactly the rows that are not one of them.
   */
  lemma {:induction false} RemoveAllPasses(rows: seq<UserRole>, userId: nat, ids: seq<nat>)
    requires Distinct(ids) && forall j | 0 <= j < |ids| :: UserRole(userId, ids[j]) in rows
    ensures RemoveAll(rows, userId, ids).outcome.Pass?
    ensures forall y :: y in RemoveAll(rows, userId, ids).rows <==> y in rows && !(y.userId == userId && y.roleId in ids)
    decreases |ids|
  {
    if ids != [] {
      var p := ids[..|ids| - 1];
      var x := ids[|ids| - 1];
      assert ids == p + [x];
      DistinctSnoc(p, x);
      assert forall j | 0 <= j < |p| :: p[j] == ids[j];
      RemoveAllPasses(rows, userId, p);
      assert UserRole(userId, x) in rows by {
        assert x == ids[|ids| - 1];
      }
    }
  }

  /** `filter(id => !out.includes(id))`: the elements of `s` not in `out`, order kept. */
  function Filter(s: seq<nat>, out: seq<nat>): (r: seq<nat>)
    ensures forall x :: x in r <==> x in s && x !in out
    ensures |r| <= |s|
  {
    if s == [] then []
    else if s[0] in out then Filter(s[1..], out)
    else [s[0]] + Filter(s[1..], out)
  }

  lemma {:induction false} FilterDistinct(s: seq<nat>, out: seq<nat>)
    requires Distinct(s)
    ensures Distinct(Filter(s, out))
  {
    if s != [] {
      assert forall i, j | 0 <= i < j < |s[1..]| :: s[1..][i] == s[i + 1] && s[1..][j] == s[j + 1];
      FilterDistinct(s[1..], out);
      if s[0] !in out {
        var t := Filter(s[1..], out);
        var r := [s[0]] + t;
        assert s[0] !in s[1..];
        forall i, j | 0 <= i < j < |r|
          ensures r[i] != r[j]
        {
          assert r[j] == t[j - 1];
          if i > 0 {
            assert r[i] == t[i - 1];
          }
        }
      }
    }
  }

  lemma {:induction false} RoleIdsOfAppend(a: seq<UserRole>, b: seq<UserRole>, userId: nat)
    ensures RoleIdsOf(a + b, userId) == RoleIdsOf(a, userId) + RoleIdsOf(b, userId)
  {
    if a == [] {
      assert a + b == b;
    } else {
      assert (a + b)[0] == a[0];
      assert (a + b)[1..] == a[1..] + b;
      RoleIdsOfAppend(a[1..], b, userId);
    }
  }

  lemma {:induction false} RoleIdsOfJoinRows(userId: nat, ids: seq<nat>, v: nat)
    ensures RoleIdsOf(JoinRows(userId, ids), v) == if v == userId then ids else []
  {
    if ids != [] {
      assert JoinRows(userId, ids)[1..] == JoinRows(userId, ids[1..]);
      RoleIdsOfJoinRows(userId, ids[1..], v);
    }
  }

  /** A user who does not exist has no join rows, while the rows refer to users. */
  lemma {:induction false} NoRowsOfMissingUser(rows: seq<UserRole>, users: map<nat, UserRow>, userId: nat)
    requires RowsReferUsers(rows, users) && userId !in users
    ensures RoleIdsOf(rows, userId) == []
    ensures forall r :: UserRole(userId, r) !in rows
  {
    if rows != [] {
      assert RowsReferUsers(rows[1..], users) by {
        assert forall i | 0 <= i < |rows[1..]| :: rows[1..][i] == rows[i + 1];
      }
      NoRowsOfMissingUser(rows[1..], users, userId);
      assert rows[0].userId in users;
    }
  }

  /** Assigning only ever adds rows of an existing user. */
  lemma {:induction false} AssignAllKeepsRefer(rows: seq<UserRole>, users: map<nat, UserRow>, roles: map<nat, RoleRow>,
                                               userId: nat, ids: seq<nat>)
    requires RowsReferUsers(rows, users)
    ensures RowsReferUsers(AssignAll(rows, users, roles, userId, ids).rows, users)
    decreases |ids|
  {
    if ids != [] {
      AssignAllKeepsRefer(rows, users, roles, userId, ids[..|ids| - 1]);
    }
  }

  /** Removing only ever drops rows. */
  lemma {:induction false} RemoveAllSubset(rows: seq<UserRole>, userId: nat, ids: seq<nat>)
    ensures forall y :: y in RemoveAll(rows, userId, ids).rows ==> y in rows
    decreases |ids|
  {
    if ids != [] {
      RemoveAllSubset(rows, userId, ids[..|ids| - 1]);
    }
  }

  /** `userRoles.map(ur => ur.role.name)` over a user's role ids. */
  function RoleNames(ids: seq<nat>, roles: map<nat, RoleRow>): (names: seq<string>)
    ensures (forall j | 0 <= j < |ids| :: ids[j] in roles) ==>
              |names| == |ids| && forall j | 0 <= j < |ids| :: names[j] == roles[ids[j]].name
    ensures forall n | n in names :: exists j | 0 <= j < |ids| :: ids[j] in roles && roles[ids[j]].name == n
  {
    if ids == [] then []
    else
      var rest := RoleNames(ids[1..], roles);
      if ids[0] in roles then [roles[ids[0]].name] + rest else rest
  }

  /** The assignment loop, shared by user creation and user editing. */
  method AssignEach(db: Db, userId: nat, ids: seq<nat>) returns (r: Outcome<DbError>)
    requires db.Valid()
    modifies db`userRoles
    ensures db.Valid()
    ensures Assignment(r, db.userRoles) == AssignAll(old(db.userRoles), old(db.users), old(db.roles), userId, ids)
  {
    ghost var rows0 := db.userRoles;
    var i := 0;
    while i < |ids|
      invariant 0 <= i <= |ids|
      invariant db.Valid()
      invariant AssignAll(rows0, old(db.users), old(db.roles), userId, ids[..i]) == Assignment(Pass, db.userRoles)
    {
      var o := db.AssignRole(userId, ids[i]);
      assert ids[..i + 1][..i] == ids[..i];
      if o.Fail? {
        AssignAllAfterFailure(rows0, old(db.users), old(db.roles), userId, ids, i + 1);
        return o;
      }
      i := i + 1;
    }
    assert ids[..i] == ids;
    r := Pass;
  }

  /** The removal loop of user editing. */
  method RemoveEach(db: Db, userId: nat, ids: seq<nat>) returns (r: Outcome<DbError>)
    requires db.Valid()
    modifies db`userRoles
    ensures db.Valid()
    ensures Assignment(r, db.userRoles) == RemoveAll(old(db.userRoles), userId, ids)
  {
    ghost var rows0 := db.userRoles;
    var i := 0;
    while i < |ids|
      invariant 0 <= i <= |ids|
      invariant db.Valid()
      invariant RemoveAll(rows0, userId, ids[..i]) == Assignment(Pass, db.userRoles)
    {
      var o := db.RemoveRole(userId, ids[i]);
      assert ids[..i + 1][..i] == ids[..i];
      if o.Fail? {
        RemoveAllAfterFailure(rows0, userId, ids, i + 1);
        return o;
      }
      i := i + 1;
    }
    assert ids[..i] == ids;
    r := Pass;
  }
}
