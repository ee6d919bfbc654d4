/**
 * Reading one user with the names of its roles and the permissions those
 * roles grant.  The permissions are collected role by role, in the order of
 * the user's join rows and of each role's permission rows, and a permission
 * whose name was already collected is skipped.
 */
module GetUserById {

  import opened Common
  import opened Store
  import opened UserRoles

  datatype UserDetail = UserDetail(
    id: nat,
    nombre: string,
    email: string,
    telefono: Option<string>,
    isActive: bool,
    roles: seq<string>,
    permissions: seq<Permission>,
    createdAt: int,
    updatedAt: int,
    createdBy: Option<nat>,
    updatedBy: Option<nat>)

  datatype GetError = MissingId | UserNotFound

  /** `permissions.find(p => p.name === name)` finds one. */
  predicate NameIn(ps: seq<Permission>, name: string) {
    exists k | 0 <= k < |ps| :: ps[k].name == name
  }

  /** Every permission row of the given roles, role after role. */
  function Granted(ids: seq<nat>, roles: map<nat, RoleRow>): seq<Permission>
    decreases |ids|
  {
    if ids == [] then []
    else
      var last := ids[|ids| - 1];
      Granted(ids[..|ids| - 1], roles) + (if last in roles then roles[last].permissions else [])
  }

  /** The first permission of each name, in the order met. */
  function DedupByName(ps: seq<Permission>): (d: seq<Permission>)
    decreases |ps|
  {
    if ps == [] then []
    else
      var prev := DedupByName(ps[..|ps| - 1]);
      var p := ps[|ps| - 1];
      if NameIn(prev, p.name) then prev else prev + [p]
  }

  /** The index of the first permission with the name. */
  function FirstWithName(ps: seq<Permission>, name: string): (k: nat)
    requires NameIn(ps, name)
    ensures k < |ps| && ps[k].name == name
    ensures forall i | 0 <= i < k :: ps[i].name != name
  {
    if ps[0].name == name then 0
    else
      assert NameIn(ps[1..], name) by {
        var k :| 0 <= k < |ps| && ps[k].name == name;
        assert ps[1..][k - 1].name == name;
      }
      1 + FirstWithName(ps[1..], name)
  }

  lemma FirstWithNameSnoc(ps: seq<Permission>, p: Permission, name: string)
    requires NameIn(ps + [p], name)
    ensures NameIn(ps, name) ==> FirstWithName(ps + [p], name) == FirstWithName(ps, name)
    ensures !NameIn(ps, name) ==> FirstWithName(ps + [p], name) == |ps|
  {
    var s := ps + [p];
    var k := FirstWithName(s, name);
    if NameIn(ps, name) {
      var j := FirstWithName(ps, name);
      assert s[j] == ps[j];
      assert forall i | 0 <= i < k :: s[i] == ps[i];
    } else {
      assert forall i | 0 <= i < |ps| :: s[i] == ps[i] && ps[i].name != name;
    }
  }

  lemma NameInSnoc(ps: seq<Permission>, p: Permission, name: string)
    ensures NameIn(ps + [p], name) <==> NameIn(ps, name) || p.name == name
  {
    var s := ps + [p];
    if NameIn(s, name) && p.name != name {
      var k :| 0 <= k < |s| && s[k].name == name;
      assert ps[k] == s[k];
    }
    if NameIn(ps, name) {
      var k :| 0 <= k < |ps| && ps[k].name == name;
      assert s[k] == ps[k];
    }
    assert s[|ps|] == p;
  }

  /** A name is collected exactly when some granted permission carries it. */
  lemma {:induction false} DedupNames(ps: seq<Permission>, name: string)
    ensures NameIn(DedupByName(ps), name) <==> NameIn(ps, name)
    decreases |ps|
  {
    if ps != [] {
      var s := ps[..|ps| - 1];
      var p := ps[|ps| - 1];
      assert ps == s + [p];
      DedupNames(s, name);
      DedupNames(s, p.name);
      NameInSnoc(s, p, name);
      NameInSnoc(DedupByName(s), p, name);
    }
  }

  predicate NamesDistinct(d: seq<Permission>) {
    forall i, j | 0 <= i < j < |d| :: d[i].name != d[j].name
  }

  /**
   * Each entry of `d` is the first permission of `ps` with its name, and the
   * entries keep the order in which their names first appear in `ps`.
   */
  predicate FirstInOrder(ps: seq<Permission>, d: seq<Permission>) {
    (forall k | 0 <= k < |d| :: NameIn(ps, d[k].name) && d[k] == ps[FirstWithName(ps, d[k].name)])
    && (forall i, j | 0 <= i < j < |d| ::
          NameIn(ps, d[i].name) && NameIn(ps, d[j].name)
          && FirstWithName(ps, d[i].name) < FirstWithName(ps, d[j].name))
  }

  /** No name is collected twice. */
  lemma {:induction false} DedupDistinct(ps: seq<Permission>)
    ensures NamesDistinct(DedupByName(ps))
    decreases |ps|
  {
    if ps != [] {
      var s := ps[..|ps| - 1];
      var p := ps[|ps| - 1];
      DedupDistinct(s);
      var prev := DedupByName(s);
      if !NameIn(prev, p.name) {
        var d := prev + [p];
        assert DedupByName(ps) == d;
        forall i, j | 0 <= i < j < |d|
          ensures d[i].name != d[j].name
        {
          if j == |prev| {
            assert d[i] == prev[i] && d[j] == p;
            assert prev[i].name != p.name;
          } else {
            assert d[i] == prev[i] && d[j] == prev[j];
          }
        }
      }
    }
  }

  /** The collected permissions are the first ones of their names, in first-occurrence order. */
  lemma {:induction false} DedupFirstOrder(ps: seq<Permission>)
    ensures FirstInOrder(ps, DedupByName(ps))
    decreases |ps|
  {
    if ps != [] {
      var s := ps[..|ps| - 1];
      var p := ps[|ps| - 1];
      assert ps == s + [p];
      DedupFirstOrder(s);
      var prev := DedupByName(s);
      var d := DedupByName(ps);
      forall k | 0 <= k < |prev|
        ensures NameIn(ps, prev[k].name) && prev[k] == ps[FirstWithName(ps, prev[k].name)]
        ensures FirstWithName(ps, prev[k].name) == FirstWithName(s, prev[k].name)
      {
        assert NameIn(s, prev[k].name) && prev[k] == s[FirstWithName(s, prev[k].name)];
        NameInSnoc(s, p, prev[k].name);
        FirstWithNameSnoc(s, p, prev[k].name);
        assert ps[FirstWithName(s, prev[k].name)] == s[FirstWithName(s, prev[k].name)];
      }
      if !NameIn(prev, p.name) {
        DedupNames(s, p.name);
        NameInSnoc(s, p, p.name);
        FirstWithNameSnoc(s, p, p.name);
        assert d == prev + [p];
        forall k | 0 <= k < |d|
          ensures NameIn(ps, d[k].name) && d[k] == ps[FirstWithName(ps, d[k].name)]
          ensures k < |prev| ==> d[k] == prev[k]
        {
          if k < |prev| {
            assert d[k] == prev[k];
          }
        }
      }
    }
  }

  /** The de-duplication never adds a permission that was not granted. */
  lemma {:induction false} DedupSubset(ps: seq<Permission>)
    ensures forall x | x in DedupByName(ps) :: x in ps
    decreases |ps|
  {
    if ps != [] {
      DedupSubset(ps[..|ps| - 1]);
      assert forall x | x in ps[..|ps| - 1] :: x in ps;
    }
  }

  /**
   * The inner `forEach` over one role's permissions, onto the list collected
   * from the permissions `before` it.
   */
  method AddPermissions(collected: seq<Permission>, ghost before: seq<Permission>, rps: seq<Permission>)
    returns (permissions: seq<Permission>)
    requires collected == DedupByName(before)
    ensures permissions == DedupByName(before + rps)
  {
    permissions := collected;
    var j := 0;
    assert before + rps[..0] == before;
    while j < |rps|
      invariant 0 <= j <= |rps|
      invariant permissions == DedupByName(before + rps[..j])
    {
      var rp := rps[j];
      assert (before + rps[..j + 1])[..|before + rps[..j]|] == before + rps[..j];
      assert (before + rps[..j + 1])[|before + rps[..j]|] == rp;
      if !NameIn(permissions, rp.name) {
        permissions := permissions + [rp];
      }
      j := j + 1;
    }
    assert rps[..j] == rps;
  }

  /** The nested `forEach` loops over the user's roles and each role's permissions. */
  method CollectPermissions(ids: seq<nat>, roles: map<nat, RoleRow>) returns (permissions: seq<Permission>)
    ensures permissions == DedupByName(Granted(ids, roles))
  {
    permissions := [];
    var i := 0;
    while i < |ids|
      invariant 0 <= i <= |ids|
      invariant permissions == DedupByName(Granted(ids[..i], roles))
    {
      var rps := if ids[i] in roles then roles[ids[i]].permissions else [];
      ghost var before := Granted(ids[..i], roles);
      assert ids[..i + 1][..i] == ids[..i];
      assert Granted(ids[..i + 1], roles) == before + rps;
      permissions := AddPermissions(permissions, before, rps);
      i := i + 1;
    }
    assert ids[..i] == ids;
  }

  /**
   * `execute(userId)`: a falsy id and an unknown user are errors; the detail
   * lists the role names and the collected permissions.
   */
  method Execute(db: Db, userId: Option<nat>) returns (r: Result<UserDetail, GetError>)
    ensures r == Err(MissingId) <==> !TruthyNat(userId)
    ensures r == Err(UserNotFound) <==> TruthyNat(userId) && userId.value !in db.users
    ensures r.Ok? ==>
              TruthyNat(userId) && userId.value in db.users
              && var row := db.users[userId.value];
              var ids := RoleIdsOf(db.userRoles, row.id);
              r.value == UserDetail(row.id, row.nombre, row.email, row.telefono, row.isActive,
                                    RoleNames(ids, db.roles), DedupByName(Granted(ids, db.roles)),
                                    row.createdAt, row.updatedAt, row.createdBy, row.updatedBy)
  {
    if !TruthyNat(userId) {
      return Err(MissingId);
    }
    if userId.value !in db.users {
      return Err(UserNotFound);
    }
    var row := db.users[userId.value];
    var ids := RoleIdsOf(db.userRoles, row.id);
    var permissions := CollectPermissions(ids, db.roles);
    r := Ok(UserDetail(row.id, row.nombre, row.email, row.telefono, row.isActive,
                       RoleNames(ids, db.roles), permissions,
                       row.createdAt, row.updatedAt, row.createdBy, row.updatedBy));
  }
}
