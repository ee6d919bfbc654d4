/**
 * Listing users a page at a time: the page number and the page size are
 * parsed and clamped, the repository returns the rows of the page and the
 * number of matching rows, and each row is projected to the public fields
 * with the names of its roles.  The filtering and the paging window belong
 * to the repository, so its answer is a parameter here.
 */
module ListUsers {

  import opened Common
  import opened Store
  import opened UserRoles

  /** A user as listed: the password hash is not among the fields. */
  datatype UserSummary = UserSummary(
    id: nat,
    nombre: string,
    email: string,
    telefono: Option<string>,
    isActive: bool,
    roles: seq<string>,
    createdAt: int,
    updatedAt: int)

  datatype Meta = Meta(total: nat, page: int, limit: int, totalPages: int)

  datatype Listing = Listing(users: seq<UserSummary>, meta: Meta)

  /**
   * `page = parseInt(page) || 1; limit = parseInt(limit) || 10;` then the
   * cap and the floor.  `None` is a value that does not parse (`NaN`).  A
   * negative page size is kept: only `0` and `NaN` fall back to the default.
   */
  method Clamp(page: Option<int>, limit: Option<int>) returns (p: int, l: int)
    ensures p >= 1 && l <= 100 && l != 0
    ensures !TruthyInt(page) ==> p == 1
    ensures TruthyInt(page) && page.value >= 1 ==> p == page.value
    ensures TruthyInt(page) && page.value < 1 ==> p == 1
    ensures !TruthyInt(limit) ==> l == 10
    ensures TruthyInt(limit) && limit.value <= 100 ==> l == limit.value
    ensures TruthyInt(limit) && limit.value > 100 ==> l == 100
  {
    p := if TruthyInt(page) then page.value else 1;
    l := if TruthyInt(limit) then limit.value else 10;
    if l > 100 {
      l := 100;
    }
    if p < 1 {
      p := 1;
    }
  }

  /** The projection of one row. */
  function Summary(row: UserRow, rows: seq<UserRole>, roles: map<nat, RoleRow>): UserSummary {
    UserSummary(row.id, row.nombre, row.email, row.telefono, row.isActive,
                RoleNames(RoleIdsOf(rows, row.id), roles), row.createdAt, row.updatedAt)
  }

  /**
   * `execute({ page, limit })` over the repository's answer `found` and
   * `total`: one summary per row found, in order, and the clamped paging
   * echoed with the page count.
   */
  method Execute(db: Db, page: Option<int>, limit: Option<int>, found: seq<UserRow>, total: nat)
    returns (r: Listing)
    ensures |r.users| == |found|
    ensures forall i | 0 <= i < |found| ::
              var u := r.users[i];
              u.id == found[i].id && u.nombre == found[i].nombre && u.email == found[i].email
              && u.telefono == found[i].telefono && u.isActive == found[i].isActive
              && u.roles == RoleNames(RoleIdsOf(db.userRoles, found[i].id), db.roles)
              && u.createdAt == found[i].createdAt && u.updatedAt == found[i].updatedAt
    ensures r.meta.total == total && r.meta.page >= 1 && r.meta.limit <= 100 && r.meta.limit != 0
    ensures r.meta.totalPages == CeilDiv(total, r.meta.limit)
    ensures r.meta.limit > 0 ==>
              r.meta.totalPages * r.meta.limit >= total && (r.meta.totalPages - 1) * r.meta.limit < total
    ensures r.meta.limit < 0 ==> r.meta.totalPages <= 0
    ensures !TruthyInt(page) ==> r.meta.page == 1
    ensures TruthyInt(page) && page.value >= 1 ==> r.meta.page == page.value
    ensures !TruthyInt(limit) ==> r.meta.limit == 10
    ensures TruthyInt(limit) && limit.value <= 100 ==> r.meta.limit == limit.value
    ensures TruthyInt(limit) && limit.value > 100 ==> r.meta.limit == 100
  {
    var p, l := Clamp(page, limit);
    var rows, roles := db.userRoles, db.roles;
    var users := seq(|found|, i requires 0 <= i < |found| => Summary(found[i], rows, roles));
    r := Listing(users, Meta(total, p, l, CeilDiv(total, l)));
  }
}
