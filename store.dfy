/**
 * The relational database behind the backend, as in-memory tables: one map
 * per table from autoincrement id to row, the join table of user roles, the
 * append-only log of notifications and the refresh tokens keyed by their
 * token string.  `Valid()` holds the id discipline of the autoincrement
 * tables; the unique columns are predicates over the table values, which the
 * inserts that check them are shown to keep.
 */
module Store {

  import opened Common
  import opened CreditEntity

  datatype CreditRow = CreditRow(
    id: nat,
    numeroCredito: string,
    clienteId: nat,
    montoPrincipal: real,
    cuotas: int,
    tasaInteresAplicada: real,
    fechaVencimiento: int,
    estado: Estado,
    createdAt: int,
    createdBy: Option<nat>,
    updatedAt: int,
    updatedBy: Option<nat>,
    deletedAt: Option<int>)

  datatype ClientRow = ClientRow(
    id: nat,
    nombre: string,
    cedula: string,
    direccion: Option<string>,
    telefono: Option<string>,
    email: Option<string>,
    isActive: bool,
    referencias: Option<string>,
    modalidadPago: Option<string>,
    assignedTo: Option<nat>,
    telegramChatId: Option<string>,
    createdBy: Option<nat>,
    createdAt: int,
    updatedBy: Option<nat>,
    updatedAt: int)

  datatype PaymentRow = PaymentRow(
    id: nat,
    creditId: nat,
    clienteId: nat,
    userId: nat,
    monto: real,
    fechaPago: int,
    metodoPago: string,
    cuotaNumero: int,
    comprobanteReferencia: Option<string>,
    createdBy: Option<nat>,
    createdAt: int,
    updatedBy: Option<nat>,
    updatedAt: int)

  /** A payment receipt; the PDF is an opaque byte string. */
  datatype TicketRow = TicketRow(
    id: nat,
    paymentId: nat,
    numeroComprobante: string,
    monto: real,
    fechaEmision: int,
    clienteId: nat,
    ticketPdf: Option<seq<bv8>>,
    fileName: Option<string>,
    createdBy: Option<nat>,
    createdAt: int)

  datatype Tipo = CREDITO_APROBADO | CREDITO_RECHAZADO | PAGO_REGISTRADO | VENCIMIENTO_PROXIMO | CREDITO_VENCIDO
  datatype Medio = WHATSAPP | TELEGRAM
  datatype EstadoEnvio = ENVIADO | FALLIDO

  /** A row of the notification log; the message text is opaque and not kept. */
  datatype Notification = Notification(
    clienteId: nat,
    tipo: Tipo,
    medio: Medio,
    estadoEnvio: EstadoEnvio,
    fechaEnvio: Option<int>,
    createdAt: int)

  /** The record written after a send attempt at `now` that did or did not succeed. */
  function SendRecord(clienteId: nat, tipo: Tipo, medio: Medio, sent: bool, now: int): (n: Notification)
    ensures n.clienteId == clienteId && n.tipo == tipo && n.medio == medio && n.createdAt == now
    ensures n.estadoEnvio == ENVIADO <==> sent
    ensures n.fechaEnvio.Some? <==> sent
    ensures sent ==> n.fechaEnvio == Some(now)
  {
    Notification(clienteId, tipo, medio, if sent then ENVIADO else FALLIDO,
                 if sent then Some(now) else None, now)
  }

  datatype UserRow = UserRow(
    id: nat,
    nombre: string,
    email: string,
    passwordHash: string,
    telefono: Option<string>,
    isActive: bool,
    createdBy: Option<nat>,
    createdAt: int,
    updatedBy: Option<nat>,
    updatedAt: int)

  /** `module` is a reserved word here, so the permission's module is named `modulo`. */
  datatype Permission = Permission(name: string, modulo: string, action: string, description: Option<string>)

  /** A role with its permissions in the order of the role-permission join rows. */
  datatype RoleRow = RoleRow(id: nat, name: string, permissions: seq<Permission>)

  datatype UserRole = UserRole(userId: nat, roleId: nat)

  datatype TokenRow = TokenRow(userId: nat, expiresAt: int, revoked: bool)

  /** The database errors the code distinguishes, with their Prisma codes. */
  datatype DbError =
    | UniqueViolation(target: seq<string>)
    | RecordNotFound
    | ForeignKeyViolation
  {
    function Code(): string {
      match this
      case UniqueViolation(_) => "P2002"
      case RecordNotFound => "P2025"
      case ForeignKeyViolation => "P2003"
    }
  }

  // ---------------------------------------------------------------------------
  // Unique keys, over the table values
  // ---------------------------------------------------------------------------

  /** `numeroCredito` is a unique column. */
  ghost predicate UniqueNumbers(credits: map<nat, CreditRow>) {
    forall a, b | a in credits && b in credits && credits[a].numeroCredito == credits[b].numeroCredito :: a == b
  }

  /** `cedula` is a unique column. */
  ghost predicate UniqueCedulas(clients: map<nat, ClientRow>) {
    forall a, b | a in clients && b in clients && clients[a].cedula == clients[b].cedula :: a == b
  }

  /** `email` is a unique column. */
  ghost predicate UniqueEmails(users: map<nat, UserRow>) {
    forall a, b | a in users && b in users && users[a].email == users[b].email :: a == b
  }

  ghost predicate RolesOk(roles: map<nat, RoleRow>) {
    forall k | k in roles :: 0 < k && roles[k].id == k
  }

  /** Every user-role join row belongs to an existing user. */
  ghost predicate RowsReferUsers(userRoles: seq<UserRole>, users: map<nat, UserRow>) {
    forall i | 0 <= i < |userRoles| :: userRoles[i].userId in users
  }

  predicate Distinct<T(==)>(s: seq<T>) {
    forall i, j | 0 <= i < j < |s| :: s[i] != s[j]
  }

  /** The database. */
  class Db {
    var credits: map<nat, CreditRow>
    var clients: map<nat, ClientRow>
    var payments: map<nat, PaymentRow>
    var tickets: map<nat, TicketRow>
    var users: map<nat, UserRow>
    var roles: map<nat, RoleRow>
    var userRoles: seq<UserRole>
    var notifications: seq<Notification>
    var refreshTokens: map<string, TokenRow>
    var nextCreditId: nat
    var nextClientId: nat
    var nextPaymentId: nat
    var nextTicketId: nat
    var nextUserId: nat

    /**
     * Every row sits under its own id, below the table's counter, and the
     * user-role join rows have no duplicate (their key is the pair).
     */
    ghost predicate Valid()
      reads this
    {
      nextCreditId > 0 && nextClientId > 0 && nextPaymentId > 0 && nextTicketId > 0 && nextUserId > 0
      && (forall k | k in credits :: 0 < k < nextCreditId && credits[k].id == k)
      && (forall k | k in clients :: 0 < k < nextClientId && clients[k].id == k)
      && (forall k | k in payments :: 0 < k < nextPaymentId && payments[k].id == k)
      && (forall k | k in tickets :: 0 < k < nextTicketId && tickets[k].id == k)
      && (forall k | k in users :: 0 < k < nextUserId && users[k].id == k)
      && RolesOk(roles)
      && Distinct(userRoles)
    }

    /** An empty database whose counters start at 1. */
    constructor (roles0: map<nat, RoleRow>)
      requires RolesOk(roles0)
      ensures Valid()
      ensures credits == map[] && clients == map[] && payments == map[] && tickets == map[]
      ensures users == map[] && roles == roles0 && userRoles == [] && notifications == []
      ensures refreshTokens == map[]
    {
      credits, clients, payments, tickets, users := map[], map[], map[], map[], map[];
      roles, userRoles, notifications, refreshTokens := roles0, [], [], map[];
      nextCreditId, nextClientId, nextPaymentId, nextTicketId, nextUserId := 1, 1, 1, 1, 1;
    }

    /** Appends one record to the notification log. */
    method AppendNotification(n: Notification)
      requires Valid()
      modifies this`notifications
      ensures Valid()
      ensures notifications == old(notifications) + [n]
    {
      notifications := notifications + [n];
    }

    /**
     * `prisma.userRole.create`: the pair must be new and refer to an existing
     * user and role; the primary key is met before the foreign keys.
     */
    method AssignRole(userId: nat, roleId: nat) returns (r: Outcome<DbError>)
      requires Valid()
      modifies this`userRoles
      ensures Valid()
      ensures r == Fail(UniqueViolation(["userId", "roleId"])) <==> UserRole(userId, roleId) in old(userRoles)
      ensures r == Fail(ForeignKeyViolation) <==>
                UserRole(userId, roleId) !in old(userRoles) && (userId !in users || roleId !in roles)
      ensures r.Pass? <==> userId in users && roleId in roles && UserRole(userId, roleId) !in old(userRoles)
      ensures r.Pass? ==> userRoles == old(userRoles) + [UserRole(userId, roleId)]
      ensures r.Fail? ==> userRoles == old(userRoles)
    {
      if UserRole(userId, roleId) in userRoles {
        return Fail(UniqueViolation(["userId", "roleId"]));
      }
      if userId !in users || roleId !in roles {
        return Fail(ForeignKeyViolation);
      }
      userRoles := userRoles + [UserRole(userId, roleId)];
      r := Pass;
    }

    /** `prisma.userRole.delete` by the composite key. */
    method RemoveRole(userId: nat, roleId: nat) returns (r: Outcome<DbError>)
      requires Valid()
      modifies this`userRoles
      ensures Valid()
      ensures r.Fail? <==> UserRole(userId, roleId) !in old(userRoles)
      ensures r.Fail? ==> r.error == RecordNotFound && userRoles == old(userRoles)
      ensures r.Pass? ==> userRoles == Without(old(userRoles), UserRole(userId, roleId))
    {
      if UserRole(userId, roleId) !in userRoles {
        return Fail(RecordNotFound);
      }
      WithoutKeepsDistinct(userRoles, UserRole(userId, roleId));
      userRoles := Without(userRoles, UserRole(userId, roleId));
      r := Pass;
    }
  }

  /** The join rows without one pair, order kept. */
  function Without(s: seq<UserRole>, x: UserRole): (r: seq<UserRole>)
    ensures forall y :: y in r <==> y in s && y != x
    ensures |r| <= |s|
  {
    if s == [] then []
    else if s[0] == x then Without(s[1..], x)
    else [s[0]] + Without(s[1..], x)
  }

  /** Removing a pair from the join rows keeps them free of duplicates. */
  lemma {:induction false} WithoutKeepsDistinct(s: seq<UserRole>, x: UserRole)
    requires Distinct(s)
    ensures Distinct(Without(s, x))
  {
    if s != [] {
      WithoutKeepsDistinct(s[1..], x);
      var t := Without(s[1..], x);
      assert s[0] !in s[1..];
      if s[0] != x {
        var r := [s[0]] + t;
        assert Without(s, x) == r;
        assert s[0] !in t;
        forall i, j | 0 <= i < j < |r| ensures r[i] != r[j] {
          assert r[j] == t[j - 1];
          if i > 0 {
            assert r[i] == t[i - 1];
          }
        }
      }
    }
  }

  /** The role ids of a user's join rows, in their order. */
  function RoleIdsOf(userRoles: seq<UserRole>, userId: nat): (ids: seq<nat>)
    ensures forall r :: r in ids <==> UserRole(userId, r) in userRoles
  {
    if userRoles == [] then []
    else
      var rest := RoleIdsOf(userRoles[1..], userId);
      if userRoles[0].userId == userId then [userRoles[0].roleId] + rest else rest
  }
}
