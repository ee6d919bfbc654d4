/**
 * Registering a client: the name and id-number guards, the duplicate lookup
 * with the id number as given, and the insert of the trimmed values, which
 * the unique `cedula` column checks once more.
 */
module CreateClient {

  import opened Common
  import opened Text
  import opened Store
  import opened ErrorHandler

  /**
   * The request body; `isActive` is the truthiness of the given value, or
   * `None` when the field is absent.
   */
  datatype ClientData = ClientData(
    nombre: Option<string>,
    cedula: Option<string>,
    direccion: Option<string>,
    telefono: Option<string>,
    email: Option<string>,
    isActive: Option<bool>,
    referencias: Option<string>,
    modalidadPago: Option<string>,
    assignedTo: Option<nat>)

  datatype CreateError =
    | MissingNameOrCedula
    | NameTooShort
    | CedulaTaken
    | Db(error: DbError)

  /** The error thrown for each failure: plain errors, the 409-tagged duplicate, or the database's own. */
  function Thrown(e: CreateError): (err: JsError)
    ensures e.Db? ==> err == PrismaError(e.error)
    ensures e.CedulaTaken? ==> err.statusCode == Some(409) && err.code == Some("DUPLICATE_ENTRY") && err.field == Some("cedula")
    ensures !e.Db? ==> err.name == "Error" && !IsPrismaCode(err.code)
  {
    match e
    case MissingNameOrCedula => JsError("Error", None, None, None, None)
    case NameTooShort => JsError("Error", None, None, None, None)
    case CedulaTaken =>
      assert "DUPLICATE_ENTRY"[..1][0] == 'D';
      JsError("Error", Some("DUPLICATE_ENTRY"), Some(409), Some("cedula"), None)
    case Db(d) => PrismaError(d)
  }

  predicate CedulaRegistered(clients: map<nat, ClientRow>, cedula: string) {
    exists k | k in clients :: clients[k].cedula == cedula
  }

  /** The two guards before the lookup. */
  predicate Admitted(data: ClientData) {
    TruthyStr(data.nombre) && TruthyStr(data.cedula) && JsLength(Trim(data.nombre.value)) >= 2
  }

  /** The row `create` is asked to store at `id`. */
  function NewRow(id: nat, data: ClientData, createdBy: Option<nat>, now: int): ClientRow
    requires TruthyStr(data.nombre) && TruthyStr(data.cedula)
  {
    ClientRow(id, Trim(data.nombre.value), Trim(data.cedula.value),
              OptOrNull(data.direccion), OptOrNull(data.telefono), OptOrNull(data.email),
              if data.isActive.Some? then data.isActive.value else true,
              OptOrNull(data.referencias), OptOrNull(data.modalidadPago), IdOrNull(data.assignedTo),
              None, createdBy, now, None, now)
  }

  /**
   * What the stored row holds: the trimmed name of length (in UTF-16 units) at least two,
   * the trimmed id number, `null` in place of every falsy optional, `isActive`
   * true unless a value was given, no Telegram chat and both timestamps `now`.
   */
  lemma NewRowLaws(id: nat, data: ClientData, createdBy: Option<nat>, now: int)
    requires Admitted(data)
    ensures var row := NewRow(id, data, createdBy, now);
            row.id == id && JsLength(row.nombre) >= 2 && Trim(row.nombre) == row.nombre && Trim(row.cedula) == row.cedula
            && (row.direccion.Some? <==> TruthyStr(data.direccion))
            && (row.telefono.Some? <==> TruthyStr(data.telefono))
            && (row.email.Some? <==> TruthyStr(data.email))
            && (row.referencias.Some? <==> TruthyStr(data.referencias))
            && (row.modalidadPago.Some? <==> TruthyStr(data.modalidadPago))
            && (row.direccion.Some? ==> row.direccion == data.direccion)
            && (row.telefono.Some? ==> row.telefono == data.telefono)
            && (row.email.Some? ==> row.email == data.email)
            && (row.referencias.Some? ==> row.referencias == data.referencias)
            && (row.modalidadPago.Some? ==> row.modalidadPago == data.modalidadPago)
            && (row.assignedTo.Some? <==> TruthyNat(data.assignedTo))
            && (row.assignedTo.Some? ==> row.assignedTo == data.assignedTo)
            && (row.isActive <==> data.isActive != Some(false))
            && row.telegramChatId.None? && row.createdBy == createdBy && row.updatedBy.None?
            && row.createdAt == now && row.updatedAt == now
  {
    TrimIdempotent(data.nombre.value);
    TrimIdempotent(data.cedula.value);
  }

  /**
   * Only the name's length is checked after trimming: an id number of spaces
   * passes the guards and is stored as the empty string.
   */
  lemma BlankCedulaStoredEmpty(id: nat, data: ClientData, createdBy: Option<nat>, now: int)
    requires TruthyStr(data.nombre) && JsLength(Trim(data.nombre.value)) >= 2
    requires data.cedula == Some("  ")
    ensures Admitted(data) && NewRow(id, data, createdBy, now).cedula == ""
  {
    assert AllSpace(data.cedula.value) by {
      assert forall i | 0 <= i < 2 :: data.cedula.value[i] == ' ';
    }
  }

  /**
   * The guards and the insert's constraints in order: missing fields, a
   * short name, the lookup of the id number as given, then the unique column
   * on the trimmed id number and the cobrador reference.  PostgreSQL checks a
   * unique index while it inserts the row and a foreign key only after it, so
   * a row that breaks both is refused by the unique column.
   */
  function Check(clients: map<nat, ClientRow>, users: map<nat, UserRow>, data: ClientData): (r: Outcome<CreateError>)
    ensures r == Fail(MissingNameOrCedula) <==> !TruthyStr(data.nombre) || !TruthyStr(data.cedula)
    ensures r == Fail(NameTooShort) <==>
              TruthyStr(data.nombre) && TruthyStr(data.cedula) && JsLength(Trim(data.nombre.value)) < 2
    ensures r == Fail(CedulaTaken) <==> Admitted(data) && CedulaRegistered(clients, data.cedula.value)
    ensures r == Fail(Db(UniqueViolation(["cedula"]))) <==>
              Admitted(data) && !CedulaRegistered(clients, data.cedula.value)
              && CedulaRegistered(clients, Trim(data.cedula.value))
    ensures r == Fail(Db(ForeignKeyViolation)) <==>
              Admitted(data) && !CedulaRegistered(clients, Trim(data.cedula.value))
              && !CedulaRegistered(clients, data.cedula.value)
              && TruthyNat(data.assignedTo) && data.assignedTo.value !in users
  {
    if !TruthyStr(data.nombre) || !TruthyStr(data.cedula) then Fail(MissingNameOrCedula)
    else if JsLength(Trim(data.nombre.value)) < 2 then Fail(NameTooShort)
    else if CedulaRegistered(clients, data.cedula.value) then Fail(CedulaTaken)
    else if CedulaRegistered(clients, Trim(data.cedula.value)) then Fail(Db(UniqueViolation(["cedula"])))
    else if TruthyNat(data.assignedTo) && data.assignedTo.value !in users then Fail(Db(ForeignKeyViolation))
    else Pass
  }

  /** Every stored id number is its own trim, as this use case stores them. */
  ghost predicate CedulasTrimmed(clients: map<nat, ClientRow>) {
    forall k | k in clients :: Trim(clients[k].cedula) == clients[k].cedula
  }

  /**
   * Whichever of the two checks catches a duplicate, the client sees the same
   * answer: 409 DUPLICATE_ENTRY on `cedula`.  An id number with surrounding
   * spaces slips past the lookup and is caught by the unique column.
   */
  lemma DuplicateAnswer(clients: map<nat, ClientRow>, users: map<nat, UserRow>, data: ClientData)
    requires Check(clients, users, data) in {Fail(CedulaTaken), Fail(Db(UniqueViolation(["cedula"])))}
    ensures HandleError(Thrown(Check(clients, users, data).error)) == Response(409, "DUPLICATE_ENTRY", Some("cedula"))
  {
    DbErrorResponses(UniqueViolation(["cedula"]));
  }

  /**
   * While every stored id number is trimmed, the two checks together refuse
   * exactly the id numbers whose trim is already registered.
   */
  lemma {:induction false} DuplicateExactly(clients: map<nat, ClientRow>, users: map<nat, UserRow>, data: ClientData)
    requires CedulasTrimmed(clients) && Admitted(data)
    ensures Check(clients, users, data) in {Fail(CedulaTaken), Fail(Db(UniqueViolation(["cedula"])))}
            <==> CedulaRegistered(clients, Trim(data.cedula.value))
  {
    var c := data.cedula.value;
    if CedulaRegistered(clients, c) {
      var k :| k in clients && clients[k].cedula == c;
      assert Trim(c) == c;
      assert clients[k].cedula == Trim(c);
    }
  }

  /** The guard failures that are not database errors reach the client as 500 INTERNAL_ERROR. */
  lemma PlainErrorsAre500(e: CreateError)
    requires e in {MissingNameOrCedula, NameTooShort}
    ensures HandleError(Thrown(e)) == Response(500, "INTERNAL_ERROR", None)
  {
  }

  /** Inserting a row whose id number is new keeps the id numbers unique. */
  lemma InsertKeepsUnique(clients: map<nat, ClientRow>, id: nat, row: ClientRow)
    requires UniqueCedulas(clients) && id !in clients && !CedulaRegistered(clients, row.cedula)
    ensures UniqueCedulas(clients[id := row])
  {
    var m := clients[id := row];
    forall a, b | a in m && b in m && m[a].cedula == m[b].cedula
      ensures a == b
    {
    }
  }

  /** The rows this use case inserts keep every stored id number trimmed. */
  lemma InsertKeepsTrimmed(clients: map<nat, ClientRow>, id: nat, data: ClientData, createdBy: Option<nat>, now: int)
    requires CedulasTrimmed(clients) && Admitted(data)
    ensures CedulasTrimmed(clients[id := NewRow(id, data, createdBy, now)])
  {
    TrimIdempotent(data.cedula.value);
  }

  /**
   * `clientRepository.create(row)`: the id number must be unused and the
   * cobrador must exist (the unique index is checked first); the row is
   * stored at the next id.
   */
  method Insert(db: Db, row: ClientRow) returns (r: Result<ClientRow, DbError>)
    requires db.Valid()
    modifies db`clients, db`nextClientId
    ensures db.Valid()
    ensures r.Err? ==> db.clients == old(db.clients) && db.nextClientId == old(db.nextClientId)
    ensures r == Err(UniqueViolation(["cedula"])) <==> CedulaRegistered(old(db.clients), row.cedula)
    ensures r == Err(ForeignKeyViolation) <==>
              !CedulaRegistered(old(db.clients), row.cedula)
              && row.assignedTo.Some? && row.assignedTo.value !in old(db.users)
    ensures r.Err? ==> r.error in {ForeignKeyViolation, UniqueViolation(["cedula"])}
    ensures r.Ok? ==> r.value == row.(id := old(db.nextClientId))
                      && db.clients == old(db.clients)[old(db.nextClientId) := r.value]
                      && db.nextClientId == old(db.nextClientId) + 1
    ensures UniqueCedulas(old(db.clients)) ==> UniqueCedulas(db.clients)
  {
    if CedulaRegistered(db.clients, row.cedula) {
      return Err(UniqueViolation(["cedula"]));
    }
    if row.assignedTo.Some? && row.assignedTo.value !in db.users {
      return Err(ForeignKeyViolation);
    }
    var stored := row.(id := db.nextClientId);
    if UniqueCedulas(db.clients) {
      InsertKeepsUnique(db.clients, db.nextClientId, stored);
    }
    db.clients := db.clients[db.nextClientId := stored];
    db.nextClientId := db.nextClientId + 1;
    r := Ok(stored);
  }

  /**
   * `execute(clientData, createdBy)` at clock `now`.  A failure writes
   * nothing; a success inserts the one `NewRow` at the next id.
   */
  method Execute(db: Db, data: ClientData, createdBy: Option<nat>, now: int) returns (r: Result<ClientRow, CreateError>)
    requires db.Valid()
    modifies db`clients, db`nextClientId
    ensures db.Valid()
    ensures r.Err? <==> Check(old(db.clients), old(db.users), data).Fail?
    ensures r.Err? ==> r.error == Check(old(db.clients), old(db.users), data).error
                       && db.clients == old(db.clients) && db.nextClientId == old(db.nextClientId)
    ensures r.Ok? ==> Admitted(data)
                      && r.value == NewRow(old(db.nextClientId), data, createdBy, now)
                      && db.clients == old(db.clients)[old(db.nextClientId) := r.value]
                      && db.nextClientId == old(db.nextClientId) + 1
    ensures UniqueCedulas(old(db.clients)) ==> UniqueCedulas(db.clients)
  {
    if !TruthyStr(data.nombre) || !TruthyStr(data.cedula) {
      return Err(MissingNameOrCedula);
    }
    if JsLength(Trim(data.nombre.value)) < 2 {
      return Err(NameTooShort);
    }
    if CedulaRegistered(db.clients, data.cedula.value) {
      return Err(CedulaTaken);
    }
    var row := NewRow(db.nextClientId, data, createdBy, now);
    var inserted := Insert(db, row);
    if inserted.Err? {
      return Err(Db(inserted.error));
    }
    r := Ok(inserted.value);
  }
}
