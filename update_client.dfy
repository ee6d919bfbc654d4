/**
 * Editing a client: the `updateData` object is built field by field from
 * the fields the request defines, then written into the one row, which is
 * read back and returned.  The id number, the creator and the Telegram chat
 * are never written.
 */
module UpdateClient {

  import opened Common
  import opened Text
  import opened Store

  /**
   * The request body.  The outer `None` of a field is `undefined`; the inner
   * value is what was sent, `None` standing for `null`.  `isActive` is the
   * truthiness of the value sent.
   */
  datatype ClientChanges = ClientChanges(
    nombre: Option<Option<string>>,
    email: Option<Option<string>>,
    direccion: Option<Option<string>>,
    telefono: Option<Option<string>>,
    isActive: Option<bool>,
    referencias: Option<Option<string>>,
    modalidadPago: Option<Option<string>>,
    assignedTo: Option<Option<nat>>)

  /** `updateData`: the audit fields and the keys that were set, `None` for a key left out. */
  datatype ClientPatch = ClientPatch(
    updatedBy: Option<nat>,
    updatedAt: int,
    nombre: Option<string>,
    email: Option<Option<string>>,
    direccion: Option<Option<string>>,
    telefono: Option<Option<string>>,
    isActive: Option<bool>,
    referencias: Option<Option<string>>,
    modalidadPago: Option<Option<string>>,
    assignedTo: Option<Option<nat>>)

  datatype UpdateError =
    | ClientNotFound
    /** `clientData.nombre.trim()` on `null` throws a TypeError. */
    | NullName
    | BlankName
    | Db(error: DbError)

  /** `if (x !== undefined) updateData.k = x || null` */
  function SetOrNull(x: Option<Option<string>>): (r: Option<Option<string>>)
    ensures r.None? <==> x.None?
    ensures x.Some? ==> r == Some(OptOrNull(x.value))
  {
    if x.Some? then Some(OptOrNull(x.value)) else None
  }

  function SetIdOrNull(x: Option<Option<nat>>): (r: Option<Option<nat>>)
    ensures r.None? <==> x.None?
    ensures x.Some? ==> r == Some(IdOrNull(x.value))
  {
    if x.Some? then Some(IdOrNull(x.value)) else None
  }

  /** Why the name check throws, if it does. */
  function NameError(nombre: Option<Option<string>>): (r: Option<UpdateError>)
    ensures r.None? <==> nombre.None? || (nombre.value.Some? && !IsBlank(nombre.value.value))
    ensures r == Some(NullName) <==> nombre == Some(None)
    ensures r == Some(BlankName) <==> nombre.Some? && nombre.value.Some? && IsBlank(nombre.value.value)
  {
    if nombre.None? then None
    else if nombre.value.None? then Some(NullName)
    else if IsBlank(nombre.value.value) then Some(BlankName)
    else None
  }

  /** The object the use case passes to `update`, read declaratively: one key per defined field. */
  function PatchOf(changes: ClientChanges, updatedBy: Option<nat>, now: int): ClientPatch
    requires NameError(changes.nombre).None?
  {
    ClientPatch(updatedBy, now,
                if changes.nombre.Some? then Some(Trim(changes.nombre.value.value)) else None,
                SetOrNull(changes.email), SetOrNull(changes.direccion), SetOrNull(changes.telefono),
                changes.isActive,
                SetOrNull(changes.referencias), SetOrNull(changes.modalidadPago),
                SetIdOrNull(changes.assignedTo))
  }

  /** `prisma.client.update({ data })`: every key of the patch overwrites its column. */
  function Apply(row: ClientRow, p: ClientPatch): ClientRow {
    row.(updatedBy := p.updatedBy, updatedAt := p.updatedAt,
         nombre := if p.nombre.Some? then p.nombre.value else row.nombre,
         email := if p.email.Some? then p.email.value else row.email,
         direccion := if p.direccion.Some? then p.direccion.value else row.direccion,
         telefono := if p.telefono.Some? then p.telefono.value else row.telefono,
         isActive := if p.isActive.Some? then p.isActive.value else row.isActive,
         referencias := if p.referencias.Some? then p.referencias.value else row.referencias,
         modalidadPago := if p.modalidadPago.Some? then p.modalidadPago.value else row.modalidadPago,
         assignedTo := if p.assignedTo.Some? then p.assignedTo.value else row.assignedTo)
  }

  /**
   * Building `updateData`: the audit fields first, then one `if` per field in
   * source order.  The name check may throw before anything else is set.
   */
  method BuildPatch(changes: ClientChanges, updatedBy: Option<nat>, now: int) returns (r: Result<ClientPatch, UpdateError>)
    ensures r.Err? <==> NameError(changes.nombre).Some?
    ensures r.Err? ==> r.error == NameError(changes.nombre).value
    ensures r.Ok? ==> r.value == PatchOf(changes, updatedBy, now)
  {
    var patch := ClientPatch(updatedBy, now, None, None, None, None, None, None, None, None);
    if changes.nombre.Some? {
      if changes.nombre.value.None? {
        return Err(NullName);
      }
      if |Trim(changes.nombre.value.value)| == 0 {
        return Err(BlankName);
      }
      patch := patch.(nombre := Some(Trim(changes.nombre.value.value)));
    }
    if changes.email.Some? {
      patch := patch.(email := Some(OptOrNull(changes.email.value)));
    }
    if changes.direccion.Some? {
      patch := patch.(direccion := Some(OptOrNull(changes.direccion.value)));
    }
    if changes.telefono.Some? {
      patch := patch.(telefono := Some(OptOrNull(changes.telefono.value)));
    }
    if changes.isActive.Some? {
      patch := patch.(isActive := changes.isActive);
    }
    if changes.referencias.Some? {
      patch := patch.(referencias := Some(OptOrNull(changes.referencias.value)));
    }
    if changes.modalidadPago.Some? {
      patch := patch.(modalidadPago := Some(OptOrNull(changes.modalidadPago.value)));
    }
    if changes.assignedTo.Some? {
      patch := patch.(assignedTo := Some(IdOrNull(changes.assignedTo.value)));
    }
    r := Ok(patch);
  }

  /**
   * Field by field: an undefined field keeps its value, a defined one takes
   * the trimmed name or the value sent with falsy values as `null`; the id,
   * the id number, the creation stamp and the Telegram chat never change,
   * and the audit fields are always written.
   */
  lemma {:induction false} UpdateFieldwise(row: ClientRow, changes: ClientChanges, updatedBy: Option<nat>, now: int)
    requires NameError(changes.nombre).None? && row.nombre != []
    ensures var n := Apply(row, PatchOf(changes, updatedBy, now));
            n.id == row.id && n.cedula == row.cedula && n.createdBy == row.createdBy
            && n.createdAt == row.createdAt && n.telegramChatId == row.telegramChatId
            && n.updatedBy == updatedBy && n.updatedAt == now
            && n.nombre == (if changes.nombre.None? then row.nombre else Trim(changes.nombre.value.value))
            && n.nombre != []
            && n.email == (if changes.email.None? then row.email else OptOrNull(changes.email.value))
            && n.direccion == (if changes.direccion.None? then row.direccion else OptOrNull(changes.direccion.value))
            && n.telefono == (if changes.telefono.None? then row.telefono else OptOrNull(changes.telefono.value))
            && n.isActive == (if changes.isActive.None? then row.isActive else changes.isActive.value)
            && n.referencias == (if changes.referencias.None? then row.referencias else OptOrNull(changes.referencias.value))
            && n.modalidadPago == (if changes.modalidadPago.None? then row.modalidadPago else OptOrNull(changes.modalidadPago.value))
            && n.assignedTo == (if changes.assignedTo.None? then row.assignedTo else IdOrNull(changes.assignedTo.value))
  {
  }

  /** A body that defines no field only stamps the audit fields. */
  lemma EmptyChangesOnlyStamp(row: ClientRow, updatedBy: Option<nat>, now: int)
    ensures var none := ClientChanges(None, None, None, None, None, None, None, None);
            Apply(row, PatchOf(none, updatedBy, now)) == row.(updatedBy := updatedBy, updatedAt := now)
  {
  }

  /** Sending the same edit twice leaves the row as sending it once. */
  lemma {:induction false} UpdateIdempotent(row: ClientRow, changes: ClientChanges, updatedBy: Option<nat>, now: int)
    requires NameError(changes.nombre).None?
    ensures var p := PatchOf(changes, updatedBy, now);
            Apply(Apply(row, p), p) == Apply(row, p)
  {
  }

  /** Writing a row that keeps its id number keeps the id numbers unique. */
  lemma {:induction false} SameCedulaKeepsUnique(clients: map<nat, ClientRow>, id: nat, row: ClientRow)
    requires UniqueCedulas(clients) && id in clients && row.cedula == clients[id].cedula
    ensures UniqueCedulas(clients[id := row])
  {
    var m := clients[id := row];
    forall a, b | a in m && b in m && m[a].cedula == m[b].cedula
      ensures a == b
    {
      assert m[a].cedula == clients[a].cedula;
      assert m[b].cedula == clients[b].cedula;
    }
  }

  /** `clientRepository.update(id, updateData)`: a cobrador that is set must exist. */
  method Write(db: Db, id: nat, p: ClientPatch) returns (r: Result<ClientRow, DbError>)
    requires db.Valid() && id in db.clients
    modifies db`clients
    ensures db.Valid()
    ensures r.Err? <==> p.assignedTo.Some? && p.assignedTo.value.Some? && p.assignedTo.value.value !in old(db.users)
    ensures r.Err? ==> r.error == ForeignKeyViolation && db.clients == old(db.clients)
    ensures r.Ok? ==> r.value == Apply(old(db.clients)[id], p) && db.clients == old(db.clients)[id := r.value]
    ensures UniqueCedulas(old(db.clients)) ==> UniqueCedulas(db.clients)
  {
    if p.assignedTo.Some? && p.assignedTo.value.Some? && p.assignedTo.value.value !in db.users {
      return Err(ForeignKeyViolation);
    }
    var updated := Apply(db.clients[id], p);
    if UniqueCedulas(db.clients) {
      SameCedulaKeepsUnique(db.clients, id, updated);
    }
    db.clients := db.clients[id := updated];
    r := Ok(updated);
  }

  /**
   * `execute(id, clientData, updatedBy)` at clock `now`.  Every failure comes
   * before the one write; the row read back after the write is returned.
   */
  method Execute(db: Db, id: nat, changes: ClientChanges, updatedBy: Option<nat>, now: int)
    returns (r: Result<ClientRow, UpdateError>)
    requires db.Valid()
    modifies db`clients
    ensures db.Valid()
    ensures r == Err(ClientNotFound) <==> id !in old(db.clients)
    ensures r.Err? && r.error in {NullName, BlankName} <==>
              id in old(db.clients) && NameError(changes.nombre).Some?
    ensures r.Err? && r.error in {NullName, BlankName} ==> r.error == NameError(changes.nombre).value
    ensures r == Err(Db(ForeignKeyViolation)) <==>
              id in old(db.clients) && NameError(changes.nombre).None?
              && changes.assignedTo.Some? && IdOrNull(changes.assignedTo.value).Some?
              && IdOrNull(changes.assignedTo.value).value !in old(db.users)
    ensures r.Err? ==> db.clients == old(db.clients)
    ensures r.Ok? ==> id in old(db.clients) && NameError(changes.nombre).None?
                      && r.value == Apply(old(db.clients)[id], PatchOf(changes, updatedBy, now))
                      && db.clients == old(db.clients)[id := r.value]
    ensures UniqueCedulas(old(db.clients)) ==> UniqueCedulas(db.clients)
  {
    if id !in db.clients {
      return Err(ClientNotFound);
    }
    var built := BuildPatch(changes, updatedBy, now);
    if built.Err? {
      return Err(built.error);
    }
    var written := Write(db, id, built.value);
    if written.Err? {
      return Err(Db(written.error));
    }
    r := Ok(db.clients[id]);
  }
}
