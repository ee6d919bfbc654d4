/**
 * Approving and rejecting a pending credit, with the client check, the
 * one-running-credit check of approval, the WhatsApp notice and its record
 * in the notification log.  The send itself is a success flag: the WhatsApp
 * client catches its own failures.  The record insert is not caught: when it
 * fails the request fails, with the state change already written.
 */
module ManageCreditStatus {

  import opened Common
  import opened CreditEntity
  import opened Store
  import opened CreditRepository

  datatype StatusError =
    | CreditNotFound
    | NotPending(estado: Estado)
    | ClientNotFound
    | ClientHasActiveCredit
    | RecordFailed

  /** The result of a state change; `motivo` is echoed by `reject` and absent for `approve`. */
  datatype StatusChange = StatusChange(credit: CreditRow, motivo: Option<string>, notificacionEnviada: bool)

  /**
   * The guards of `approve`, in source order: the credit exists, is pending,
   * its client exists and the client has no ACTIVO or INCUMPLIDO credit.
   */
  function ApproveCheck(credits: map<nat, CreditRow>, clients: map<nat, ClientRow>, creditId: nat)
    : (r: Outcome<StatusError>)
    ensures r == Fail(CreditNotFound) <==> creditId !in credits
    ensures (r.Fail? && r.error.NotPending?) <==> creditId in credits && credits[creditId].estado != PENDIENTE
    ensures r.Fail? && r.error.NotPending? ==> r.error.estado == credits[creditId].estado
    ensures r == Fail(ClientNotFound) <==>
              creditId in credits && credits[creditId].estado == PENDIENTE && credits[creditId].clienteId !in clients
    ensures r == Fail(ClientHasActiveCredit) <==>
              creditId in credits && credits[creditId].estado == PENDIENTE && credits[creditId].clienteId in clients
              && HasActiveCredit(credits, credits[creditId].clienteId)
    ensures r != Fail(RecordFailed)
  {
    if creditId !in credits then Fail(CreditNotFound)
    else if credits[creditId].estado != PENDIENTE then Fail(NotPending(credits[creditId].estado))
    else if credits[creditId].clienteId !in clients then Fail(ClientNotFound)
    else if HasActiveCredit(credits, credits[creditId].clienteId) then Fail(ClientHasActiveCredit)
    else Pass
  }

  /** The guards of `reject`: the same without the running-credit check. */
  function RejectCheck(credits: map<nat, CreditRow>, clients: map<nat, ClientRow>, creditId: nat)
    : (r: Outcome<StatusError>)
    ensures r == Fail(CreditNotFound) <==> creditId !in credits
    ensures (r.Fail? && r.error.NotPending?) <==> creditId in credits && credits[creditId].estado != PENDIENTE
    ensures r.Fail? && r.error.NotPending? ==> r.error.estado == credits[creditId].estado
    ensures r == Fail(ClientNotFound) <==>
              creditId in credits && credits[creditId].estado == PENDIENTE && credits[creditId].clienteId !in clients
    ensures r != Fail(ClientHasActiveCredit) && r != Fail(RecordFailed)
  {
    if creditId !in credits then Fail(CreditNotFound)
    else if credits[creditId].estado != PENDIENTE then Fail(NotPending(credits[creditId].estado))
    else if credits[creditId].clienteId !in clients then Fail(ClientNotFound)
    else Pass
  }

  /** Approval passes the reject guards too: it only adds one check. */
  lemma ApproveStricterThanReject(credits: map<nat, CreditRow>, clients: map<nat, ClientRow>, creditId: nat)
    ensures ApproveCheck(credits, clients, creditId).Pass? <==>
              RejectCheck(credits, clients, creditId).Pass?
              && !HasActiveCredit(credits, credits[creditId].clienteId)
  {
  }

  /**
   * An approval that passes its guards moves a pending credit to ACTIVO
   * along the lifecycle, and keeps every client within one running credit.
   */
  lemma ApproveKeepsOneRunning(credits: map<nat, CreditRow>, clients: map<nat, ClientRow>, creditId: nat,
                               actor: Option<nat>, now: int)
    requires OneRunningPerClient(credits)
    requires ApproveCheck(credits, clients, creditId).Pass?
    ensures LegalTransition(credits[creditId].estado, ACTIVO)
    ensures OneRunningPerClient(WithState(credits, creditId, ACTIVO, actor, now))
  {
    WithStateKeepsOneRunning(credits, creditId, ACTIVO, actor, now);
  }

  /** A rejection that passes its guards is a legal transition and keeps the invariant. */
  lemma RejectKeepsOneRunning(credits: map<nat, CreditRow>, clients: map<nat, ClientRow>, creditId: nat,
                              actor: Option<nat>, now: int)
    requires OneRunningPerClient(credits)
    requires RejectCheck(credits, clients, creditId).Pass?
    ensures LegalTransition(credits[creditId].estado, RECHAZADO)
    ensures OneRunningPerClient(WithState(credits, creditId, RECHAZADO, actor, now))
  {
    WithStateKeepsOneRunning(credits, creditId, RECHAZADO, actor, now);
  }

  /**
   * `approve(creditId, approvedBy)` at clock `now`; `sent` is whether the
   * WhatsApp send reported success and `recordOk` whether the insert of its
   * record succeeded.  The new table is `WithState` of the old one, which
   * `ApproveKeepsOneRunning` shows keeps the invariant; a failed record
   * insert leaves that change in place and adds no record.
   */
  method Approve(db: Db, creditId: nat, approvedBy: Option<nat>, now: int, sent: bool, recordOk: bool)
    returns (r: Result<StatusChange, StatusError>)
    requires db.Valid()
    modifies db`credits, db`notifications
    ensures db.Valid()
    ensures ApproveCheck(old(db.credits), old(db.clients), creditId).Fail? ==>
              r == Err(ApproveCheck(old(db.credits), old(db.clients), creditId).error)
              && db.credits == old(db.credits) && db.notifications == old(db.notifications)
    ensures ApproveCheck(old(db.credits), old(db.clients), creditId).Pass? ==>
              db.credits == WithState(old(db.credits), creditId, ACTIVO, approvedBy, now)
    ensures r == Err(RecordFailed) <==>
              ApproveCheck(old(db.credits), old(db.clients), creditId).Pass? && !recordOk
    ensures r == Err(RecordFailed) ==> db.notifications == old(db.notifications)
    ensures r.Ok? ==>
              ApproveCheck(old(db.credits), old(db.clients), creditId).Pass? && recordOk
              && r.value.credit == db.credits[creditId] && r.value.motivo.None?
              && db.notifications == old(db.notifications)
                                     + [SendRecord(r.value.credit.clienteId, CREDITO_APROBADO, WHATSAPP, sent, now)]
              && r.value.notificacionEnviada == sent
  {
    var check := ApproveCheck(db.credits, db.clients, creditId);
    if check.Fail? {
      return Err(check.error);
    }
    var credit := UpdateState(db, creditId, ACTIVO, approvedBy, now);
    if !recordOk {
      return Err(RecordFailed);
    }
    db.AppendNotification(SendRecord(credit.clienteId, CREDITO_APROBADO, WHATSAPP, sent, now));
    r := Ok(StatusChange(credit, None, sent));
  }

  /**
   * `reject(creditId, rejectedBy, motivo)` at clock `now`; `sent` is whether
   * the WhatsApp send reported success and `recordOk` whether the insert of
   * its record succeeded.
   */
  method Reject(db: Db, creditId: nat, rejectedBy: Option<nat>, motivo: Option<string>, now: int, sent: bool,
                recordOk: bool)
    returns (r: Result<StatusChange, StatusError>)
    requires db.Valid()
    modifies db`credits, db`notifications
    ensures db.Valid()
    ensures RejectCheck(old(db.credits), old(db.clients), creditId).Fail? ==>
              r == Err(RejectCheck(old(db.credits), old(db.clients), creditId).error)
              && db.credits == old(db.credits) && db.notifications == old(db.notifications)
    ensures RejectCheck(old(db.credits), old(db.clients), creditId).Pass? ==>
              db.credits == WithState(old(db.credits), creditId, RECHAZADO, rejectedBy, now)
    ensures r == Err(RecordFailed) <==>
              RejectCheck(old(db.credits), old(db.clients), creditId).Pass? && !recordOk
    ensures r == Err(RecordFailed) ==> db.notifications == old(db.notifications)
    ensures r.Ok? ==>
              RejectCheck(old(db.credits), old(db.clients), creditId).Pass? && recordOk
              && r.value.credit == db.credits[creditId] && r.value.motivo == motivo
              && db.notifications == old(db.notifications)
                                     + [SendRecord(r.value.credit.clienteId, CREDITO_RECHAZADO, WHATSAPP, sent, now)]
              && r.value.notificacionEnviada == sent
  {
    var check := RejectCheck(db.credits, db.clients, creditId);
    if check.Fail? {
      return Err(check.error);
    }
    var credit := UpdateState(db, creditId, RECHAZADO, rejectedBy, now);
    if !recordOk {
      return Err(RecordFailed);
    }
    db.AppendNotification(SendRecord(credit.clienteId, CREDITO_RECHAZADO, WHATSAPP, sent, now));
    r := Ok(StatusChange(credit, motivo, sent));
  }
}
