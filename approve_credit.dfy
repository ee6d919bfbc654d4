/**
 * The stand-alone approval use case: a pending credit becomes ACTIVO.  It
 * checks neither the client nor whether the client already has a running
 * credit, and it writes no notification.
 */
module ApproveCredit {

  import opened Common
  import opened CreditEntity
  import opened Store
  import opened CreditRepository
  import ManageCreditStatus

  datatype StateError = CreditNotFound | NotPending(estado: Estado)

  /** The guards of `execute`: the credit exists and is pending. */
  function Check(credits: map<nat, CreditRow>, creditId: nat): (r: Outcome<StateError>)
    ensures r == Fail(CreditNotFound) <==> creditId !in credits
    ensures r.Fail? && r.error.NotPending? <==> creditId in credits && credits[creditId].estado != PENDIENTE
    ensures r.Fail? && r.error.NotPending? ==> r.error.estado == credits[creditId].estado
  {
    if creditId !in credits then Fail(CreditNotFound)
    else if credits[creditId].estado != PENDIENTE then Fail(NotPending(credits[creditId].estado))
    else Pass
  }

  /** `execute(creditId, approvedBy)` at clock `now`. */
  method Execute(db: Db, creditId: nat, approvedBy: Option<nat>, now: int) returns (r: Result<CreditRow, StateError>)
    requires db.Valid()
    modifies db`credits
    ensures db.Valid()
    ensures r.Err? <==> Check(old(db.credits), creditId).Fail?
    ensures r.Err? ==> r.error == Check(old(db.credits), creditId).error && db.credits == old(db.credits)
    ensures r.Ok? ==> db.credits == WithState(old(db.credits), creditId, ACTIVO, approvedBy, now)
                      && r.value == db.credits[creditId]
  {
    var check := Check(db.credits, creditId);
    if check.Fail? {
      return Err(check.error);
    }
    var updated := Update(db, creditId, StatePatch(ACTIVO, approvedBy, now));
    r := Ok(updated.value);
  }

  /**
   * The guards of this use case are exactly those of the status manager's
   * `approve` without its client and running-credit checks.
   */
  lemma WeakerThanManagedApproval(credits: map<nat, CreditRow>, clients: map<nat, ClientRow>, creditId: nat)
    ensures ManageCreditStatus.ApproveCheck(credits, clients, creditId).Pass? <==>
              Check(credits, creditId).Pass? && credits[creditId].clienteId in clients
              && !HasActiveCredit(credits, credits[creditId].clienteId)
  {
  }

  /** A credit in the given state for client 1. */
  function Sample(id: nat, estado: Estado): CreditRow {
    CreditRow(id, "CRE-2025-00000" + [('0' as int + id % 10) as char], 1, 1000.0, 10, 0.20, 0, estado,
              0, None, 0, None, None)
  }

  /**
   * As written the use case breaks the one-running-credit invariant: with an
   * ACTIVO credit 1 and a PENDIENTE credit 2 of the same client, credit 2
   * passes the guards, and after the approval the client has two ACTIVO credits.
   */
  lemma ApproveBreaksOneRunning()
    ensures var credits := map[1 := Sample(1, ACTIVO), 2 := Sample(2, PENDIENTE)];
            OneRunningPerClient(credits) && Check(credits, 2).Pass?
            && !OneRunningPerClient(WithState(credits, 2, ACTIVO, None, 0))
  {
    var credits := map[1 := Sample(1, ACTIVO), 2 := Sample(2, PENDIENTE)];
    var after := WithState(credits, 2, ACTIVO, None, 0);
    assert after[1].estado == ACTIVO && after[2].estado == ACTIVO && after[1].clienteId == after[2].clienteId;
  }
}
