/**
 * The stand-alone rejection use case: a pending credit becomes RECHAZADO;
 * no other credit changes and no notification is written.
 */
module RejectCredit {

  import opened Common
  import opened CreditEntity
  import opened Store
  import opened CreditRepository

  datatype StateError = CreditNotFound | NotPending(estado: Estado)

  /** The guards of `execute`: the credit exists and is pending. */
  function Check(credits: map<nat, CreditRow>, creditId: nat): (r: Outcome<StateError>)
    ensures r == Fail(CreditNotFound) <==> creditId !in credits
    ensures r.Fail? && r.error.NotPending? <==> creditId in credits && credits[creditId].estado != PENDIENTE
    ensures r.Fail? && r.error.NotPending? ==> r.error.estado == credits[creditId].estado
  {
    if creditId !in credits then Fail(CreditNotFound)
    else if credits[creditId].estado != PENDIENTE then Fail(NotPending(credits[creditId].estado))
    else Pass
  }

  /** `execute(creditId, rejectedBy)` at clock `now`. */
  method Execute(db: Db, creditId: nat, rejectedBy: Option<nat>, now: int) returns (r: Result<CreditRow, StateError>)
    requires db.Valid()
    modifies db`credits
    ensures db.Valid()
    ensures r.Err? <==> Check(old(db.credits), creditId).Fail?
    ensures r.Err? ==> r.error == Check(old(db.credits), creditId).error && db.credits == old(db.credits)
    ensures r.Ok? ==> db.credits == WithState(old(db.credits), creditId, RECHAZADO, rejectedBy, now)
                      && r.value == db.credits[creditId]
  {
    var check := Check(db.credits, creditId);
    if check.Fail? {
      return Err(check.error);
    }
    var updated := Update(db, creditId, StatePatch(RECHAZADO, rejectedBy, now));
    r := Ok(updated.value);
  }

  /**
   * A rejection that passes the guards is a legal transition, keeps the
   * invariant whatever the other credits are, and leaves the client with no
   * more running credits than before.
   */
  lemma RejectKeepsOneRunning(credits: map<nat, CreditRow>, creditId: nat, rejectedBy: Option<nat>, now: int)
    requires Check(credits, creditId).Pass?
    ensures LegalTransition(credits[creditId].estado, RECHAZADO)
    ensures OneRunningPerClient(credits) ==> OneRunningPerClient(WithState(credits, creditId, RECHAZADO, rejectedBy, now))
    ensures forall c :: HasActiveCredit(WithState(credits, creditId, RECHAZADO, rejectedBy, now), c) <==>
                        HasActiveCredit(credits, c)
  {
    var after := WithState(credits, creditId, RECHAZADO, rejectedBy, now);
    if OneRunningPerClient(credits) {
      WithStateKeepsOneRunning(credits, creditId, RECHAZADO, rejectedBy, now);
    }
    forall c ensures HasActiveCredit(after, c) <==> HasActiveCredit(credits, c) {
      if HasActiveCredit(credits, c) {
        var id :| id in credits && credits[id].clienteId == c && IsRunning(credits[id].estado);
        assert after[id] == credits[id];
      }
      if HasActiveCredit(after, c) {
        var id :| id in after && after[id].clienteId == c && IsRunning(after[id].estado);
        assert after[id] == credits[id];
      }
    }
  }
}
