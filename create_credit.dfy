/**
 * Creating a credit: the client must exist and must not already have a
 * running credit; a missing rate and due date get their defaults; the credit
 * entity is validated before the single insert.
 */
module CreateCredit {

  import opened Common
  import opened Text
  import opened CreditEntity
  import opened Store
  import opened CreditRepository

  /** The request body; every field may be absent. */
  datatype CreditData = CreditData(
    clienteId: Option<nat>,
    montoPrincipal: Option<real>,
    cuotas: Option<int>,
    tasaInteresAplicada: Option<real>,
    fechaVencimiento: Option<int>,
    estado: Option<Estado>)

  datatype CreateCreditError =
    | ClientNotFound
    | ClientHasActiveCredit
    | Invalid(reason: CreditError)
    | DbFailure(cause: DbError)

  /** The stored credit with the figures the response adds. */
  datatype CreatedCredit = CreatedCredit(credit: CreditRow, montoTotal: real, valorCuota: real, totalInteres: real)

  /** The default rate when `GLOBAL_INTEREST_RATE` is unset, unparsable or zero. */
  const DEFAULT_RATE: real := 0.20

  /** Days per installment for a default due date. */
  const DAYS_PER_INSTALLMENT: int := 30

  /**
   * The stored credit is the request with its defaults: the generated number,
   * the given client, principal and installments, the given rate unless it is
   * absent or zero, the given due date unless absent, the given state or
   * PENDIENTE, and the actor and clock in both audit pairs.
   */
  predicate Requested(c: CreditRow, data: CreditData, numeroCredito: string, createdBy: Option<nat>,
                      envRate: Option<real>, now: int) {
    c.numeroCredito == numeroCredito
    && data.clienteId == Some(c.clienteId)
    && data.montoPrincipal == Some(c.montoPrincipal) && data.cuotas == Some(c.cuotas)
    && c.tasaInteresAplicada == Rate(data, envRate)
    && c.fechaVencimiento == (if TruthyInt(data.fechaVencimiento) then data.fechaVencimiento.value
                              else DefaultDueDate(now, c.cuotas))
    && c.estado == (if data.estado.Some? then data.estado.value else PENDIENTE)
    && c.createdBy == createdBy && c.updatedBy == createdBy
    && c.createdAt == now && c.updatedAt == now && c.deletedAt.None?
  }

  /** The rate applied: the given one unless absent or zero, else the global one unless unset or zero, else 0.20. */
  function Rate(data: CreditData, envRate: Option<real>): real {
    if TruthyReal(data.tasaInteresAplicada) then data.tasaInteresAplicada.value
    else if TruthyReal(envRate) then envRate.value
    else DEFAULT_RATE
  }

  /**
   * The entity checks on the prepared values: a non-blank number, a client,
   * a positive principal and installment count, and a positive applied rate
   * (a zero rate never reaches the check, it has been replaced).
   */
  predicate Acceptable(data: CreditData, numeroCredito: string, clienteId: nat, envRate: Option<real>) {
    !IsBlank(numeroCredito) && clienteId != 0
    && data.montoPrincipal.Some? && data.montoPrincipal.value > 0.0
    && data.cuotas.Some? && data.cuotas.value > 0
    && Rate(data, envRate) > 0.0
  }

  /** Thirty days per installment after `now`. */
  function DefaultDueDate(now: int, cuotas: int): (d: int)
    ensures cuotas > 0 ==> d > now
  {
    var days := cuotas * DAYS_PER_INSTALLMENT;
    now + days * DAY_MS
  }

  /** The default due date lies exactly thirty whole days per installment ahead. */
  lemma DefaultDueDateDays(now: int, cuotas: int)
    ensures CeilDays(DefaultDueDate(now, cuotas) - now) == cuotas * DAYS_PER_INSTALLMENT
  {
    CeilDaysExact(cuotas * DAYS_PER_INSTALLMENT);
  }

  lemma CeilDaysExact(days: int)
    ensures CeilDays(days * DAY_MS) == days
  {
  }

  /**
   * `execute(creditData, createdBy)` at clock `now` in calendar year `year`;
   * `envRate` is `parseFloat(GLOBAL_INTEREST_RATE)`, `None` for `NaN`.
   */
  method Execute(db: Db, data: CreditData, createdBy: Option<nat>, envRate: Option<real>, now: int, year: nat)
    returns (r: Result<CreatedCredit, CreateCreditError>)
    requires db.Valid()
    modifies db`credits, db`nextCreditId
    ensures db.Valid()
    ensures r.Err? ==> db.credits == old(db.credits) && db.nextCreditId == old(db.nextCreditId)
    ensures r == Err(ClientNotFound) <==> data.clienteId.None? || data.clienteId.value !in old(db.clients)
    ensures r == Err(ClientHasActiveCredit) <==>
              data.clienteId.Some? && data.clienteId.value in old(db.clients)
              && HasActiveCredit(old(db.credits), data.clienteId.value)
    ensures (r.Err? && r.error.Invalid?) <==>
              data.clienteId.Some? && data.clienteId.value in old(db.clients)
              && !HasActiveCredit(old(db.credits), data.clienteId.value)
              && !Acceptable(data, GenerateCreditNumber(old(db.credits), old(db.nextCreditId), year),
                             data.clienteId.value, envRate)
    ensures r.Ok? ==>
              var c := r.value.credit;
              c.id == old(db.nextCreditId) && db.credits == old(db.credits)[c.id := c]
              && db.nextCreditId == old(db.nextCreditId) + 1
              && Requested(c, data, GenerateCreditNumber(old(db.credits), old(db.nextCreditId), year),
                           createdBy, envRate, now)
    ensures r.Ok? ==> r.value.credit.montoPrincipal > 0.0 && r.value.credit.cuotas > 0
                      && r.value.credit.tasaInteresAplicada > 0.0
    ensures r.Ok? ==> r.value == Figures(r.value.credit)
    ensures OneRunningPerClient(old(db.credits)) ==> OneRunningPerClient(db.credits)
  {
    if data.clienteId.None? || data.clienteId.value !in db.clients {
      return Err(ClientNotFound);
    }
    var clienteId := data.clienteId.value;
    if HasActiveCredit(db.credits, clienteId) {
      return Err(ClientHasActiveCredit);
    }
    var numeroCredito := GenerateCreditNumber(db.credits, db.nextCreditId, year);

    var prepared := Prepare(data, numeroCredito, clienteId, createdBy, envRate, now);
    if prepared.Err? {
      return Err(Invalid(prepared.error));
    }
    r := Persist(db, prepared.value);
  }

  /**
   * The defaults and the entity check: an absent or zero rate becomes the
   * global rate or 0.20, an absent due date becomes 30 days per installment,
   * an absent state PENDIENTE; the row is returned only if the entity is valid.
   */
  method Prepare(data: CreditData, numeroCredito: string, clienteId: nat, createdBy: Option<nat>,
                 envRate: Option<real>, now: int)
    returns (r: Result<CreditRow, CreditError>)
    requires data.clienteId == Some(clienteId)
    ensures r.Ok? ==> Requested(r.value, data, numeroCredito, createdBy, envRate, now)
                      && r.value.clienteId == clienteId
                      && r.value.montoPrincipal > 0.0 && r.value.cuotas > 0 && r.value.tasaInteresAplicada > 0.0
    ensures r.Ok? <==> Acceptable(data, numeroCredito, clienteId, envRate)
  {
    var tasaInteres := data.tasaInteresAplicada;
    if !TruthyReal(tasaInteres) {
      tasaInteres := if TruthyReal(envRate) then envRate else Some(DEFAULT_RATE);
    }

    // Without installments the default date is an invalid date, yet still a
    // present value; validation then fails on the installments first.
    var fechaVencimiento := data.fechaVencimiento;
    if !TruthyInt(fechaVencimiento) {
      fechaVencimiento := if data.cuotas.Some? then Some(DefaultDueDate(now, data.cuotas.value))
                          else Some(now);
    }

    var estado := if data.estado.Some? then data.estado.value else PENDIENTE;
    PreparedLaws(data, numeroCredito, clienteId, createdBy, envRate, now, tasaInteres, fechaVencimiento);
    r := Validated(numeroCredito, clienteId, data.montoPrincipal, data.cuotas, tasaInteres,
                   fechaVencimiento, estado, createdBy, now);
  }

  /** The row validated from the defaulted values is the requested one, and exists exactly when acceptable. */
  lemma PreparedLaws(data: CreditData, numeroCredito: string, clienteId: nat, createdBy: Option<nat>,
                     envRate: Option<real>, now: int, tasa: Option<real>, fecha: Option<int>)
    requires data.clienteId == Some(clienteId)
    requires tasa == Some(Rate(data, envRate))
    requires fecha.Some?
    requires data.cuotas.Some? ==>
               fecha.value == (if TruthyInt(data.fechaVencimiento) then data.fechaVencimiento.value
                               else DefaultDueDate(now, data.cuotas.value))
    ensures var r := Validated(numeroCredito, clienteId, data.montoPrincipal, data.cuotas, tasa, fecha,
                               if data.estado.Some? then data.estado.value else PENDIENTE, createdBy, now);
            (r.Ok? <==> Acceptable(data, numeroCredito, clienteId, envRate))
            && (r.Ok? ==> Requested(r.value, data, numeroCredito, createdBy, envRate, now) && r.value.clienteId == clienteId
                          && r.value.montoPrincipal > 0.0 && r.value.cuotas > 0 && r.value.tasaInteresAplicada > 0.0)
  {
    var estado := if data.estado.Some? then data.estado.value else PENDIENTE;
    var r := Validated(numeroCredito, clienteId, data.montoPrincipal, data.cuotas, tasa, fecha, estado, createdBy, now);
    if r.Ok? {
      var row := r.value;
      assert row.tasaInteresAplicada == Rate(data, envRate);
      assert row.fechaVencimiento == (if TruthyInt(data.fechaVencimiento) then data.fechaVencimiento.value
                                      else DefaultDueDate(now, row.cuotas));
    }
  }

  /** The insert of a validated row and the figures of the response. */
  method Persist(db: Db, row: CreditRow) returns (r: Result<CreatedCredit, CreateCreditError>)
    requires db.Valid()
    requires row.clienteId in db.clients && !HasActiveCredit(db.credits, row.clienteId)
    requires row.montoPrincipal > 0.0 && row.cuotas > 0 && row.tasaInteresAplicada > 0.0
    modifies db`credits, db`nextCreditId
    ensures db.Valid()
    ensures r.Err? ==> r.error.DbFailure? && db.credits == old(db.credits) && db.nextCreditId == old(db.nextCreditId)
    ensures r.Ok? ==> r.value.credit == row.(id := old(db.nextCreditId))
                      && db.credits == old(db.credits)[old(db.nextCreditId) := r.value.credit]
                      && db.nextCreditId == old(db.nextCreditId) + 1
                      && r.value == Figures(r.value.credit)
    ensures OneRunningPerClient(old(db.credits)) ==> OneRunningPerClient(db.credits)
  {
    ghost var before := db.credits;
    var created := Create(db, row);
    if created.Err? {
      return Err(DbFailure(created.error));
    }
    var newCredit := created.value;
    if OneRunningPerClient(before) {
      OneRunningPreservedByInsert(before, newCredit.id, newCredit);
    }
    r := Ok(Figures(newCredit));
  }

  /**
   * The credit entity built from the prepared values and validated: the row
   * to insert when every check passes.
   */
  function Validated(numeroCredito: string, clienteId: nat, montoPrincipal: Option<real>, cuotas: Option<int>,
                     tasa: Option<real>, fecha: Option<int>, estado: Estado, createdBy: Option<nat>, now: int)
    : (r: Result<CreditRow, CreditError>)
    ensures r.Ok? <==> !IsBlank(numeroCredito) && clienteId != 0
                       && montoPrincipal.Some? && montoPrincipal.value > 0.0 && cuotas.Some? && cuotas.value > 0
                       && tasa.Some? && tasa.value > 0.0 && fecha.Some?
    ensures r.Ok? ==>
              r.value == CreditRow(0, numeroCredito, clienteId, montoPrincipal.value, cuotas.value, tasa.value,
                                   fecha.value, estado, now, createdBy, now, createdBy, None)
  {
    var check := EntityOf(numeroCredito, clienteId, montoPrincipal, cuotas, tasa, fecha, estado, createdBy).Validate();
    if check.Fail? then Err(check.error)
    else
      Ok(CreditRow(0, numeroCredito, clienteId, montoPrincipal.value, cuotas.value, tasa.value,
                   fecha.value, estado, now, createdBy, now, createdBy, None))
  }

  /** The entity `new Credit({...})` the use case builds for validation. */
  function EntityOf(numeroCredito: string, clienteId: nat, montoPrincipal: Option<real>, cuotas: Option<int>,
                    tasa: Option<real>, fecha: Option<int>, estado: Estado, createdBy: Option<nat>): Credit
  {
    Credit(None, Some(numeroCredito), Some(clienteId as int), montoPrincipal, cuotas,
           tasa, fecha, estado, None, OptNat(createdBy), None, None)
  }

  /**
   * The error reported is the first failed check of the entity, and a row
   * that is returned reads back as an entity that passes every check.
   */
  lemma ValidatedIsEntityCheck(numeroCredito: string, clienteId: nat, montoPrincipal: Option<real>,
                               cuotas: Option<int>, tasa: Option<real>, fecha: Option<int>, estado: Estado,
                               createdBy: Option<nat>, now: int)
    ensures var r := Validated(numeroCredito, clienteId, montoPrincipal, cuotas, tasa, fecha, estado, createdBy, now);
            var v := EntityOf(numeroCredito, clienteId, montoPrincipal, cuotas, tasa, fecha, estado, createdBy).Validate();
            (r.Err? <==> v.Fail?) && (r.Err? ==> r.error == v.error)
            && (r.Ok? ==> ToEntity(r.value).Validate().Pass?)
  {
  }

  /**
   * The figures of the response: the total is principal times one plus the
   * rate, the installments add up to it, the interest is principal times rate
   * and, with a positive rate, the total exceeds the principal.
   */
  predicate FiguresOf(f: CreatedCredit) {
    var c := f.credit;
    f.montoTotal == c.montoPrincipal * (1.0 + c.tasaInteresAplicada)
    && f.valorCuota * (c.cuotas as real) == f.montoTotal
    && f.totalInteres == c.montoPrincipal * c.tasaInteresAplicada
    && f.montoTotal == c.montoPrincipal + f.totalInteres
    && f.montoTotal > c.montoPrincipal
  }

  /** The response: the stored credit with total, installment and interest. */
  function Figures(c: CreditRow): (f: CreatedCredit)
    requires c.cuotas > 0 && c.montoPrincipal > 0.0 && c.tasaInteresAplicada > 0.0
    ensures f.credit == c && FiguresOf(f)
  {
    var montoTotal := c.montoPrincipal * (1.0 + c.tasaInteresAplicada);
    InterestRaisesTotal(c.montoPrincipal, c.tasaInteresAplicada);
    DivTimes(montoTotal, c.cuotas as real);
    CreatedCredit(c, montoTotal, montoTotal / (c.cuotas as real), c.montoPrincipal * c.tasaInteresAplicada)
  }

  lemma DivTimes(m: real, c: real)
    requires c != 0.0
    ensures (m / c) * c == m
  {
  }

  /** A positive principal at a positive rate owes more than the principal. */
  lemma InterestRaisesTotal(p: real, t: real)
    requires p > 0.0 && t > 0.0
    ensures p * (1.0 + t) > p && p * (1.0 + t) == p + p * t
  {
    assert p * (1.0 + t) == p + p * t;
  }
}
