/**
 * The credit entity of the lending domain: its guard chain, the money
 * formulas, the due-date predicates and the lifecycle of its `estado`.
 */
module CreditEntity {

  import opened Common
  import opened Text

  /** The states a credit moves through. */
  datatype Estado = PENDIENTE | ACTIVO | RECHAZADO | PAGADO | INCUMPLIDO

  /** The states in which a client counts as having a running credit. */
  predicate IsRunning(e: Estado) {
    e == ACTIVO || e == INCUMPLIDO
  }

  /**
   * The lifecycle: a pending credit is approved or rejected; an active one is
   * paid off or, once overdue, marked as defaulted.
   */
  predicate LegalTransition(from: Estado, to: Estado) {
    (from == PENDIENTE && (to == ACTIVO || to == RECHAZADO))
    || (from == ACTIVO && (to == PAGADO || to == INCUMPLIDO))
  }

  predicate IsTerminal(e: Estado) {
    e == RECHAZADO || e == PAGADO
  }

  /**
   * Only states without an outgoing transition are terminal, and the only way
   * into a running state from outside one is approval of a pending credit.
   */
  lemma LifecycleShape(from: Estado, to: Estado)
    requires LegalTransition(from, to)
    ensures !IsTerminal(from)
    ensures IsRunning(to) && !IsRunning(from) ==> from == PENDIENTE && to == ACTIVO
    ensures IsRunning(from) && !IsRunning(to) ==> to == PAGADO
    ensures from != to
  {
  }

  /** The first check of `validate` that failed. */
  datatype CreditError =
    | MissingNumber
    | MissingClient
    | NonPositivePrincipal
    | NonPositiveInstallments
    | InvalidRate
    | MissingDueDate

  /** A credit as the entity constructor receives it; every field may be absent. */
  datatype Credit = Credit(
    id: Option<nat>,
    numeroCredito: Option<string>,
    clienteId: Option<int>,
    montoPrincipal: Option<real>,
    cuotas: Option<int>,
    tasaInteresAplicada: Option<real>,
    fechaVencimiento: Option<int>,
    estado: Estado,
    createdAt: Option<int>,
    createdBy: Option<int>,
    updatedAt: Option<int>,
    updatedBy: Option<int>)
  {
    predicate HasNumber() {
      numeroCredito.Some? && !IsBlank(numeroCredito.value)
    }

    predicate HasClient() {
      clienteId.Some? && clienteId.value != 0
    }

    predicate HasPositivePrincipal() {
      montoPrincipal.Some? && montoPrincipal.value > 0.0
    }

    predicate HasPositiveInstallments() {
      cuotas.Some? && cuotas.value > 0
    }

    /** The rate test is written as "missing or negative", and a rate of 0 is falsy. */
    predicate HasPositiveRate() {
      tasaInteresAplicada.Some? && tasaInteresAplicada.value > 0.0
    }

    predicate HasDueDate() {
      fechaVencimiento.Some?
    }

    /** `validate()`: the checks run in source order and the first failure decides. */
    function Validate(): (r: Outcome<CreditError>)
      ensures r.Pass? <==> HasNumber() && HasClient() && HasPositivePrincipal()
                           && HasPositiveInstallments() && HasPositiveRate() && HasDueDate()
      ensures r == Fail(MissingNumber) <==> !HasNumber()
      ensures r == Fail(MissingClient) <==> HasNumber() && !HasClient()
      ensures r == Fail(NonPositivePrincipal) <==>
                HasNumber() && HasClient() && !HasPositivePrincipal()
      ensures r == Fail(NonPositiveInstallments) <==>
                HasNumber() && HasClient() && HasPositivePrincipal() && !HasPositiveInstallments()
      ensures r == Fail(InvalidRate) <==>
                HasNumber() && HasClient() && HasPositivePrincipal() && HasPositiveInstallments()
                && !HasPositiveRate()
      ensures r == Fail(MissingDueDate) <==>
                HasNumber() && HasClient() && HasPositivePrincipal() && HasPositiveInstallments()
                && HasPositiveRate() && !HasDueDate()
    {
      if !TruthyStr(numeroCredito) || |Trim(numeroCredito.value)| == 0 then Fail(MissingNumber)
      else if !TruthyInt(clienteId) then Fail(MissingClient)
      else if !TruthyReal(montoPrincipal) || montoPrincipal.value <= 0.0 then Fail(NonPositivePrincipal)
      else if !TruthyInt(cuotas) || cuotas.value <= 0 then Fail(NonPositiveInstallments)
      else if !TruthyReal(tasaInteresAplicada) || tasaInteresAplicada.value < 0.0 then Fail(InvalidRate)
      else if fechaVencimiento.None? then Fail(MissingDueDate)
      else Pass
    }

    /**
     * `calcularMontoTotal()`: principal plus interest; `None` stands for the
     * `NaN` an absent principal or rate yields.
     */
    function MontoTotal(): (m: Option<real>)
      ensures m.Some? <==> montoPrincipal.Some? && tasaInteresAplicada.Some?
      ensures m.Some? ==> m.value == montoPrincipal.value * (1.0 + tasaInteresAplicada.value)
      ensures m.Some? && montoPrincipal.value >= 0.0 && tasaInteresAplicada.value >= 0.0
              ==> m.value >= montoPrincipal.value
    {
      if montoPrincipal.None? || tasaInteresAplicada.None? then None
      else
        var interes := montoPrincipal.value * tasaInteresAplicada.value;
        Some(montoPrincipal.value + interes)
    }

    /**
     * `calcularValorCuota()`: the total split into equal installments; `None`
     * stands for the `NaN`/`Infinity` of a missing total or zero installments.
     */
    function ValorCuota(): (v: Option<real>)
      ensures v.Some? <==> MontoTotal().Some? && cuotas.Some? && cuotas.value != 0
      ensures v.Some? ==> v.value * (cuotas.value as real) == MontoTotal().value
    {
      var m := MontoTotal();
      if m.None? || cuotas.None? || cuotas.value == 0 then None
      else Some(m.value / (cuotas.value as real))
    }

    /** `isVencido()` at clock `now`. */
    predicate IsVencido(now: int) {
      fechaVencimiento.Some? && now > fechaVencimiento.value && IsRunning(estado)
    }

    /** `isProximoAVencer(dias)` at clock `now`, by the whole-day count it computes. */
    predicate IsProximoAVencer(now: int, dias: int) {
      fechaVencimiento.Some?
      && var diffDays := CeilDays(fechaVencimiento.value - now);
      diffDays > 0 && diffDays <= dias && estado == ACTIVO
    }
  }

  /**
   * The day-count test reads as a window on the clock: the due date lies after
   * `now` and at most `dias` whole days ahead.
   */
  lemma ProximoWindow(c: Credit, now: int, dias: int)
    ensures c.IsProximoAVencer(now, dias) <==>
              c.fechaVencimiento.Some? && c.estado == ACTIVO
              && now < c.fechaVencimiento.value <= now + dias * DAY_MS
  {
    if c.fechaVencimiento.Some? {
      var diff := c.fechaVencimiento.value - now;
      var d := CeilDays(diff);
      if d <= dias {
        MulMonoInt(d, dias, DAY_MS);
      }
    }
  }

  lemma {:induction false} MulMonoInt(a: int, b: int, p: nat)
    requires a <= b
    ensures a * p <= b * p
  {
    assert b * p - a * p == (b - a) * p;
  }

  /** A credit is never both overdue and about to fall due. */
  lemma VencidoExcludesProximo(c: Credit, now: int, dias: int)
    ensures !(c.IsVencido(now) && c.IsProximoAVencer(now, dias))
  {
    ProximoWindow(c, now, dias);
  }

  /** With the default horizon of three days. */
  const DEFAULT_DIAS: int := 3
}
