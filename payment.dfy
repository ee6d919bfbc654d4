/** The payment entity: the ordered guard chain its constructor fields must pass. */
module PaymentEntity {

  import opened Common

  /** The first check of `validate` that failed. */
  datatype PaymentError =
    | MissingCredit
    | MissingClient
    | MissingCollector
    | NonPositiveAmount
    | MissingMethod
    | NonPositiveInstallment

  datatype Payment = Payment(
    id: Option<nat>,
    creditId: Option<int>,
    clienteId: Option<int>,
    userId: Option<int>,
    monto: Option<real>,
    fechaPago: Option<int>,
    metodoPago: Option<string>,
    cuotaNumero: Option<int>,
    comprobanteReferencia: Option<string>,
    createdAt: Option<int>,
    createdBy: Option<int>,
    updatedAt: Option<int>,
    updatedBy: Option<int>)
  {
    predicate HasCredit() { creditId.Some? && creditId.value != 0 }
    predicate HasClient() { clienteId.Some? && clienteId.value != 0 }
    predicate HasCollector() { userId.Some? && userId.value != 0 }
    predicate HasPositiveAmount() { monto.Some? && monto.value > 0.0 }
    predicate HasMethod() { metodoPago.Some? && metodoPago.value != "" }
    predicate HasPositiveInstallment() { cuotaNumero.Some? && cuotaNumero.value > 0 }

    /** `validate()`: the checks run in source order and the first failure decides. */
    function Validate(): (r: Outcome<PaymentError>)
      ensures r.Pass? <==> HasCredit() && HasClient() && HasCollector()
                           && HasPositiveAmount() && HasMethod() && HasPositiveInstallment()
      ensures r == Fail(MissingCredit) <==> !HasCredit()
      ensures r == Fail(MissingClient) <==> HasCredit() && !HasClient()
      ensures r == Fail(MissingCollector) <==> HasCredit() && HasClient() && !HasCollector()
      ensures r == Fail(NonPositiveAmount) <==>
                HasCredit() && HasClient() && HasCollector() && !HasPositiveAmount()
      ensures r == Fail(MissingMethod) <==>
                HasCredit() && HasClient() && HasCollector() && HasPositiveAmount() && !HasMethod()
      ensures r == Fail(NonPositiveInstallment) <==>
                HasCredit() && HasClient() && HasCollector() && HasPositiveAmount() && HasMethod()
                && !HasPositiveInstallment()
    {
      if !TruthyInt(creditId) then Fail(MissingCredit)
      else if !TruthyInt(clienteId) then Fail(MissingClient)
      else if !TruthyInt(userId) then Fail(MissingCollector)
      else if !TruthyReal(monto) || monto.value <= 0.0 then Fail(NonPositiveAmount)
      else if !TruthyStr(metodoPago) then Fail(MissingMethod)
      else if !TruthyInt(cuotaNumero) || cuotaNumero.value <= 0 then Fail(NonPositiveInstallment)
      else Pass
    }
  }
}
