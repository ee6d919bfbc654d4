/**
 * Registering a payment.  The credit and its client are looked up and the
 * payment entity is validated; then one transaction inserts the payment and
 * its ticket, sums what has been paid and closes the credit when the total is
 * covered.  After the commit a Telegram message may be sent and a record is
 * written to the notification log; a failure there cannot undo the payment.
 */
module CreatePayment {

  import opened Common
  import opened Text
  import opened CreditEntity
  import opened PaymentEntity
  import opened Store
  import opened CreditRepository

  /** The request body; every field may be absent. */
  datatype PaymentData = PaymentData(
    creditId: Option<nat>,
    clienteId: Option<nat>,
    userId: Option<nat>,
    monto: Option<real>,
    fechaPago: Option<int>,
    metodoPago: Option<string>,
    cuotaNumero: Option<int>,
    comprobanteReferencia: Option<string>)

  /** What a call to Telegram's `sendMessage` did: it threw, or it answered with a success flag. */
  datatype SendAttempt = Threw | Replied(success: bool)

  /** The committed transaction: the new rows, the credit's new state and balance. */
  datatype Settlement = Settlement(
    payment: PaymentRow,
    ticket: TicketRow,
    creditoActualizado: bool,
    nuevoEstadoCredito: Estado,
    saldoPendiente: real,
    montoTotal: real)

  datatype Receipt = Receipt(settlement: Settlement, notificacionEnviada: bool)

  datatype PaymentUseCaseError =
    | CreditNotFound
    | ClientNotFound
    | Invalid(reason: PaymentError)
    | DbFailure(cause: DbError)
      /** The notification record failed after the commit; the settlement stays. */
    | RecordFailed(settled: Settlement)

  /** The client of the payment: the one given, or else the credit's. */
  function ClientOf(data: PaymentData, credit: CreditRow): nat {
    if TruthyNat(data.clienteId) then data.clienteId.value else credit.clienteId
  }

  /** The entity `new Payment({...})` built for validation. */
  function EntityOf(data: PaymentData, clienteId: nat, createdBy: Option<nat>, now: int): Payment {
    Payment(None, OptNat(data.creditId), Some(clienteId as int), OptNat(FirstTruthy(createdBy, data.userId)),
            data.monto, Some(if TruthyInt(data.fechaPago) then data.fechaPago.value else now),
            data.metodoPago, data.cuotaNumero, data.comprobanteReferencia, None, None, None, None)
  }

  /**
   * The guards before the transaction, in source order: the credit exists,
   * the client exists, the entity is valid; on success the payment row to
   * insert (its id is assigned on insert).
   */
  function Admit(credits: map<nat, CreditRow>, clients: map<nat, ClientRow>, data: PaymentData,
                 createdBy: Option<nat>, now: int): (r: Result<PaymentRow, PaymentUseCaseError>)
    ensures r == Err(CreditNotFound) <==> data.creditId.None? || data.creditId.value !in credits
    ensures r == Err(ClientNotFound) <==>
              data.creditId.Some? && data.creditId.value in credits
              && ClientOf(data, credits[data.creditId.value]) !in clients
    ensures (r.Err? && r.error.Invalid?) <==>
              data.creditId.Some? && data.creditId.value in credits
              && ClientOf(data, credits[data.creditId.value]) in clients
              && EntityOf(data, ClientOf(data, credits[data.creditId.value]), createdBy, now).Validate().Fail?
    ensures r.Err? && r.error.Invalid? ==>
              r.error.reason == EntityOf(data, ClientOf(data, credits[data.creditId.value]), createdBy, now)
                                  .Validate().error
    ensures r.Err? ==> r.error.CreditNotFound? || r.error.ClientNotFound? || r.error.Invalid?
    ensures r.Ok? ==>
              data.creditId.Some? && r.value.creditId == data.creditId.value && r.value.creditId in credits
              && r.value.clienteId == ClientOf(data, credits[data.creditId.value]) && r.value.clienteId in clients
              && Some(r.value.userId) == FirstTruthy(createdBy, data.userId)
              && Some(r.value.monto) == data.monto && r.value.monto > 0.0
              && r.value.fechaPago == (if TruthyInt(data.fechaPago) then data.fechaPago.value else now)
              && Some(r.value.metodoPago) == data.metodoPago && r.value.metodoPago != ""
              && Some(r.value.cuotaNumero) == data.cuotaNumero && r.value.cuotaNumero > 0
              && r.value.comprobanteReferencia == data.comprobanteReferencia
              && r.value.createdBy == createdBy && r.value.updatedBy == createdBy
              && r.value.createdAt == now && r.value.updatedAt == now
  {
    if data.creditId.None? || data.creditId.value !in credits then Err(CreditNotFound)
    else
      var credit := credits[data.creditId.value];
      var clienteId := ClientOf(data, credit);
      if clienteId !in clients then Err(ClientNotFound)
      else
        var check := EntityOf(data, clienteId, createdBy, now).Validate();
        if check.Fail? then Err(Invalid(check.error))
        else
          Ok(PaymentRow(0, data.creditId.value, clienteId, FirstTruthy(createdBy, data.userId).value,
                        data.monto.value, if TruthyInt(data.fechaPago) then data.fechaPago.value else now,
                        data.metodoPago.value, data.cuotaNumero.value, data.comprobanteReferencia,
                        createdBy, now, createdBy, now))
  }

  /** `COMP-<Date.now()>-<payment id>` */
  function ComprobanteNumber(now: int, paymentId: nat): string {
    "COMP-" + IntToString(now) + "-" + NatToString(paymentId)
  }

  /** At one instant, the receipt number determines the payment. */
  lemma {:induction false} ComprobanteIdentifiesPayment(now: int, a: nat, b: nat)
    requires ComprobanteNumber(now, a) == ComprobanteNumber(now, b)
    ensures a == b
  {
    var prefix := "COMP-" + IntToString(now) + "-";
    assert ComprobanteNumber(now, a) == prefix + NatToString(a);
    assert ComprobanteNumber(now, b) == prefix + NatToString(b);
    assert NatToString(a) == (prefix + NatToString(a))[|prefix|..];
    assert NatToString(b) == (prefix + NatToString(b))[|prefix|..];
    NatToStringValue(a);
    NatToStringValue(b);
  }

  /** The ticket row of a payment; the PDF is `None` when its generation threw, and then so is the file name. */
  function TicketFor(id: nat, p: PaymentRow, createdBy: Option<nat>, now: int, pdf: Option<seq<bv8>>)
    : (t: TicketRow)
    ensures t.id == id && t.paymentId == p.id && t.monto == p.monto && t.clienteId == p.clienteId
    ensures t.numeroComprobante == ComprobanteNumber(now, p.id)
    ensures t.ticketPdf == pdf && (t.fileName.Some? <==> pdf.Some?)
    ensures t.fileName.Some? ==> t.fileName.value == "ticket_" + t.numeroComprobante + ".pdf"
  {
    var numero := ComprobanteNumber(now, p.id);
    TicketRow(id, p.id, numero, p.monto, now, p.clienteId, pdf,
              if pdf.Some? then Some("ticket_" + numero + ".pdf") else None, createdBy, now)
  }

  /** The amount owed on a credit: principal times one plus the rate. */
  function CreditTotal(c: CreditRow): real {
    c.montoPrincipal * (1.0 + c.tasaInteresAplicada)
  }

  /** The amount owed is the entity's `calcularMontoTotal`. */
  lemma CreditTotalIsEntityTotal(c: CreditRow)
    ensures ToEntity(c).MontoTotal() == Some(CreditTotal(c))
  {
    var e := ToEntity(c);
    assert e.montoPrincipal == Some(c.montoPrincipal) && e.tasaInteresAplicada == Some(c.tasaInteresAplicada);
    var m := e.MontoTotal();
    assert m.Some? && m.value == c.montoPrincipal * (1.0 + c.tasaInteresAplicada);
    assert m.value == CreditTotal(c);
    assert m == Some(CreditTotal(c));
  }

  /**
   * The credits table after a payment that brings the credit's total paid to
   * `paid`: an ACTIVO credit whose total is covered becomes PAGADO, and
   * nothing else changes; in particular an INCUMPLIDO credit stays as it is.
   */
  function AfterSettlement(credits: map<nat, CreditRow>, creditId: nat, paid: real, actor: Option<nat>, now: int)
    : (m: map<nat, CreditRow>)
    requires creditId in credits
    ensures m.Keys == credits.Keys
    ensures m != credits <==> paid >= CreditTotal(credits[creditId]) && credits[creditId].estado == ACTIVO
    ensures m != credits ==> m == WithState(credits, creditId, PAGADO, actor, now)
  {
    var c := credits[creditId];
    if paid >= CreditTotal(c) && c.estado == ACTIVO then
      var m := WithState(credits, creditId, PAGADO, actor, now);
      assert m[creditId].estado != c.estado;
      m
    else credits
  }

  /**
   * Settlement moves a credit only along the lifecycle (ACTIVO to PAGADO) and
   * keeps every client within one running credit.
   */
  lemma SettlementKeepsOneRunning(credits: map<nat, CreditRow>, creditId: nat, paid: real, actor: Option<nat>,
                                  now: int)
    requires creditId in credits
    ensures var m := AfterSettlement(credits, creditId, paid, actor, now);
            (m[creditId].estado != credits[creditId].estado ==>
               LegalTransition(credits[creditId].estado, m[creditId].estado) && m[creditId].estado == PAGADO)
            && (credits[creditId].estado != ACTIVO ==> m == credits)
            && (OneRunningPerClient(credits) ==> OneRunningPerClient(m))
  {
    if OneRunningPerClient(credits) {
      WithStateKeepsOneRunning(credits, creditId, PAGADO, actor, now);
    }
  }

  /**
   * The committed transaction, as a relation between the tables before and
   * after it: one payment at the next payment id, one ticket for it at the
   * next ticket id, the balance after counting the new payment, and the
   * credit closed exactly when its total is covered.
   */
  ghost predicate SettledFrom(credits0: map<nat, CreditRow>, payments0: map<nat, PaymentRow>, nextPayment0: nat,
                              tickets0: map<nat, TicketRow>, nextTicket0: nat,
                              credit: CreditRow, row: PaymentRow, createdBy: Option<nat>, now: int,
                              pdf: Option<seq<bv8>>, s: Settlement,
                              credits1: map<nat, CreditRow>, payments1: map<nat, PaymentRow>, nextPayment1: nat,
                              tickets1: map<nat, TicketRow>, nextTicket1: nat)
    requires credit.id in credits0
  {
    s.payment == row.(id := nextPayment0)
    && payments1 == payments0[nextPayment0 := s.payment] && nextPayment1 == nextPayment0 + 1
    && s.ticket == TicketFor(nextTicket0, s.payment, createdBy, now, pdf)
    && tickets1 == tickets0[nextTicket0 := s.ticket] && nextTicket1 == nextTicket0 + 1
    && s.montoTotal == CreditTotal(credit)
    && TotalPaid(payments1, nextPayment1, credit.id) == TotalPaid(payments0, nextPayment0, credit.id)
                                                          + (if row.creditId == credit.id then row.monto else 0.0)
    && s.saldoPendiente == s.montoTotal - TotalPaid(payments1, nextPayment1, credit.id)
    && credits1 == AfterSettlement(credits0, credit.id, TotalPaid(payments1, nextPayment1, credit.id), createdBy, now)
    && s.nuevoEstadoCredito == credits1[credit.id].estado
    && (s.creditoActualizado <==> credits1 != credits0)
  }

  /** Whether the Telegram message went out: only with a chat id, and only on a successful reply. */
  predicate Sent(chatId: Option<string>, telegram: SendAttempt) {
    TruthyStr(chatId) && telegram == Replied(true)
  }

  /**
   * `execute(paymentData, createdBy)` at clock `now`.  `pdf` is the generated
   * ticket, `None` when generation threw; `telegram` is what the send did if
   * it was attempted; `recordOk` is whether the notification insert succeeded.
   */
  method Execute(db: Db, data: PaymentData, createdBy: Option<nat>, now: int, pdf: Option<seq<bv8>>,
                 telegram: SendAttempt, recordOk: bool)
    returns (r: Result<Receipt, PaymentUseCaseError>)
    requires db.Valid()
    modifies db`payments, db`nextPaymentId, db`tickets, db`nextTicketId, db`credits, db`notifications
    ensures db.Valid()
    ensures Admit(old(db.credits), old(db.clients), data, createdBy, now).Err? ==>
              r == Err(Admit(old(db.credits), old(db.clients), data, createdBy, now).error)
    ensures (r.Err? && !r.error.RecordFailed?) ==>
              db.credits == old(db.credits) && db.payments == old(db.payments)
              && db.nextPaymentId == old(db.nextPaymentId) && db.tickets == old(db.tickets)
              && db.nextTicketId == old(db.nextTicketId) && db.notifications == old(db.notifications)
    ensures r == Err(DbFailure(ForeignKeyViolation)) <==>
              Admit(old(db.credits), old(db.clients), data, createdBy, now).Ok?
              && Admit(old(db.credits), old(db.clients), data, createdBy, now).value.userId !in old(db.users)
    ensures (r.Ok? || r.error.RecordFailed?) ==>
              var row := Admit(old(db.credits), old(db.clients), data, createdBy, now).value;
              var s := if r.Ok? then r.value.settlement else r.error.settled;
              Admit(old(db.credits), old(db.clients), data, createdBy, now).Ok?
              && SettledFrom(old(db.credits), old(db.payments), old(db.nextPaymentId), old(db.tickets),
                             old(db.nextTicketId), old(db.credits)[row.creditId], row, createdBy, now, pdf, s,
                             db.credits, db.payments, db.nextPaymentId, db.tickets, db.nextTicketId)
    ensures r.Ok? ==>
              var clienteId := r.value.settlement.payment.clienteId;
              clienteId in old(db.clients)
              && r.value.notificacionEnviada == Sent(old(db.clients)[clienteId].telegramChatId, telegram)
              && db.notifications == old(db.notifications)
                                     + [SendRecord(clienteId, PAGO_REGISTRADO, TELEGRAM, r.value.notificacionEnviada, now)]
    ensures r.Err? && r.error.RecordFailed? ==> !recordOk && db.notifications == old(db.notifications)
    ensures r.Ok? ==> recordOk
  {
    var admitted := Admit(db.credits, db.clients, data, createdBy, now);
    if admitted.Err? {
      return Err(admitted.error);
    }
    var row := admitted.value;
    var credit := db.credits[row.creditId];
    var settled := Settle(db, credit, row, createdBy, now, pdf);
    if settled.Err? {
      return Err(DbFailure(settled.error));
    }
    var s := settled.value;

    // After the commit: the send is attempted only with a chat id, and its
    // failure is swallowed.
    var client := db.clients[row.clienteId];
    var sent := Sent(client.telegramChatId, telegram);
    if !recordOk {
      return Err(RecordFailed(s));
    }
    db.AppendNotification(SendRecord(row.clienteId, PAGO_REGISTRADO, TELEGRAM, sent, now));
    r := Ok(Receipt(s, sent));
  }

  /**
   * The transaction of `execute`: insert the payment, build the receipt
   * number and the ticket, sum the payments of the credit and close it when
   * covered.  A failed insert rolls everything back.
   */
  method Settle(db: Db, credit: CreditRow, row: PaymentRow, createdBy: Option<nat>, now: int,
                pdf: Option<seq<bv8>>) returns (r: Result<Settlement, DbError>)
    requires db.Valid()
    requires credit.id in db.credits && db.credits[credit.id] == credit && row.creditId == credit.id
    requires row.clienteId in db.clients
    modifies db`payments, db`nextPaymentId, db`tickets, db`nextTicketId, db`credits
    ensures db.Valid()
    ensures r.Err? <==> row.userId !in old(db.users)
    ensures r.Err? ==> r.error == ForeignKeyViolation
                       && db.credits == old(db.credits) && db.payments == old(db.payments)
                       && db.nextPaymentId == old(db.nextPaymentId) && db.tickets == old(db.tickets)
                       && db.nextTicketId == old(db.nextTicketId)
    ensures r.Ok? ==> SettledFrom(old(db.credits), old(db.payments), old(db.nextPaymentId), old(db.tickets),
                                  old(db.nextTicketId), credit, row, createdBy, now, pdf, r.value,
                                  db.credits, db.payments, db.nextPaymentId, db.tickets, db.nextTicketId)
  {
    var created := InsertPayment(db, row);
    if created.Err? {
      return Err(created.error);
    }
    var payment := created.value;
    var ticket := InsertTicket(db, TicketFor(db.nextTicketId, payment, createdBy, now, pdf));

    var montoTotal := CreditTotal(credit);
    var totalPagado := TotalPaid(db.payments, db.nextPaymentId, credit.id);
    var saldoPendiente := montoTotal - totalPagado;
    var nuevoEstado := credit.estado;
    ghost var before := db.credits;
    if totalPagado >= montoTotal && credit.estado == ACTIVO {
      nuevoEstado := PAGADO;
      var _ := UpdateState(db, credit.id, PAGADO, createdBy, now);
    }
    assert db.credits == AfterSettlement(before, credit.id, totalPagado, createdBy, now);
    r := Ok(Settlement(payment, ticket, nuevoEstado != credit.estado, nuevoEstado, saldoPendiente, montoTotal));
  }

  /** `tx.payment.create`: a new row at the next id; the credit, client and collector must exist. */
  method InsertPayment(db: Db, row: PaymentRow) returns (r: Result<PaymentRow, DbError>)
    requires db.Valid()
    modifies db`payments, db`nextPaymentId
    ensures db.Valid()
    ensures r.Err? <==> row.creditId !in old(db.credits) || row.clienteId !in old(db.clients) || row.userId !in old(db.users)
    ensures r.Err? ==> r.error == ForeignKeyViolation
                       && db.payments == old(db.payments) && db.nextPaymentId == old(db.nextPaymentId)
    ensures r.Ok? ==> r.value == row.(id := old(db.nextPaymentId))
                      && db.payments == old(db.payments)[old(db.nextPaymentId) := r.value]
                      && db.nextPaymentId == old(db.nextPaymentId) + 1
                      && forall c :: TotalPaid(db.payments, db.nextPaymentId, c) ==
                                       TotalPaid(old(db.payments), old(db.nextPaymentId), c)
                                       + (if row.creditId == c then row.monto else 0.0)
  {
    if row.creditId !in db.credits || row.clienteId !in db.clients || row.userId !in db.users {
      return Err(ForeignKeyViolation);
    }
    var stored := row.(id := db.nextPaymentId);
    forall c ensures TotalPaid(db.payments[db.nextPaymentId := stored], db.nextPaymentId + 1, c) ==
                     TotalPaid(db.payments, db.nextPaymentId, c) + (if row.creditId == c then row.monto else 0.0) {
      TotalPaidInsert(db.payments, db.nextPaymentId, stored, c);
    }
    db.payments := db.payments[db.nextPaymentId := stored];
    db.nextPaymentId := db.nextPaymentId + 1;
    r := Ok(stored);
  }

  /** `tx.ticket.create` for a payment that exists: a new row at the next ticket id. */
  method InsertTicket(db: Db, row: TicketRow) returns (t: TicketRow)
    requires db.Valid() && row.paymentId in db.payments
    modifies db`tickets, db`nextTicketId
    ensures db.Valid()
    ensures t == row.(id := old(db.nextTicketId))
    ensures db.tickets == old(db.tickets)[old(db.nextTicketId) := t] && db.nextTicketId == old(db.nextTicketId) + 1
  {
    t := row.(id := db.nextTicketId);
    db.tickets := db.tickets[db.nextTicketId := t];
    db.nextTicketId := db.nextTicketId + 1;
  }
}
