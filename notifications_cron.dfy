/**
 * The daily reminder scanner.  A run sends a WhatsApp reminder for every
 * ACTIVO credit falling due within three days, then one for every overdue
 * ACTIVO or INCUMPLIDO credit, records each send in the notification log and
 * demotes an overdue ACTIVO credit to INCUMPLIDO.  A failure on one credit
 * is caught and the loop goes on; a failed query ends the run quietly.
 *
 * What each step does is a parameter: the send's success flag, whether the
 * notification insert went through and whether the demoting update did.
 */
module NotificationsCron {

  import opened Common
  import opened CreditEntity
  import opened Store
  import opened CreditRepository

  /** Every day at 8 AM, when `CRON_SCHEDULE` is unset. */
  const DEFAULT_SCHEDULE: string := "0 8 * * *"

  /** The horizon of the upcoming-due reminders, in days. */
  const UPCOMING_DAYS: int := 3

  /** The outcome of the steps of one credit's reminder. */
  datatype Attempt = Attempt(sent: bool, recordOk: bool, updateOk: bool)

  /** A scheduled task of the cron library: its expression and whether it still fires. */
  datatype Task = Task(expression: string, active: bool)

  /** `task.stop()` on the scheduled job, if there is one. */
  function StopTask(t: Option<Task>): (r: Option<Task>)
    ensures r.None? <==> t.None?
    ensures r.Some? ==> !r.value.active && r.value.expression == t.value.expression
  {
    if t.Some? then Some(t.value.(active := false)) else None
  }

  /** Stopping a stopped task changes nothing. */
  lemma StopIdempotent(t: Option<Task>)
    ensures StopTask(StopTask(t)) == StopTask(t)
  {
  }

  /** The whole days left before the due date, rounded up, as the upcoming reminder states them. */
  function DiasRestantes(credit: CreditRow, now: int): int {
    CeilDays(credit.fechaVencimiento - now)
  }

  /** The whole days past the due date, rounded up, as the overdue reminder states them. */
  function DiasVencidos(credit: CreditRow, now: int): int {
    CeilDays(now - credit.fechaVencimiento)
  }

  /** A credit selected as upcoming has between 0 and `dias` days left; an overdue one is at least a day late. */
  lemma DayCounts(credit: CreditRow, now: int, dias: int)
    ensures Matches(UpcomingDue(now, dias), credit) ==> 0 <= DiasRestantes(credit, now) <= dias
    ensures Matches(Overdue(now), credit) ==> DiasVencidos(credit, now) >= 1
  {
  }

  // ---------------------------------------------------------------------------
  // What a run does, as functions of the table it starts from
  // ---------------------------------------------------------------------------

  /** The records a loop over `ids` writes: one per credit whose insert went through, in loop order. */
  function Records(credits: map<nat, CreditRow>, ids: seq<nat>, attempt: nat -> Attempt, tipo: Tipo, now: int)
    : (log: seq<Notification>)
    requires forall i | 0 <= i < |ids| :: ids[i] in credits
    ensures |log| <= |ids|
  {
    if ids == [] then []
    else
      var last := ids[|ids| - 1];
      Records(credits, ids[..|ids| - 1], attempt, tipo, now)
      + (if attempt(last).recordOk
         then [SendRecord(credits[last].clienteId, tipo, WHATSAPP, attempt(last).sent, now)]
         else [])
  }

  /** When every insert goes through, the loop writes exactly one record per credit, in order. */
  lemma {:induction false} RecordsWhenAllRecorded(credits: map<nat, CreditRow>, ids: seq<nat>,
                                                  attempt: nat -> Attempt, tipo: Tipo, now: int)
    requires forall i | 0 <= i < |ids| :: ids[i] in credits
    requires forall i | 0 <= i < |ids| :: attempt(ids[i]).recordOk
    ensures |Records(credits, ids, attempt, tipo, now)| == |ids|
    ensures forall i | 0 <= i < |ids| ::
              Records(credits, ids, attempt, tipo, now)[i]
              == SendRecord(credits[ids[i]].clienteId, tipo, WHATSAPP, attempt(ids[i]).sent, now)
  {
    if ids != [] {
      var init := ids[..|ids| - 1];
      RecordsWhenAllRecorded(credits, init, attempt, tipo, now);
    }
  }

  /** Every record of a loop is of the loop's type, by WhatsApp, stamped with the run's clock. */
  lemma {:induction false} RecordsShape(credits: map<nat, CreditRow>, ids: seq<nat>, attempt: nat -> Attempt,
                                        tipo: Tipo, now: int)
    requires forall i | 0 <= i < |ids| :: ids[i] in credits
    ensures forall n | n in Records(credits, ids, attempt, tipo, now) ::
              n.tipo == tipo && n.medio == WHATSAPP && n.createdAt == now
              && exists id | id in ids :: n.clienteId == credits[id].clienteId
  {
    if ids != [] {
      var init := ids[..|ids| - 1];
      RecordsShape(credits, init, attempt, tipo, now);
      forall n | n in Records(credits, ids, attempt, tipo, now)
        ensures n.tipo == tipo && n.medio == WHATSAPP && n.createdAt == now
                && exists id | id in ids :: n.clienteId == credits[id].clienteId
      {
        if n in Records(credits, init, attempt, tipo, now) {
          var id :| id in init && n.clienteId == credits[id].clienteId;
          assert id in ids;
        } else {
          assert ids[|ids| - 1] in ids;
        }
      }
    }
  }

  /** An overdue credit is demoted when it was ACTIVO as read and both its record and its update went through. */
  predicate Demotes(credit: CreditRow, a: Attempt) {
    credit.estado == ACTIVO && a.recordOk && a.updateOk
  }

  /**
   * The credits table after the overdue loop over `ids`, each credit judged
   * by its row as the query read it from `credits`.
   */
  function Demoted(credits: map<nat, CreditRow>, ids: seq<nat>, attempt: nat -> Attempt, now: int)
    : (m: map<nat, CreditRow>)
    requires forall i | 0 <= i < |ids| :: ids[i] in credits
    ensures m.Keys == credits.Keys
  {
    if ids == [] then credits
    else
      var last := ids[|ids| - 1];
      var m := Demoted(credits, ids[..|ids| - 1], attempt, now);
      if Demotes(credits[last], attempt(last)) then WithState(m, last, INCUMPLIDO, None, now) else m
  }

  /**
   * The loop demotes each selected credit it is told to, writing only
   * `estado` and `updatedAt`, and leaves every other credit as it was.
   */
  lemma {:induction false} DemotedPointwise(credits: map<nat, CreditRow>, ids: seq<nat>, attempt: nat -> Attempt,
                                            now: int)
    requires forall i | 0 <= i < |ids| :: ids[i] in credits
    ensures forall k | k in credits ::
              Demoted(credits, ids, attempt, now)[k]
              == if k in ids && Demotes(credits[k], attempt(k)) then credits[k].(estado := INCUMPLIDO, updatedAt := now)
                 else credits[k]
  {
    if ids != [] {
      var init := ids[..|ids| - 1];
      var last := ids[|ids| - 1];
      DemotedPointwise(credits, init, attempt, now);
      assert forall k :: k in ids <==> k in init || k == last by {
        assert ids == init + [last];
      }
    }
  }

  /** Every selected id is a key of the table. */
  lemma SelectedInTable(credits: map<nat, CreditRow>, bound: nat, q: Query)
    ensures forall i | 0 <= i < |Select(credits, bound, q)| :: Select(credits, bound, q)[i] in credits
  {
    var ids := Select(credits, bound, q);
    assert forall i | 0 <= i < |ids| :: ids[i] in ids;
  }

  /** What the first loop writes: a record per upcoming credit whose insert went through. */
  function UpcomingLog(credits: map<nat, CreditRow>, bound: nat, now: int, upcoming: nat -> Attempt)
    : seq<Notification>
  {
    SelectedInTable(credits, bound, UpcomingDue(now, UPCOMING_DAYS));
    Records(credits, FindUpcomingDue(credits, bound, now, UPCOMING_DAYS), upcoming, VENCIMIENTO_PROXIMO, now)
  }

  /** What the second loop writes: a record per overdue credit whose insert went through. */
  function OverdueLog(credits: map<nat, CreditRow>, bound: nat, now: int, overdue: nat -> Attempt)
    : seq<Notification>
  {
    SelectedInTable(credits, bound, Overdue(now));
    Records(credits, FindOverdue(credits, bound, now), overdue, CREDITO_VENCIDO, now)
  }

  /** The credits table after the second loop. */
  function OverdueCredits(credits: map<nat, CreditRow>, bound: nat, now: int, overdue: nat -> Attempt)
    : map<nat, CreditRow>
  {
    SelectedInTable(credits, bound, Overdue(now));
    Demoted(credits, FindOverdue(credits, bound, now), overdue, now)
  }

  /** The notification log a run appends, given whether each query succeeded. */
  function RunLog(credits: map<nat, CreditRow>, bound: nat, now: int, upcomingOk: bool, overdueOk: bool,
                  upcoming: nat -> Attempt, overdue: nat -> Attempt): seq<Notification>
  {
    if !upcomingOk then []
    else UpcomingLog(credits, bound, now, upcoming) + (if overdueOk then OverdueLog(credits, bound, now, overdue) else [])
  }

  /** The credits table after a run: only the overdue loop writes to it. */
  function RunCredits(credits: map<nat, CreditRow>, bound: nat, now: int, upcomingOk: bool, overdueOk: bool,
                      overdue: nat -> Attempt): map<nat, CreditRow>
  {
    if upcomingOk && overdueOk then OverdueCredits(credits, bound, now, overdue) else credits
  }

  // ---------------------------------------------------------------------------
  // Properties of a run
  // ---------------------------------------------------------------------------

  /**
   * A run changes a credit only by demoting an overdue ACTIVO one to
   * INCUMPLIDO, writing `estado` and `updatedAt` and nothing else; an
   * INCUMPLIDO credit and an upcoming credit are never written.
   */
  lemma RunOnlyDemotesOverdue(credits: map<nat, CreditRow>, bound: nat, now: int, upcomingOk: bool,
                              overdueOk: bool, overdue: nat -> Attempt)
    ensures var after := RunCredits(credits, bound, now, upcomingOk, overdueOk, overdue);
            after.Keys == credits.Keys
            && forall k | k in credits ::
                 after[k] == credits[k]
                 || (credits[k].estado == ACTIVO && credits[k].fechaVencimiento < now
                     && after[k] == credits[k].(estado := INCUMPLIDO, updatedAt := now))
    ensures var after := RunCredits(credits, bound, now, upcomingOk, overdueOk, overdue);
            forall k | k in credits && (credits[k].estado != ACTIVO || Matches(UpcomingDue(now, UPCOMING_DAYS), credits[k])) ::
              after[k] == credits[k]
  {
    if upcomingOk && overdueOk {
      SelectedInTable(credits, bound, Overdue(now));
      DemotedPointwise(credits, FindOverdue(credits, bound, now), overdue, now);
    }
  }

  /** A demotion happens exactly for a selected ACTIVO credit whose record and update went through. */
  lemma DemotedExactly(credits: map<nat, CreditRow>, bound: nat, now: int, overdue: nat -> Attempt)
    requires forall k | k in credits :: k < bound
    ensures var after := RunCredits(credits, bound, now, true, true, overdue);
            forall k | k in credits ::
              (after[k].estado == INCUMPLIDO && credits[k].estado != INCUMPLIDO) <==>
              (credits[k].estado == ACTIVO && credits[k].fechaVencimiento < now
               && overdue(k).recordOk && overdue(k).updateOk)
  {
    SelectedInTable(credits, bound, Overdue(now));
    DemotedPointwise(credits, FindOverdue(credits, bound, now), overdue, now);
  }

  /** A run moves credits only along the lifecycle and keeps every client within one running credit. */
  lemma RunKeepsOneRunning(credits: map<nat, CreditRow>, bound: nat, now: int, upcomingOk: bool,
                           overdueOk: bool, overdue: nat -> Attempt)
    requires OneRunningPerClient(credits)
    ensures var after := RunCredits(credits, bound, now, upcomingOk, overdueOk, overdue);
            OneRunningPerClient(after)
            && forall k | k in credits && after[k].estado != credits[k].estado ::
                 LegalTransition(credits[k].estado, after[k].estado)
  {
    var after := RunCredits(credits, bound, now, upcomingOk, overdueOk, overdue);
    RunOnlyDemotesOverdue(credits, bound, now, upcomingOk, overdueOk, overdue);
    forall a, b | a in after && b in after && after[a].clienteId == after[b].clienteId
                  && IsRunning(after[a].estado) && IsRunning(after[b].estado)
      ensures a == b
    {
      assert credits[a].clienteId == after[a].clienteId && IsRunning(credits[a].estado);
      assert credits[b].clienteId == after[b].clienteId && IsRunning(credits[b].estado);
    }
  }

  /**
   * With every insert succeeding, the first loop writes one
   * VENCIMIENTO_PROXIMO record per upcoming credit and the second one
   * CREDITO_VENCIDO record per overdue credit, in selection order; a run with
   * both queries succeeding writes the first loop's records, then the second's.
   */
  lemma RunLogWhenAllRecorded(credits: map<nat, CreditRow>, bound: nat, now: int,
                              upcoming: nat -> Attempt, overdue: nat -> Attempt)
    requires forall k | k in credits :: upcoming(k).recordOk && overdue(k).recordOk
    ensures var proximos := FindUpcomingDue(credits, bound, now, UPCOMING_DAYS);
            var log := UpcomingLog(credits, bound, now, upcoming);
            |log| == |proximos|
            && forall i | 0 <= i < |proximos| ::
                 log[i] == SendRecord(credits[proximos[i]].clienteId, VENCIMIENTO_PROXIMO, WHATSAPP,
                                      upcoming(proximos[i]).sent, now)
    ensures var vencidos := FindOverdue(credits, bound, now);
            var log := OverdueLog(credits, bound, now, overdue);
            |log| == |vencidos|
            && forall i | 0 <= i < |vencidos| ::
                 log[i] == SendRecord(credits[vencidos[i]].clienteId, CREDITO_VENCIDO, WHATSAPP,
                                      overdue(vencidos[i]).sent, now)
    ensures RunLog(credits, bound, now, true, true, upcoming, overdue)
            == UpcomingLog(credits, bound, now, upcoming) + OverdueLog(credits, bound, now, overdue)
  {
    var proximos := FindUpcomingDue(credits, bound, now, UPCOMING_DAYS);
    var vencidos := FindOverdue(credits, bound, now);
    SelectedInTable(credits, bound, UpcomingDue(now, UPCOMING_DAYS));
    SelectedInTable(credits, bound, Overdue(now));
    RecordsWhenAllRecorded(credits, proximos, upcoming, VENCIMIENTO_PROXIMO, now);
    RecordsWhenAllRecorded(credits, vencidos, overdue, CREDITO_VENCIDO, now);
  }

  /**
   * A failed first query writes nothing; a failed second query demotes
   * nothing and keeps just what the first loop wrote.
   */
  lemma FailedQueries(credits: map<nat, CreditRow>, bound: nat, now: int,
                      upcoming: nat -> Attempt, overdue: nat -> Attempt)
    ensures RunLog(credits, bound, now, false, true, upcoming, overdue) == []
    ensures RunCredits(credits, bound, now, false, true, overdue) == credits
    ensures RunCredits(credits, bound, now, true, false, overdue) == credits
    ensures RunLog(credits, bound, now, true, false, upcoming, overdue)
            <= RunLog(credits, bound, now, true, true, upcoming, overdue)
  {
  }

  // ---------------------------------------------------------------------------
  // The scanner
  // ---------------------------------------------------------------------------

  class Scanner {
    var schedule: string
    var task: Option<Task>

    /** The cron expression is `CRON_SCHEDULE` or the daily default; no task yet. */
    constructor (envSchedule: Option<string>)
      ensures schedule == (if TruthyStr(envSchedule) then envSchedule.value else DEFAULT_SCHEDULE)
      ensures task.None?
    {
      schedule := if TruthyStr(envSchedule) then envSchedule.value else DEFAULT_SCHEDULE;
      task := None;
    }

    /** `start()`: schedules a run on the expression. */
    method Start()
      modifies this`task
      ensures task == Some(Task(schedule, true))
    {
      task := Some(Task(schedule, true));
    }

    /** `stop()`: stops the scheduled job if one was started, and otherwise does nothing. */
    method Stop()
      modifies this`task
      ensures task == StopTask(old(task))
    {
      if task.Some? {
        task := Some(task.value.(active := false));
      }
    }

    /**
     * `sendReminders()` at clock `now`.  `upcomingOk` and `overdueOk` say
     * whether each query succeeded; `upcoming` and `overdue` give each
     * credit's reminder steps.
     */
    method SendReminders(db: Db, now: int, upcomingOk: bool, overdueOk: bool,
                         upcoming: nat -> Attempt, overdue: nat -> Attempt)
      requires db.Valid()
      modifies db`credits, db`notifications
      ensures db.Valid()
      ensures db.notifications
              == old(db.notifications)
                 + RunLog(old(db.credits), old(db.nextCreditId), now, upcomingOk, overdueOk, upcoming, overdue)
      ensures db.credits == RunCredits(old(db.credits), old(db.nextCreditId), now, upcomingOk, overdueOk, overdue)
    {
      if !upcomingOk {
        return;
      }
      RemindUpcoming(db, now, upcoming);
      if !overdueOk {
        return;
      }
      RemindOverdue(db, now, overdue);
    }
  }

  /** `findUpcomingDue(3)` and the loop over its result. */
  method RemindUpcoming(db: Db, now: int, upcoming: nat -> Attempt)
    requires db.Valid()
    modifies db`notifications
    ensures db.Valid()
    ensures db.notifications
            == old(db.notifications) + UpcomingLog(old(db.credits), old(db.nextCreditId), now, upcoming)
  {
    var proximos := FindUpcomingDue(db.credits, db.nextCreditId, now, UPCOMING_DAYS);
    SelectedInTable(db.credits, db.nextCreditId, UpcomingDue(now, UPCOMING_DAYS));
    UpcomingLoop(db, proximos, upcoming, now);
  }

  /** `findOverdue()` and the loop over its result. */
  method RemindOverdue(db: Db, now: int, overdue: nat -> Attempt)
    requires db.Valid()
    modifies db`credits, db`notifications
    ensures db.Valid()
    ensures db.notifications
            == old(db.notifications) + OverdueLog(old(db.credits), old(db.nextCreditId), now, overdue)
    ensures db.credits == OverdueCredits(old(db.credits), old(db.nextCreditId), now, overdue)
  {
    var vencidos := FindOverdue(db.credits, db.nextCreditId, now);
    SelectedInTable(db.credits, db.nextCreditId, Overdue(now));
    OverdueLoop(db, vencidos, overdue, now);
  }

  /** The first loop: one reminder per upcoming credit; the credits table is only read. */
  method UpcomingLoop(db: Db, proximos: seq<nat>, upcoming: nat -> Attempt, now: int)
    requires db.Valid()
    requires forall i | 0 <= i < |proximos| :: proximos[i] in db.credits
    modifies db`notifications
    ensures db.Valid()
    ensures db.notifications
            == old(db.notifications) + Records(old(db.credits), proximos, upcoming, VENCIMIENTO_PROXIMO, now)
  {
    var i := 0;
    while i < |proximos|
      invariant 0 <= i <= |proximos|
      invariant db.Valid()
      invariant db.notifications
                == old(db.notifications) + Records(db.credits, proximos[..i], upcoming, VENCIMIENTO_PROXIMO, now)
    {
      var credit := db.credits[proximos[i]];
      SendUpcomingDueReminder(db, credit, upcoming(proximos[i]), now);
      assert proximos[..i + 1][..i] == proximos[..i];
      i := i + 1;
    }
    assert proximos[..i] == proximos;
  }

  /** The second loop: one reminder per overdue credit, each followed by its demotion. */
  method OverdueLoop(db: Db, vencidos: seq<nat>, overdue: nat -> Attempt, now: int)
    requires db.Valid()
    requires forall i | 0 <= i < |vencidos| :: vencidos[i] in db.credits
    modifies db`credits, db`notifications
    ensures db.Valid()
    ensures db.notifications
            == old(db.notifications) + Records(old(db.credits), vencidos, overdue, CREDITO_VENCIDO, now)
    ensures db.credits == Demoted(old(db.credits), vencidos, overdue, now)
  {
    var snapshot := db.credits;
    var i := 0;
    while i < |vencidos|
      invariant 0 <= i <= |vencidos|
      invariant db.Valid()
      invariant forall k | k in snapshot :: snapshot[k].id == k
      invariant db.notifications
                == old(db.notifications) + Records(snapshot, vencidos[..i], overdue, CREDITO_VENCIDO, now)
      invariant db.credits == Demoted(snapshot, vencidos[..i], overdue, now)
    {
      var id := vencidos[i];
      var credit := snapshot[id];
      SendOverdueReminder(db, credit, overdue(id), now);
      assert vencidos[..i + 1][..i] == vencidos[..i];
      i := i + 1;
    }
    assert vencidos[..i] == vencidos;
  }

  /** `sendUpcomingDueReminder(credit)`: the send, then its record if the insert goes through. */
  method SendUpcomingDueReminder(db: Db, credit: CreditRow, a: Attempt, now: int)
    requires db.Valid()
    modifies db`notifications
    ensures db.Valid()
    ensures db.notifications
            == old(db.notifications)
               + (if a.recordOk then [SendRecord(credit.clienteId, VENCIMIENTO_PROXIMO, WHATSAPP, a.sent, now)]
                  else [])
  {
    if a.recordOk {
      db.AppendNotification(SendRecord(credit.clienteId, VENCIMIENTO_PROXIMO, WHATSAPP, a.sent, now));
    }
  }

  /**
   * `sendOverdueReminder(credit)`: the send, its record, then the demotion of
   * a credit that was ACTIVO as read.  A failed insert throws before the
   * demotion; the error is caught.
   */
  method SendOverdueReminder(db: Db, credit: CreditRow, a: Attempt, now: int)
    requires db.Valid() && credit.id in db.credits
    modifies db`credits, db`notifications
    ensures db.Valid()
    ensures db.notifications
            == old(db.notifications)
               + (if a.recordOk then [SendRecord(credit.clienteId, CREDITO_VENCIDO, WHATSAPP, a.sent, now)] else [])
    ensures db.credits == if Demotes(credit, a) then WithState(old(db.credits), credit.id, INCUMPLIDO, None, now)
                          else old(db.credits)
  {
    if !a.recordOk {
      return;
    }
    db.AppendNotification(SendRecord(credit.clienteId, CREDITO_VENCIDO, WHATSAPP, a.sent, now));
    if credit.estado == ACTIVO && a.updateOk {
      var _ := UpdateState(db, credit.id, INCUMPLIDO, None, now);
    }
  }
}
