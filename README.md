# Lending backend: credits, payments, reminders and accounts

This project models the core of a small lending backend built on Node.js and
Prisma/PostgreSQL. Collectors register clients and grant them credits. A
credit is a principal, a number of installments, an interest rate and a due
date, and it moves through the states `PENDIENTE`, `ACTIVO`, `RECHAZADO`,
`PAGADO` and `INCUMPLIDO`. Payments on a credit print a ticket, and once they
cover the total the credit is marked paid. A daily job reminds clients of
credits that fall due soon and marks overdue ones as defaulted. Users have
roles and permissions, log in with refresh tokens, and are created, edited,
listed and deleted through use cases that guard every write.

The domain rule the code is built around is that a client has at most one
running credit (`ACTIVO` or `INCUMPLIDO`). It appears here as
`CreditRepository.OneRunningPerClient`. Every state change is shown to keep
it, except the approval use case that forgets the check (see "Findings").

How the model is laid out:

- One module per source file, plus the shared modules `Common` (results
  and options), `Text` (JavaScript string functions), `Store` (the database)
  and `UserRoles` (the role joins used by several user use cases).
- The relational database is the class `Store.Db`. Each table is a map from
  its autoincrement id to its row. Next to the maps are the user-role join
  rows (a sequence, because their order decides the order of role names),
  the append-only notification log and the refresh tokens keyed by their
  text.
- The use cases are methods on a `Db`. Each one checks its guards in source
  order. It is proved against functions that name the first failing guard,
  and against the new table contents.
- The unique columns (credit number, cedula, e-mail), the one-running-credit
  rule and the join rows' reference to users are predicates on table values.
  Lemmas show that each write keeps them.
- Outside effects are parameters: the clock (`now`, milliseconds), the year,
  WhatsApp/Telegram send outcomes, PDF bytes, password hashes, JWT
  verification and signing, and the `REFRESH_TOKEN_ROTATION` flag.
- The separate PostgreSQL user repository is its own class,
  `PostgresUsers.UsersTable`. It keeps the rows that the SQL statements read
  and write.

JavaScript semantics are written out where the code relies on them:

- Truthiness: `0`, `""`, `null` and `undefined` are falsy (`TruthyInt`,
  `TruthyStr`, ...).
- `undefined` and `null` are different request fields, modelled as
  `Option<Option<T>>`.
- `String.prototype.trim` uses the full ECMAScript white-space set.
- The e-mail regular expression `^[^\s@]+@[^\s@]+\.[^\s@]+$` is
  `Text.EmailTest`, proved equal to a direct reading of the pattern.
- `s.length` counts UTF-16 code units (`Text.JsLength`): a character outside
  the Basic Multilingual Plane counts twice.
- `padStart`, `split`, `parseInt` (white space, sign and `0x` prefix
  included) and the lexicographic string order of `orderBy: desc` are
  modelled as well.

## Model

| member | source | states |
|---|---|---|
| CreditEntity.Credit.Validate | creditos-backend/src/domain/entities/Credit.js:37-56 | a credit passes exactly when it has a non-blank number, a client, a positive principal, a positive installment count, a positive rate and a due date; each failure is reported exactly when all earlier checks pass and its own fails |
| CreditEntity.Credit.MontoTotal | creditos-backend/src/domain/entities/Credit.js:61-64 | the total is principal × (1 + rate), defined exactly when both are present, and never below the principal for non-negative figures |
| CreditEntity.Credit.ValorCuota | creditos-backend/src/domain/entities/Credit.js:69-71 | the installment times the count gives back the total; there is none when the total is missing or the count is 0 |
| CreditEntity.ProximoWindow | creditos-backend/src/domain/entities/Credit.js:84-90 | "about to fall due within `dias` days" (rounded-up day count) holds exactly when the credit is ACTIVO and the due date lies in (now, now + dias days] |
| CreditEntity.VencidoExcludesProximo | creditos-backend/src/domain/entities/Credit.js:76-90 | no credit is both overdue and about to fall due |
| CreditEntity.LifecycleShape | creditos-backend/src/application/ManageCreditStatusUseCase.js:26-47 | every allowed transition leaves a non-terminal state and changes the state; the only way into a running state is PENDIENTE → ACTIVO, and the only way out of one is → PAGADO |
| PaymentEntity.Payment.Validate | src/domain/entities/Payment.js:39-58 | a payment passes exactly when it has a credit, a client, a collector, a positive amount, a method and a positive installment number; each failure is reported exactly when the earlier checks pass and its own fails |
| ClientEntity.Client.Validate | src/domain/entities/Client.js:37-47 | a client passes exactly when name, cedula and phone are all present and not blank; each failure is reported in that order |
| UserEntity.User.ToJson | src/domain/entities/User.js:27-35 | the JSON view copies id, e-mail, name and both timestamps |
| UserEntity.ToJsonIgnoresPassword | src/domain/entities/User.js:27-35 | the password never reaches the JSON view: changing it leaves the view unchanged |
| UserEntity.ToJsonInjective | src/domain/entities/User.js:27-35 | two users with the same view differ at most in their password |
| UserEntity.IsValidMeaning | src/domain/entities/User.js:19-21 | a user is valid exactly when e-mail, password and name are present and non-empty |
| Common.CeilDiv | creditos-backend/src/application/use-cases/ListUsersUseCase.js:27 | `Math.ceil(a / b)`: the least r with a ≤ r·b for b > 0, and the mirrored bound for b < 0 |
| Common.CeilDays | creditos-backend/src/domain/entities/Credit.js:86-87 | the whole-day count rounded up: (r − 1) days < ms ≤ r days, positive exactly when ms is |
| Text.TrimLaws | src/domain/entities/Client.js:38-46 | `trim()` is empty exactly for all-white-space strings, and otherwise starts and ends with a non-space |
| Text.TrimStartLaws | src/domain/entities/Client.js:38-46 | the left trim is a suffix of the input, and only white space was dropped |
| Text.TrimEndLaws | src/domain/entities/Client.js:38-46 | the right trim is a prefix of the input, and only white space was dropped |
| Text.TrimIdempotent | src/application/use-cases/CreateClientUseCase.js:30-31 | trimming twice is trimming once |
| Text.MissingOrBlankMeaning | src/domain/entities/Client.js:38-46 | `!x \|\| x.trim().length === 0` holds exactly for absent or all-white-space values |
| Text.ToLower | src/application/use-cases/CreateUserUseCase.js:43 | `toLowerCase()` maps every character on its own, lowering `A`–`Z` and keeping every other character, so white space, `@` and `.` stay where they were |
| Text.ToLowerIdempotent | src/application/use-cases/UpdateUserUseCase.js:43-46 | lower-casing twice is lower-casing once |
| Text.EmailTestMatchesPattern | src/application/use-cases/CreateUserUseCase.js:22-25 | the e-mail test accepts exactly the strings matching `^[^\s@]+@[^\s@]+\.[^\s@]+$` |
| Text.EmailTestSound | src/application/use-cases/CreateUserUseCase.js:22-25 | every accepted string matches the pattern |
| Text.EmailTestComplete | src/application/use-cases/CreateUserUseCase.js:22-25 | every matching string is accepted |
| Text.EmailTestTrimmed | src/application/use-cases/CreateUserUseCase.js:22-43 | an accepted e-mail has nothing to trim and is not blank |
| Text.EmailTestLower | src/application/use-cases/UpdateUserUseCase.js:38-43 | lower-casing an accepted e-mail keeps it accepted |
| Text.NatToString | src/infrastructure/repositories/PrismaCreditRepository.js:271 | `String(n)` is a non-empty digit string without a leading zero |
| Text.NatToStringValue | src/infrastructure/repositories/PrismaCreditRepository.js:267-271 | reading `String(n)` back as digits gives n |
| Text.PadStart | src/infrastructure/repositories/PrismaCreditRepository.js:271 | `padStart(w, c)` leaves strings at least w long alone and otherwise prepends exactly w − length copies of c |
| Text.Pad6Value | src/infrastructure/repositories/PrismaCreditRepository.js:271 | below a million, the padded number is six digits with the same value |
| Text.ParseDigits | src/infrastructure/repositories/PrismaCreditRepository.js:267 | `parseInt` of a digit string is its value |
| Text.ParseInt | src/infrastructure/repositories/PrismaCreditRepository.js:267 | `parseInt` without a radix skips leading white space, takes one sign and reads a `0x` prefix as base 16; it gives `NaN` exactly when no digit of that base follows |
| Text.ParseIntSkipsSpace | src/infrastructure/repositories/PrismaCreditRepository.js:267 | a leading white-space character does not change what `parseInt` reads |
| Text.ParseIntSigned | src/infrastructure/repositories/PrismaCreditRepository.js:267 | `-` before digits negates their value and `+` keeps it |
| Text.JsLength | src/application/use-cases/CreateUserUseCase.js:27 | `length` counts UTF-16 code units: between one and two per character, and zero only for the empty string |
| Text.JsLengthBmp | src/application/use-cases/CreateUserUseCase.js:27 | inside the Basic Multilingual Plane `length` is the number of characters |
| Text.JsLengthAstral | src/application/use-cases/CreateUserUseCase.js:27 | three characters outside the Basic Multilingual Plane have length 6, so they pass a six-unit password guard |
| Text.SplitCons | src/infrastructure/repositories/PrismaCreditRepository.js:267 | `split('-')` cuts at the first separator and splits the rest the same way |
| Text.LexLeTotal | src/infrastructure/repositories/PrismaCreditRepository.js:260-262 | the string order of `orderBy: desc` is total |
| Text.LexLeTrans | src/infrastructure/repositories/PrismaCreditRepository.js:260-262 | the string order is transitive |
| Text.LexLeAntisym | src/infrastructure/repositories/PrismaCreditRepository.js:260-262 | the string order is antisymmetric |
| Text.LexLeDigits | src/infrastructure/repositories/PrismaCreditRepository.js:260-271 | on digit strings of the same length the string order is the numeric order |
| CreditRepository.OneRunningPreservedByUpdate | src/infrastructure/repositories/PrismaCreditRepository.js:57-72 | rewriting one credit of a client keeps at most one running credit per client, provided it only becomes running when the client had none |
| CreditRepository.OneRunningPreservedByInsert | src/infrastructure/repositories/PrismaCreditRepository.js:57-72 | inserting a credit keeps the rule, provided a running one is only added for a client without a running credit |
| CreditRepository.Select | src/infrastructure/repositories/PrismaCreditRepository.js:191-230 | a query returns exactly the credits that match its filter, in increasing id order |
| CreditRepository.SelectionsExact | src/infrastructure/repositories/PrismaCreditRepository.js:191-230 | `findUpcomingDue` returns exactly the ACTIVO credits due in [now, now + dias days]; `findOverdue` returns exactly the ACTIVO or INCUMPLIDO credits due before now |
| CreditRepository.UpcomingOverdueDisjoint | src/infrastructure/repositories/PrismaCreditRepository.js:191-230 | no credit is in both answers |
| CreditRepository.OverdueIsVencido | src/infrastructure/repositories/PrismaCreditRepository.js:213-230 | the overdue query agrees with the entity's `isVencido` |
| CreditRepository.UpcomingIsProximo | src/infrastructure/repositories/PrismaCreditRepository.js:191-208 | the upcoming query agrees with the entity's `isProximoAVencer` except at the instant the credit falls due, which only the query includes |
| CreditRepository.TotalPaidNone | src/infrastructure/repositories/PrismaCreditRepository.js:235-244 | a credit without payments has paid 0 (the `\|\| 0` of an empty sum) |
| CreditRepository.TotalPaidNonNegative | src/infrastructure/repositories/PrismaCreditRepository.js:235-244 | with non-negative amounts the total paid is non-negative |
| CreditRepository.TotalPaidFrame | src/infrastructure/repositories/PrismaCreditRepository.js:235-244 | the total depends only on the payment rows |
| CreditRepository.TotalPaidInsert | src/infrastructure/repositories/PrismaCreditRepository.js:235-244 | a new payment raises the total of its own credit by its amount and no other |
| CreditRepository.LatestWithPrefix | src/infrastructure/repositories/PrismaCreditRepository.js:254-263 | the latest credit found has the year prefix; none is found exactly when no credit has it |
| CreditRepository.LatestIsGreatest | src/infrastructure/repositories/PrismaCreditRepository.js:254-263 | the credit found has the greatest number under the string order among those with the prefix |
| CreditRepository.GenerateFirst | src/infrastructure/repositories/PrismaCreditRepository.js:265-271 | the first number of a year is `CRE-<year>-000001` |
| CreditRepository.SplitWellFormed | src/infrastructure/repositories/PrismaCreditRepository.js:267 | splitting a well-formed number at `-` gives `CRE`, the year and the digits |
| CreditRepository.GenerateFreshAndGreater | src/infrastructure/repositories/PrismaCreditRepository.js:249-272 | while every number of the year has six digits below 999999, the generated number is well formed, new, and above every existing number of the year |
| CreditRepository.GreaterSuffix | src/infrastructure/repositories/PrismaCreditRepository.js:265-271 | a number one above the greatest six-digit suffix sorts strictly after every number of the year |
| CreditRepository.GenerateFromLatest | src/infrastructure/repositories/PrismaCreditRepository.js:265-271 | the next number is the latest suffix plus one, padded to six digits |
| CreditRepository.GenerateRepeatsPastSixDigits | src/infrastructure/repositories/PrismaCreditRepository.js:249-272 | past 999999 the scheme repeats a number: with `CRE-2025-999999` and `CRE-2025-1000000` stored, the string order picks the first and the generator returns the second again |
| CreditRepository.ApplyPatch | src/infrastructure/repositories/PrismaCreditRepository.js:165-173 | `update` overwrites exactly the columns given and keeps id, number, client and creation audit |
| CreditRepository.ApplyPatchLaws | src/infrastructure/repositories/PrismaCreditRepository.js:165-173 | the empty patch changes nothing and a patch applied twice is applied once |
| CreditRepository.WithState | src/infrastructure/repositories/PrismaCreditRepository.js:165-173 | a state change rewrites the state and stamps of one credit and leaves every other credit alone |
| CreditRepository.WithStateKeepsOneRunning | src/infrastructure/repositories/PrismaCreditRepository.js:57-72 | a state change keeps the one-running-credit rule when it only makes a credit running for a client without one |
| CreditRepository.Update | src/infrastructure/repositories/PrismaCreditRepository.js:165-173 | a missing id is P2025 and writes nothing; otherwise the row becomes the patched row |
| CreditRepository.UpdateState | src/infrastructure/repositories/PrismaCreditRepository.js:165-173 | the table becomes `WithState` of the old one and the updated row is returned |
| CreditRepository.SoftDelete | src/infrastructure/repositories/PrismaCreditRepository.js:178-186 | `delete` keeps the row and stamps `deletedAt` and `updatedAt`; a missing id writes nothing |
| CreditRepository.Create | src/infrastructure/repositories/PrismaCreditRepository.js:10-17 | a taken number is a unique violation, and otherwise an unknown client is a foreign-key error, both writing nothing; otherwise the row is stored under the next id and credit numbers stay unique |
| CreditRepository.CreateKeepsNumbersUnique | src/infrastructure/repositories/PrismaCreditRepository.js:10-17 | inserting an unused number keeps credit numbers unique |
| CreditRepository.FindAllArgs | src/infrastructure/repositories/PrismaCreditRepository.js:78-81 | the page size is the parsed limit or 10; with a cursor the query skips the cursor row, otherwise it skips (page − 1)·size |
| CreditRepository.NextCursor | src/infrastructure/repositories/PrismaCreditRepository.js:156-157 | there is a next cursor exactly when the page is full, and it is the last row's id |
| CreditRepository.Window | src/infrastructure/repositories/PrismaCreditRepository.js:142-149 | `skip`/`take` return the rows from `skip` on, at most `take` of them, in order |
| CreditRepository.NextCursorWhenFull | src/infrastructure/repositories/PrismaCreditRepository.js:142-157 | a next cursor is offered exactly when the rows reach the end of the window |
| CreateCredit.DefaultDueDate | src/application/use-cases/CreateCreditUseCase.js:35-42 | the default due date lies after the creation time when there are installments |
| CreateCredit.DefaultDueDateDays | src/application/use-cases/CreateCreditUseCase.js:35-42 | the default due date is exactly 30 days per installment ahead |
| CreateCredit.Validated | src/application/use-cases/CreateCreditUseCase.js:45-57 | the entity is accepted exactly when its six checks pass, and then the row carries the given figures, state and audit |
| CreateCredit.ValidatedIsEntityCheck | src/application/use-cases/CreateCreditUseCase.js:45-57 | the use case's check fails with the same error as the entity's `validate`, and a stored row passes `validate` |
| CreateCredit.Prepare | src/application/use-cases/CreateCreditUseCase.js:26-57 | the row to insert is built exactly when the request is acceptable, with the chosen rate and due date and positive figures |
| CreateCredit.PreparedLaws | src/application/use-cases/CreateCreditUseCase.js:29-57 | the rate is the request's, else the environment's, else the default; the due date is the request's or the default; the entity check then decides |
| CreateCredit.Figures | src/application/use-cases/CreateCreditUseCase.js:75-83 | the returned total is principal × (1 + rate), the interest is their product, and the installments add up to the total |
| CreateCredit.InterestRaisesTotal | src/application/use-cases/CreateCreditUseCase.js:75-83 | with positive figures the total exceeds the principal by the interest |
| CreateCredit.Persist | src/application/use-cases/CreateCreditUseCase.js:60-83 | the credit is stored under the next id with its figures, keeping one running credit per client |
| CreateCredit.Execute | src/application/use-cases/CreateCreditUseCase.js:10-84 | an unknown client, a client with a running credit and an invalid request each fail and write nothing; otherwise the requested credit is stored under the next id and the rule of one running credit per client is kept |
| ApproveCredit.Check | src/application/use-cases/ApproveCreditUseCase.js:5-13 | approval fails exactly for a missing credit or a credit that is not PENDIENTE, reporting its state |
| ApproveCredit.Execute | src/application/use-cases/ApproveCreditUseCase.js:4-20 | as written: after the two guards the credit becomes ACTIVO with its stamps, and nothing is written on failure |
| ApproveCredit.WeakerThanManagedApproval | src/application/use-cases/ApproveCreditUseCase.js:4-20 | this approval accepts a superset of what the managed approval accepts: it lacks the client and running-credit checks |
| ApproveCredit.ApproveBreaksOneRunning | src/application/use-cases/ApproveCreditUseCase.js:4-20 | a concrete table where this approval gives a client two ACTIVO credits |
| RejectCredit.Check | src/application/use-cases/RejectCreditUseCase.js:5-13 | rejection fails exactly for a missing credit or a credit that is not PENDIENTE |
| RejectCredit.Execute | src/application/use-cases/RejectCreditUseCase.js:4-20 | after the guards the credit becomes RECHAZADO; nothing is written on failure |
| RejectCredit.RejectKeepsOneRunning | src/application/use-cases/RejectCreditUseCase.js:4-20 | rejection is a legal transition, keeps the one-running-credit rule and changes no client's running credit |
| ManageCreditStatus.ApproveCheck | creditos-backend/src/application/ManageCreditStatusUseCase.js:19-40 | approval fails exactly for a missing credit, a non-pending credit, a missing client or a client with a running credit, in that order, and never for the record write |
| ManageCreditStatus.RejectCheck | creditos-backend/src/application/ManageCreditStatusUseCase.js:110-125 | rejection fails exactly for a missing credit, a non-pending credit or a missing client, and never for a running credit or the record write |
| ManageCreditStatus.ApproveStricterThanReject | creditos-backend/src/application/ManageCreditStatusUseCase.js:17-125 | approval passes exactly when rejection would and the client has no running credit |
| ManageCreditStatus.ApproveKeepsOneRunning | creditos-backend/src/application/ManageCreditStatusUseCase.js:17-99 | an approval that passes its checks is legal and keeps one running credit per client |
| ManageCreditStatus.RejectKeepsOneRunning | creditos-backend/src/application/ManageCreditStatusUseCase.js:108-182 | a rejection that passes its checks is legal and keeps one running credit per client |
| ManageCreditStatus.Approve | creditos-backend/src/application/ManageCreditStatusUseCase.js:17-99 | a failed check writes nothing; otherwise the credit becomes ACTIVO; a failing record insert is reported as `RecordFailed` with the credit already changed and no record; otherwise exactly one WhatsApp record of the approval is appended, sent or failed |
| ManageCreditStatus.Reject | creditos-backend/src/application/ManageCreditStatusUseCase.js:108-182 | a failed check writes nothing; otherwise the credit becomes RECHAZADO; a failing record insert is reported as `RecordFailed` with the credit already changed and no record; otherwise the reason is returned and one WhatsApp record is appended |
| Store.SendRecord | creditos-backend/src/application/ManageCreditStatusUseCase.js:81-92 | a notification record is ENVIADO with a send time exactly when the message went out, and is stamped at the call's time |
| Store.Db.AssignRole | src/application/use-cases/CreateUserUseCase.js:54-58 | assigning a role fails with a unique violation for a pair already there, and otherwise with a foreign-key error for an unknown user or role, both writing nothing; otherwise it appends the pair |
| Store.Db.RemoveRole | src/application/use-cases/UpdateUserUseCase.js:95-98 | removing an absent pair is P2025 and writes nothing; otherwise only that pair goes |
| Store.RoleIdsOf | creditos-backend/src/application/use-cases/ListUsersUseCase.js:36 | a user's role ids are exactly the roles of its join rows |
| Store.Without | src/application/use-cases/UpdateUserUseCase.js:95-98 | dropping a join row keeps exactly the other rows |
| Store.WithoutKeepsDistinct | src/application/use-cases/UpdateUserUseCase.js:95-98 | dropping a row keeps the join rows free of duplicates |
| CreatePayment.Admit | src/application/use-cases/CreatePaymentUseCase.js:16-38 | a payment is rejected exactly for an unknown credit, an unknown client (the given one or the credit's) or a failed entity check; the admitted row carries the request's amount, method and installment, the caller or given collector, and the date or now |
| CreatePayment.ComprobanteIdentifiesPayment | src/application/use-cases/CreatePaymentUseCase.js:72 | at one instant, two receipts with the same number belong to the same payment |
| CreatePayment.TicketFor | src/application/use-cases/CreatePaymentUseCase.js:114-127 | the ticket copies the payment's amount and client, carries its receipt number, and has a file name exactly when a PDF was made |
| CreatePayment.CreditTotalIsEntityTotal | src/application/use-cases/CreatePaymentUseCase.js:130 | the total compared with the payments is the entity's `calcularMontoTotal` |
| CreatePayment.AfterSettlement | src/application/use-cases/CreatePaymentUseCase.js:142-154 | the credit changes exactly when it is ACTIVO and the payments reach the total, and then it becomes PAGADO |
| CreatePayment.SettlementKeepsOneRunning | src/application/use-cases/CreatePaymentUseCase.js:142-154 | settlement only moves ACTIVO to PAGADO, leaves other states alone, and keeps one running credit per client |
| CreatePayment.Settle | src/application/use-cases/CreatePaymentUseCase.js:41-164 | the transaction fails with nothing written when the collector is unknown; otherwise it stores the payment and its ticket under the next ids, sums the credit's payments including the new one, and settles the credit |
| CreatePayment.InsertPayment | src/application/use-cases/CreatePaymentUseCase.js:43-69 | the payment is stored under the next id unless a reference is missing, and a credit's total paid grows by exactly its amount |
| CreatePayment.InsertTicket | src/application/use-cases/CreatePaymentUseCase.js:114-127 | the ticket is stored under the next id |
| CreatePayment.Execute | src/application/use-cases/CreatePaymentUseCase.js:14-226 | admission failures write nothing; an admitted payment is settled as above, one Telegram record says whether the message went out (it needs a chat id and a successful reply), and a failing record write is reported after the transaction |
| NotificationsCron.Scanner.constructor | src/cron/notificationsCron.js:11-14 | the schedule is the environment's when set and the default otherwise, and no task runs |
| NotificationsCron.Scanner.Start | src/cron/notificationsCron.js:19-26 | starting schedules an active task on the configured expression |
| NotificationsCron.Scanner.Stop | src/cron/notificationsCron.js:31-36 | stopping deactivates the scheduled job if there is one |
| NotificationsCron.StopTask | src/cron/notificationsCron.js:31-36 | a stopped task keeps its expression and is inactive; no task stays no task |
| NotificationsCron.StopIdempotent | src/cron/notificationsCron.js:31-36 | stopping twice is stopping once |
| NotificationsCron.DayCounts | src/cron/notificationsCron.js:74-76 | an upcoming credit's remaining days are between 0 and the horizon; an overdue credit is at least one day late |
| NotificationsCron.Records | src/cron/notificationsCron.js:47-60 | a reminder loop writes at most one record per credit |
| NotificationsCron.RecordsWhenAllRecorded | src/cron/notificationsCron.js:47-60 | when every record write succeeds, the loop writes one record per credit, in order, saying whether each message went out |
| NotificationsCron.RecordsShape | src/cron/notificationsCron.js:100-111 | every record has the loop's type, WhatsApp as channel, the run's time, and the client of one of the credits |
| NotificationsCron.Demoted | src/cron/notificationsCron.js:169-178 | demotion rewrites no credit outside the table |
| NotificationsCron.DemotedPointwise | src/cron/notificationsCron.js:169-178 | an overdue credit becomes INCUMPLIDO exactly when it was ACTIVO and both its record and its update succeeded; every other credit stays |
| NotificationsCron.SelectedInTable | src/infrastructure/repositories/PrismaCreditRepository.js:191-230 | every credit a query returns is in the table |
| NotificationsCron.RunOnlyDemotesOverdue | src/cron/notificationsCron.js:41-66 | a run changes only ACTIVO credits due before now, and only into INCUMPLIDO; credits about to fall due are never touched |
| NotificationsCron.DemotedExactly | src/cron/notificationsCron.js:41-66 | when both queries succeed, a credit becomes INCUMPLIDO exactly when it was ACTIVO, overdue, and its record and update succeeded |
| NotificationsCron.RunKeepsOneRunning | src/cron/notificationsCron.js:41-66 | a run keeps one running credit per client and makes only legal transitions |
| NotificationsCron.RunLogWhenAllRecorded | src/cron/notificationsCron.js:41-66 | when every record write succeeds, the log gains one upcoming reminder per credit about to fall due and then one overdue reminder per overdue credit, in order |
| NotificationsCron.FailedQueries | src/cron/notificationsCron.js:63-65 | a failing first query ends the run with nothing written; a failing second query keeps only the upcoming reminders and changes no credit |
| NotificationsCron.Scanner.SendReminders | src/cron/notificationsCron.js:41-66 | a run appends exactly the run's log and leaves the credits as the run's function says |
| NotificationsCron.RemindUpcoming | src/cron/notificationsCron.js:44-52 | the first loop appends the upcoming reminders and changes no credit |
| NotificationsCron.RemindOverdue | src/cron/notificationsCron.js:54-60 | the second loop appends the overdue reminders and demotes as `Demoted` says |
| NotificationsCron.UpcomingLoop | src/cron/notificationsCron.js:47-52 | the loop over the credits about to fall due appends exactly their records |
| NotificationsCron.OverdueLoop | src/cron/notificationsCron.js:55-60 | the loop over the overdue credits appends exactly their records and demotes exactly the credits `Demoted` names |
| NotificationsCron.SendUpcomingDueReminder | src/cron/notificationsCron.js:71-121 | one reminder appends its record when the record write succeeds and nothing otherwise |
| NotificationsCron.SendOverdueReminder | src/cron/notificationsCron.js:126-188 | one overdue reminder appends its record when it can, and marks an ACTIVO credit INCUMPLIDO only after a successful record and update |
| CreateClient.Check | src/application/use-cases/CreateClientUseCase.js:10-42 | creation fails, in order, for a missing name or cedula, a trimmed name shorter than two UTF-16 units, a cedula already registered as sent, then at the insert a trimmed cedula already registered (the unique index) and only then an unknown collector (the foreign key) |
| CreateClient.NewRowLaws | src/application/use-cases/CreateClientUseCase.js:29-42 | the stored client has the trimmed name, at least two UTF-16 units long, and the trimmed cedula, each optional field exactly when it was truthy, is active unless `false` was sent, and carries the creation audit |
| CreateClient.BlankCedulaStoredEmpty | src/application/use-cases/CreateClientUseCase.js:10-31 | a cedula of spaces passes the guards and is stored as the empty string |
| CreateClient.Thrown | src/application/use-cases/CreateClientUseCase.js:18-48 | a database error is rethrown with its Prisma code; a taken cedula becomes a 409 error on `cedula`; the guards throw plain errors |
| CreateClient.DuplicateAnswer | src/application/use-cases/CreateClientUseCase.js:18-48 | both ways of meeting a taken cedula answer 409 `DUPLICATE_ENTRY` on `cedula` |
| CreateClient.DuplicateExactly | src/application/use-cases/CreateClientUseCase.js:18-42 | with stored cedulas trimmed, a duplicate is reported exactly when the trimmed cedula is taken, whatever the collector |
| CreateClient.PlainErrorsAre500 | src/application/use-cases/CreateClientUseCase.js:10-15 | the guard errors reach the client as 500 |
| CreateClient.InsertKeepsUnique | src/application/use-cases/CreateClientUseCase.js:29-42 | inserting an unused cedula keeps cedulas unique |
| CreateClient.InsertKeepsTrimmed | src/application/use-cases/CreateClientUseCase.js:29-42 | an insert keeps every stored cedula trimmed |
| CreateClient.Insert | src/application/use-cases/CreateClientUseCase.js:29-42 | a taken cedula is a unique violation, and otherwise an unknown collector a foreign-key error, both with nothing written; otherwise the row is stored under the next id and cedulas stay unique |
| CreateClient.Execute | src/application/use-cases/CreateClientUseCase.js:4-49 | fails exactly as `Check` says, writing nothing; otherwise stores the new row under the next id, keeping cedulas unique |
| UpdateClient.SetOrNull | src/application/use-cases/UpdateClientUseCase.js:18-23 | a field left out stays out and a sent one becomes its value or `null` |
| UpdateClient.SetIdOrNull | src/application/use-cases/UpdateClientUseCase.js:24 | the collector id is likewise left out, or the sent id, or `null` when falsy |
| UpdateClient.NameError | src/application/use-cases/UpdateClientUseCase.js:13-16 | a sent name fails exactly when it is `null` or blank |
| UpdateClient.BuildPatch | src/application/use-cases/UpdateClientUseCase.js:8-24 | the patch is built exactly when the name check passes |
| UpdateClient.UpdateFieldwise | src/application/use-cases/UpdateClientUseCase.js:8-26 | field by field, a field left out keeps its value and a sent one takes the trimmed name, the value or `null`; id, cedula, chat id and creation audit never change; the edit audit is always written |
| UpdateClient.EmptyChangesOnlyStamp | src/application/use-cases/UpdateClientUseCase.js:8-11 | an empty request only writes the edit audit |
| UpdateClient.UpdateIdempotent | src/application/use-cases/UpdateClientUseCase.js:8-26 | applying the same edit twice is applying it once |
| UpdateClient.SameCedulaKeepsUnique | src/application/use-cases/UpdateClientUseCase.js:26 | an edit, which never touches the cedula, keeps cedulas unique |
| UpdateClient.Write | src/application/use-cases/UpdateClientUseCase.js:26 | an unknown collector is a foreign-key error writing nothing; otherwise the row becomes the patched row |
| UpdateClient.Execute | src/application/use-cases/UpdateClientUseCase.js:4-30 | an unknown client, a bad name and an unknown collector fail with nothing written; otherwise the stored and returned client is the patched row |
| CreateUser.Check | src/application/use-cases/CreateUserUseCase.js:13-35 | creation fails, in order, for a missing name, a missing e-mail, a malformed e-mail, a password under six UTF-16 units, or an e-mail already stored exactly as sent |
| CreateUser.NewUserLaws | src/application/use-cases/CreateUserUseCase.js:41-51 | the stored user has the trimmed name, the lower-cased e-mail (still well formed), the hash, the trimmed phone or `null`, is active, and carries the creation audit |
| CreateUser.Thrown | src/application/use-cases/CreateUserUseCase.js:13-58 | a database error is rethrown with its Prisma code and the guards throw plain errors |
| CreateUser.DuplicateEmailAnswers | src/application/use-cases/CreateUserUseCase.js:32-51 | an e-mail stored exactly as sent answers 500, while one stored in another letter case answers 409 on `email` |
| CreateUser.CaseVariantReachesColumn | src/application/use-cases/CreateUserUseCase.js:32-43 | every e-mail that is not stored as sent but whose lower-cased form is stored passes the lookup and reaches the unique column |
| CreateUser.CaseVariantExample | src/application/use-cases/CreateUserUseCase.js:32-43 | `Ana@x.co` against a stored `ana@x.co` is such an e-mail |
| CreateUser.CreateKeepsLower | src/application/use-cases/CreateUserUseCase.js:41-51 | creation keeps every stored e-mail lower-case |
| CreateUser.InsertKeepsUnique | src/application/use-cases/CreateUserUseCase.js:41-51 | inserting an unused e-mail keeps e-mails unique |
| CreateUser.NewUserRoles | src/application/use-cases/CreateUserUseCase.js:54-58 | for a new user the role loop succeeds exactly when every id names a role and no id repeats, and then the user's roles are the requested ones in order |
| CreateUser.RepeatedRoleId | src/application/use-cases/CreateUserUseCase.js:54-58 | a repeated role id stops the loop with a unique violation after the first assignment |
| CreateUser.Insert | src/application/use-cases/CreateUserUseCase.js:41-51 | a taken e-mail is a unique violation writing nothing; otherwise the user is stored under the next id and e-mails stay unique |
| CreateUser.Execute | src/application/use-cases/CreateUserUseCase.js:9-73 | guard failures and a taken stored e-mail write nothing; otherwise the user is stored and the role loop runs on it, success exactly when the loop passes, returning the view with its role names |
| UpdateUser.NameError | src/application/use-cases/UpdateUserUseCase.js:24-29 | a sent name fails exactly when it is `null` or blank |
| UpdateUser.EmailError | src/application/use-cases/UpdateUserUseCase.js:32-54 | a sent e-mail fails for `null`, blank, malformed, or (only when its lower-cased form differs from the current one) held by another user |
| UpdateUser.PasswordError | src/application/use-cases/UpdateUserUseCase.js:57-62 | a sent password fails exactly when it is `null` or under six UTF-16 units |
| UpdateUser.PatchError | src/application/use-cases/UpdateUserUseCase.js:24-62 | the edit passes exactly when all three checks do, and the first failing check is reported |
| UpdateUser.PhoneOrNull | src/application/use-cases/UpdateUserUseCase.js:65-67 | the phone is its trimmed value when not blank, and `null` otherwise |
| UpdateUser.BuildPatch | src/application/use-cases/UpdateUserUseCase.js:18-72 | the patch is built exactly when `PatchError` finds nothing, and otherwise the first error is thrown |
| UpdateUser.UpdateFieldwise | src/application/use-cases/UpdateUserUseCase.js:18-75 | field by field, a field left out keeps its value and a sent one takes the trimmed name, the lower-cased e-mail, the new hash, the phone or `null`; id and creation audit never change |
| UpdateUser.LookupCatchesClash | src/application/use-cases/UpdateUserUseCase.js:43-53 | with e-mails unique and lower-case, a checked edit never writes an e-mail another user holds |
| UpdateUser.WriteKeepsUnique | src/application/use-cases/UpdateUserUseCase.js:75 | writing an e-mail no other user holds keeps e-mails unique |
| UpdateUser.WriteKeepsLower | src/application/use-cases/UpdateUserUseCase.js:43-75 | a checked edit keeps every stored e-mail lower-case |
| UpdateUser.RoleIdsOfDistinct | src/application/use-cases/UpdateUserUseCase.js:80-81 | a user's current role ids have no duplicate |
| UpdateUser.ReconcileSetsRoles | src/application/use-cases/UpdateUserUseCase.js:78-99 | sending existing, distinct role ids makes the user's roles exactly those and leaves other users' rows alone |
| UpdateUser.ReconcileRoles | src/application/use-cases/UpdateUserUseCase.js:78-99 | the add loop then the remove loop leave the rows and outcome `Reconcile` describes |
| UpdateUser.Write | src/application/use-cases/UpdateUserUseCase.js:75 | an e-mail another user holds is a unique violation writing nothing; otherwise the row becomes the patched row |
| UpdateUser.Execute | src/application/use-cases/UpdateUserUseCase.js:9-114 | an unknown user and failed checks write nothing; otherwise the row is written first, then a `null` role list throws and a role list is reconciled, with the view showing the final roles |
| UserRoles.JoinRows | src/application/use-cases/CreateUserUseCase.js:54-58 | one join row per id, in order |
| UserRoles.AssignAll | src/application/use-cases/CreateUserUseCase.js:54-58 | the assignment loop adds at most one row per id |
| UserRoles.RemoveAll | src/application/use-cases/UpdateUserUseCase.js:95-98 | the removal loop never adds a row |
| UserRoles.AssignAllAfterFailure | src/application/use-cases/CreateUserUseCase.js:54-58 | once an assignment fails, the later ids change nothing |
| UserRoles.RemoveAllAfterFailure | src/application/use-cases/UpdateUserUseCase.js:95-98 | once a removal fails, the later ids change nothing |
| UserRoles.AssignAllPasses | src/application/use-cases/CreateUserUseCase.js:54-58 | the assignments all succeed exactly when the user exists and every id is a role, not yet assigned, and not repeated; they then append one row per id in order |
| UserRoles.RemoveAllPasses | src/application/use-cases/UpdateUserUseCase.js:95-98 | removing distinct assigned ids succeeds and leaves exactly the other rows |
| UserRoles.Filter | src/application/use-cases/UpdateUserUseCase.js:84-88 | `filter(id => !out.includes(id))` keeps exactly the elements not in `out` |
| UserRoles.FilterDistinct | src/application/use-cases/UpdateUserUseCase.js:84-88 | filtering keeps a list free of duplicates |
| UserRoles.RoleIdsOfAppend | src/application/use-cases/CreateUserUseCase.js:54-58 | the role ids of appended rows are the ids of each part, in order |
| UserRoles.NoRowsOfMissingUser | src/application/use-cases/CreateUserUseCase.js:54-58 | a user that does not exist yet has no join rows |
| UserRoles.AssignAllKeepsRefer | src/application/use-cases/CreateUserUseCase.js:54-58 | assigning keeps every join row pointing at an existing user |
| UserRoles.RemoveAllSubset | src/application/use-cases/UpdateUserUseCase.js:95-98 | removing only drops rows |
| UserRoles.RoleNames | creditos-backend/src/application/use-cases/ListUsersUseCase.js:36 | `userRoles.map(ur => ur.role.name)` gives one name per role id, in order, each the name of one of the user's roles |
| UserRoles.AssignEach | src/application/use-cases/CreateUserUseCase.js:54-58 | the assignment loop leaves the rows and outcome `AssignAll` describes |
| UserRoles.RemoveEach | src/application/use-cases/UpdateUserUseCase.js:95-98 | the removal loop leaves the rows and outcome `RemoveAll` describes |
| DeleteUser.GuardError | src/application/use-cases/DeleteUserUseCase.js:10-23 | deletion fails, in order, exactly for an unknown user, the caller themself, or the main administrator |
| DeleteUser.Deactivated | src/application/use-cases/DeleteUserUseCase.js:26-30 | the soft delete clears `isActive`, stamps the audit, and changes nothing else |
| DeleteUser.DeactivateTwice | src/application/use-cases/DeleteUserUseCase.js:26-30 | deactivating again only moves the stamp |
| DeleteUser.RowsWithout | src/application/use-cases/DeleteUserUseCase.js:64-65 | the cascade keeps exactly the join rows of other users |
| DeleteUser.RowsWithoutDistinct | src/application/use-cases/DeleteUserUseCase.js:64-65 | the cascade keeps the join rows free of duplicates |
| DeleteUser.TokensWithout | src/application/use-cases/DeleteUserUseCase.js:64-65 | the cascade keeps exactly the refresh tokens of other users |
| DeleteUser.HardDeleteKeepsRefer | src/application/use-cases/DeleteUserUseCase.js:64-65 | after the cascade every join row still points at a remaining user |
| DeleteUser.HardDeleteInvariants | src/application/use-cases/DeleteUserUseCase.js:64-65 | the hard delete keeps e-mails unique and join rows pointing at users |
| DeleteUser.Execute | src/application/use-cases/DeleteUserUseCase.js:8-39 | a guard failure writes nothing; otherwise only the user's row is deactivated and its id returned |
| DeleteUser.Remove | src/application/use-cases/DeleteUserUseCase.js:64-65 | `delete` removes the row, and the cascade removes the user's join rows and refresh tokens |
| DeleteUser.HardDelete | src/application/use-cases/DeleteUserUseCase.js:45-77 | a guard failure, or a restricting reference (P2003), writes nothing; otherwise the user, its role rows and its tokens are gone |
| ListUsers.Clamp | creditos-backend/src/application/use-cases/ListUsersUseCase.js:10-15 | the page is the parsed page, or 1 when falsy or below 1; the size is the parsed limit, or 10 when falsy, capped at 100 |
| ListUsers.Execute | creditos-backend/src/application/use-cases/ListUsersUseCase.js:8-47 | one summary per row found, in order, with its public fields and role names; the metadata echoes the clamped paging and the rounded-up page count |
| GetUserById.DedupNames | creditos-backend/src/application/use-cases/GetUserByIdUseCase.js:23-34 | a permission name is listed exactly when one of the user's roles grants it |
| GetUserById.DedupDistinct | creditos-backend/src/application/use-cases/GetUserByIdUseCase.js:23-34 | no permission name is listed twice |
| GetUserById.DedupFirstOrder | creditos-backend/src/application/use-cases/GetUserByIdUseCase.js:23-34 | each listed permission is the first one met with its name, in first-met order |
| GetUserById.DedupSubset | creditos-backend/src/application/use-cases/GetUserByIdUseCase.js:23-34 | nothing is listed that no role grants |
| GetUserById.FirstWithName | creditos-backend/src/application/use-cases/GetUserByIdUseCase.js:25 | `find(p => p.name === name)` gives the first permission with the name |
| GetUserById.AddPermissions | creditos-backend/src/application/use-cases/GetUserByIdUseCase.js:24-33 | the inner loop extends the list collected so far by one role's permissions, skipping names already listed |
| GetUserById.CollectPermissions | creditos-backend/src/application/use-cases/GetUserByIdUseCase.js:21-34 | the nested loops list the de-duplicated permissions of the user's roles, role after role |
| GetUserById.Execute | creditos-backend/src/application/use-cases/GetUserByIdUseCase.js:8-49 | a falsy id and an unknown user are errors; otherwise the detail carries the public fields, the role names and the collected permissions |
| Authorize.Status | src/presentation/middlewares/authorize.js:7-53 | `next` sends nothing, and every refusal answers 401, 403 or 500 |
| Authorize.AnyInMeaning | src/presentation/middlewares/authorize.js:29-31 | `some(... includes ...)` holds exactly when one wanted name is held |
| Authorize.Authorize | src/presentation/middlewares/authorize.js:7-53 | a request without a user id is 401; without required permissions it passes; a failing lookup is 500; otherwise it passes exactly when one required permission is held, and is 403 with both lists otherwise |
| Authorize.AuthorizeRole | src/presentation/middlewares/authorize.js:58-91 | a request without roles is 401; otherwise it passes exactly when one required role is held, and is 403 with both lists otherwise |
| Authorize.EmptyRequirement | src/presentation/middlewares/authorize.js:20-22 | with nothing required `authorize` lets the user through, while `authorizeRole` refuses |
| Authorize.MorePermissionsStillPass | src/presentation/middlewares/authorize.js:29-43 | holding more permissions never turns a pass into a refusal |
| Authorize.MoreAlternativesStillPass | src/presentation/middlewares/authorize.js:29-43 | accepting one more permission never turns a pass into a refusal |
| ErrorHandler.DuplicateField | src/presentation/middlewares/errorHandler.js:59 | the duplicate field is the first target when there is one, and never empty |
| ErrorHandler.HandlePrismaError | src/presentation/middlewares/errorHandler.js:55-99 | P2002 answers 409 with the field, P2025 404, P2003 and P2014 400, every other code 500 without a field |
| ErrorHandler.HandleError | src/presentation/middlewares/errorHandler.js:5-50 | Prisma codes go to the Prisma table; validation errors answer 400, JWT errors 401; anything else keeps its own truthy status (else 500), its own code (else `INTERNAL_ERROR`) and its field |
| ErrorHandler.PrismaCodeDecides | src/presentation/middlewares/errorHandler.js:9-11 | when the code starts with `P`, the answer depends on the code and target alone |
| ErrorHandler.StatusesWithoutOwnStatus | src/presentation/middlewares/errorHandler.js:5-99 | an error without its own status is answered with 400, 401, 404, 409 or 500 |
| ErrorHandler.PrismaError | src/presentation/middlewares/errorHandler.js:9-11 | a database error carries its Prisma code |
| ErrorHandler.DbErrorResponses | src/presentation/middlewares/errorHandler.js:57-81 | a unique violation answers 409 with its field, a missing record 404 and a foreign-key error 400 |
| ErrorHandler.AsyncHandler | src/presentation/middlewares/errorHandler.js:116-120 | a rejected handler forwards its reason to `next`, and a fulfilled one forwards nothing |
| RefreshTokens.Revoked | creditos-backend/src/infrastructure/repositories/PrismaRefreshTokenRepository.js:39-44 | after `revoke` the token is invalid at any time and keeps its user and expiry; every other token is unchanged |
| RefreshTokens.RevokedAll | creditos-backend/src/infrastructure/repositories/PrismaRefreshTokenRepository.js:49-54 | after `revokeAllByUser` each of the user's tokens is revoked and invalid, and every other user's token is unchanged |
| RefreshTokens.WithoutExpired | creditos-backend/src/infrastructure/repositories/PrismaRefreshTokenRepository.js:59-68 | exactly the tokens expired before now are deleted, and validity at now is unchanged for every token |
| RefreshTokens.RevokeIdempotent | creditos-backend/src/infrastructure/repositories/PrismaRefreshTokenRepository.js:39-44 | revoking twice is revoking once |
| RefreshTokens.Create | creditos-backend/src/infrastructure/repositories/PrismaRefreshTokenRepository.js:10-14 | a token text already stored is a unique violation, and otherwise an unknown user a foreign-key error, both writing nothing; otherwise the token is added |
| RefreshTokens.Revoke | creditos-backend/src/infrastructure/repositories/PrismaRefreshTokenRepository.js:39-44 | revoking an unknown token is P2025 writing nothing; otherwise the table becomes `Revoked` |
| RefreshTokens.RevokeAllByUser | creditos-backend/src/infrastructure/repositories/PrismaRefreshTokenRepository.js:49-54 | the table becomes `RevokedAll` |
| RefreshTokens.DeleteExpired | creditos-backend/src/infrastructure/repositories/PrismaRefreshTokenRepository.js:59-68 | the table becomes `WithoutExpired` at now |
| LogoutUser.Execute | creditos-backend/src/application/use-cases/LogoutUserUseCase.js:8-26 | a falsy token is the only error; an unknown token succeeds and changes nothing; a known one is revoked |
| LogoutUser.ExecuteAll | creditos-backend/src/application/use-cases/LogoutUserUseCase.js:32-40 | a falsy user id is the only error, and otherwise every token of the user is revoked |
| LogoutUser.LogoutTwice | creditos-backend/src/application/use-cases/LogoutUserUseCase.js:8-26 | logging out twice is logging out once, and the token is invalid afterwards |
| RefreshToken.GuardError | src/application/use-cases/RefreshTokenUseCase.js:11-43 | a refresh fails, in order, for a falsy token, a bad signature, an unknown, a revoked or an expired token, or an inactive or missing user; it passes exactly when the token is valid and its user active |
| RefreshToken.PayloadOf | src/application/use-cases/RefreshTokenUseCase.js:46-54 | the new token's payload carries the user's id, e-mail and name, and only names of roles the user holds; when every joined role exists it holds one name per join row, in join order |
| RefreshToken.Rotated | src/application/use-cases/RefreshTokenUseCase.js:62-81 | rotation adds the new token, makes the old one invalid for good, and leaves every other token alone |
| RefreshToken.GuardsAreIsValid | creditos-backend/src/infrastructure/repositories/PrismaRefreshTokenRepository.js:73-81 | for a verified token, the use case's storage checks pass exactly when the repository's `isValid` holds |
| RefreshToken.ReplayAfterRotation | src/application/use-cases/RefreshTokenUseCase.js:62-81 | after rotation the old token is refused as revoked |
| RefreshToken.RotatedTokenAccepted | src/application/use-cases/RefreshTokenUseCase.js:62-81 | after rotation the new token is accepted while its user stays active |
| RefreshToken.Execute | src/application/use-cases/RefreshTokenUseCase.js:10-87 | a guard failure writes nothing; without rotation the same refresh token comes back; with rotation the old token is revoked and the new one stored, or a colliding new token fails after the revoke |
| PostgresUsers.MapRowToUser | creditos-backend/src/infrastructure/repositories/PostgresUserRepository.js:141-150 | the entity shows the row's id, e-mail, name and timestamps, keeps its password, and is valid exactly when e-mail, password and name are non-empty |
| PostgresUsers.Columns | creditos-backend/src/infrastructure/repositories/PostgresUserRepository.js:88-99 | exactly the truthy fields get a SET clause, at most three, in the order e-mail, name, password |
| PostgresUsers.BuildUpdate | creditos-backend/src/infrastructure/repositories/PostgresUserRepository.js:82-107 | the n-th truthy field gets placeholder `$n` and the n-th value, then `updated_at` is stamped, and the id is the last value and the placeholder of the WHERE clause |
| PostgresUsers.NumberedPush | creditos-backend/src/infrastructure/repositories/PostgresUserRepository.js:88-99 | each pushed field extends the numbering by one placeholder and its value |
| PostgresUsers.Patched | creditos-backend/src/infrastructure/repositories/PostgresUserRepository.js:82-107 | the updated row has each truthy field replaced, the others kept, and the update time set |
| PostgresUsers.PatchIdempotent | creditos-backend/src/infrastructure/repositories/PostgresUserRepository.js:82-107 | repeating the same update only moves the update time |
| PostgresUsers.ApplyFrom | creditos-backend/src/infrastructure/repositories/PostgresUserRepository.js:101-107 | executing the SET clauses from the i-th on writes the remaining truthy fields and the time |
| PostgresUsers.PatchColumnsIsPatched | creditos-backend/src/infrastructure/repositories/PostgresUserRepository.js:88-102 | writing the chosen columns one by one is the intended update |
| PostgresUsers.NumberingIsFaithful | creditos-backend/src/infrastructure/repositories/PostgresUserRepository.js:82-107 | the built statement, executed with its values, performs exactly the intended update: every placeholder takes the value of its own field |
| PostgresUsers.UsersTable.constructor | creditos-backend/src/infrastructure/repositories/PostgresUserRepository.js:8 | an empty table whose ids start at 1 |
| PostgresUsers.UsersTable.FindByEmail | creditos-backend/src/infrastructure/repositories/PostgresUserRepository.js:14-29 | `null` exactly when no row has the e-mail; otherwise the mapped row that has it |
| PostgresUsers.UsersTable.FindById | creditos-backend/src/infrastructure/repositories/PostgresUserRepository.js:36-51 | `null` exactly when no row has the id; otherwise the mapped row |
| PostgresUsers.UsersTable.Create | creditos-backend/src/infrastructure/repositories/PostgresUserRepository.js:58-74 | a taken e-mail fails with "already exists" and writes nothing; otherwise the row is stored under the next id with both timestamps now |
| PostgresUsers.UsersTable.Update | creditos-backend/src/infrastructure/repositories/PostgresUserRepository.js:82-117 | an unknown id fails as "Error updating user: User not found"; an e-mail held by another row fails with the wrapped 23505; otherwise the row becomes the patched row and is returned |
| PostgresUsers.UsersTable.Delete | creditos-backend/src/infrastructure/repositories/PostgresUserRepository.js:124-135 | the answer is whether the id was present, and the row is gone afterwards |

## Left out

- Message texts, `console` logging, `toFixed(2)` amounts, dates rendered as text, and locale or daylight-saving effects on `setDate`. Days are fixed 86 400 000 ms.
- The WhatsApp and Telegram integrations, PDF generation and JWT signing and verification. Their outcomes are parameters, and so are the password hash and `process.env` values (`CRON_SCHEDULE`, the default interest rate, `REFRESH_TOKEN_ROTATION`).
- `parseInt` on request ids and role ids: ids reach the model as numbers. `parseInt` is modelled only in credit numbers and in paging.
- Concurrency. Requests and cron runs are sequential, and two requests cannot race past a guard.
- The repository's transaction wrapper is modelled as all-or-nothing for the payment transaction. The role writes after a user is created or edited have no transaction, and a failure leaves the earlier writes in place, as in the code.
- NotificationsCron.Scanner.SendReminders: one clock value serves the whole run, while the code reads the clock again per query and per message.
- NotificationsCron `runManually` is left out: it only calls `sendReminders`.
- The `findAll` filters (search, state, client, collector) and the database's row order are not modelled. Queries return ids in ascending order, and `ListUsers.Execute` takes the repository's page as a parameter.
- Foreign keys are checked when a row is inserted or updated, not kept as a table invariant. Store.Db.AppendNotification does not check `clienteId`: every caller has just read the client, or the credit that names it. The cascade of a hard delete covers role rows and refresh tokens. Whether other tables restrict the delete (P2003) is the parameter `restricted`, because the schema is not part of this model.
- `src/infrastructure/repositories/PrismaUserRepository.js` is not part of this model. Its lookups are read as exact matches on the user table, and `getUserPermissions` is the `authorize` parameter `fetched`.
- Authorize.AuthorizeRole: the 500 branch is left out. Nothing in the modelled body can throw.
- `isActive` sent to user and client edits is modelled by its truthiness (`Boolean(isActive)`) as a `bool`.
- PostgresUsers.UsersTable: the table is assumed to have a unique `email` column, which produces error 23505. Other driver errors are not modelled. The database clock is the parameter `now`.
- CreditRepository.GenerateFreshAndGreater: freshness is proved only while every number of the year has six digits below 999999. Past that the scheme repeats a number (`GenerateRepeatsPastSixDigits`).
- Text.ToLower: only `A`–`Z` are lowered. JavaScript's `toLowerCase` also maps other cased letters (`É` to `é`) and can lengthen a string (`İ`), so the e-mail case rules hold here for ASCII letters only.
- Store.Db: a failed insert leaves the id counter unchanged, while a PostgreSQL sequence consumes the value. Ids differ but no guard depends on them.
- NotificationsCron.Scanner.Start: a second start replaces the scheduled job. In the code the first job keeps running and `stop()` no longer reaches it.
- CreditEntity.Credit.IsVencido: a missing due date gives `false`. That is the code's answer for `undefined` (an invalid date); for `null` the code compares against the epoch (`new Date(null)`) and answers `true` for a running credit.
- Money is an exact real. Floating-point rounding of totals and installments is not modelled.
- CreatePayment.Execute: a failure of the Telegram send is a parameter. The PDF or ticket failing inside the transaction is not modelled separately from the insert.

## Findings

| source | as written | input that shows it | evidently intended | confidence | as-written member | corrected member |
|---|---|---|---|---|---|---|
| src/application/use-cases/ApproveCreditUseCase.js:4-20 | approval checks only that the credit exists and is PENDIENTE, not that the client has no running credit | a client with ACTIVO credit 1 and PENDIENTE credit 2; approving credit 2 passes and leaves two ACTIVO credits | keep at most one ACTIVO or INCUMPLIDO credit per client (PrismaCreditRepository.js:57-58), as the managed approval does | not executed | ApproveCredit.ApproveBreaksOneRunning | ManageCreditStatus.ApproveKeepsOneRunning |
