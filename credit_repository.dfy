/**
 * The credit repository: which credits count as running, upcoming or overdue,
 * the total paid on a credit, the `CRE-<year>-NNNNNN` numbering, the field
 * patch of `update`, the soft delete and the paging arithmetic of `findAll`.
 * Queries that return several credits return their ids in ascending order.
 */
module CreditRepository {

  import opened Common
  import opened Text
  import opened CreditEntity
  import opened Store

  /** The entity view of a stored credit. */
  function ToEntity(row: CreditRow): (c: Credit)
    ensures c.id == Some(row.id) && c.estado == row.estado
    ensures c.fechaVencimiento == Some(row.fechaVencimiento)
    ensures c.montoPrincipal == Some(row.montoPrincipal) && c.tasaInteresAplicada == Some(row.tasaInteresAplicada)
    ensures c.cuotas == Some(row.cuotas)
  {
    Credit(Some(row.id), Some(row.numeroCredito), Some(row.clienteId as int), Some(row.montoPrincipal),
           Some(row.cuotas), Some(row.tasaInteresAplicada), Some(row.fechaVencimiento), row.estado,
           Some(row.createdAt), OptNat(row.createdBy), Some(row.updatedAt), OptNat(row.updatedBy))
  }

  function OptNat(x: Option<nat>): Option<int> {
    if x.Some? then Some(x.value as int) else None
  }

  // ---------------------------------------------------------------------------
  // The running credit of a client
  // ---------------------------------------------------------------------------

  /** `hasActiveCredit(c)`: some credit of client `c`, soft-deleted or not, is ACTIVO or INCUMPLIDO. */
  predicate HasActiveCredit(credits: map<nat, CreditRow>, clienteId: nat) {
    exists id | id in credits :: credits[id].clienteId == clienteId && IsRunning(credits[id].estado)
  }

  /** The cross-record invariant: a client has at most one ACTIVO or INCUMPLIDO credit. */
  ghost predicate OneRunningPerClient(credits: map<nat, CreditRow>) {
    forall a, b | a in credits && b in credits
      && credits[a].clienteId == credits[b].clienteId
      && IsRunning(credits[a].estado) && IsRunning(credits[b].estado) :: a == b
  }

  /**
   * Rewriting one credit keeps the invariant when it keeps its client and it
   * is not made running while another credit of that client already is.
   */
  lemma OneRunningPreservedByUpdate(credits: map<nat, CreditRow>, id: nat, row: CreditRow)
    requires OneRunningPerClient(credits)
    requires id in credits && row.clienteId == credits[id].clienteId
    requires IsRunning(row.estado) ==> IsRunning(credits[id].estado) || !HasActiveCredit(credits, row.clienteId)
    ensures OneRunningPerClient(credits[id := row])
  {
    var m := credits[id := row];
    forall a, b | a in m && b in m && m[a].clienteId == m[b].clienteId
      && IsRunning(m[a].estado) && IsRunning(m[b].estado)
      ensures a == b
    {
    }
  }

  /** Inserting a credit keeps the invariant unless it is running and its client already has one. */
  lemma OneRunningPreservedByInsert(credits: map<nat, CreditRow>, id: nat, row: CreditRow)
    requires OneRunningPerClient(credits)
    requires id !in credits
    requires IsRunning(row.estado) ==> !HasActiveCredit(credits, row.clienteId)
    ensures OneRunningPerClient(credits[id := row])
  {
    var m := credits[id := row];
    forall a, b | a in m && b in m && m[a].clienteId == m[b].clienteId
      && IsRunning(m[a].estado) && IsRunning(m[b].estado)
      ensures a == b
    {
    }
  }

  // ---------------------------------------------------------------------------
  // Selections
  // ---------------------------------------------------------------------------

  /** The `where` clauses of the selections. */
  datatype Query =
    | UpcomingDue(now: int, dias: int)
    | Overdue(now: int)

  predicate Matches(q: Query, row: CreditRow) {
    match q
    case UpcomingDue(now, dias) =>
      row.estado == ACTIVO && now <= row.fechaVencimiento <= now + dias * DAY_MS
    case Overdue(now) =>
      IsRunning(row.estado) && row.fechaVencimiento < now
  }

  predicate Increasing(s: seq<nat>) {
    forall i, j | 0 <= i < j < |s| :: s[i] < s[j]
  }

  /** The ids below `bound` of the credits that satisfy `q`, ascending. */
  function Select(credits: map<nat, CreditRow>, bound: nat, q: Query): (ids: seq<nat>)
    ensures forall id :: id in ids <==> id < bound && id in credits && Matches(q, credits[id])
    ensures Increasing(ids)
  {
    if bound == 0 then []
    else
      var rest := Select(credits, bound - 1, q);
      var k := bound - 1;
      assert forall i | 0 <= i < |rest| :: rest[i] < k by {
        assert forall i | 0 <= i < |rest| :: rest[i] in rest;
      }
      if k in credits && Matches(q, credits[k]) then rest + [k] else rest
  }

  /** `findUpcomingDue(dias)`: ACTIVO credits falling due between now and `dias` days later. */
  function FindUpcomingDue(credits: map<nat, CreditRow>, bound: nat, now: int, dias: int): seq<nat> {
    Select(credits, bound, UpcomingDue(now, dias))
  }

  /** `findOverdue()`: ACTIVO or INCUMPLIDO credits whose due date has passed. */
  function FindOverdue(credits: map<nat, CreditRow>, bound: nat, now: int): seq<nat> {
    Select(credits, bound, Overdue(now))
  }

  /** On a table whose ids lie below `bound`, the selections return exactly the matching credits. */
  lemma SelectionsExact(credits: map<nat, CreditRow>, bound: nat, now: int, dias: int)
    requires forall id | id in credits :: id < bound
    ensures forall id :: id in FindUpcomingDue(credits, bound, now, dias) <==>
              id in credits && credits[id].estado == ACTIVO
              && now <= credits[id].fechaVencimiento <= now + dias * DAY_MS
    ensures forall id :: id in FindOverdue(credits, bound, now) <==>
              id in credits && IsRunning(credits[id].estado) && credits[id].fechaVencimiento < now
  {
  }

  /** For one clock reading, no credit is both upcoming and overdue. */
  lemma UpcomingOverdueDisjoint(credits: map<nat, CreditRow>, bound: nat, now: int, dias: int)
    ensures forall id :: !(id in FindUpcomingDue(credits, bound, now, dias) && id in FindOverdue(credits, bound, now))
  {
  }

  /** The overdue selection agrees with the entity's `isVencido`. */
  lemma OverdueIsVencido(row: CreditRow, now: int)
    ensures Matches(Overdue(now), row) <==> ToEntity(row).IsVencido(now)
  {
  }

  /**
   * The upcoming selection and the entity's `isProximoAVencer` differ only on a
   * credit that falls due at this very millisecond: the query includes it, the
   * whole-day count of the entity (0 days) does not.
   */
  lemma UpcomingIsProximo(row: CreditRow, now: int, dias: int)
    ensures Matches(UpcomingDue(now, dias), row) <==>
              ToEntity(row).IsProximoAVencer(now, dias)
              || (row.estado == ACTIVO && row.fechaVencimiento == now && dias >= 0)
  {
    ProximoWindow(ToEntity(row), now, dias);
    if dias < 0 {
      assert now + dias * DAY_MS < now;
    }
  }

  // ---------------------------------------------------------------------------
  // The total paid on a credit
  // ---------------------------------------------------------------------------

  /** `getTotalPaid(c)`: the sum of `monto` over the payments below `bound` of credit `c`. */
  function TotalPaid(payments: map<nat, PaymentRow>, bound: nat, creditId: nat): real {
    if bound == 0 then 0.0
    else
      var k := bound - 1;
      TotalPaid(payments, k, creditId)
      + (if k in payments && payments[k].creditId == creditId then payments[k].monto else 0.0)
  }

  /** With no payment of the credit the aggregate is null, read as 0. */
  lemma {:induction false} TotalPaidNone(payments: map<nat, PaymentRow>, bound: nat, creditId: nat)
    requires forall k | k in payments && k < bound :: payments[k].creditId != creditId
    ensures TotalPaid(payments, bound, creditId) == 0.0
  {
    if bound > 0 {
      TotalPaidNone(payments, bound - 1, creditId);
    }
  }

  /** A sum of non-negative amounts is non-negative. */
  lemma {:induction false} TotalPaidNonNegative(payments: map<nat, PaymentRow>, bound: nat, creditId: nat)
    requires forall k | k in payments :: payments[k].monto >= 0.0
    ensures TotalPaid(payments, bound, creditId) >= 0.0
  {
    if bound > 0 {
      TotalPaidNonNegative(payments, bound - 1, creditId);
    }
  }

  /** Rows at or above `bound` do not enter the sum. */
  lemma {:induction false} TotalPaidFrame(payments: map<nat, PaymentRow>, other: map<nat, PaymentRow>,
                                          bound: nat, creditId: nat)
    requires forall k | k < bound :: (k in payments <==> k in other) && (k in payments ==> payments[k] == other[k])
    ensures TotalPaid(payments, bound, creditId) == TotalPaid(other, bound, creditId)
  {
    if bound > 0 {
      TotalPaidFrame(payments, other, bound - 1, creditId);
    }
  }

  /** Inserting a payment at the counter adds its amount to its own credit's total and to no other. */
  lemma TotalPaidInsert(payments: map<nat, PaymentRow>, bound: nat, p: PaymentRow, creditId: nat)
    requires forall k | k in payments :: k < bound
    ensures TotalPaid(payments[bound := p], bound + 1, creditId) ==
              TotalPaid(payments, bound, creditId) + (if p.creditId == creditId then p.monto else 0.0)
  {
    TotalPaidFrame(payments, payments[bound := p], bound, creditId);
  }

  // ---------------------------------------------------------------------------
  // Credit numbers
  // ---------------------------------------------------------------------------

  /** `CRE-<year>-` */
  function YearPrefix(year: nat): string {
    "CRE-" + NatToString(year) + "-"
  }

  /** The id of the credit below `bound` whose number is the greatest, in code-point order, among those starting with `prefix`. */
  function LatestWithPrefix(credits: map<nat, CreditRow>, bound: nat, prefix: string): (r: Option<nat>)
    ensures r.Some? ==> r.value < bound && r.value in credits && StartsWith(credits[r.value].numeroCredito, prefix)
    ensures r.None? ==> forall id | id < bound && id in credits :: !StartsWith(credits[id].numeroCredito, prefix)
  {
    if bound == 0 then None
    else
      var rest := LatestWithPrefix(credits, bound - 1, prefix);
      var k := bound - 1;
      if k in credits && StartsWith(credits[k].numeroCredito, prefix) then
        if rest.None? || LexLe(credits[rest.value].numeroCredito, credits[k].numeroCredito) then Some(k) else rest
      else rest
  }

  /** The credit `LatestWithPrefix` picks is the greatest one: `orderBy: desc`, first row. */
  lemma {:induction false} LatestIsGreatest(credits: map<nat, CreditRow>, bound: nat, prefix: string)
    ensures var r := LatestWithPrefix(credits, bound, prefix);
            r.Some? ==> forall id | id < bound && id in credits && StartsWith(credits[id].numeroCredito, prefix) ::
                          LexLe(credits[id].numeroCredito, credits[r.value].numeroCredito)
  {
    if bound > 0 {
      LatestIsGreatest(credits, bound - 1, prefix);
      var rest := LatestWithPrefix(credits, bound - 1, prefix);
      var k := bound - 1;
      var r := LatestWithPrefix(credits, bound, prefix);
      if r.Some? {
        forall id | id < bound && id in credits && StartsWith(credits[id].numeroCredito, prefix)
          ensures LexLe(credits[id].numeroCredito, credits[r.value].numeroCredito)
        {
          var best := credits[r.value].numeroCredito;
          if id == k {
            if r.value != k {
              LexLeTotal(credits[k].numeroCredito, best);
            } else {
              LexLeRefl(best);
            }
          } else if r.value == k && rest.Some? {
            LexLeTrans(credits[id].numeroCredito, credits[rest.value].numeroCredito, best);
          }
        }
      }
    }
  }

  lemma {:induction false} LexLeRefl(s: string)
    ensures LexLe(s, s)
  {
    if s != [] {
      LexLeRefl(s[1..]);
    }
  }

  /** `String(n)` for an integer. */
  function IntToString(n: int): string {
    if n < 0 then "-" + NatToString(-n) else NatToString(n)
  }

  /** `parseInt(number.split('-')[2])`; `None` stands for `NaN`. */
  function SuffixValue(number: string): Option<int> {
    var parts := Split(number, '-');
    if |parts| < 3 then None
    else
      ParseInt(parts[2])
  }

  /** `generateCreditNumber()` for the calendar year `year`. */
  function GenerateCreditNumber(credits: map<nat, CreditRow>, bound: nat, year: nat): string {
    var prefix := YearPrefix(year);
    var last := LatestWithPrefix(credits, bound, prefix);
    var nextNumber: Option<int> :=
      if last.None? then Some(1)
      else
        var v := SuffixValue(credits[last.value].numeroCredito);
        if v.None? then None else Some(v.value + 1);
    prefix + PadStart(if nextNumber.None? then "NaN" else IntToString(nextNumber.value), 6, '0')
  }

  /** A number of the year as the generator writes it: the prefix and six digits. */
  predicate WellFormedNumber(s: string, prefix: string) {
    |s| == |prefix| + 6 && StartsWith(s, prefix) && AllDigits(s[|prefix|..])
  }

  /** With no number of the year yet, the sequence starts at 000001. */
  lemma GenerateFirst(credits: map<nat, CreditRow>, bound: nat, year: nat)
    requires forall id | id < bound && id in credits :: !StartsWith(credits[id].numeroCredito, YearPrefix(year))
    ensures GenerateCreditNumber(credits, bound, year) == YearPrefix(year) + "000001"
  {
    assert NatToString(1) == "1";
  }

  /** The pieces of a well-formed number when split at '-'. */
  lemma SplitWellFormed(year: nat, d: string)
    requires AllDigits(d)
    ensures Split(YearPrefix(year) + d, '-') == ["CRE", NatToString(year), d]
  {
    var y := NatToString(year);
    assert YearPrefix(year) + d == "CRE" + ['-'] + (y + ['-'] + d);
    SplitCons("CRE", '-', y + ['-'] + d);
    assert forall i | 0 <= i < |y| :: y[i] != '-' by {
      assert forall i | 0 <= i < |y| :: IsDigit(y[i]);
    }
    SplitCons(y, '-', d);
    assert IndexOf(d, '-') == |d| by {
      assert forall i | 0 <= i < |d| :: IsDigit(d[i]);
    }
  }

  /**
   * While every number of the year is well formed and below 999999, the
   * generated number is well formed, denotes the greatest suffix plus one,
   * is greater than every number of the year and so collides with none.
   */
  lemma GenerateFreshAndGreater(credits: map<nat, CreditRow>, bound: nat, year: nat)
    requires forall id | id in credits :: id < bound
    requires forall id | id in credits && StartsWith(credits[id].numeroCredito, YearPrefix(year)) ::
               WellFormedNumber(credits[id].numeroCredito, YearPrefix(year))
               && DigitsValue(credits[id].numeroCredito[|YearPrefix(year)|..]) < 999999
    ensures var r := GenerateCreditNumber(credits, bound, year);
            WellFormedNumber(r, YearPrefix(year))
            && (forall id | id in credits :: credits[id].numeroCredito != r)
            && (forall id | id in credits && StartsWith(credits[id].numeroCredito, YearPrefix(year)) ::
                  LexLe(credits[id].numeroCredito, r))
  {
    var prefix := YearPrefix(year);
    var last := LatestWithPrefix(credits, bound, prefix);
    var r := GenerateCreditNumber(credits, bound, year);
    if last.None? {
      GenerateFirst(credits, bound, year);
      assert r == prefix + "000001";
      assert r[|prefix|..] == "000001";
      forall id | id in credits ensures credits[id].numeroCredito != r {
        assert !StartsWith(credits[id].numeroCredito, prefix);
        assert r[..|prefix|] == prefix;
      }
    } else {
      var best := credits[last.value].numeroCredito;
      var d := best[|prefix|..];
      var v := DigitsValue(d);
      assert best == prefix + d by {
        assert best[..|prefix|] == prefix;
      }
      SplitWellFormed(year, d);
      ParseDigits(d);
      assert SuffixValue(best) == Some(v);
      Pad6Value(v + 1);
      var nd := Pad6(v + 1);
      assert IntToString(v + 1) == NatToString(v + 1);
      assert r == prefix + nd;
      assert r[..|prefix|] == prefix && r[|prefix|..] == nd;
      LatestIsGreatest(credits, bound, prefix);
      forall id | id in credits ensures credits[id].numeroCredito != r {
        var s := credits[id].numeroCredito;
        if StartsWith(s, prefix) {
          GreaterSuffix(s, prefix, best, v, nd);
        }
      }
      forall id | id in credits && StartsWith(credits[id].numeroCredito, prefix)
        ensures LexLe(credits[id].numeroCredito, r)
      {
        GreaterSuffix(credits[id].numeroCredito, prefix, best, v, nd);
      }
    }
  }

  /** A number no greater than the latest one is strictly below the generated one. */
  lemma GreaterSuffix(s: string, prefix: string, best: string, v: nat, nd: string)
    requires WellFormedNumber(s, prefix) && WellFormedNumber(best, prefix)
    requires LexLe(s, best) && v == DigitsValue(best[|prefix|..])
    requires |nd| == 6 && AllDigits(nd) && DigitsValue(nd) == v + 1
    ensures LexLe(s, prefix + nd) && s != prefix + nd
  {
    var ds, db := s[|prefix|..], best[|prefix|..];
    assert s == prefix + ds by {
      assert s[..|prefix|] == prefix;
    }
    assert best == prefix + db by {
      assert best[..|prefix|] == prefix;
    }
    LexLePrefix(prefix, ds, db);
    LexLeDigits(ds, db);
    LexLeDigits(ds, nd);
    LexLePrefix(prefix, ds, nd);
  }

  /**
   * Past six digits the string order no longer follows the numbers: once
   * `CRE-<year>-1000000` exists beside `CRE-<year>-999999`, the latter is still
   * the greatest and the generator hands out `CRE-<year>-1000000` again.
   */
  lemma GenerateRepeatsPastSixDigits(c1: CreditRow, c2: CreditRow)
    requires c1.id == 1 && c1.numeroCredito == "CRE-2025-999999"
    requires c2.id == 2 && c2.numeroCredito == "CRE-2025-1000000"
    ensures GenerateCreditNumber(map[1 := c1, 2 := c2], 3, 2025) == c2.numeroCredito
  {
    var credits := map[1 := c1, 2 := c2];
    LatestOfTwo(c1, c2);
    NinesSuffix(c1.numeroCredito);
    GenerateFromLatest(credits, 3, 2025, 1, 999999);
    MillionString();
    Prefix2025();
    MillionNumber();
  }

  lemma MillionNumber()
    ensures YearPrefix(2025) == "CRE-2025-" ==> YearPrefix(2025) + PadStart("1000000", 6, '0') == "CRE-2025-1000000"
  {
    assert PadStart("1000000", 6, '0') == "1000000";
    assert "CRE-2025-" + "1000000" == "CRE-2025-1000000";
  }

  /** What the generator returns once the latest number of the year and its suffix value are known. */
  lemma GenerateFromLatest(credits: map<nat, CreditRow>, bound: nat, year: nat, id: nat, v: int)
    requires LatestWithPrefix(credits, bound, YearPrefix(year)) == Some(id)
    requires SuffixValue(credits[id].numeroCredito) == Some(v)
    ensures GenerateCreditNumber(credits, bound, year) == YearPrefix(year) + PadStart(IntToString(v + 1), 6, '0')
  {
  }

  lemma NinesSuffix(s: string)
    requires s == "CRE-2025-999999"
    ensures SuffixValue(s) == Some(999999)
  {
    Prefix2025();
    assert s == YearPrefix(2025) + "999999";
    SplitWellFormed(2025, "999999");
    ParseDigits("999999");
    NinesValue();
  }

  lemma Prefix2025()
    ensures YearPrefix(2025) == "CRE-2025-"
  {
    assert NatToString(2) == "2";
    assert NatToString(20) == "20";
    assert NatToString(202) == "202";
    assert NatToString(2025) == "2025";
  }

  lemma LatestOfTwo(c1: CreditRow, c2: CreditRow)
    requires c1.numeroCredito == "CRE-2025-999999" && c2.numeroCredito == "CRE-2025-1000000"
    ensures LatestWithPrefix(map[1 := c1, 2 := c2], 3, YearPrefix(2025)) == Some(1)
  {
    var credits := map[1 := c1, 2 := c2];
    Prefix2025();
    var prefix := YearPrefix(2025);
    assert c1.numeroCredito == prefix + "999999" && c2.numeroCredito == prefix + "1000000";
    assert StartsWith(c1.numeroCredito, prefix) && StartsWith(c2.numeroCredito, prefix);
    assert !LexLe("999999", "1000000");
    LexLePrefix(prefix, "999999", "1000000");
    assert LatestWithPrefix(credits, 1, prefix) == None;
    assert LatestWithPrefix(credits, 2, prefix) == Some(1);
  }

  lemma NinesValue()
    ensures DigitsValue("999999") == 999999
  {
    assert "999999"[1..] == "99999" && "99999"[1..] == "9999" && "9999"[1..] == "999";
    assert "999"[1..] == "99" && "99"[1..] == "9" && "9"[1..] == "";
    assert Pow10(5) == 100000;
    assert DigitsValue("9") == 9;
    assert DigitsValue("99") == 99;
    assert DigitsValue("999") == 999;
    assert DigitsValue("9999") == 9999;
    assert DigitsValue("99999") == 99999;
  }

  lemma MillionString()
    ensures IntToString(1000000) == "1000000"
  {
    assert NatToString(1) == "1";
    assert NatToString(10) == "10";
    assert NatToString(100) == "100";
    assert NatToString(1000) == "1000";
    assert NatToString(10000) == "10000";
    assert NatToString(100000) == "100000";
    assert NatToString(1000000) == "1000000";
  }

  // ---------------------------------------------------------------------------
  // update, delete
  // ---------------------------------------------------------------------------

  /** The data of `update`: `None` leaves a field as it is; nullable fields take `Some(None)` for null. */
  datatype CreditPatch = CreditPatch(
    montoPrincipal: Option<real>,
    cuotas: Option<int>,
    tasaInteresAplicada: Option<real>,
    fechaVencimiento: Option<int>,
    estado: Option<Estado>,
    updatedBy: Option<Option<nat>>,
    updatedAt: Option<int>,
    deletedAt: Option<Option<int>>)

  function Pick<T>(given: Option<T>, current: T): T {
    if given.Some? then given.value else current
  }

  /** The row after the patch: the given fields replaced, every other field kept. */
  function ApplyPatch(row: CreditRow, p: CreditPatch): (r: CreditRow)
    ensures r.id == row.id && r.numeroCredito == row.numeroCredito && r.clienteId == row.clienteId
    ensures r.createdAt == row.createdAt && r.createdBy == row.createdBy
    ensures r.montoPrincipal == Pick(p.montoPrincipal, row.montoPrincipal)
    ensures r.cuotas == Pick(p.cuotas, row.cuotas)
    ensures r.tasaInteresAplicada == Pick(p.tasaInteresAplicada, row.tasaInteresAplicada)
    ensures r.fechaVencimiento == Pick(p.fechaVencimiento, row.fechaVencimiento)
    ensures r.estado == Pick(p.estado, row.estado)
    ensures r.updatedBy == Pick(p.updatedBy, row.updatedBy)
    ensures r.updatedAt == Pick(p.updatedAt, row.updatedAt)
    ensures r.deletedAt == Pick(p.deletedAt, row.deletedAt)
  {
    row.(montoPrincipal := Pick(p.montoPrincipal, row.montoPrincipal),
         cuotas := Pick(p.cuotas, row.cuotas),
         tasaInteresAplicada := Pick(p.tasaInteresAplicada, row.tasaInteresAplicada),
         fechaVencimiento := Pick(p.fechaVencimiento, row.fechaVencimiento),
         estado := Pick(p.estado, row.estado),
         updatedBy := Pick(p.updatedBy, row.updatedBy),
         updatedAt := Pick(p.updatedAt, row.updatedAt),
         deletedAt := Pick(p.deletedAt, row.deletedAt))
  }

  /**
   * The patch `{ estado, updatedBy: actor, updatedAt: now }`; an absent actor is
   * `undefined`, which leaves `updatedBy` as it is.
   */
  function StatePatch(estado: Estado, actor: Option<nat>, now: int): CreditPatch {
    CreditPatch(None, None, None, None, Some(estado), if actor.Some? then Some(Some(actor.value)) else None,
                Some(now), None)
  }

  /**
   * The credits table after the state patch of one credit: that credit has
   * the new state and audit stamp, and no other credit and no other field changes.
   */
  function WithState(credits: map<nat, CreditRow>, id: nat, estado: Estado, actor: Option<nat>, now: int)
    : (m: map<nat, CreditRow>)
    requires id in credits
    ensures m.Keys == credits.Keys
    ensures m[id] == credits[id].(estado := estado, updatedAt := now,
                                  updatedBy := if actor.Some? then Some(actor.value) else credits[id].updatedBy)
    ensures forall k | k in credits && k != id :: m[k] == credits[k]
  {
    credits[id := ApplyPatch(credits[id], StatePatch(estado, actor, now))]
  }

  /** A state patch that keeps a client within one running credit keeps the invariant. */
  lemma WithStateKeepsOneRunning(credits: map<nat, CreditRow>, id: nat, estado: Estado, actor: Option<nat>, now: int)
    requires OneRunningPerClient(credits) && id in credits
    requires IsRunning(estado) ==> IsRunning(credits[id].estado) || !HasActiveCredit(credits, credits[id].clienteId)
    ensures OneRunningPerClient(WithState(credits, id, estado, actor, now))
  {
    OneRunningPreservedByUpdate(credits, id, ApplyPatch(credits[id], StatePatch(estado, actor, now)));
  }

  /** An empty patch changes nothing, and patching twice with the same data is patching once. */
  lemma ApplyPatchLaws(row: CreditRow, p: CreditPatch)
    ensures ApplyPatch(row, CreditPatch(None, None, None, None, None, None, None, None)) == row
    ensures ApplyPatch(ApplyPatch(row, p), p) == ApplyPatch(row, p)
  {
  }

  /** `update(id, data)`: the one credit is rewritten by the patch; an unknown id is P2025. */
  method Update(db: Db, id: nat, p: CreditPatch) returns (r: Result<CreditRow, DbError>)
    requires db.Valid()
    modifies db`credits
    ensures db.Valid()
    ensures r.Err? <==> id !in old(db.credits)
    ensures r.Err? ==> r.error == RecordNotFound && db.credits == old(db.credits)
    ensures r.Ok? ==> r.value == ApplyPatch(old(db.credits)[id], p)
                      && db.credits == old(db.credits)[id := r.value]
  {
    if id !in db.credits {
      return Err(RecordNotFound);
    }
    var row := ApplyPatch(db.credits[id], p);
    db.credits := db.credits[id := row];
    r := Ok(row);
  }

  /** The `update` of the state and audit fields of a credit that exists. */
  method UpdateState(db: Db, creditId: nat, estado: Estado, actor: Option<nat>, now: int) returns (credit: CreditRow)
    requires db.Valid() && creditId in db.credits
    modifies db`credits
    ensures db.Valid()
    ensures db.credits == WithState(old(db.credits), creditId, estado, actor, now)
    ensures credit == db.credits[creditId]
  {
    var updated := Update(db, creditId, StatePatch(estado, actor, now));
    credit := updated.value;
  }

  /** `delete(id)`: a soft delete that stamps `deletedAt` and `updatedAt` and keeps the row. */
  method SoftDelete(db: Db, id: nat, now: int) returns (r: Result<CreditRow, DbError>)
    requires db.Valid()
    modifies db`credits
    ensures db.Valid()
    ensures r.Err? <==> id !in old(db.credits)
    ensures r.Err? ==> db.credits == old(db.credits)
    ensures r.Ok? ==> id in db.credits && db.credits.Keys == old(db.credits).Keys
                      && db.credits == old(db.credits)[id := r.value]
                      && r.value == old(db.credits)[id].(deletedAt := Some(now), updatedAt := now)
  {
    r := Update(db, id, CreditPatch(None, None, None, None, None, None, Some(now), Some(Some(now))));
  }

  /** Some credit already carries the number. */
  predicate NumberTaken(credits: map<nat, CreditRow>, numero: string) {
    exists k | k in credits :: credits[k].numeroCredito == numero
  }

  /**
   * `create(data)`: a new row at the next id; the number must be unused and
   * the client must exist.  The unique index is checked while the row is
   * inserted, the foreign key after it, so a row breaking both meets the
   * unique index.
   */
  method Create(db: Db, row: CreditRow) returns (r: Result<CreditRow, DbError>)
    requires db.Valid()
    modifies db`credits, db`nextCreditId
    ensures db.Valid()
    ensures r.Err? ==> db.credits == old(db.credits) && db.nextCreditId == old(db.nextCreditId)
    ensures r == Err(UniqueViolation(["numeroCredito"])) <==> NumberTaken(old(db.credits), row.numeroCredito)
    ensures r == Err(ForeignKeyViolation) <==>
              !NumberTaken(old(db.credits), row.numeroCredito) && row.clienteId !in old(db.clients)
    ensures r.Ok? ==> r.value == row.(id := old(db.nextCreditId))
                      && db.credits == old(db.credits)[old(db.nextCreditId) := r.value]
                      && db.nextCreditId == old(db.nextCreditId) + 1
    ensures UniqueNumbers(old(db.credits)) ==> UniqueNumbers(db.credits)
  {
    if NumberTaken(db.credits, row.numeroCredito) {
      return Err(UniqueViolation(["numeroCredito"]));
    }
    if row.clienteId !in db.clients {
      return Err(ForeignKeyViolation);
    }
    var stored := row.(id := db.nextCreditId);
    if UniqueNumbers(db.credits) {
      CreateKeepsNumbersUnique(db.credits, db.nextCreditId, stored);
    }
    db.credits := db.credits[db.nextCreditId := stored];
    db.nextCreditId := db.nextCreditId + 1;
    r := Ok(stored);
  }

  /** Inserting a credit whose number is not taken keeps the numbers unique. */
  lemma CreateKeepsNumbersUnique(credits: map<nat, CreditRow>, id: nat, row: CreditRow)
    requires UniqueNumbers(credits) && id !in credits && !NumberTaken(credits, row.numeroCredito)
    ensures UniqueNumbers(credits[id := row])
  {
    var m := credits[id := row];
    forall a, b | a in m && b in m && m[a].numeroCredito == m[b].numeroCredito
      ensures a == b
    {
    }
  }

  // ---------------------------------------------------------------------------
  // Paging of findAll
  // ---------------------------------------------------------------------------

  /** The `cursor`/`skip`/`take` arguments `findAll` passes to the query. */
  datatype FindArgs = FindArgs(cursor: Option<int>, skip: int, take: int)

  /**
   * The paging arithmetic of `findAll` on the parsed `page`, `limit` and
   * `cursor` (`None` for absent or `NaN`): a cursor skips just its own row,
   * otherwise whole pages are skipped.
   */
  function FindAllArgs(page: Option<int>, limit: Option<int>, cursor: Option<int>): (a: FindArgs)
    ensures a.take == (if TruthyInt(limit) then limit.value else 10) && a.take != 0
    ensures TruthyInt(cursor) ==> a.cursor == cursor && a.skip == 1
    ensures !TruthyInt(cursor) ==>
              a.cursor.None? && a.skip == ((if TruthyInt(page) then page.value else 1) - 1) * a.take
    ensures !TruthyInt(cursor) && !TruthyInt(page) ==> a.skip == 0
  {
    var p := if TruthyInt(page) then page.value else 1;
    var l := if TruthyInt(limit) then limit.value else 10;
    var cursorId := if TruthyInt(cursor) then cursor else None;
    var skip := if cursorId.Some? then 0 else (p - 1) * l;
    if cursorId.Some? then FindArgs(cursorId, 1, l) else FindArgs(None, skip, l)
  }

  /** `nextCursor`: the id of the last credit of a full page, else null. */
  function NextCursor(page: seq<CreditRow>, take: int): (c: Option<nat>)
    requires take != 0
    ensures c.Some? <==> |page| == take
    ensures c.Some? ==> c.value == page[|page| - 1].id
  {
    if |page| == take then Some(page[|page| - 1].id) else None
  }

  /** The rows a query with `skip` and `take` returns from the ordered candidates. */
  function Window(rows: seq<CreditRow>, skip: nat, take: nat): (w: seq<CreditRow>)
    ensures |w| == if skip >= |rows| then 0 else if |rows| - skip < take then |rows| - skip else take
    ensures forall i | 0 <= i < |w| :: w[i] == rows[skip + i]
  {
    if skip >= |rows| then [] else if |rows| - skip < take then rows[skip..] else rows[skip..skip + take]
  }

  /** A cursor is handed out exactly when the candidates fill the page. */
  lemma NextCursorWhenFull(rows: seq<CreditRow>, skip: nat, take: nat)
    requires take > 0
    ensures NextCursor(Window(rows, skip, take), take).Some? <==> skip + take <= |rows|
  {
  }
}
