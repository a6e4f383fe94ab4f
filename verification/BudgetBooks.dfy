/**
 * The meaning of the Agent budget ledger, told without counters.
 *
 * `Books` keeps only what was agreed (ledger terms, monthly allowances) and what was claimed
 * (reservation rows). Every amount is recomputed by adding up reservation rows, so nothing here can
 * drift. `BudgetLedger` holds the counters the service really stores and is proved to agree with this.
 */
module BudgetBooks {
  import opened Basics

  type TenantId = nat
  type Month = int

  const MAX_INT32 := 2_147_483_647

  // ---------------------------------------------------------------------------------------------
  // Amounts and rows

  datatype Units = Units(steps: int, tokens: int, calls: int, cost: int) {
    function Plus(o: Units): Units {
      Units(steps + o.steps, tokens + o.tokens, calls + o.calls, cost + o.cost)
    }

    function Minus(o: Units): Units {
      Units(steps - o.steps, tokens - o.tokens, calls - o.calls, cost - o.cost)
    }

    predicate Within(o: Units) {
      steps <= o.steps && tokens <= o.tokens && calls <= o.calls && cost <= o.cost
    }
  }

  const NOTHING := Units(0, 0, 0, 0)

  predicate Int32(n: int) { 0 <= n <= MAX_INT32 }

  predicate AllInt32(u: Units) { Int32(u.steps) && Int32(u.tokens) && Int32(u.calls) && Int32(u.cost) }

  datatype Status = Reserved | Unknown | Committed | Released

  datatype Reservation = Reservation(
    tenant: TenantId, ledger: nat, key: string, units: Units, window: Option<Month>,
    actualCost: Option<int>, status: Status, resolvedBy: Option<string>, note: Option<string>)

  datatype Terms = Terms(
    tenant: TenantId, caseId: string, workflowRun: string, limit: Units, currency: string,
    startedAt: Instant, deadlineAt: Instant, closed: bool)

  datatype Allowance = Allowance(calls: int, cost: int, currency: string)

  /** A tenant without an entry in `allowances` has no (or a disabled) monthly budget. `months` holds
      the currency of every month row opened so far. */
  datatype Books = Books(
    ledgers: seq<Terms>, reservations: seq<Reservation>,
    allowances: map<TenantId, Allowance>, months: map<(TenantId, Month), string>)

  // ---------------------------------------------------------------------------------------------
  // Adding up reservation rows

  datatype Scope = LedgerScope(ledger: nat) | MonthScope(tenant: TenantId, month: Month)

  datatype Tally = Tally(held: Units, spent: Units, writes: int) {
    function Plus(o: Tally): Tally { Tally(held.Plus(o.held), spent.Plus(o.spent), writes + o.writes) }

    function Minus(o: Tally): Tally { Tally(held.Minus(o.held), spent.Minus(o.spent), writes - o.writes) }

    function Total(): Units { held.Plus(spent) }
  }

  const ZERO := Tally(NOTHING, NOTHING, 0)

  predicate Open(r: Reservation) { r.status.Reserved? || r.status.Unknown? }

  predicate InScope(r: Reservation, s: Scope) {
    match s
    case LedgerScope(l) => r.ledger == l
    case MonthScope(t, m) => r.tenant == t && r.window == Some(m)
  }

  /** What one row holds, what it has spent, and how many ledger writes it caused. */
  function Entry(r: Reservation, s: Scope): Tally {
    if !InScope(r, s) then ZERO
    else if Open(r) then Tally(r.units, NOTHING, 1)
    else if r.status.Committed? then
      Tally(NOTHING, r.units.(cost := if r.actualCost.Some? then r.actualCost.value else 0), 2)
    else Tally(NOTHING, NOTHING, 2)
  }

  function Sum(rs: seq<Reservation>, s: Scope): Tally {
    if rs == [] then ZERO else Sum(rs[..|rs| - 1], s).Plus(Entry(rs[|rs| - 1], s))
  }

  lemma {:induction false} SumAppend(rs: seq<Reservation>, r: Reservation, s: Scope)
    ensures Sum(rs + [r], s) == Sum(rs, s).Plus(Entry(r, s))
  {
    assert (rs + [r])[..|rs|] == rs;
  }

  lemma {:induction false} Swap(a: Tally, out: Tally, in_: Tally, e: Tally)
    ensures a.Plus(e).Minus(out).Plus(in_) == a.Minus(out).Plus(in_).Plus(e)
    ensures a.Plus(e).Minus(e).Plus(in_) == a.Plus(in_)
    ensures a.Minus(ZERO).Plus(ZERO) == a.Plus(ZERO) == a
  {
  }

  lemma {:induction false} SumUpdate(rs: seq<Reservation>, i: nat, r: Reservation, s: Scope)
    requires i < |rs|
    ensures Sum(rs[i := r], s) == Sum(rs, s).Minus(Entry(rs[i], s)).Plus(Entry(r, s))
  {
    var n := |rs| - 1;
    var init, last := rs[..n], rs[n];
    Swap(Sum(init, s), Entry(rs[i], s), Entry(r, s), Entry(last, s));
    assert rs == init + [last];
    SumAppend(init, last, s);
    if i == n {
      assert rs[i := r] == init + [r];
      SumAppend(init, r, s);
    } else {
      assert rs[i := r] == init[i := r] + [last];
      SumAppend(init[i := r], last, s);
      SumUpdate(init, i, r, s);
    }
  }

  predicate RowAmountsOk(r: Reservation) {
    && AllInt32(r.units)
    && (r.actualCost.Some? <==> r.status.Committed?)
    && (r.actualCost.Some? ==> 0 <= r.actualCost.value)
  }

  ghost predicate AmountsOk(rs: seq<Reservation>) {
    forall i :: 0 <= i < |rs| ==> RowAmountsOk(rs[i])
  }

  /** Every sum is non-negative and at least as large as the entry of any single row. */
  lemma {:induction false} SumCovers(rs: seq<Reservation>, i: nat, s: Scope)
    requires AmountsOk(rs)
    ensures NOTHING.Within(Sum(rs, s).held) && NOTHING.Within(Sum(rs, s).spent)
    ensures i < |rs| ==> Entry(rs[i], s).held.Within(Sum(rs, s).held)
  {
    if rs != [] {
      SumCovers(rs[..|rs| - 1], i, s);
    }
  }

  /** A scope no row belongs to adds up to nothing. */
  lemma {:induction false} SumOutside(rs: seq<Reservation>, s: Scope)
    requires forall r :: r in rs ==> !InScope(r, s)
    ensures Sum(rs, s) == ZERO
  {
    if rs != [] {
      var init, last := rs[..|rs| - 1], rs[|rs| - 1];
      assert !InScope(last, s);
      assert rs == init + [last];
      SumAppend(init, last, s);
      SumOutside(init, s);
    }
  }

  // ---------------------------------------------------------------------------------------------
  // What every reachable state satisfies

  ghost predicate TermsOk(b: Books) {
    && (forall l :: 0 <= l < |b.ledgers| ==> AllInt32(b.ledgers[l].limit))
    && (forall l, k :: 0 <= l < k < |b.ledgers| ==>
          b.ledgers[l].tenant != b.ledgers[k].tenant || b.ledgers[l].workflowRun != b.ledgers[k].workflowRun)
  }

  predicate RowOk(b: Books, r: Reservation) {
    && RowAmountsOk(r)
    && r.ledger < |b.ledgers|
    && r.tenant == b.ledgers[r.ledger].tenant
    && (r.window.None? <==> r.units.calls == 0 && r.units.cost == 0)
    && (r.window.Some? ==> (r.tenant, r.window.value) in b.months)
  }

  ghost predicate RowsOk(b: Books) {
    forall i :: 0 <= i < |b.reservations| ==> RowOk(b, b.reservations[i])
  }

  /** At most one reservation per (ledger, idempotency key). */
  ghost predicate KeysUnique(rs: seq<Reservation>) {
    forall i, j :: 0 <= i < j < |rs| ==> rs[i].ledger != rs[j].ledger || rs[i].key != rs[j].key
  }

  ghost predicate WithinLimits(b: Books) {
    forall l :: 0 <= l < |b.ledgers| ==> Sum(b.reservations, LedgerScope(l)).Total().Within(b.ledgers[l].limit)
  }

  ghost predicate Inv(b: Books) {
    TermsOk(b) && RowsOk(b) && KeysUnique(b.reservations) && WithinLimits(b)
  }

  // ---------------------------------------------------------------------------------------------
  // Requests and answers

  datatype Code = BudgetExhausted | DeadlineExceeded | LedgerVersionConflict | LedgerClosed | ReservationConflict

  datatype Snapshot = Snapshot(
    ledger: nat, version: int, remaining: Units, remainingMs: int, currency: string,
    startedAt: Instant, deadlineAt: Instant, closed: bool)

  datatype Receipt = Receipt(
    reservation: nat, key: string, status: Status, units: Units, actualCost: Option<int>,
    replayed: bool, ledger: Snapshot)

  datatype Outcome =
    | Opened(snapshot: Snapshot)
    | Done(receipt: Receipt)
    | Refused(code: Code)
    | NotFound
    | Configured

  /** The database clock (`now()`), the process clock (`Date.now()`) and the UTC month of the database clock. */
  datatype Clock = Clock(db: Instant, app: Instant, month: Month)

  datatype LedgerInput = LedgerInput(
    tenant: TenantId, caseId: string, workflowRun: string, limit: Units, currency: string,
    startedAt: Instant, deadlineAt: Instant)

  datatype ReserveRequest = ReserveRequest(
    tenant: TenantId, ledger: nat, key: string, expectedVersion: int, units: Units)

  datatype Resolution = Resolution(requireUnknown: bool, actor: Option<string>, note: Option<string>)

  /** `stale` says that the reserve call's lookup ran before a concurrent caller inserted the same key. */
  datatype Op =
    | CreateOrLoad(input: LedgerInput, clock: Clock)
    | Reserve(request: ReserveRequest, stale: bool, clock: Clock)
    | Commit(tenant: TenantId, id: nat, actual: Option<int>, resolution: Resolution, clock: Clock)
    | Release(tenant: TenantId, id: nat, resolution: Resolution, clock: Clock)
    | MarkUnknown(tenant: TenantId, id: nat, clock: Clock)
    | SetAllowance(tenant: TenantId, allowance: Option<Allowance>)

  // ---------------------------------------------------------------------------------------------
  // Validation

  predicate ValidUnits(u: Units) { AllInt32(u) && u != NOTHING }

  predicate BoundedKey(key: string) { 0 < |key| <= 200 }

  predicate CurrencyCode(c: string) { |c| == 3 && forall i :: 0 <= i < 3 ==> 'A' <= c[i] <= 'Z' }

  predicate ValidManual(r: Resolution) {
    && r.actor.Some? && !Blank(r.actor.value) && |r.actor.value| <= 200
    && r.note.Some? && !Blank(r.note.value) && 10 <= |r.note.value| <= 2000
  }

  // ---------------------------------------------------------------------------------------------
  // Views

  function Version(b: Books, l: nat): int { 1 + Sum(b.reservations, LedgerScope(l)).writes }

  function Remaining(b: Books, l: nat): Units
    requires l < |b.ledgers|
  {
    b.ledgers[l].limit.Minus(Sum(b.reservations, LedgerScope(l)).Total())
  }

  function SnapshotOf(b: Books, l: nat, clock: Clock): Snapshot
    requires l < |b.ledgers|
  {
    var t := b.ledgers[l];
    Snapshot(l, Version(b, l), Remaining(b, l), Max(0, t.deadlineAt - clock.app), t.currency, t.startedAt,
             t.deadlineAt, t.closed)
  }

  function ReceiptOf(b: Books, id: nat, replayed: bool, clock: Clock): Receipt
    requires id < |b.reservations| && b.reservations[id].ledger < |b.ledgers|
  {
    var r := b.reservations[id];
    Receipt(id, r.key, r.status, r.units, r.actualCost, replayed, SnapshotOf(b, r.ledger, clock))
  }

  // ---------------------------------------------------------------------------------------------
  // Opening a ledger

  function FindLedger(ls: seq<Terms>, tenant: TenantId, run: string): (r: Option<nat>)
    ensures r.Some? ==> r.value < |ls| && ls[r.value].tenant == tenant && ls[r.value].workflowRun == run
    ensures r.None? ==> forall l :: 0 <= l < |ls| ==> ls[l].tenant != tenant || ls[l].workflowRun != run
  {
    if ls == [] then None
    else
      var n := |ls| - 1;
      if ls[n].tenant == tenant && ls[n].workflowRun == run then Some(n) else FindLedger(ls[..n], tenant, run)
  }

  predicate SameConfiguration(t: Terms, i: LedgerInput) {
    t.caseId == i.caseId && t.limit == i.limit && t.currency == i.currency
  }

  function NewTerms(i: LedgerInput): Terms {
    Terms(i.tenant, i.caseId, i.workflowRun, i.limit, i.currency, i.startedAt, i.deadlineAt, false)
  }

  function CreateOrLoadStep(b: Books, i: LedgerInput, clock: Clock): (Books, Outcome) {
    if !AllInt32(i.limit) || !CurrencyCode(i.currency) then (b, Refused(ReservationConflict))
    else if i.deadlineAt <= i.startedAt then (b, Refused(DeadlineExceeded))
    else
      match FindLedger(b.ledgers, i.tenant, i.workflowRun)
      case Some(l) =>
        if SameConfiguration(b.ledgers[l], i) then (b, Opened(SnapshotOf(b, l, clock)))
        else (b, Refused(ReservationConflict))
      case None =>
        var b' := b.(ledgers := b.ledgers + [NewTerms(i)]);
        (b', Opened(SnapshotOf(b', |b.ledgers|, clock)))
  }

  // ---------------------------------------------------------------------------------------------
  // Reserving

  function FindKey(rs: seq<Reservation>, tenant: TenantId, ledger: nat, key: string): (r: Option<nat>)
    ensures r.Some? ==>
      r.value < |rs| && rs[r.value].tenant == tenant && rs[r.value].ledger == ledger && rs[r.value].key == key
    ensures r.None? ==> forall i :: 0 <= i < |rs| ==>
        rs[i].tenant != tenant || rs[i].ledger != ledger || rs[i].key != key
  {
    if rs == [] then None
    else
      var n := |rs| - 1;
      if rs[n].tenant == tenant && rs[n].ledger == ledger && rs[n].key == key then Some(n)
      else FindKey(rs[..n], tenant, ledger, key)
  }

  predicate LedgerKnown(b: Books, tenant: TenantId, l: nat) { l < |b.ledgers| && b.ledgers[l].tenant == tenant }

  /** There is room in the ledger for the requested units. */
  predicate Fits(b: Books, q: ReserveRequest)
    requires q.ledger < |b.ledgers|
  {
    q.units.Within(Remaining(b, q.ledger))
  }

  predicate LedgerAdmits(b: Books, q: ReserveRequest, clock: Clock)
    requires q.ledger < |b.ledgers|
  {
    var t := b.ledgers[q.ledger];
    Version(b, q.ledger) == q.expectedVersion && !t.closed && t.deadlineAt > clock.db && Fits(b, q)
  }

  function FailureCode(b: Books, q: ReserveRequest, clock: Clock): Code
    requires q.ledger < |b.ledgers|
  {
    var t := b.ledgers[q.ledger];
    if t.closed then LedgerClosed
    else if t.deadlineAt <= clock.app then DeadlineExceeded
    else if Version(b, q.ledger) != q.expectedVersion then LedgerVersionConflict
    else BudgetExhausted
  }

  predicate NeedsMonth(u: Units) { u.calls != 0 || u.cost != 0 }

  /** The tenant's current month can carry the claim, in the ledger's own currency. */
  predicate MonthAdmits(b: Books, tenant: TenantId, currency: string, month: Month, u: Units) {
    && tenant in b.allowances
    && b.allowances[tenant].currency == currency
    && ((tenant, month) in b.months ==> b.months[(tenant, month)] == currency)
    && var total := Sum(b.reservations, MonthScope(tenant, month)).Total();
    && total.calls + u.calls <= b.allowances[tenant].calls
    && total.cost + u.cost <= b.allowances[tenant].cost
  }

  function NewReservation(q: ReserveRequest, clock: Clock): Reservation {
    Reservation(q.tenant, q.ledger, q.key, q.units, if NeedsMonth(q.units) then Some(clock.month) else None,
                None, Reserved, None, None)
  }

  function Granted(b: Books, q: ReserveRequest, clock: Clock): Books
    requires q.ledger < |b.ledgers|
  {
    b.(reservations := b.reservations + [NewReservation(q, clock)],
       months := if NeedsMonth(q.units) then b.months[(q.tenant, clock.month) := b.ledgers[q.ledger].currency]
           else b.months)
  }

  function Replayed(b: Books, id: nat, u: Units, clock: Clock): Outcome
    requires id < |b.reservations| && b.reservations[id].ledger < |b.ledgers|
  {
    if b.reservations[id].units == u then Done(ReceiptOf(b, id, true, clock)) else Refused(ReservationConflict)
  }

  function ReserveStep(b: Books, q: ReserveRequest, stale: bool, clock: Clock): (Books, Outcome) {
    if !ValidUnits(q.units) || !BoundedKey(q.key) then (b, Refused(ReservationConflict))
    else
      var found := FindKey(b.reservations, q.tenant, q.ledger, q.key);
      if !LedgerKnown(b, q.tenant, q.ledger) then (b, NotFound)
      else if found.Some? && !stale then (b, Replayed(b, found.value, q.units, clock))
      else if !LedgerAdmits(b, q, clock) then (b, Refused(FailureCode(b, q, clock)))
      else if NeedsMonth(q.units)
           && !MonthAdmits(b, q.tenant, b.ledgers[q.ledger].currency, clock.month, q.units)
      then (b, Refused(BudgetExhausted))
      else if found.Some? then (b, Replayed(b, found.value, q.units, clock))
      else
        var b' := Granted(b, q, clock);
        (b', Done(ReceiptOf(b', |b.reservations|, false, clock)))
  }

  // ---------------------------------------------------------------------------------------------
  // Settling

  predicate ReservationKnown(b: Books, tenant: TenantId, id: nat) {
    id < |b.reservations| && b.reservations[id].tenant == tenant && LedgerKnown(b, tenant, b.reservations[id].ledger)
  }

  function ActualCost(r: Reservation, actual: Option<int>): int {
    if actual.Some? then actual.value else r.units.cost
  }

  /** A cost above the reserved one has to fit the ledger and, when the row has a month, the allowance in force. */
  predicate CostFits(b: Books, r: Reservation, cost: int)
    requires r.ledger < |b.ledgers|
  {
    && cost - r.units.cost <= Remaining(b, r.ledger).cost
    && (r.window.Some? && cost > r.units.cost ==>
          && r.tenant in b.allowances
          && (r.tenant, r.window.value) in b.months
          && b.allowances[r.tenant].currency == b.months[(r.tenant, r.window.value)]
          && Sum(b.reservations, MonthScope(r.tenant, r.window.value)).Total().cost - r.units.cost + cost
               <= b.allowances[r.tenant].cost)
  }

  function Settled(b: Books, id: nat, status: Status, cost: Option<int>, z: Resolution): Books
    requires id < |b.reservations|
  {
    b.(reservations := b.reservations[id := b.reservations[id].(
      status := status, actualCost := cost, resolvedBy := z.actor, note := z.note)])
  }

  function CommitStep(
    b: Books, tenant: TenantId, id: nat, actual: Option<int>, z: Resolution, clock: Clock): (Books, Outcome) {
    if (actual.Some? && !Int32(actual.value))
        || (z.requireUnknown && !ValidManual(z)) then (b, Refused(ReservationConflict))
    else if !ReservationKnown(b, tenant, id) then (b, Refused(ReservationConflict))
    else
      var r := b.reservations[id];
      if r.status.Committed? && !z.requireUnknown then (b, Done(ReceiptOf(b, id, false, clock)))
      else if (z.requireUnknown && !r.status.Unknown?) || r.status.Released? then (b, Refused(ReservationConflict))
      else
        var cost := ActualCost(r, actual);
        if !CostFits(b, r, cost) then (b, Refused(BudgetExhausted))
        else
          var b' := Settled(b, id, Committed, Some(cost), z);
          (b', Done(ReceiptOf(b', id, false, clock)))
  }

  function ReleaseStep(b: Books, tenant: TenantId, id: nat, z: Resolution, clock: Clock): (Books, Outcome) {
    if z.requireUnknown && !ValidManual(z) then (b, Refused(ReservationConflict))
    else if !ReservationKnown(b, tenant, id) then (b, Refused(ReservationConflict))
    else
      var r := b.reservations[id];
      if r.status.Released? && !z.requireUnknown then (b, Done(ReceiptOf(b, id, false, clock)))
      else if (z.requireUnknown && !r.status.Unknown?) || r.status.Committed? then (b, Refused(ReservationConflict))
      else
        var b' := Settled(b, id, Released, None, z);
        (b', Done(ReceiptOf(b', id, false, clock)))
  }

  function MarkUnknownStep(b: Books, tenant: TenantId, id: nat, clock: Clock): (Books, Outcome) {
    if !ReservationKnown(b, tenant, id) then (b, Refused(ReservationConflict))
    else
      var r := b.reservations[id];
      if r.status.Reserved? then
        var b' := b.(reservations := b.reservations[id := r.(status := Unknown)]);
        (b', Done(ReceiptOf(b', id, false, clock)))
      else if r.status.Unknown? then (b, Done(ReceiptOf(b, id, false, clock)))
      else (b, Refused(ReservationConflict))
  }

  function SetAllowanceStep(b: Books, tenant: TenantId, allowance: Option<Allowance>): (Books, Outcome) {
    (b.(allowances := if allowance.Some? then b.allowances[tenant := allowance.value] else b.allowances - {tenant}),
     Configured)
  }

  // ---------------------------------------------------------------------------------------------
  // Runs

  function Step(b: Books, op: Op): (Books, Outcome) {
    match op
    case CreateOrLoad(i, c) => CreateOrLoadStep(b, i, c)
    case Reserve(q, stale, c) => ReserveStep(b, q, stale, c)
    case Commit(t, id, actual, z, c) => CommitStep(b, t, id, actual, z, c)
    case Release(t, id, z, c) => ReleaseStep(b, t, id, z, c)
    case MarkUnknown(t, id, c) => MarkUnknownStep(b, t, id, c)
    case SetAllowance(t, a) => SetAllowanceStep(b, t, a)
  }

  function Run(b: Books, ops: seq<Op>): Books {
    if ops == [] then b else Step(Run(b, ops[..|ops| - 1]), ops[|ops| - 1]).0
  }

  const EMPTY := Books([], [], map[], map[])
}
