/**
 * The budget ledger as the service runs it: counters in ledger and month rows, moved by conditional updates.
 *
 * Every method is one transaction. It works on copies and stores them at the end, so an early return is a rollback.
 * Each is proved to do to the rows exactly what `BudgetBooks` does by adding up reservations, which is why the
 * updates that carry no `reserved >= n` guard can never take a counter below zero and why the guards that do
 * exist never refuse a settlement.
 */
module BudgetLedger {
  import opened Basics
  import opened BudgetBooks
  import Laws = BudgetLaws

  datatype LedgerRow = LedgerRow(terms: Terms, used: Units, reserved: Units, version: int)

  datatype UsageRow = UsageRow(callsUsed: int, callsReserved: int, costUsed: int, costReserved: int, currency: string)

  type UsageTable = map<(TenantId, Month), UsageRow>

  // ---------------------------------------------------------------------------------------------
  // Counters that agree with the rows

  ghost predicate RowAgrees(row: LedgerRow, sum: Tally) {
    row.used == sum.spent && row.reserved == sum.held && row.version == 1 + sum.writes
  }

  ghost predicate LedgersAgree(ledgers: seq<LedgerRow>, rs: seq<Reservation>) {
    forall l :: 0 <= l < |ledgers| ==> RowAgrees(ledgers[l], Sum(rs, LedgerScope(l)))
  }

  ghost predicate MonthAgrees(row: UsageRow, sum: Tally) {
    && row.callsUsed == sum.spent.calls && row.callsReserved == sum.held.calls
    && row.costUsed == sum.spent.cost && row.costReserved == sum.held.cost
  }

  ghost predicate UsageAgrees(usage: UsageTable, rs: seq<Reservation>) {
    forall k :: k in usage ==> MonthAgrees(usage[k], Sum(rs, MonthScope(k.0, k.1)))
  }

  function TermsOf(ledgers: seq<LedgerRow>): (ts: seq<Terms>)
    ensures |ts| == |ledgers| && forall l :: 0 <= l < |ts| ==> ts[l] == ledgers[l].terms
  {
    seq(|ledgers|, l requires 0 <= l < |ledgers| => ledgers[l].terms)
  }

  function CurrencyOf(usage: UsageTable): map<(TenantId, Month), string> {
    map k | k in usage :: usage[k].currency
  }

  lemma {:induction false} GrantAgrees(
    ledgers: seq<LedgerRow>, l: nat, rs: seq<Reservation>, r: Reservation, row: LedgerRow)
    requires LedgersAgree(ledgers, rs) && l < |ledgers| && r.ledger == l && Open(r)
    requires row == ledgers[l].(reserved := ledgers[l].reserved.Plus(r.units), version := ledgers[l].version + 1)
    ensures LedgersAgree(ledgers[l := row], rs + [r])
  {
    forall k | 0 <= k < |ledgers| ensures RowAgrees(ledgers[l := row][k], Sum(rs + [r], LedgerScope(k))) {
      Laws.AddTally(rs, r, LedgerScope(k));
      assert RowAgrees(ledgers[k], Sum(rs, LedgerScope(k)));
    }
  }

  /** A ledger row after one of its claims was committed or released. */
  ghost predicate RowSettled(was: LedgerRow, now: Reservation, row: LedgerRow) {
    && row.terms == was.terms
    && row.reserved == was.reserved.Minus(now.units)
    && row.used == was.used.Plus(Entry(now, LedgerScope(now.ledger)).spent)
    && row.version == was.version + 1
  }

  lemma {:induction false} SettleAgrees(
    ledgers: seq<LedgerRow>, rs: seq<Reservation>, id: nat, now: Reservation, row: LedgerRow)
    requires LedgersAgree(ledgers, rs) && id < |rs| && Open(rs[id]) && Laws.SameClaim(rs[id], now)
    requires !Open(now) && now.ledger < |ledgers| && RowSettled(ledgers[now.ledger], now, row)
    ensures LedgersAgree(ledgers[now.ledger := row], rs[id := now])
  {
    forall k | 0 <= k < |ledgers| ensures RowAgrees(ledgers[now.ledger := row][k], Sum(rs[id := now], LedgerScope(k))) {
      Laws.MoveTally(rs, id, now, LedgerScope(k));
      assert RowAgrees(ledgers[k], Sum(rs, LedgerScope(k)));
    }
  }

  // ---------------------------------------------------------------------------------------------
  // What the service reports

  /** The reported capacity: each difference is clipped at zero. */
  function SnapshotRow(l: nat, row: LedgerRow, clock: Clock): Snapshot {
    var left := row.terms.limit.Minus(row.used).Minus(row.reserved);
    Snapshot(l, row.version, Units(Max(0, left.steps), Max(0, left.tokens), Max(0, left.calls), Max(0, left.cost)),
             Max(0, row.terms.deadlineAt - clock.app), row.terms.currency, row.terms.startedAt, row.terms.deadlineAt,
             row.terms.closed)
  }

  /** The clipping never takes effect. */
  lemma {:induction false} SnapshotNeverClips(b: Books, l: nat, row: LedgerRow, clock: Clock)
    requires Inv(b) && l < |b.ledgers| && row.terms == b.ledgers[l]
    requires RowAgrees(row, Sum(b.reservations, LedgerScope(l)))
    ensures SnapshotRow(l, row, clock) == SnapshotOf(b, l, clock)
    ensures SnapshotRow(l, row, clock).remaining.Plus(row.used).Plus(row.reserved) == row.terms.limit
  {
    Laws.RoomIsNonnegative(b, l);
    var sum := Sum(b.reservations, LedgerScope(l));
    assert row.used == sum.spent && row.reserved == sum.held;
  }

  /** The stored version of a ledger is one more than its reservations plus the settled ones among them. */
  lemma {:induction false} VersionCounts(t: Tables, l: nat)
    requires Sound(t) && l < |t.ledgers|
    ensures t.ledgers[l].version == 1 + Laws.CountRows(t.reservations, l) + Laws.CountSettled(t.reservations, l)
  {
    assert RowAgrees(t.ledgers[l], Sum(t.reservations, LedgerScope(l)));
    Laws.WritesCount(t.reservations, l);
  }

  // ---------------------------------------------------------------------------------------------
  // The month rows

  /** A month row that does not exist yet has nothing to account for. */
  lemma {:induction false} UnopenedMonthIsEmpty(b: Books, tenant: TenantId, month: Month)
    requires Inv(b) && (tenant, month) !in b.months
    ensures Sum(b.reservations, MonthScope(tenant, month)) == ZERO
  {
    forall r | r in b.reservations ensures !InScope(r, MonthScope(tenant, month)) {
      assert RowOk(b, r);
    }
    SumOutside(b.reservations, MonthScope(tenant, month));
  }

  /** The month row without one claim. */
  ghost function Unclaimed(row: UsageRow, units: Units): UsageRow {
    row.(callsReserved := row.callsReserved - units.calls, costReserved := row.costReserved - units.cost)
  }

  lemma {:induction false} GrantUsageAgrees(usage: UsageTable, rs: seq<Reservation>, r: Reservation, row: UsageRow)
    requires UsageAgrees(usage, rs) && Open(r) && r.window.Some?
    requires MonthAgrees(Unclaimed(row, r.units), Sum(rs, MonthScope(r.tenant, r.window.value)))
    ensures UsageAgrees(usage[(r.tenant, r.window.value) := row], rs + [r])
  {
    var key := (r.tenant, r.window.value);
    var usage' := usage[key := row];
    forall k | k in usage' ensures MonthAgrees(usage'[k], Sum(rs + [r], MonthScope(k.0, k.1))) {
      if k == key { ThisMonth(rs, r, row); } else { OtherMonth(rs, r, k, usage[k]); }
    }
  }

  lemma {:induction false} ThisMonth(rs: seq<Reservation>, r: Reservation, row: UsageRow)
    requires Open(r) && r.window.Some?
    requires MonthAgrees(Unclaimed(row, r.units), Sum(rs, MonthScope(r.tenant, r.window.value)))
    ensures MonthAgrees(row, Sum(rs + [r], MonthScope(r.tenant, r.window.value)))
  {
    var s := MonthScope(r.tenant, r.window.value);
    assert InScope(r, s);
    var sum, sum' := TallyWith(rs, r, s);
    assert MonthAgrees(Unclaimed(row, r.units), sum);
    ClaimedMonthAgrees(row, r.units, sum, sum');
    assert MonthAgrees(row, sum');
  }

  lemma {:induction false} OtherMonth(rs: seq<Reservation>, r: Reservation, k: (TenantId, Month), row: UsageRow)
    requires Open(r) && r.window.Some? && k != (r.tenant, r.window.value)
    requires MonthAgrees(row, Sum(rs, MonthScope(k.0, k.1)))
    ensures MonthAgrees(row, Sum(rs + [r], MonthScope(k.0, k.1)))
  {
    assert !InScope(r, MonthScope(k.0, k.1));
    var sum, sum' := TallyWith(rs, r, MonthScope(k.0, k.1));
  }

  /** The sums before and after a new claim, as values. */
  lemma {:induction false} TallyWith(rs: seq<Reservation>, r: Reservation, s: Scope) returns (sum: Tally, sum': Tally)
    requires Open(r)
    ensures sum == Sum(rs, s) && sum' == Sum(rs + [r], s)
    ensures InScope(r, s) ==> sum'.held == sum.held.Plus(r.units) && sum'.spent == sum.spent
    ensures !InScope(r, s) ==> sum' == sum
  {
    Laws.AddTally(rs, r, s);
    sum, sum' := Sum(rs, s), Sum(rs + [r], s);
  }

  lemma {:induction false} ClaimedMonthAgrees(row: UsageRow, units: Units, sum: Tally, sum': Tally)
    requires MonthAgrees(Unclaimed(row, units), sum)
    requires sum'.held == sum.held.Plus(units) && sum'.spent == sum.spent
    ensures MonthAgrees(row, sum')
  {
  }

  lemma {:induction false} UnwindowedGrantAgrees(usage: UsageTable, rs: seq<Reservation>, r: Reservation)
    requires UsageAgrees(usage, rs) && Open(r) && r.window.None?
    ensures UsageAgrees(usage, rs + [r])
  {
    forall k | k in usage ensures MonthAgrees(usage[k], Sum(rs + [r], MonthScope(k.0, k.1))) {
      Laws.AddTally(rs, r, MonthScope(k.0, k.1));
    }
  }

  /** A month row after one of its claims was committed or released. */
  ghost predicate MonthSettled(was: UsageRow, now: Reservation, row: UsageRow) {
    var spent := Entry(now, LedgerScope(now.ledger)).spent;
    row == was.(callsReserved := was.callsReserved - now.units.calls, callsUsed := was.callsUsed + spent.calls,
                costReserved := was.costReserved - now.units.cost, costUsed := was.costUsed + spent.cost)
  }

  ghost predicate UsageSettled(usage: UsageTable, now: Reservation, table: UsageTable) {
    if now.window.None? then table == usage
    else
      var k := (now.tenant, now.window.value);
      k in usage && k in table && table == usage[k := table[k]] && MonthSettled(usage[k], now, table[k])
  }

  lemma {:induction false} SettleUsageAgrees(
    usage: UsageTable, rs: seq<Reservation>, id: nat, now: Reservation, table: UsageTable)
    requires UsageAgrees(usage, rs) && id < |rs| && Open(rs[id]) && Laws.SameClaim(rs[id], now) && !Open(now)
    requires UsageSettled(usage, now, table)
    ensures UsageAgrees(table, rs[id := now])
  {
    forall k | k in table ensures MonthAgrees(table[k], Sum(rs[id := now], MonthScope(k.0, k.1))) {
      Laws.MoveTally(rs, id, now, MonthScope(k.0, k.1));
      assert MonthAgrees(usage[k], Sum(rs, MonthScope(k.0, k.1)));
    }
  }

  // ---------------------------------------------------------------------------------------------
  // The stored tables

  datatype Tables = Tables(
    ledgers: seq<LedgerRow>, reservations: seq<Reservation>, usage: UsageTable, tenants: map<TenantId, Allowance>)

  ghost function Meaning(t: Tables): Books {
    Books(TermsOf(t.ledgers), t.reservations, t.tenants, CurrencyOf(t.usage))
  }

  ghost predicate Agree(t: Tables) {
    LedgersAgree(t.ledgers, t.reservations) && UsageAgrees(t.usage, t.reservations)
  }

  ghost predicate Sound(t: Tables) { Agree(t) && Inv(Meaning(t)) }

  /** The month part of a claim: what the conditional insert and update of the month row leave behind. */
  ghost predicate MonthClaimed(
    t: Tables, tenant: TenantId, month: Month, currency: string, units: Units, table: UsageTable) {
    var k := (tenant, month);
    if !NeedsMonth(units) then table == t.usage
    else
      && k in table && table == t.usage[k := table[k]] && table[k].currency == currency
      && MonthAgrees(table[k].(callsReserved := table[k].callsReserved - units.calls,
          costReserved := table[k].costReserved - units.cost),
                     Sum(t.reservations, MonthScope(tenant, month)))
  }

  function Claimed(t: Tables, q: ReserveRequest, clock: Clock, row: LedgerRow, table: UsageTable): Tables
    requires q.ledger < |t.ledgers|
  {
    Tables(t.ledgers[q.ledger := row], t.reservations + [NewReservation(q, clock)], table, t.tenants)
  }

  lemma {:induction false} ClaimUsageAgrees(
    t: Tables, q: ReserveRequest, clock: Clock, currency: string, table: UsageTable)
    requires UsageAgrees(t.usage, t.reservations) && MonthClaimed(t, q.tenant, clock.month, currency, q.units, table)
    ensures UsageAgrees(table, t.reservations + [NewReservation(q, clock)])
  {
    var r := NewReservation(q, clock);
    if NeedsMonth(q.units) {
      GrantUsageAgrees(t.usage, t.reservations, r, table[(q.tenant, clock.month)]);
    } else {
      UnwindowedGrantAgrees(t.usage, t.reservations, r);
    }
  }

  lemma {:induction false} ClaimAgrees(t: Tables, q: ReserveRequest, clock: Clock, row: LedgerRow, table: UsageTable)
    requires Agree(t) && q.ledger < |t.ledgers|
    requires row == t.ledgers[q.ledger].(reserved := t.ledgers[q.ledger].reserved.Plus(q.units),
        version := t.ledgers[q.ledger].version + 1)
    requires MonthClaimed(t, q.tenant, clock.month, row.terms.currency, q.units, table)
    ensures Agree(Claimed(t, q, clock, row, table))
  {
    GrantAgrees(t.ledgers, q.ledger, t.reservations, NewReservation(q, clock), row);
    ClaimUsageAgrees(t, q, clock, row.terms.currency, table);
  }

  lemma {:induction false} ClaimMeans(t: Tables, q: ReserveRequest, clock: Clock, row: LedgerRow, table: UsageTable)
    requires q.ledger < |t.ledgers| && row.terms == t.ledgers[q.ledger].terms
    requires MonthClaimed(t, q.tenant, clock.month, row.terms.currency, q.units, table)
    ensures Meaning(Claimed(t, q, clock, row, table)) == Granted(Meaning(t), q, clock)
  {
    var t' := Claimed(t, q, clock, row, table);
    assert TermsOf(t'.ledgers) == TermsOf(t.ledgers);
    assert CurrencyOf(t'.usage) == Granted(Meaning(t), q, clock).months;
  }

  lemma {:induction false} ClaimRefines(t: Tables, q: ReserveRequest, clock: Clock, row: LedgerRow, table: UsageTable)
    requires Sound(t) && ValidUnits(q.units) && LedgerKnown(Meaning(t), q.tenant, q.ledger)
    requires Fits(Meaning(t), q) && FindKey(t.reservations, q.tenant, q.ledger, q.key).None?
    requires row == t.ledgers[q.ledger].(reserved := t.ledgers[q.ledger].reserved.Plus(q.units),
        version := t.ledgers[q.ledger].version + 1)
    requires MonthClaimed(t, q.tenant, clock.month, row.terms.currency, q.units, table)
    ensures Sound(Claimed(t, q, clock, row, table))
    ensures Meaning(Claimed(t, q, clock, row, table)) == Granted(Meaning(t), q, clock)
  {
    ClaimAgrees(t, q, clock, row, table);
    ClaimMeans(t, q, clock, row, table);
    Laws.GrantKeepsInv(Meaning(t), q, clock);
  }

  function SettledTables(t: Tables, id: nat, now: Reservation, row: LedgerRow, table: UsageTable): Tables
    requires id < |t.reservations| && now.ledger < |t.ledgers|
  {
    Tables(t.ledgers[now.ledger := row], t.reservations[id := now], table, t.tenants)
  }

  lemma {:induction false} SettleMeans(t: Tables, id: nat, now: Reservation, row: LedgerRow, table: UsageTable)
    requires id < |t.reservations| && now.ledger < |t.ledgers| && RowSettled(t.ledgers[now.ledger], now, row)
    requires UsageSettled(t.usage, now, table)
    ensures Meaning(SettledTables(t, id, now, row, table)) == Meaning(t).(reservations := t.reservations[id := now])
  {
    var t' := SettledTables(t, id, now, row, table);
    assert TermsOf(t'.ledgers) == TermsOf(t.ledgers);
    assert CurrencyOf(t'.usage) == CurrencyOf(t.usage);
  }

  lemma {:induction false} SettleRefines(t: Tables, id: nat, now: Reservation, row: LedgerRow, table: UsageTable)
    requires Agree(t) && id < |t.reservations| && Open(t.reservations[id]) && Laws.SameClaim(t.reservations[id], now)
    requires !Open(now) && now.ledger < |t.ledgers| && RowSettled(t.ledgers[now.ledger], now, row)
    requires UsageSettled(t.usage, now, table)
    ensures Agree(SettledTables(t, id, now, row, table))
    ensures Meaning(SettledTables(t, id, now, row, table)) == Meaning(t).(reservations := t.reservations[id := now])
  {
    SettleAgrees(t.ledgers, t.reservations, id, now, row);
    SettleUsageAgrees(t.usage, t.reservations, id, now, table);
    SettleMeans(t, id, now, row, table);
  }

  /** The capacity an open claim holds is there in its ledger row and in its month row: this is what the
      settlement updates rely on. */
  lemma {:induction false} ClaimIsCovered(t: Tables, id: nat)
    requires Sound(t) && id < |t.reservations| && Open(t.reservations[id])
    ensures
      var r := t.reservations[id];
      && r.ledger < |t.ledgers| && t.ledgers[r.ledger].terms.tenant == r.tenant
      && r.units.Within(t.ledgers[r.ledger].reserved)
      && (r.window.Some? ==>
            && (r.tenant, r.window.value) in t.usage
            && t.usage[(r.tenant, r.window.value)].callsReserved >= r.units.calls
            && t.usage[(r.tenant, r.window.value)].costReserved >= r.units.cost)
  {
    var r, b := t.reservations[id], Meaning(t);
    assert RowOk(b, r);
    Laws.RowsAmounts(b);
    SumCovers(t.reservations, id, LedgerScope(r.ledger));
    assert RowAgrees(t.ledgers[r.ledger], Sum(t.reservations, LedgerScope(r.ledger)));
    if r.window.Some? {
      SumCovers(t.reservations, id, MonthScope(r.tenant, r.window.value));
      assert MonthAgrees(t.usage[(r.tenant, r.window.value)],
          Sum(t.reservations, MonthScope(r.tenant, r.window.value)));
    }
  }

  lemma {:induction false} Cancel(a: Tally, e: Tally)
    ensures a.Minus(e).Plus(e) == a
  {
  }

  lemma {:induction false} MarkKeepsSum(rs: seq<Reservation>, id: nat, s: Scope)
    requires id < |rs| && rs[id].status.Reserved?
    ensures Sum(rs[id := rs[id].(status := Unknown)], s) == Sum(rs, s)
  {
    var now := rs[id].(status := Unknown);
    SumUpdate(rs, id, now, s);
    assert Entry(now, s) == Entry(rs[id], s);
    Cancel(Sum(rs, s), Entry(rs[id], s));
  }

  lemma {:induction false} MarkRefines(t: Tables, id: nat)
    requires Agree(t) && id < |t.reservations| && t.reservations[id].status.Reserved?
    ensures Agree(t.(reservations := t.reservations[id := t.reservations[id].(status := Unknown)]))
  {
    forall l | 0 <= l < |t.ledgers| { MarkKeepsSum(t.reservations, id, LedgerScope(l)); }
    forall k | k in t.usage { MarkKeepsSum(t.reservations, id, MonthScope(k.0, k.1)); }
  }

  // ---------------------------------------------------------------------------------------------
  // The service

  class Service {
    var ledgers: seq<LedgerRow>
    var reservations: seq<Reservation>
    var usage: UsageTable
    var tenants: map<TenantId, Allowance>

    ghost function Stored(): Tables
      reads this
    {
      Tables(ledgers, reservations, usage, tenants)
    }

    ghost function Books(): Books
      reads this
    {
      Meaning(Stored())
    }

    ghost predicate Valid()
      reads this
    {
      Sound(Stored())
    }

    constructor ()
      ensures Valid() && Books() == EMPTY
    {
      ledgers, reservations, usage, tenants := [], [], map[], map[];
    }

    // --- reserving ---

    /** Opens the month row on first use, if the tenant has an allowance in the ledger's currency. */
    method OpenMonth(tenant: TenantId, currency: string, month: Month) returns (table: UsageTable)
      requires Valid()
      ensures (tenant, month) in table <==>
        (tenant, month) in usage || (tenant in tenants && tenants[tenant].currency == currency)
      ensures (tenant, month) in usage ==> table == usage
      ensures (tenant, month) in table ==>
        && table == usage[(tenant, month) := table[(tenant, month)]]
        && MonthAgrees(table[(tenant, month)], Sum(reservations, MonthScope(tenant, month)))
        && ((tenant, month) !in usage ==> table[(tenant, month)].currency == currency)
    {
      table := usage;
      if (tenant, month) !in usage && tenant in tenants && tenants[tenant].currency == currency {
        UnopenedMonthIsEmpty(Books(), tenant, month);
        table := table[(tenant, month) := UsageRow(0, 0, 0, 0, tenants[tenant].currency)];
      }
    }

    /** One conditional claim on the month row. */
    method ReserveTenantAggregate(tenant: TenantId, currency: string, units: Units, month: Month)
      returns (ok: bool, window: Option<Month>, table: UsageTable)
      requires Valid()
      ensures ok <==> (NeedsMonth(units) ==> MonthAdmits(Books(), tenant, currency, month, units))
      ensures ok ==> window == if NeedsMonth(units) then Some(month) else None
      ensures ok ==> MonthClaimed(Stored(), tenant, month, currency, units, table)
    {
      ok, window, table := true, None, usage;
      if units.calls == 0 && units.cost == 0 {
        return;
      }
      var key := (tenant, month);
      table := OpenMonth(tenant, currency, month);
      ok := && key in table && tenant in tenants
            && table[key].currency == currency && tenants[tenant].currency == currency
            && table[key].callsUsed + table[key].callsReserved + units.calls <= tenants[tenant].calls
            && table[key].costUsed + table[key].costReserved + units.cost <= tenants[tenant].cost;
      if ok {
        var row := table[key];
        window := Some(month);
        table := table[key := row.(callsReserved := row.callsReserved + units.calls,
                                   costReserved := row.costReserved + units.cost)];
      }
    }

    /** The receipt of a stored reservation. */
    method Receipt(id: nat, replayed: bool, clock: Clock) returns (receipt: Receipt)
      requires Valid() && id < |reservations|
      ensures reservations[id].ledger < |ledgers| && receipt == ReceiptOf(Books(), id, replayed, clock)
    {
      var r := reservations[id];
      assert RowOk(Books(), r);
      SnapshotNeverClips(Books(), r.ledger, ledgers[r.ledger], clock);
      receipt := BudgetBooks.Receipt(id, r.key, r.status, r.units, r.actualCost, replayed,
          SnapshotRow(r.ledger, ledgers[r.ledger], clock));
    }

    method Replay(id: nat, units: Units, clock: Clock) returns (out: Outcome)
      requires Valid() && id < |reservations|
      ensures reservations[id].ledger < |ledgers| && out == Replayed(Books(), id, units, clock)
    {
      var receipt := Receipt(id, true, clock);
      out := if reservations[id].units == units then Done(receipt) else Refused(ReservationConflict);
    }

    static function ReservationFailure(row: LedgerRow, q: ReserveRequest, clock: Clock): Code {
      if row.terms.closed then LedgerClosed
      else if row.terms.deadlineAt <= clock.app then DeadlineExceeded
      else if row.version != q.expectedVersion then LedgerVersionConflict
      else BudgetExhausted
    }

    /** The conditional ledger update of a reserve call. */
    method ClaimLedger(q: ReserveRequest, clock: Clock) returns (ok: bool, row: LedgerRow, code: Code)
      requires Valid() && LedgerKnown(Books(), q.tenant, q.ledger)
      ensures ok <==> LedgerAdmits(Books(), q, clock)
      ensures ok ==>
        row == ledgers[q.ledger].(reserved := ledgers[q.ledger].reserved.Plus(q.units),
            version := ledgers[q.ledger].version + 1)
      ensures !ok ==> code == FailureCode(Books(), q, clock)
    {
      row := ledgers[q.ledger];
      assert RowAgrees(row, Sum(reservations, LedgerScope(q.ledger)));
      code := ReservationFailure(row, q, clock);
      ok := && row.version == q.expectedVersion && !row.terms.closed && row.terms.deadlineAt > clock.db
            && row.used.Plus(row.reserved).Plus(q.units).Within(row.terms.limit);
      if ok {
        row := row.(reserved := row.reserved.Plus(q.units), version := row.version + 1);
      }
    }

    method Reserve(q: ReserveRequest, stale: bool, clock: Clock) returns (out: Outcome)
      requires Valid()
      modifies this
      ensures Valid()
      ensures (Books(), out) == ReserveStep(old(Books()), q, stale, clock)
    {
      if !ValidUnits(q.units) || !BoundedKey(q.key) {
        return Refused(ReservationConflict);
      }
      var existing := FindKey(reservations, q.tenant, q.ledger, q.key);
      assert existing.Some? ==> RowOk(Books(), reservations[existing.value]);
      if existing.Some? && !stale {
        out := Replay(existing.value, q.units, clock);
        return;
      }
      if !(q.ledger < |ledgers| && ledgers[q.ledger].terms.tenant == q.tenant) {
        return NotFound;
      }
      out := Charge(q, existing, clock);
    }

    /** A reserve call past the lookup of its key: the ledger row, the month row and the unique index decide. */
    method Charge(q: ReserveRequest, existing: Option<nat>, clock: Clock) returns (out: Outcome)
      requires Valid() && ValidUnits(q.units) && BoundedKey(q.key) && LedgerKnown(Books(), q.tenant, q.ledger)
      requires existing == FindKey(reservations, q.tenant, q.ledger, q.key)
      modifies this
      ensures Valid()
      ensures (Books(), out) == ReserveStep(old(Books()), q, true, clock)
    {
      var admitted, row, code := ClaimLedger(q, clock);
      if !admitted {
        return Refused(code);
      }
      var ok, window, table := ReserveTenantAggregate(q.tenant, row.terms.currency, q.units, clock.month);
      if !ok {
        return Refused(BudgetExhausted);
      }
      if KeyTaken(q.ledger, q.key) {
        KeyTakenIsFound(Books(), q);
        out := Replay(existing.value, q.units, clock);
        return;
      }
      var receipt := Grant(q, clock, row, window, table);
      out := Done(receipt);
    }

    method Grant(
      q: ReserveRequest, clock: Clock, row: LedgerRow, window: Option<Month>, table: UsageTable)
      returns (receipt: Receipt)
      requires Valid() && ValidUnits(q.units) && LedgerKnown(Books(), q.tenant, q.ledger)
      requires Fits(Books(), q) && FindKey(reservations, q.tenant, q.ledger, q.key).None?
      requires row == ledgers[q.ledger].(reserved := ledgers[q.ledger].reserved.Plus(q.units),
          version := ledgers[q.ledger].version + 1)
      requires window == if NeedsMonth(q.units) then Some(clock.month) else None
      requires MonthClaimed(Stored(), q.tenant, clock.month, row.terms.currency, q.units, table)
      modifies this
      ensures Valid() && Books() == Granted(old(Books()), q, clock)
      ensures |reservations| == |old(reservations)| + 1 && reservations[|old(reservations)|].ledger < |ledgers|
      ensures receipt == ReceiptOf(Books(), |old(reservations)|, false, clock)
    {
      Insert(q, clock, row, window, table);
      receipt := Receipt(|reservations| - 1, false, clock);
    }

    /** The claim, the moved counters and the month row are stored together. */
    method Insert(q: ReserveRequest, clock: Clock, row: LedgerRow, window: Option<Month>, table: UsageTable)
      requires Valid() && ValidUnits(q.units) && LedgerKnown(Books(), q.tenant, q.ledger)
      requires Fits(Books(), q) && FindKey(reservations, q.tenant, q.ledger, q.key).None?
      requires row == ledgers[q.ledger].(reserved := ledgers[q.ledger].reserved.Plus(q.units),
          version := ledgers[q.ledger].version + 1)
      requires window == if NeedsMonth(q.units) then Some(clock.month) else None
      requires MonthClaimed(Stored(), q.tenant, clock.month, row.terms.currency, q.units, table)
      modifies this
      ensures Valid() && Books() == Granted(old(Books()), q, clock)
    {
      ClaimRefines(Stored(), q, clock, row, table);
      StoreClaim(q, clock, row, window, table);
    }

    method StoreClaim(q: ReserveRequest, clock: Clock, row: LedgerRow, window: Option<Month>, table: UsageTable)
      requires q.ledger < |ledgers| && window == if NeedsMonth(q.units) then Some(clock.month) else None
      modifies this
      ensures Stored() == Claimed(old(Stored()), q, clock, row, table)
    {
      ledgers := ledgers[q.ledger := row];
      usage := table;
      reservations := reservations
          + [Reservation(q.tenant, q.ledger, q.key, q.units, window, None, Reserved, None, None)];
    }

    /** The unique index on (ledger, idempotency key). */
    predicate KeyTaken(ledger: nat, key: string)
      reads this
    {
      exists i :: 0 <= i < |reservations| && reservations[i].ledger == ledger && reservations[i].key == key
    }

    // --- settling ---

    /** The guarded month update of a commit: moves the claim to used at its actual cost. */
    method CommitTenantAggregate(id: nat, cost: int) returns (ok: bool, table: UsageTable)
      requires Valid() && id < |reservations| && Open(reservations[id])
      requires reservations[id].ledger < |ledgers|
      requires cost - reservations[id].units.cost <= Remaining(Books(), reservations[id].ledger).cost
      ensures ok <==> CostFits(Books(), reservations[id], cost)
      ensures ok ==> UsageSettled(usage, reservations[id].(status := Committed, actualCost := Some(cost)), table)
    {
      ok, table := true, usage;
      var r := reservations[id];
      if r.window.None? {
        return;
      }
      ClaimIsCovered(Stored(), id);
      var key := (r.tenant, r.window.value);
      var row := usage[key];
      assert MonthAgrees(row, Sum(reservations, MonthScope(r.tenant, r.window.value)));
      ok := && row.callsReserved >= r.units.calls && row.costReserved >= r.units.cost
            && (cost <= r.units.cost ||
                (&& r.tenant in tenants && tenants[r.tenant].currency == row.currency
                 && row.costUsed + row.costReserved - r.units.cost + cost <= tenants[r.tenant].cost));
      table := usage[key := row.(callsReserved := row.callsReserved - r.units.calls,
          callsUsed := row.callsUsed + r.units.calls,
                                 costReserved := row.costReserved - r.units.cost, costUsed := row.costUsed + cost)];
    }

    /** The guarded month update of a release. Its guard never fails. */
    method ReleaseTenantAggregate(id: nat) returns (ok: bool, table: UsageTable)
      requires Valid() && id < |reservations| && Open(reservations[id])
      ensures ok && UsageSettled(usage, reservations[id].(status := Released, actualCost := None), table)
    {
      ok, table := true, usage;
      var r := reservations[id];
      if r.window.None? {
        return;
      }
      ClaimIsCovered(Stored(), id);
      var key := (r.tenant, r.window.value);
      var row := usage[key];
      ok := row.callsReserved >= r.units.calls && row.costReserved >= r.units.cost;
      table := usage[key := row.(callsReserved := row.callsReserved - r.units.calls,
          costReserved := row.costReserved - r.units.cost)];
    }

    /** Stores a settled reservation with its moved counters. */
    method Settle(id: nat, now: Reservation, row: LedgerRow, table: UsageTable)
      requires Valid() && id < |reservations| && Open(reservations[id]) && Laws.SameClaim(reservations[id], now)
      requires !Open(now) && now.ledger < |ledgers| && RowSettled(ledgers[now.ledger], now, row)
      requires UsageSettled(usage, now, table)
      requires Inv(Books().(reservations := reservations[id := now]))
      modifies this
      ensures Valid() && Books() == old(Books()).(reservations := old(reservations)[id := now])
    {
      ghost var was := Stored();
      SettleRefines(was, id, now, row, table);
      ledgers := ledgers[now.ledger := row];
      usage := table;
      reservations := reservations[id := now];
      assert Stored() == SettledTables(was, id, now, row, table);
    }

    /** The updates of a commit. Only the cost is checked; nothing checks that the claim is still reserved. */
    method CommitOpen(id: nat, cost: nat, z: Resolution) returns (ok: bool)
      requires Valid() && id < |reservations| && Open(reservations[id]) && reservations[id].ledger < |ledgers|
      modifies this
      ensures Valid()
      ensures ok <==> CostFits(old(Books()), old(Books()).reservations[id], cost)
      ensures Books() == if ok then Settled(old(Books()), id, Committed, Some(cost), z) else old(Books())
    {
      var r := reservations[id];
      var row := ledgers[r.ledger];
      assert RowAgrees(row, Sum(reservations, LedgerScope(r.ledger)));
      if row.used.cost + row.reserved.cost - r.units.cost + cost > row.terms.limit.cost {
        return false;
      }
      row := row.(reserved := row.reserved.Minus(r.units), used := row.used.Plus(r.units.(cost := cost)),
          version := row.version + 1);
      var table;
      ok, table := CommitTenantAggregate(id, cost);
      if ok {
        Laws.CommittedKeepsInv(Books(), id, cost, z);
        Settle(id, r.(status := Committed, actualCost := Some(cost), resolvedBy := z.actor, note := z.note), row,
            table);
      }
    }

    /** The updates of a release. They always go through. */
    method ReleaseOpen(id: nat, z: Resolution) returns (ok: bool)
      requires Valid() && id < |reservations| && Open(reservations[id])
      modifies this
      ensures Valid()
      ensures ok && Books() == Settled(old(Books()), id, Released, None, z)
    {
      var r := reservations[id];
      assert RowOk(Books(), r);
      var row := ledgers[r.ledger];
      assert row.used == row.used.Plus(NOTHING);
      row := row.(reserved := row.reserved.Minus(r.units), version := row.version + 1);
      var table;
      ok, table := ReleaseTenantAggregate(id);
      if ok {
        Laws.ReleasedKeepsInv(Books(), id, z);
        Settle(id, r.(status := Released, resolvedBy := z.actor, note := z.note), row, table);
      }
    }

    predicate Known(tenant: TenantId, id: nat)
      reads this
    {
      && id < |reservations| && reservations[id].tenant == tenant
      && reservations[id].ledger < |ledgers| && ledgers[reservations[id].ledger].terms.tenant == tenant
    }

    method Commit(tenant: TenantId, id: nat, actual: Option<int>, z: Resolution, clock: Clock) returns (out: Outcome)
      requires Valid()
      modifies this
      ensures Valid()
      ensures (Books(), out) == CommitStep(old(Books()), tenant, id, actual, z, clock)
    {
      if (actual.Some? && !Int32(actual.value)) || (z.requireUnknown && !ValidManual(z)) || !Known(tenant, id) {
        return Refused(ReservationConflict);
      }
      var r := reservations[id];
      ghost var was := Books();
      assert ReservationKnown(was, tenant, id) && was.reservations[id] == r;
      if !r.status.Committed? || z.requireUnknown {
        if (z.requireUnknown && !r.status.Unknown?) || r.status.Released? {
          return Refused(ReservationConflict);
        }
        assert RowAmountsOk(r) by { assert RowOk(Books(), r); }
        var cost := ActualCost(r, actual);
        var ok := CommitOpen(id, cost, z);
        assert ok <==> CostFits(was, was.reservations[id], cost);
        if !ok {
          return Refused(BudgetExhausted);
        }
      }
      var receipt := Receipt(id, false, clock);
      out := Done(receipt);
    }

    method Release(tenant: TenantId, id: nat, z: Resolution, clock: Clock) returns (out: Outcome)
      requires Valid()
      modifies this
      ensures Valid()
      ensures (Books(), out) == ReleaseStep(old(Books()), tenant, id, z, clock)
    {
      if (z.requireUnknown && !ValidManual(z)) || !Known(tenant, id) {
        return Refused(ReservationConflict);
      }
      var r := reservations[id];
      if !r.status.Released? || z.requireUnknown {
        if (z.requireUnknown && !r.status.Unknown?) || r.status.Committed? {
          return Refused(ReservationConflict);
        }
        var ok := ReleaseOpen(id, z);
        if !ok {
          return Refused(ReservationConflict);
        }
      }
      var receipt := Receipt(id, false, clock);
      out := Done(receipt);
    }

    method MarkUnknown(tenant: TenantId, id: nat, clock: Clock) returns (out: Outcome)
      requires Valid()
      modifies this`reservations
      ensures Valid()
      ensures (Books(), out) == MarkUnknownStep(old(Books()), tenant, id, clock)
    {
      if !Known(tenant, id) {
        return Refused(ReservationConflict);
      }
      var r := reservations[id];
      if r.status.Reserved? {
        MarkRefines(Stored(), id);
        Laws.MarkUnknownKeepsInv(Books(), tenant, id, clock);
        reservations := reservations[id := r.(status := Unknown)];
      } else if !r.status.Unknown? {
        return Refused(ReservationConflict);
      }
      var receipt := Receipt(id, false, clock);
      out := Done(receipt);
    }

    // --- ledgers and allowances ---

    method CreateOrLoad(i: LedgerInput, clock: Clock) returns (out: Outcome)
      requires Valid()
      modifies this`ledgers
      ensures Valid()
      ensures (Books(), out) == CreateOrLoadStep(old(Books()), i, clock)
    {
      if !AllInt32(i.limit) || !CurrencyCode(i.currency) {
        return Refused(ReservationConflict);
      }
      if i.deadlineAt <= i.startedAt {
        return Refused(DeadlineExceeded);
      }
      var found := FindLedger(TermsOf(ledgers), i.tenant, i.workflowRun);
      if found.None? {
        InsertLedger(i, clock);
      }
      var l := if found.Some? then found.value else |ledgers| - 1;
      if !SameConfiguration(ledgers[l].terms, i) {
        return Refused(ReservationConflict);
      }
      SnapshotNeverClips(Books(), l, ledgers[l], clock);
      out := Opened(SnapshotRow(l, ledgers[l], clock));
    }

    method InsertLedger(i: LedgerInput, clock: Clock)
      requires Valid() && AllInt32(i.limit) && CurrencyCode(i.currency) && i.startedAt < i.deadlineAt
      requires FindLedger(TermsOf(ledgers), i.tenant, i.workflowRun).None?
      modifies this`ledgers
      ensures Valid() && Books() == old(Books()).(ledgers := old(Books()).ledgers + [NewTerms(i)])
    {
      OpenIsSound(Stored(), i, clock);
      ledgers := ledgers + [LedgerRow(NewTerms(i), NOTHING, NOTHING, 1)];
    }

    method SetAllowance(tenant: TenantId, allowance: Option<Allowance>) returns (out: Outcome)
      requires Valid()
      modifies this`tenants
      ensures Valid()
      ensures (Books(), out) == SetAllowanceStep(old(Books()), tenant, allowance)
    {
      Laws.SetAllowanceKeepsInv(Books(), tenant, allowance);
      tenants := if allowance.Some? then tenants[tenant := allowance.value] else tenants - {tenant};
      out := Configured;
    }

    method Call(op: Op) returns (out: Outcome)
      requires Valid()
      modifies this
      ensures Valid()
      ensures (Books(), out) == Step(old(Books()), op)
    {
      match op
      case CreateOrLoad(i, c) => out := CreateOrLoad(i, c);
      case Reserve(q, stale, c) => out := Reserve(q, stale, c);
      case Commit(t, id, actual, z, c) => out := Commit(t, id, actual, z, c);
      case Release(t, id, z, c) => out := Release(t, id, z, c);
      case MarkUnknown(t, id, c) => out := MarkUnknown(t, id, c);
      case SetAllowance(t, a) => out := SetAllowance(t, a);
    }

    /** Any sequence of calls takes the stored tables exactly where the counter-free meaning goes. */
    method Play(ops: seq<Op>)
      requires Valid()
      modifies this
      ensures Valid() && Books() == Run(old(Books()), ops)
    {
      for n := 0 to |ops|
        invariant Valid() && Books() == Run(old(Books()), ops[..n])
      {
        assert ops[..n + 1][..n] == ops[..n];
        var _ := Call(ops[n]);
      }
      assert ops[..|ops|] == ops;
    }
  }

  lemma {:induction false} OpenRefines(t: Tables, terms: Terms)
    requires Sound(t)
    ensures
      var t' := t.(ledgers := t.ledgers + [LedgerRow(terms, NOTHING, NOTHING, 1)]);
      Agree(t') && Meaning(t') == Meaning(t).(ledgers := Meaning(t).ledgers + [terms])
  {
    UnopenedLedgerIsEmpty(t);
    var ls := t.ledgers + [LedgerRow(terms, NOTHING, NOTHING, 1)];
    assert TermsOf(ls) == TermsOf(t.ledgers) + [terms];
    NewRowAgrees(t.ledgers, t.reservations, terms);
  }

  lemma {:induction false} OpenIsSound(t: Tables, i: LedgerInput, clock: Clock)
    requires Sound(t) && AllInt32(i.limit) && CurrencyCode(i.currency) && i.startedAt < i.deadlineAt
    requires FindLedger(TermsOf(t.ledgers), i.tenant, i.workflowRun).None?
    ensures
      var t' := t.(ledgers := t.ledgers + [LedgerRow(NewTerms(i), NOTHING, NOTHING, 1)]);
      Sound(t') && Meaning(t') == Meaning(t).(ledgers := Meaning(t).ledgers + [NewTerms(i)])
  {
    Laws.CreateKeepsInv(Meaning(t), i, clock);
    OpenRefines(t, NewTerms(i));
  }

  lemma {:induction false} UnopenedLedgerIsEmpty(t: Tables)
    requires Sound(t)
    ensures Sum(t.reservations, LedgerScope(|t.ledgers|)) == ZERO
  {
    forall r | r in t.reservations ensures !InScope(r, LedgerScope(|t.ledgers|)) { assert RowOk(Meaning(t), r); }
    SumOutside(t.reservations, LedgerScope(|t.ledgers|));
  }

  lemma {:induction false} NewRowAgrees(ledgers: seq<LedgerRow>, rs: seq<Reservation>, terms: Terms)
    requires LedgersAgree(ledgers, rs) && Sum(rs, LedgerScope(|ledgers|)) == ZERO
    ensures LedgersAgree(ledgers + [LedgerRow(terms, NOTHING, NOTHING, 1)], rs)
  {
    var ls := ledgers + [LedgerRow(terms, NOTHING, NOTHING, 1)];
    forall l | 0 <= l < |ls| ensures RowAgrees(ls[l], Sum(rs, LedgerScope(l))) {
      if l < |ledgers| { SameRowAgrees(ledgers, rs, l, ls[l]); } else { EmptyRowAgrees(rs, l, ls[l]); }
    }
  }

  lemma {:induction false} SameRowAgrees(ledgers: seq<LedgerRow>, rs: seq<Reservation>, l: nat, row: LedgerRow)
    requires LedgersAgree(ledgers, rs) && l < |ledgers| && row == ledgers[l]
    ensures RowAgrees(row, Sum(rs, LedgerScope(l)))
  {
  }

  lemma {:induction false} EmptyRowAgrees(rs: seq<Reservation>, l: nat, row: LedgerRow)
    requires Sum(rs, LedgerScope(l)) == ZERO && row.used == row.reserved == NOTHING && row.version == 1
    ensures RowAgrees(row, Sum(rs, LedgerScope(l)))
  {
  }

  lemma {:induction false} KeyTakenIsFound(b: Books, q: ReserveRequest)
    requires Inv(b) && LedgerKnown(b, q.tenant, q.ledger)
    requires exists i ::
        0 <= i < |b.reservations| && b.reservations[i].ledger == q.ledger && b.reservations[i].key == q.key
    ensures FindKey(b.reservations, q.tenant, q.ledger, q.key).Some?
  {
    var i :| 0 <= i < |b.reservations| && b.reservations[i].ledger == q.ledger && b.reservations[i].key == q.key;
    assert RowOk(b, b.reservations[i]);
  }
}
