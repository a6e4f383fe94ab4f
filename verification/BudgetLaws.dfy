/** What every run of the budget ledger guarantees, proved about `BudgetBooks`. */
module BudgetLaws {
  import opened Basics
  import opened BudgetBooks

  // ---------------------------------------------------------------------------------------------
  // The invariant, operation by operation

  lemma {:induction false} RowsAmounts(b: Books)
    requires RowsOk(b)
    ensures AmountsOk(b.reservations)
  {
    forall i | 0 <= i < |b.reservations| ensures RowAmountsOk(b.reservations[i]) {
      assert RowOk(b, b.reservations[i]);
    }
  }

  lemma {:induction false} CreateKeepsInv(b: Books, i: LedgerInput, clock: Clock)
    requires Inv(b)
    ensures Inv(CreateOrLoadStep(b, i, clock).0)
  {
    var b' := CreateOrLoadStep(b, i, clock).0;
    if b' != b {
      var n := |b.ledgers|;
      assert forall k :: 0 <= k < |b.reservations| ==> RowOk(b, b.reservations[k]) ==> RowOk(b', b.reservations[k]);
      forall l | 0 <= l < |b'.ledgers|
        ensures Sum(b'.reservations, LedgerScope(l)).Total().Within(b'.ledgers[l].limit)
      {
        if l == n {
          forall r | r in b.reservations ensures !InScope(r, LedgerScope(n)) {
            assert RowOk(b, r);
          }
          SumOutside(b.reservations, LedgerScope(n));
        }
      }
    }
  }

  lemma {:induction false} GrantKeepsInv(b: Books, q: ReserveRequest, clock: Clock)
    requires Inv(b) && ValidUnits(q.units) && LedgerKnown(b, q.tenant, q.ledger) && Fits(b, q)
    requires FindKey(b.reservations, q.tenant, q.ledger, q.key).None?
    ensures Inv(Granted(b, q, clock))
  {
    var b', r := Granted(b, q, clock), NewReservation(q, clock);
    assert b'.reservations == b.reservations + [r];
    forall i | 0 <= i < |b'.reservations| ensures RowOk(b', b'.reservations[i]) {
      assert i < |b.reservations| ==> RowOk(b, b.reservations[i]);
    }
    forall i, j | 0 <= i < j < |b'.reservations|
      ensures b'.reservations[i].ledger != b'.reservations[j].ledger || b'.reservations[i].key != b'.reservations[j].key
    {
      assert RowOk(b, b.reservations[i]);
    }
    forall l | 0 <= l < |b'.ledgers|
      ensures Sum(b'.reservations, LedgerScope(l)).Total().Within(b'.ledgers[l].limit)
    {
      SumAppend(b.reservations, r, LedgerScope(l));
    }
  }

  /** Replacing a row by one of the same identity keeps the invariant as long as any growth fits the ledger. */
  lemma {:induction false} ReplaceKeepsInv(b: Books, id: nat, r: Reservation)
    requires Inv(b) && id < |b.reservations|
    requires SameClaim(b.reservations[id], r) && RowAmountsOk(r)
    requires Growth(b.reservations[id], r).Within(Remaining(b, r.ledger))
    ensures Inv(b.(reservations := b.reservations[id := r]))
  {
    var b' := b.(reservations := b.reservations[id := r]);
    var was := b.reservations[id];
    assert RowOk(b, was);
    forall i | 0 <= i < |b'.reservations| ensures RowOk(b', b'.reservations[i]) {
      assert RowOk(b, b.reservations[i]);
    }
    forall l | 0 <= l < |b'.ledgers|
      ensures Sum(b'.reservations, LedgerScope(l)).Total().Within(b'.ledgers[l].limit)
    {
      SumUpdate(b.reservations, id, r, LedgerScope(l));
    }
  }

  predicate SameClaim(r: Reservation, r': Reservation) {
    r'.tenant == r.tenant && r'.ledger == r.ledger && r'.key == r.key && r'.units == r.units && r'.window == r.window
  }

  function Growth(r: Reservation, r': Reservation): Units {
    Entry(r', LedgerScope(r.ledger)).Total().Minus(Entry(r, LedgerScope(r.ledger)).Total())
  }

  lemma {:induction false} RoomIsNonnegative(b: Books, l: nat)
    requires Inv(b) && l < |b.ledgers|
    ensures NOTHING.Within(Remaining(b, l))
  {
  }

  lemma {:induction false} CommittedKeepsInv(b: Books, id: nat, cost: nat, z: Resolution)
    requires Inv(b) && id < |b.reservations| && Open(b.reservations[id]) && b.reservations[id].ledger < |b.ledgers|
    requires CostFits(b, b.reservations[id], cost)
    ensures Inv(Settled(b, id, Committed, Some(cost), z))
  {
    var r := b.reservations[id];
    assert RowOk(b, r);
    RoomIsNonnegative(b, r.ledger);
    ReplaceKeepsInv(b, id, Settled(b, id, Committed, Some(cost), z).reservations[id]);
  }

  lemma {:induction false} ReleasedKeepsInv(b: Books, id: nat, z: Resolution)
    requires Inv(b) && id < |b.reservations| && Open(b.reservations[id])
    ensures Inv(Settled(b, id, Released, None, z))
  {
    var r := b.reservations[id];
    assert RowOk(b, r);
    RoomIsNonnegative(b, r.ledger);
    ReplaceKeepsInv(b, id, Settled(b, id, Released, None, z).reservations[id]);
  }

  lemma {:induction false} MarkUnknownKeepsInv(b: Books, tenant: TenantId, id: nat, clock: Clock)
    requires Inv(b)
    ensures Inv(MarkUnknownStep(b, tenant, id, clock).0)
  {
    var b' := MarkUnknownStep(b, tenant, id, clock).0;
    if b' != b {
      var r := b.reservations[id];
      assert RowOk(b, r);
      RoomIsNonnegative(b, r.ledger);
      ReplaceKeepsInv(b, id, b'.reservations[id]);
    }
  }

  lemma {:induction false} SetAllowanceKeepsInv(b: Books, tenant: TenantId, a: Option<Allowance>)
    requires Inv(b)
    ensures Inv(SetAllowanceStep(b, tenant, a).0)
  {
    var b' := SetAllowanceStep(b, tenant, a).0;
    assert forall i :: 0 <= i < |b.reservations| ==> RowOk(b, b.reservations[i]) ==> RowOk(b', b.reservations[i]);
  }

  /** Conservation and limits survive every operation, whatever its arguments. */
  lemma {:induction false} StepKeepsInv(b: Books, op: Op)
    requires Inv(b)
    ensures Inv(Step(b, op).0)
  {
    match op
    case CreateOrLoad(i, c) => CreateKeepsInv(b, i, c);
    case Reserve(q, stale, c) =>
      if ReserveStep(b, q, stale, c).0 != b { GrantKeepsInv(b, q, c); }
    case Commit(t, id, actual, z, c) =>
      if CommitStep(b, t, id, actual, z, c).0 != b {
        assert RowOk(b, b.reservations[id]);
        CommittedKeepsInv(b, id, ActualCost(b.reservations[id], actual), z);
      }
    case Release(t, id, z, c) =>
      if ReleaseStep(b, t, id, z, c).0 != b { ReleasedKeepsInv(b, id, z); }
    case MarkUnknown(t, id, c) => MarkUnknownKeepsInv(b, t, id, c);
    case SetAllowance(t, a) => SetAllowanceKeepsInv(b, t, a);
  }

  lemma {:induction false} RunKeepsInv(b: Books, ops: seq<Op>)
    requires Inv(b)
    ensures Inv(Run(b, ops))
  {
    if ops != [] {
      RunKeepsInv(b, ops[..|ops| - 1]);
      StepKeepsInv(Run(b, ops[..|ops| - 1]), ops[|ops| - 1]);
    }
  }

  /** In every state any run reaches from empty books, no ledger holds or spends more than its limit, in any unit,
      no amount is negative, and no (ledger, key) is claimed twice. */
  lemma {:induction false} NoRunOverspends(ops: seq<Op>, l: nat)
    requires l < |Run(EMPTY, ops).ledgers|
    ensures
      var b := Run(EMPTY, ops);
      var sum := Sum(b.reservations, LedgerScope(l));
      && NOTHING.Within(sum.held) && NOTHING.Within(sum.spent)
      && sum.held.Plus(sum.spent).Within(b.ledgers[l].limit)
      && KeysUnique(b.reservations)
  {
    RunKeepsInv(EMPTY, ops);
    var b := Run(EMPTY, ops);
    RowsAmounts(b);
    SumCovers(b.reservations, 0, LedgerScope(l));
  }

  // ---------------------------------------------------------------------------------------------
  // Exactly-once charging

  /** Answers that promise nothing was written: refusals, replays and the loading of an existing ledger. */
  predicate Answered(before: Books, out: Outcome) {
    match out
    case Refused(_) => true
    case NotFound => true
    case Done(r) => r.replayed
    case Opened(s) => s.ledger < |before.ledgers|
    case Configured => false
  }

  lemma {:induction false} AnsweredChangesNothing(b: Books, op: Op)
    requires Answered(b, Step(b, op).1)
    ensures Step(b, op).0 == b
  {
  }

  /** Rows are never removed, never change owner, key, units or month, and a settled row never changes again. */
  ghost predicate Extends(b: Books, b': Books) {
    && b.ledgers <= b'.ledgers
    && |b.reservations| <= |b'.reservations|
    && (forall i :: 0 <= i < |b.reservations| ==> Successor(b.reservations[i], b'.reservations[i]))
  }

  predicate Successor(r: Reservation, r': Reservation) {
    && SameClaim(r, r')
    && (r.status.Unknown? ==> !r'.status.Reserved?)
    && (!Open(r) ==> r' == r)
  }

  /** A commit, release or mark-unknown changes at most one row, and only an open one. */
  predicate Settles(b: Books, id: nat, b': Books) {
    || b' == b
    || (&& id < |b.reservations| && |b'.reservations| == |b.reservations|
        && b' == b.(reservations := b.reservations[id := b'.reservations[id]])
        && Open(b.reservations[id]) && Successor(b.reservations[id], b'.reservations[id]))
  }

  lemma {:induction false} CommitSettles(
    b: Books, tenant: TenantId, id: nat, actual: Option<int>, z: Resolution, clock: Clock)
    ensures Settles(b, id, CommitStep(b, tenant, id, actual, z, clock).0)
  {
  }

  lemma {:induction false} ReleaseSettles(b: Books, tenant: TenantId, id: nat, z: Resolution, clock: Clock)
    ensures Settles(b, id, ReleaseStep(b, tenant, id, z, clock).0)
  {
  }

  lemma {:induction false} MarkUnknownSettles(b: Books, tenant: TenantId, id: nat, clock: Clock)
    ensures Settles(b, id, MarkUnknownStep(b, tenant, id, clock).0)
  {
  }

  lemma {:induction false} StepSettles(b: Books, op: Op)
    requires op.Commit? || op.Release? || op.MarkUnknown?
    ensures Settles(b, op.id, Step(b, op).0)
  {
    match op
    case Commit(t, id, actual, z, c) => CommitSettles(b, t, id, actual, z, c);
    case Release(t, id, z, c) => ReleaseSettles(b, t, id, z, c);
    case MarkUnknown(t, id, c) => MarkUnknownSettles(b, t, id, c);
  }

  lemma {:induction false} StepExtends(b: Books, op: Op)
    ensures Extends(b, Step(b, op).0)
  {
    if op.Commit? || op.Release? || op.MarkUnknown? { StepSettles(b, op); }
  }

  lemma {:induction false} ExtendsTransitive(a: Books, b: Books, c: Books)
    requires Extends(a, b) && Extends(b, c)
    ensures Extends(a, c)
  {
    forall i | 0 <= i < |a.reservations| ensures Successor(a.reservations[i], c.reservations[i]) {
      assert Successor(a.reservations[i], b.reservations[i]);
      assert Successor(b.reservations[i], c.reservations[i]);
    }
  }

  lemma {:induction false} RunExtends(b: Books, ops: seq<Op>)
    requires Inv(b)
    ensures Extends(b, Run(b, ops))
  {
    if ops == [] {
    } else {
      var mid := Run(b, ops[..|ops| - 1]);
      RunExtends(b, ops[..|ops| - 1]);
      RunKeepsInv(b, ops[..|ops| - 1]);
      StepExtends(mid, ops[|ops| - 1]);
      ExtendsTransitive(b, mid, Run(b, ops));
    }
  }

  lemma {:induction false} FoundIsUnique(b: Books, id: nat)
    requires Inv(b) && id < |b.reservations|
    ensures
      var r := b.reservations[id];
      FindKey(b.reservations, r.tenant, r.ledger, r.key) == Some(id)
  {
    var r := b.reservations[id];
    assert KeysUnique(b.reservations);
    assert FindKey(b.reservations, r.tenant, r.ledger, r.key).Some?;
  }

  /** Once a key has been granted, no retry after any further run, however delayed or racing, claims it again:
      the retry leaves the books alone. A retry that sees the row is answered with that very row, or a conflict if it
      asks for other units; one that raced is refused or answered with that very row. */
  lemma {:induction false} RetryNeverChargesTwice(
    b: Books, q: ReserveRequest, clock: Clock, ops: seq<Op>, retry: ReserveRequest, stale: bool, later: Clock)
    requires Inv(b)
    requires ReserveStep(b, q, false, clock).1.Done? && !ReserveStep(b, q, false, clock).1.receipt.replayed
    requires retry.tenant == q.tenant && retry.ledger == q.ledger && retry.key == q.key
    ensures
      var first := ReserveStep(b, q, false, clock);
      var b' := Run(first.0, ops);
      var second := ReserveStep(b', retry, stale, later);
      && second.0 == b'
      && (!stale && retry.units == q.units && ValidUnits(retry.units) ==>
            && second.1.Done? && second.1.receipt.replayed
            && second.1.receipt.reservation == first.1.receipt.reservation
            && second.1.receipt.units == q.units)
      && (!stale && retry.units != q.units ==> second.1 == Refused(ReservationConflict))
      && (!second.1.Refused? ==>
            && second.1.Done? && second.1.receipt.replayed && retry.units == q.units
            && second.1.receipt.reservation == first.1.receipt.reservation && second.1.receipt.units == q.units)
  {
    var first := ReserveStep(b, q, false, clock).0;
    var b' := Run(first, ops);
    var id := |b.reservations|;
    StepKeepsInv(b, Reserve(q, false, clock));
    RunKeepsInv(first, ops);
    RunExtends(first, ops);
    assert Successor(first.reservations[id], b'.reservations[id]);
    FoundIsUnique(b', id);
    assert RowOk(b', b'.reservations[id]);
  }

  /** The writes a ledger has seen are its rows plus the settled ones. */
  lemma {:induction false} WritesCount(rs: seq<Reservation>, l: nat)
    ensures Sum(rs, LedgerScope(l)).writes == CountRows(rs, l) + CountSettled(rs, l)
  {
    if rs != [] {
      WritesCount(rs[..|rs| - 1], l);
    }
  }

  function CountRows(rs: seq<Reservation>, l: nat): nat {
    if rs == [] then 0 else CountRows(rs[..|rs| - 1], l) + if rs[|rs| - 1].ledger == l then 1 else 0
  }

  function CountSettled(rs: seq<Reservation>, l: nat): nat {
    if rs == [] then 0
    else CountSettled(rs[..|rs| - 1], l) + if rs[|rs| - 1].ledger == l && !Open(rs[|rs| - 1]) then 1 else 0
  }

  // ---------------------------------------------------------------------------------------------
  // Settlement can never be blocked

  /** In every reachable state an open reservation can be released, and committed at or below its reserved cost,
      whatever operators did to the allowances in the meantime and whatever month it is. */
  lemma {:induction false} SettlementNeverBlocked(b: Books, id: nat, actual: Option<int>, z: Resolution, clock: Clock)
    requires Inv(b) && id < |b.reservations| && Open(b.reservations[id])
    requires z.requireUnknown ==> b.reservations[id].status.Unknown? && ValidManual(z)
    requires actual.Some? ==> 0 <= actual.value <= b.reservations[id].units.cost
    ensures
      var r := b.reservations[id];
      var released := ReleaseStep(b, r.tenant, id, z, clock);
      var committed := CommitStep(b, r.tenant, id, actual, z, clock);
      && released.1.Done? && released.0.reservations[id].status == Released
      && committed.1.Done? && committed.0.reservations[id].status == Committed
  {
    var r := b.reservations[id];
    assert RowOk(b, r);
    RoomIsNonnegative(b, r.ledger);
  }

  // ---------------------------------------------------------------------------------------------
  // The monthly aggregate

  function MonthTotal(b: Books, tenant: TenantId, month: Month): Units {
    Sum(b.reservations, MonthScope(tenant, month)).Total()
  }

  /** A settlement moves amounts only inside the month its reservation was made in, whatever the clock says. */
  lemma {:induction false} SettlementStaysInItsMonth(b: Books, op: Op, tenant: TenantId, month: Month)
    requires op.Commit? || op.Release? || op.MarkUnknown?
    requires op.id < |b.reservations| ==> !InScope(b.reservations[op.id], MonthScope(tenant, month))
    ensures Sum(Step(b, op).0.reservations, MonthScope(tenant, month)) == Sum(b.reservations, MonthScope(tenant, month))
  {
    StepSettles(b, op);
    var b' := Step(b, op).0;
    if b' != b {
      MoveTally(b.reservations, op.id, b'.reservations[op.id], MonthScope(tenant, month));
    }
  }

  lemma {:induction false} Exchange(a: Tally, now: Tally, units: Units)
    ensures a.Minus(Tally(units, NOTHING, 1)).Plus(now).held == a.held.Minus(units).Plus(now.held)
    ensures a.Minus(Tally(units, NOTHING, 1)).Plus(now).spent == a.spent.Plus(now.spent)
  {
  }

  /** What a new claim does to a sum. */
  lemma {:induction false} AddTally(rs: seq<Reservation>, r: Reservation, s: Scope)
    requires Open(r)
    ensures InScope(r, s) ==>
      && Sum(rs + [r], s).held == Sum(rs, s).held.Plus(r.units)
      && Sum(rs + [r], s).spent == Sum(rs, s).spent
      && Sum(rs + [r], s).writes == Sum(rs, s).writes + 1
    ensures !InScope(r, s) ==> Sum(rs + [r], s) == Sum(rs, s)
  {
    var a, e := Sum(rs, s), Entry(r, s);
    SumAppend(rs, r, s);
    Swap(a, ZERO, ZERO, ZERO);
    if InScope(r, s) {
      assert e == Tally(r.units, NOTHING, 1);
      assert a.spent.Plus(NOTHING) == a.spent;
    } else {
      assert e == ZERO;
    }
  }

  /** What replacing one row does to a sum. */
  lemma {:induction false} MoveTally(rs: seq<Reservation>, id: nat, now: Reservation, s: Scope)
    requires id < |rs| && Open(rs[id]) && SameClaim(rs[id], now)
    ensures InScope(now, s) ==>
      && Sum(rs[id := now], s).held == Sum(rs, s).held.Minus(now.units).Plus(Entry(now, s).held)
      && Sum(rs[id := now], s).spent == Sum(rs, s).spent.Plus(Entry(now, s).spent)
      && Sum(rs[id := now], s).writes == Sum(rs, s).writes - 1 + Entry(now, s).writes
    ensures !InScope(now, s) ==> Sum(rs[id := now], s) == Sum(rs, s)
  {
    var was, e := rs[id], Entry(now, s);
    SumUpdate(rs, id, now, s);
    var a := Sum(rs, s);
    if InScope(now, s) {
      assert Entry(was, s) == Tally(now.units, NOTHING, 1);
      Exchange(a, e, now.units);
    } else {
      Swap(a, ZERO, ZERO, ZERO);
      assert Entry(was, s) == ZERO && e == ZERO;
    }
  }

  /** Whenever an operation raises what a tenant's month has used and reserved, the raised amount is within the
      allowance in force at that very operation, even if operators changed the allowance before. */
  lemma {:induction false} NoStepOverdrawsMonth(b: Books, op: Op, tenant: TenantId, month: Month)
    requires Inv(b)
    ensures Covered(b, MonthTotal(b, tenant, month), MonthTotal(Step(b, op).0, tenant, month), tenant)
  {
    if op.Reserve? {
      ReserveCovered(b, op.request, op.stale, op.clock, tenant, month);
    } else if op.Commit? || op.Release? || op.MarkUnknown? {
      SettlementCovered(b, op, tenant, month);
    } else {
      assert Step(b, op).0.reservations == b.reservations;
    }
  }

  predicate Covered(b: Books, was: Units, now: Units, tenant: TenantId) {
    && (now.calls > was.calls ==> tenant in b.allowances && now.calls <= b.allowances[tenant].calls)
    && (now.cost > was.cost ==> tenant in b.allowances && now.cost <= b.allowances[tenant].cost)
  }

  lemma {:induction false} GrantCovered(b: Books, q: ReserveRequest, clock: Clock, tenant: TenantId, month: Month)
    requires q.ledger < |b.ledgers|
    requires NeedsMonth(q.units) ==> MonthAdmits(b, q.tenant, b.ledgers[q.ledger].currency, clock.month, q.units)
    ensures Covered(b, MonthTotal(b, tenant, month), MonthTotal(Granted(b, q, clock), tenant, month), tenant)
  {
    SumAppend(b.reservations, NewReservation(q, clock), MonthScope(tenant, month));
    if Some(month) != NewReservation(q, clock).window || tenant != q.tenant {
      assert Entry(NewReservation(q, clock), MonthScope(tenant, month)) == ZERO;
    } else {
      assert Entry(NewReservation(q, clock), MonthScope(tenant, month)) == Tally(q.units, NOTHING, 1);
    }
  }

  lemma {:induction false} ReserveCovered(
    b: Books, q: ReserveRequest, stale: bool, clock: Clock, tenant: TenantId, month: Month)
    ensures Covered(b, MonthTotal(b, tenant, month), MonthTotal(ReserveStep(b, q, stale, clock).0, tenant, month),
        tenant)
  {
    if ReserveStep(b, q, stale, clock).0 != b {
      GrantCovered(b, q, clock, tenant, month);
    }
  }

  lemma {:induction false} RowCovered(b: Books, id: nat, now: Reservation, tenant: TenantId, month: Month)
    requires id < |b.reservations| && RowOk(b, b.reservations[id])
    requires Open(b.reservations[id]) && SameClaim(b.reservations[id], now)
    requires now.status.Committed? ==> now.actualCost.Some? && CostFits(b, b.reservations[id], now.actualCost.value)
    ensures Covered(b, MonthTotal(b, tenant, month),
        Sum(b.reservations[id := now], MonthScope(tenant, month)).Total(), tenant)
  {
    var s := MonthScope(tenant, month);
    MoveTally(b.reservations, id, now, s);
    var a, a', e := Sum(b.reservations, s), Sum(b.reservations[id := now], s), Entry(now, s);
    if InScope(now, s) {
      if now.status.Committed? {
        assert e == Tally(NOTHING, now.units.(cost := now.actualCost.value), 2);
        assert now.actualCost.value > now.units.cost ==>
            a.Total().cost - now.units.cost + now.actualCost.value <= b.allowances[tenant].cost;
      }
      assert a'.Total().calls == a.Total().calls - now.units.calls + e.held.calls + e.spent.calls;
      assert a'.Total().cost == a.Total().cost - now.units.cost + e.held.cost + e.spent.cost;
    }
  }

  lemma {:induction false} SettlementCovered(b: Books, op: Op, tenant: TenantId, month: Month)
    requires Inv(b) && (op.Commit? || op.Release? || op.MarkUnknown?)
    ensures Covered(b, MonthTotal(b, tenant, month), MonthTotal(Step(b, op).0, tenant, month), tenant)
  {
    var b' := Step(b, op).0;
    StepSettles(b, op);
    if b' != b {
      assert RowOk(b, b.reservations[op.id]);
      RowCovered(b, op.id, b'.reservations[op.id], tenant, month);
    }
  }

  /** A commit is charged to a month exactly when the reservation claimed provider calls or cost: a step- or
      token-only reservation that turns out to cost something is charged to its ledger but to no month. */
  lemma {:induction false} CommitChargesItsMonth(
    b: Books, id: nat, actual: Option<int>, z: Resolution, clock: Clock, s: Scope)
    requires Inv(b) && id < |b.reservations| && Open(b.reservations[id])
    requires CommitStep(b, b.reservations[id].tenant, id, actual, z, clock).1.Done?
    ensures
      var r := b.reservations[id];
      var b' := CommitStep(b, r.tenant, id, actual, z, clock).0;
      && (NeedsMonth(r.units) <==> r.window.Some?)
      && Sum(b'.reservations, s).spent
           == (if !InScope(r, s) then Sum(b.reservations, s).spent
               else Sum(b.reservations, s).spent.Plus(
                   r.units.(cost := if actual.Some? then actual.value else r.units.cost)))
  {
    var r := b.reservations[id];
    assert RowOk(b, r);
    var now := CommitStep(b, r.tenant, id, actual, z, clock).0.reservations[id];
    assert Entry(now, s).spent == if InScope(r, s) then r.units.(cost := ActualCost(r, actual)) else NOTHING;
    SpentMoves(b.reservations, id, now, s);
  }

  lemma {:induction false} SpentMoves(rs: seq<Reservation>, id: nat, now: Reservation, s: Scope)
    requires id < |rs| && Open(rs[id]) && SameClaim(rs[id], now)
    ensures Sum(rs[id := now], s).spent == if InScope(rs[id], s) then Sum(rs, s).spent.Plus(Entry(now, s).spent)
        else Sum(rs, s).spent
  {
    MoveTally(rs, id, now, s);
  }

  // ---------------------------------------------------------------------------------------------
  // Refusal codes

  predicate Truthful(b: Books, q: ReserveRequest, clock: Clock, code: Code)
    requires q.ledger < |b.ledgers|
  {
    match code
    case LedgerClosed => b.ledgers[q.ledger].closed
    case DeadlineExceeded => b.ledgers[q.ledger].deadlineAt <= clock.app
    case LedgerVersionConflict => Version(b, q.ledger) != q.expectedVersion
    case BudgetExhausted => !Fits(b, q)
    case ReservationConflict => false
  }

  /** The deadline lies between the process clock and the database clock. */
  predicate ClocksStraddleDeadline(t: Terms, clock: Clock) { clock.app < t.deadlineAt <= clock.db }

  /** When the ledger itself refuses, the code names a condition that holds for every refusable request, exactly
      unless the two clocks straddle the deadline of an open ledger that still has room for something. */
  lemma {:induction false} RefusalsAreTruthful(b: Books, ledger: nat, clock: Clock)
    requires Inv(b) && ledger < |b.ledgers|
    ensures (forall q: ReserveRequest :: q.ledger == ledger && ValidUnits(q.units) && !LedgerAdmits(b, q, clock) ==>
               Truthful(b, q, clock, FailureCode(b, q, clock)))
       <==> !(&& ClocksStraddleDeadline(b.ledgers[ledger], clock) && !b.ledgers[ledger].closed
              && Remaining(b, ledger) != NOTHING)
  {
    RoomIsNonnegative(b, ledger);
    var room := Remaining(b, ledger);
    var u := if room.steps > 0 then Units(1, 0, 0, 0) else if room.tokens > 0 then Units(0, 1, 0, 0)
             else if room.calls > 0 then Units(0, 0, 1, 0) else Units(0, 0, 0, 1);
    if ClocksStraddleDeadline(b.ledgers[ledger], clock) && !b.ledgers[ledger].closed && room != NOTHING {
      var q := ReserveRequest(b.ledgers[ledger].tenant, ledger, "key", Version(b, ledger), u);
      assert ValidUnits(q.units) && !LedgerAdmits(b, q, clock);
      assert !Truthful(b, q, clock, FailureCode(b, q, clock));
    }
  }

  /** Such a refusal happens: one opened ledger, the database clock past its deadline, the process clock not yet. */
  lemma {:induction false} UntruthfulRefusal() returns (ops: seq<Op>, q: ReserveRequest, clock: Clock)
    ensures
      var b := Run(EMPTY, ops);
      && ReserveStep(b, q, false, clock) == (b, Refused(BudgetExhausted))
      && q.ledger < |b.ledgers| && !Truthful(b, q, clock, BudgetExhausted)
  {
    var input := LedgerInput(0, "c", "w", Units(1, 0, 0, 0), "USD", 0, 10);
    clock := Clock(10, 9, 0);
    ops := [CreateOrLoad(input, clock)];
    q := ReserveRequest(0, 0, "key", 1, Units(1, 0, 0, 0));
    OneLedger(input, clock);
    assert Sum([], LedgerScope(0)) == ZERO;
  }

  lemma {:induction false} OneLedger(input: LedgerInput, clock: Clock)
    requires AllInt32(input.limit) && CurrencyCode(input.currency) && input.startedAt < input.deadlineAt
    ensures Run(EMPTY, [CreateOrLoad(input, clock)]) == EMPTY.(ledgers := [NewTerms(input)])
  {
    var op := CreateOrLoad(input, clock);
    assert [op][..0] == [] && Run(EMPTY, []) == EMPTY;
    assert [] + [NewTerms(input)] == [NewTerms(input)];
  }
}
