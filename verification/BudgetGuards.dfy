/** What has to hold before a call of the budget ledger changes anything. */
module BudgetGuards {
  import opened Basics
  import opened BudgetBooks
  import opened BudgetLaws

  // ---------------------------------------------------------------------------------------------
  // The ledger version

  ghost predicate Grants(b: Books, op: Op) {
    op.Reserve? && |Step(b, op).0.reservations| > |b.reservations|
  }

  /** The version a caller has to expect: one plus the reservations of the ledger plus the settled ones among them. */
  function CountedVersion(b: Books, l: nat): int {
    1 + CountRows(b.reservations, l) + CountSettled(b.reservations, l)
  }

  /** A reserve call that changes the books adds one open row with the requested units under a key the ledger has not
      seen, to an open ledger of the caller's tenant before its deadline, and it expected the current version. */
  lemma {:induction false} GrantIsCurrent(b: Books, q: ReserveRequest, stale: bool, clock: Clock)
    requires ReserveStep(b, q, stale, clock).0 != b
    ensures q.expectedVersion == CountedVersion(b, q.ledger)
    ensures q.ledger < |b.ledgers| && b.ledgers[q.ledger].tenant == q.tenant
    ensures !b.ledgers[q.ledger].closed && clock.db < b.ledgers[q.ledger].deadlineAt
    ensures forall r :: r in b.reservations ==> r.tenant != q.tenant || r.ledger != q.ledger || r.key != q.key
    ensures
      var rs := ReserveStep(b, q, stale, clock).0.reservations;
      && |rs| == |b.reservations| + 1 && rs[..|b.reservations|] == b.reservations
      && var r := rs[|b.reservations|];
         r.tenant == q.tenant && r.ledger == q.ledger && r.key == q.key && r.units == q.units && r.status == Reserved
  {
    WritesCount(b.reservations, q.ledger);
  }

  /** For a new key on an open ledger before its deadline, any other version is answered with a version conflict. */
  lemma {:induction false} OtherVersionConflicts(b: Books, q: ReserveRequest, stale: bool, clock: Clock)
    requires ValidUnits(q.units) && BoundedKey(q.key) && LedgerKnown(b, q.tenant, q.ledger)
    requires FindKey(b.reservations, q.tenant, q.ledger, q.key).None?
    requires !b.ledgers[q.ledger].closed && clock.app < b.ledgers[q.ledger].deadlineAt
    requires q.expectedVersion != CountedVersion(b, q.ledger)
    ensures ReserveStep(b, q, stale, clock) == (b, Refused(LedgerVersionConflict))
  {
    WritesCount(b.reservations, q.ledger);
    assert FailureCode(b, q, clock) == LedgerVersionConflict;
    LedgerRefuses(b, q, stale, clock);
  }

  lemma {:induction false} LedgerRefuses(b: Books, q: ReserveRequest, stale: bool, clock: Clock)
    requires ValidUnits(q.units) && BoundedKey(q.key) && LedgerKnown(b, q.tenant, q.ledger)
    requires FindKey(b.reservations, q.tenant, q.ledger, q.key).None? && !LedgerAdmits(b, q, clock)
    ensures ReserveStep(b, q, stale, clock) == (b, Refused(FailureCode(b, q, clock)))
  {
  }

  /** Which code a ledger that does not admit a new key answers with: closed before late, late before outdated, and
      exhausted only for a ledger that is none of these. */
  lemma {:induction false} RefusalNames(b: Books, q: ReserveRequest, stale: bool, clock: Clock) returns (code: Code)
    requires ValidUnits(q.units) && BoundedKey(q.key) && LedgerKnown(b, q.tenant, q.ledger)
    requires FindKey(b.reservations, q.tenant, q.ledger, q.key).None? && !LedgerAdmits(b, q, clock)
    ensures ReserveStep(b, q, stale, clock) == (b, Refused(code))
    ensures
      var t := b.ledgers[q.ledger];
      && (code == LedgerClosed <==> t.closed)
      && (code == DeadlineExceeded <==> !t.closed && t.deadlineAt <= clock.app)
      && (code == LedgerVersionConflict <==>
            !t.closed && clock.app < t.deadlineAt && q.expectedVersion != CountedVersion(b, q.ledger))
      && (code == BudgetExhausted <==>
            !t.closed && clock.app < t.deadlineAt && q.expectedVersion == CountedVersion(b, q.ledger))
  {
    LedgerRefuses(b, q, stale, clock);
    code := CodeNames(b, q, clock);
  }

  lemma {:induction false} CodeNames(b: Books, q: ReserveRequest, clock: Clock) returns (code: Code)
    requires q.ledger < |b.ledgers|
    ensures code == FailureCode(b, q, clock)
    ensures
      var t := b.ledgers[q.ledger];
      && (code == LedgerClosed <==> t.closed)
      && (code == DeadlineExceeded <==> !t.closed && t.deadlineAt <= clock.app)
      && (code == LedgerVersionConflict <==>
            !t.closed && clock.app < t.deadlineAt && q.expectedVersion != CountedVersion(b, q.ledger))
      && (code == BudgetExhausted <==>
            !t.closed && clock.app < t.deadlineAt && q.expectedVersion == CountedVersion(b, q.ledger))
  {
    WritesCount(b.reservations, q.ledger);
    code := FailureCode(b, q, clock);
  }

  /** What a snapshot reports: the version a caller has to expect next, what the limit leaves after all that is held and
      spent, never below zero, and the time left by the process clock. */
  lemma {:induction false} SnapshotReports(b: Books, l: nat, clock: Clock)
    requires Inv(b) && l < |b.ledgers|
    ensures
      var n, t, sum := SnapshotOf(b, l, clock), b.ledgers[l], Sum(b.reservations, LedgerScope(l));
      && n.ledger == l && n.version == CountedVersion(b, l)
      && n.remaining.Plus(sum.held).Plus(sum.spent) == t.limit && NOTHING.Within(n.remaining)
      && (if clock.app < t.deadlineAt then n.remainingMs == t.deadlineAt - clock.app else n.remainingMs == 0)
      && n.currency == t.currency && n.startedAt == t.startedAt && n.deadlineAt == t.deadlineAt && n.closed == t.closed
  {
    WritesCount(b.reservations, l);
    RoomIsNonnegative(b, l);
    var sum := Sum(b.reservations, LedgerScope(l));
    RestAddsUp(b.ledgers[l].limit, sum.held, sum.spent);
    assert sum.Total() == sum.held.Plus(sum.spent);
  }

  lemma {:induction false} RestAddsUp(limit: Units, held: Units, spent: Units)
    ensures limit.Minus(held.Plus(spent)).Plus(held).Plus(spent) == limit
  {
  }

  /** What a reserve call has to bring to be granted. */
  ghost predicate MayClaim(b: Books, q: ReserveRequest, clock: Clock) {
    && AllInt32(q.units) && (q.units.steps > 0 || q.units.tokens > 0 || q.units.calls > 0 || q.units.cost > 0)
    && 0 < |q.key| <= 200
    && q.ledger < |b.ledgers|
    && var t := b.ledgers[q.ledger];
    && t.tenant == q.tenant && !t.closed && clock.db < t.deadlineAt
    && (forall r :: r in b.reservations ==> r.tenant != q.tenant || r.ledger != q.ledger || r.key != q.key)
    && q.expectedVersion == CountedVersion(b, q.ledger)
    && Sum(b.reservations, LedgerScope(q.ledger)).Total().Plus(q.units).Within(t.limit)
    && (q.units.calls > 0 || q.units.cost > 0 ==> MonthHasRoom(b, q, clock.month))
  }

  ghost predicate MonthHasRoom(b: Books, q: ReserveRequest, month: Month)
    requires q.ledger < |b.ledgers|
  {
    && q.tenant in b.allowances && b.allowances[q.tenant].currency == b.ledgers[q.ledger].currency
    && ((q.tenant, month) in b.months ==> b.months[(q.tenant, month)] == b.ledgers[q.ledger].currency)
    && MonthTotal(b, q.tenant, month).calls + q.units.calls <= b.allowances[q.tenant].calls
    && MonthTotal(b, q.tenant, month).cost + q.units.cost <= b.allowances[q.tenant].cost
  }

  lemma {:induction false} KeyIsNew(b: Books, q: ReserveRequest)
    ensures FindKey(b.reservations, q.tenant, q.ledger, q.key).None? <==>
      forall r :: r in b.reservations ==> r.tenant != q.tenant || r.ledger != q.ledger || r.key != q.key
  {
  }

  /** The conditions in the order in which the call meets them. */
  ghost predicate Passes(b: Books, q: ReserveRequest, clock: Clock) {
    && ValidUnits(q.units) && BoundedKey(q.key) && LedgerKnown(b, q.tenant, q.ledger)
    && FindKey(b.reservations, q.tenant, q.ledger, q.key).None? && LedgerAdmits(b, q, clock)
    && (NeedsMonth(q.units) ==> MonthAdmits(b, q.tenant, b.ledgers[q.ledger].currency, clock.month, q.units))
  }

  lemma {:induction false} GrantsWhenPassed(b: Books, q: ReserveRequest, stale: bool, clock: Clock)
    ensures Grants(b, Reserve(q, stale, clock)) <==> Passes(b, q, clock)
  {
  }

  lemma {:induction false} PassesIff(b: Books, q: ReserveRequest, clock: Clock)
    requires q.ledger < |b.ledgers|
    ensures Passes(b, q, clock) <==> MayClaim(b, q, clock)
  {
    KeyIsNew(b, q);
    RoomInTerms(b, q);
    WritesCount(b.reservations, q.ledger);
    assert MonthTotal(b, q.tenant, clock.month) == Sum(b.reservations, MonthScope(q.tenant, clock.month)).Total();
  }

  /** A reserve call is granted, whether its lookup was stale or not, if and only if it may claim. */
  lemma {:induction false} GrantedIff(b: Books, q: ReserveRequest, stale: bool, clock: Clock)
    ensures Grants(b, Reserve(q, stale, clock)) <==> MayClaim(b, q, clock)
  {
    GrantsWhenPassed(b, q, stale, clock);
    if q.ledger < |b.ledgers| { PassesIff(b, q, clock); }
  }

  lemma {:induction false} RoomInTerms(b: Books, q: ReserveRequest)
    requires q.ledger < |b.ledgers|
    ensures Fits(b, q) <==>
      Sum(b.reservations, LedgerScope(q.ledger)).Total().Plus(q.units).Within(b.ledgers[q.ledger].limit)
  {
  }

  lemma {:induction false} CountsGrow(b: Books, b': Books, n: nat, l: nat)
    requires n <= |b.reservations| <= |b'.reservations|
    requires forall i :: 0 <= i < |b.reservations| ==> Successor(b.reservations[i], b'.reservations[i])
    ensures CountRows(b.reservations[..n], l) == CountRows(b'.reservations[..n], l)
    ensures CountSettled(b.reservations[..n], l) <= CountSettled(b'.reservations[..n], l)
  {
    if n > 0 {
      CountsGrow(b, b', n - 1, l);
      assert b.reservations[..n][..n - 1] == b.reservations[..n - 1];
      assert b'.reservations[..n][..n - 1] == b'.reservations[..n - 1];
      assert Successor(b.reservations[n - 1], b'.reservations[n - 1]);
    }
  }

  lemma {:induction false} CountsAppend(rs: seq<Reservation>, n: nat, l: nat)
    requires n <= |rs|
    ensures CountRows(rs[..n], l) <= CountRows(rs, l) && CountSettled(rs[..n], l) <= CountSettled(rs, l)
    ensures n < |rs| && rs[n].ledger == l ==> CountRows(rs[..n], l) < CountRows(rs, l)
    decreases |rs| - n
  {
    if n == |rs| {
      assert rs[..n] == rs;
    } else {
      CountsAppend(rs, n + 1, l);
      assert rs[..n + 1][..n] == rs[..n];
    }
  }

  /** No call lowers a ledger's version. */
  lemma {:induction false} VersionsRise(b: Books, b': Books, l: nat)
    requires Extends(b, b')
    ensures CountedVersion(b, l) <= CountedVersion(b', l)
    ensures |b.reservations| < |b'.reservations| && b'.reservations[|b.reservations|].ledger == l ==>
      CountedVersion(b, l) < CountedVersion(b', l)
  {
    var n := |b.reservations|;
    CountsGrow(b, b', n, l);
    CountsAppend(b'.reservations, n, l);
    assert b.reservations[..n] == b.reservations;
  }

  lemma {:induction false} RunSplits(b: Books, ops: seq<Op>, i: nat)
    requires i <= |ops|
    ensures Run(b, ops) == Run(Run(b, ops[..i]), ops[i..])
    decreases |ops|
  {
    if i == |ops| {
      assert ops[..i] == ops && ops[i..] == [];
    } else {
      var n, rest := |ops| - 1, ops[i..];
      RunSplits(b, ops[..n], i);
      assert ops[..n][..i] == ops[..i] && ops[..n][i..] == rest[..|rest| - 1] && rest[|rest| - 1] == ops[n];
    }
  }

  /** Over every run, at most one reserve call per ledger and expected version is granted. */
  lemma {:induction false} OneGrantPerVersion(b: Books, ops: seq<Op>, i: nat, j: nat)
    requires Inv(b) && i < j < |ops|
    requires Grants(Run(b, ops[..i]), ops[i]) && Grants(Run(b, ops[..j]), ops[j])
    requires ops[i].request.ledger == ops[j].request.ledger
    ensures ops[i].request.expectedVersion < ops[j].request.expectedVersion
  {
    var first, second, l := Run(b, ops[..i]), Run(b, ops[..j]), ops[i].request.ledger;
    var granted := Step(first, ops[i]).0;
    RunKeepsInv(b, ops[..i]);
    StepKeepsInv(first, ops[i]);
    StepExtends(first, ops[i]);
    var k := i + 1;
    assert ops[..k][..i] == ops[..i] && Run(b, ops[..k]) == granted;
    RunSplits(b, ops[..j], k);
    assert ops[..j][..k] == ops[..k];
    RunExtends(granted, ops[..j][k..]);
    GrantIsCurrent(first, ops[i].request, ops[i].stale, ops[i].clock);
    GrantIsCurrent(second, ops[j].request, ops[j].stale, ops[j].clock);
    VersionsRise(first, granted, l);
    VersionsRise(granted, second, l);
  }

  // ---------------------------------------------------------------------------------------------
  // What is stored is proper

  predicate ProperTerms(t: Terms) { CurrencyCode(t.currency) && t.startedAt < t.deadlineAt }

  /** Bounded key, something claimed, and the month it is charged to runs in the currency of its ledger. */
  predicate ProperRow(b: Books, r: Reservation) {
    && 0 < |r.key| <= 200
    && (r.units.steps > 0 || r.units.tokens > 0 || r.units.calls > 0 || r.units.cost > 0)
    && (r.window.Some? ==>
          && r.ledger < |b.ledgers| && (r.tenant, r.window.value) in b.months
          && b.months[(r.tenant, r.window.value)] == b.ledgers[r.ledger].currency)
  }

  ghost predicate Proper(b: Books) {
    && (forall l :: 0 <= l < |b.ledgers| ==> ProperTerms(b.ledgers[l]))
    && (forall i :: 0 <= i < |b.reservations| ==> ProperRow(b, b.reservations[i]))
  }

  /** Ledgers and month currencies are only added. */
  ghost predicate Widens(b: Books, b': Books) {
    b.ledgers <= b'.ledgers && forall k :: k in b.months ==> k in b'.months && b'.months[k] == b.months[k]
  }

  lemma {:induction false} StepWidens(b: Books, op: Op)
    ensures Widens(b, Step(b, op).0)
  {
    if op.Commit? || op.Release? || op.MarkUnknown? { StepSettles(b, op); }
  }

  lemma {:induction false} StepKeepsProper(b: Books, op: Op)
    requires Proper(b)
    ensures Proper(Step(b, op).0)
  {
    var b' := Step(b, op).0;
    StepWidens(b, op);
    StepExtends(b, op);
    forall i | 0 <= i < |b'.reservations| ensures ProperRow(b', b'.reservations[i]) {
      if i < |b.reservations| {
        assert ProperRow(b, b.reservations[i]) && Successor(b.reservations[i], b'.reservations[i]);
      }
    }
  }

  /** In every reachable state ledgers have a currency and a deadline after their start, rows have a bounded key and
      claim something, and a month never mixes currencies. */
  lemma {:induction false} RunKeepsProper(ops: seq<Op>)
    ensures Proper(Run(EMPTY, ops))
  {
    if ops != [] {
      RunKeepsProper(ops[..|ops| - 1]);
      StepKeepsProper(Run(EMPTY, ops[..|ops| - 1]), ops[|ops| - 1]);
    }
  }

  // ---------------------------------------------------------------------------------------------
  // Committing above the reserved cost

  /** An open row can be committed at a cost if and only if what goes beyond the reserved cost fits the ledger and, for
      a row with a month, the allowance in force, which has to be in the ledger's currency. */
  lemma {:induction false} CommittedIff(b: Books, id: nat, cost: int, clock: Clock)
    requires Inv(b) && Proper(b) && id < |b.reservations| && Open(b.reservations[id]) && Int32(cost)
    ensures
      var r := b.reservations[id];
      var l, extra := b.ledgers[r.ledger], cost - r.units.cost;
      CommitStep(b, r.tenant, id, Some(cost), Resolution(false, None, None), clock).1.Done? <==>
        && Sum(b.reservations, LedgerScope(r.ledger)).Total().cost + extra <= l.limit.cost
        && (r.window.Some? && extra > 0 ==>
              && r.tenant in b.allowances && b.allowances[r.tenant].currency == l.currency
              && MonthTotal(b, r.tenant, r.window.value).cost + extra <= b.allowances[r.tenant].cost)
  {
    assert RowOk(b, b.reservations[id]) && ProperRow(b, b.reservations[id]);
  }

  /** Marking an open row as unknown keeps what it holds in every ledger and month. */
  lemma {:induction false} UnknownHolds(b: Books, id: nat, clock: Clock, s: Scope)
    requires Inv(b) && id < |b.reservations| && Open(b.reservations[id])
    ensures
      var (b', out) := MarkUnknownStep(b, b.reservations[id].tenant, id, clock);
      && out.Done? && b'.reservations[id].status == Unknown && Sum(b'.reservations, s) == Sum(b.reservations, s)
  {
    var r := b.reservations[id];
    assert RowOk(b, r);
    SameEntrySameSum(b.reservations, id, r.(status := Unknown), s);
    assert b.reservations[id := r] == b.reservations;
  }

  lemma {:induction false} SameEntrySameSum(rs: seq<Reservation>, id: nat, now: Reservation, s: Scope)
    requires id < |rs| && Entry(now, s) == Entry(rs[id], s)
    ensures Sum(rs[id := now], s) == Sum(rs, s)
  {
    SumUpdate(rs, id, now, s);
    var a, e := Sum(rs, s), Entry(now, s);
    assert a.Minus(e).Plus(e) == a;
  }

  /** Releasing an open row gives back exactly what it held and spends nothing. */
  lemma {:induction false} ReleaseReturns(b: Books, id: nat, clock: Clock, s: Scope)
    requires Inv(b) && id < |b.reservations| && Open(b.reservations[id])
    ensures
      var r := b.reservations[id];
      var (b', out) := ReleaseStep(b, r.tenant, id, Resolution(false, None, None), clock);
      && out.Done? && b'.reservations[id].status == Released
      && Sum(b'.reservations, s).spent == Sum(b.reservations, s).spent
      && Sum(b'.reservations, s).held
           == if InScope(r, s) then Sum(b.reservations, s).held.Minus(r.units) else Sum(b.reservations, s).held
  {
    var r := b.reservations[id];
    assert RowOk(b, r);
    var now := r.(status := Released, actualCost := None, resolvedBy := None, note := None);
    MoveTally(b.reservations, id, now, s);
    assert Entry(now, s).held == NOTHING && Entry(now, s).spent == NOTHING;
    var a := Sum(b.reservations, s);
    assert a.held.Minus(r.units).Plus(NOTHING) == a.held.Minus(r.units) && a.spent.Plus(NOTHING) == a.spent;
  }

  // ---------------------------------------------------------------------------------------------
  // Opening again

  lemma {:induction false} LedgerFound(b: Books, l: nat)
    requires TermsOk(b) && l < |b.ledgers|
    ensures FindLedger(b.ledgers, b.ledgers[l].tenant, b.ledgers[l].workflowRun) == Some(l)
  {
  }

  predicate SameTerms(a: LedgerInput, b: LedgerInput) {
    a.caseId == b.caseId && a.limit == b.limit && a.currency == b.currency
  }

  lemma {:induction false} Reopens(b: Books, l: nat, i: LedgerInput, again: LedgerInput, clock: Clock)
    requires TermsOk(b) && l < |b.ledgers| && AllInt32(i.limit) && CurrencyCode(i.currency)
    requires b.ledgers[l].tenant == again.tenant && b.ledgers[l].workflowRun == again.workflowRun
    requires b.ledgers[l].caseId == i.caseId && b.ledgers[l].limit == i.limit && b.ledgers[l].currency == i.currency
    requires again.startedAt < again.deadlineAt
    ensures
      CreateOrLoadStep(b, again, clock)
        == (b, if SameTerms(again, i) then Opened(SnapshotOf(b, l, clock)) else Refused(ReservationConflict))
  {
    LedgerFound(b, l);
  }

  lemma {:induction false} OpenedAs(b: Books, i: LedgerInput, clock: Clock)
    requires CreateOrLoadStep(b, i, clock).1.Opened?
    ensures AllInt32(i.limit) && CurrencyCode(i.currency)
    ensures
      var (b', out) := CreateOrLoadStep(b, i, clock);
      var l := out.snapshot.ledger;
      && l < |b'.ledgers| && b'.ledgers[l].tenant == i.tenant && b'.ledgers[l].workflowRun == i.workflowRun
      && b'.ledgers[l].caseId == i.caseId && b'.ledgers[l].limit == i.limit && b'.ledgers[l].currency == i.currency
  {
  }

  /** Once a workflow run has its ledger, then after any further run opening it again leads to that very ledger if case,
      limits and currency are the same, and to a conflict otherwise; nothing is added. */
  lemma {:induction false} OpensOnce(
    b: Books, i: LedgerInput, clock: Clock, ops: seq<Op>, again: LedgerInput, later: Clock)
    requires Inv(b) && CreateOrLoadStep(b, i, clock).1.Opened?
    requires again.tenant == i.tenant && again.workflowRun == i.workflowRun && again.startedAt < again.deadlineAt
    ensures
      var first := CreateOrLoadStep(b, i, clock);
      var b' := Run(first.0, ops);
      var second := CreateOrLoadStep(b', again, later);
      && second.0 == b'
      && (SameTerms(again, i) ==> second.1.Opened? && second.1.snapshot.ledger == first.1.snapshot.ledger)
      && (!SameTerms(again, i) ==> second.1 == Refused(ReservationConflict))
  {
    OpenedAs(b, i, clock);
    var first := Step(b, CreateOrLoad(i, clock));
    StepKeepsInv(b, CreateOrLoad(i, clock));
    RunKeepsInv(first.0, ops);
    RunExtends(first.0, ops);
    Reopens(Run(first.0, ops), first.1.snapshot.ledger, i, again, later);
  }

  // ---------------------------------------------------------------------------------------------
  // Manual settlement, and whose rows a call touches

  /** A manual settlement touches only a row whose outcome is unknown, and leaves a name and a note of at least ten
      characters on it. */
  lemma {:induction false} ManualSettlementIsSigned(b: Books, op: Op)
    requires (op.Commit? || op.Release?) && op.resolution.requireUnknown && Step(b, op).0 != b
    ensures op.id < |b.reservations| && b.reservations[op.id].status == Unknown
    ensures
      var r := Step(b, op).0.reservations[op.id];
      && r.resolvedBy.Some? && 0 < |r.resolvedBy.value| <= 200 && !Blank(r.resolvedBy.value)
      && r.note.Some? && 10 <= |r.note.value| <= 2000 && !Blank(r.note.value)
  {
    StepSettles(b, op);
  }

  function TenantOf(op: Op): TenantId {
    match op
    case CreateOrLoad(i, _) => i.tenant
    case Reserve(q, _, _) => q.tenant
    case _ => op.tenant
  }

  /** A call on behalf of one tenant leaves every row, month and allowance of every other tenant as it was. */
  lemma {:induction false} TenantsAreApart(b: Books, op: Op, tenant: TenantId)
    requires TenantOf(op) != tenant
    ensures
      var b' := Step(b, op).0;
      && (forall i :: 0 <= i < |b'.reservations| && b'.reservations[i].tenant == tenant ==>
            i < |b.reservations| && b'.reservations[i] == b.reservations[i])
      && (forall l :: 0 <= l < |b'.ledgers| && b'.ledgers[l].tenant == tenant ==>
            l < |b.ledgers| && b'.ledgers[l] == b.ledgers[l])
      && (forall m: Month :: ((tenant, m) in b'.months <==> (tenant, m) in b.months)
            && ((tenant, m) in b.months ==> b'.months[(tenant, m)] == b.months[(tenant, m)]))
      && (tenant in b'.allowances <==> tenant in b.allowances)
      && (tenant in b.allowances ==> b'.allowances[tenant] == b.allowances[tenant])
  {
    if op.Commit? || op.Release? || op.MarkUnknown? { StepSettles(b, op); }
  }
}
