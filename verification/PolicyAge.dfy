/** How old what an evaluation reuses may be: in every interleaving it goes back to a resolution of the last hour. */
module PolicyAge {
  import opened Basics
  import opened Sorting
  import opened PolicyCatalog
  import opened PolicyResolver
  import opened PolicyContextKey
  import opened PolicyDependency
  import opened PolicyWording
  import opened PolicyEvaluation
  import opened PolicyBindings

  /** A resolver's answer to an evaluation that started resolving at `at`. */
  datatype Record = Record(caseId: nat, ctx: Context, at: Instant, res: Resolution)

  ghost function RecordOf(s: State, a: Action): set<Record> {
    if a.Answer? && a.e in s.evaluators && s.evaluators[a.e].phase.SawRows? then
      var v := s.evaluators[a.e];
      {Record(v.caseId, v.ctx, v.phase.l.at, a.res)}
    else {}
  }

  /** All answers the resolver gave in a run. */
  ghost function Records(s: State, actions: seq<Action>): set<Record>
    decreases |actions|
  {
    if actions == [] then {} else RecordOf(s, actions[0]) + Records(Apply(s, actions[0]), actions[1..])
  }

  /** The record names these versions, and the deadline is the earlier of an hour after it began and of what the
      resolver asked for. */
  ghost predicate Supports(s: State, r: Record, b: Binding)
    requires b.snapshot < |s.snapshots|
  {
    && r.caseId == b.caseId && ContextKey(r.ctx) == b.contextKey && r.at <= s.now && r.res.resolved
    && Members(r.res.versions) == Members(s.snapshots[b.snapshot].versions)
    && b.revalidateAfter <= r.at + 3_600_000
    && (r.res.revalidateAfter.Some? ==> b.revalidateAfter <= r.res.revalidateAfter.value)
    && (b.revalidateAfter == r.at + 3_600_000 || r.res.revalidateAfter == Some(b.revalidateAfter))
  }

  /** A row of this resolver release goes back to one of the records. */
  ghost predicate Backed(s: State, known: set<Record>, b: Binding) {
    b.snapshot < |s.snapshots| && s.snapshots[b.snapshot].resolverVersion == RESOLVER_VERSION ==>
      exists r :: r in known && Supports(s, r, b)
  }

  ghost predicate LocalsBacked(s: State, known: set<Record>, l: Locals) {
    l.existing.Some? ==> Backed(s, known, l.existing.value.row)
  }

  ghost predicate EvaluatorBacked(s: State, known: set<Record>, v: Evaluator) {
    match v.phase
    case SawBinding(_, existing) => existing.Some? ==> Backed(s, known, existing.value.row)
    case Resolving(l) => LocalsBacked(s, known, l)
    case Dated(l, _) => LocalsBacked(s, known, l)
    case SawRevisions(l, _, _) => LocalsBacked(s, known, l)
    case SawRows(l, _, _, _) => LocalsBacked(s, known, l)
    case Answered(l, res) => LocalsBacked(s, known, l) && Record(v.caseId, v.ctx, l.at, res) in known
    case RefreshStored(l, res, _) => LocalsBacked(s, known, l) && Record(v.caseId, v.ctx, l.at, res) in known
    case Cleared(l, res, _) => LocalsBacked(s, known, l) && Record(v.caseId, v.ctx, l.at, res) in known
    case SawWinner(w) => Backed(s, known, w)
    case _ => true
  }

  ghost predicate AllBacked(s: State, known: set<Record>) {
    && (forall i :: 0 <= i < |s.bindings| ==> Backed(s, known, s.bindings[i]))
    && (forall e :: e in s.evaluators ==> EvaluatorBacked(s, known, s.evaluators[e]))
  }

  // ---------------------------------------------------------------------------------------------
  // What is backed stays backed

  ghost predicate Later(s: State, s': State, known: set<Record>, known': set<Record>) {
    s.now <= s'.now && s.snapshots <= s'.snapshots && known <= known'
  }

  lemma {:induction false} StaysBacked(s: State, s': State, known: set<Record>, known': set<Record>, b: Binding)
    requires Later(s, s', known, known') && Backed(s, known, b) && b.snapshot < |s.snapshots|
    ensures Backed(s', known', b)
  {
    if s.snapshots[b.snapshot].resolverVersion == RESOLVER_VERSION {
      var r :| r in known && Supports(s, r, b);
      assert Supports(s', r, b);
    }
  }

  lemma {:induction false} EvaluatorStaysBacked(
    s: State, s': State, known: set<Record>, known': set<Record>, v: Evaluator)
    requires Later(s, s', known, known') && EvaluatorOk(s, v) && EvaluatorBacked(s, known, v)
    ensures EvaluatorBacked(s', known', v)
  {
    match v.phase
    case SawBinding(_, existing) => if existing.Some? { StaysBacked(s, s', known, known', existing.value.row); }
    case Resolving(l) => LocalsStayBacked(s, s', known, known', v, l);
    case Dated(l, _) => LocalsStayBacked(s, s', known, known', v, l);
    case SawRevisions(l, _, _) => LocalsStayBacked(s, s', known, known', v, l);
    case SawRows(l, _, _, _) => LocalsStayBacked(s, s', known, known', v, l);
    case Answered(l, _) => LocalsStayBacked(s, s', known, known', v, l);
    case RefreshStored(l, _, _) => LocalsStayBacked(s, s', known, known', v, l);
    case Cleared(l, _, _) => LocalsStayBacked(s, s', known, known', v, l);
    case SawWinner(w) => StaysBacked(s, s', known, known', w);
    case _ =>
  }

  lemma {:induction false} LocalsStayBacked(
    s: State, s': State, known: set<Record>, known': set<Record>, v: Evaluator, l: Locals)
    requires Later(s, s', known, known') && LocalsOk(s, v, l) && LocalsBacked(s, known, l)
    ensures LocalsBacked(s', known', l)
  {
    if l.existing.Some? { StaysBacked(s, s', known, known', l.existing.value.row); }
  }

  /** A step that adds or alters at most binding `i`, and moves at most evaluator `e`. */
  lemma {:induction false} OthersStayBacked(
    s: State, s': State, known: set<Record>, known': set<Record>, i: nat, e: nat)
    requires Inv(s) && AllBacked(s, known) && Later(s, s', known, known')
    requires |s'.bindings| == |s.bindings| || (|s'.bindings| == |s.bindings| + 1 && i == |s.bindings|)
    requires forall k :: 0 <= k < |s.bindings| && k != i ==> SameDeadline(s.bindings[k], s'.bindings[k])
    requires forall d :: d in s'.evaluators && d != e ==> d in s.evaluators && s'.evaluators[d] == s.evaluators[d]
    requires i < |s'.bindings| ==> Backed(s', known', s'.bindings[i])
    requires e in s'.evaluators ==> EvaluatorBacked(s', known', s'.evaluators[e])
    ensures AllBacked(s', known')
  {
    forall k | 0 <= k < |s'.bindings| ensures Backed(s', known', s'.bindings[k]) {
      if k != i {
        assert BindingOk(s, s.bindings[k]);
        StaysBacked(s, s', known, known', s.bindings[k]);
        SameBacked(s', known', s.bindings[k], s'.bindings[k]);
      }
    }
    forall d | d in s'.evaluators ensures EvaluatorBacked(s', known', s'.evaluators[d]) {
      if d != e {
        assert EvaluatorOk(s, s.evaluators[d]);
        EvaluatorStaysBacked(s, s', known, known', s.evaluators[d]);
      }
    }
  }

  /** Invalidating a row changes nothing else in it. */
  predicate SameDeadline(b: Binding, b': Binding) { b'.(active := b.active) == b }

  lemma {:induction false} SameBacked(s: State, known: set<Record>, b: Binding, b': Binding)
    requires SameDeadline(b, b') && Backed(s, known, b)
    ensures Backed(s, known, b')
  {
    if b.snapshot < |s.snapshots| && s.snapshots[b.snapshot].resolverVersion == RESOLVER_VERSION {
      var r :| r in known && Supports(s, r, b);
      assert Supports(s, r, b');
    }
  }

  // ---------------------------------------------------------------------------------------------
  // The two writes of a deadline

  lemma {:induction false} NewDeadline(at: Instant, res: Resolution)
    ensures
      var d := NextRevalidationDeadline(at, res);
      && d <= at + 3_600_000
      && (res.revalidateAfter.Some? ==> d <= res.revalidateAfter.value)
      && (d == at + 3_600_000 || res.revalidateAfter == Some(d))
  {
  }

  lemma {:induction false} RefreshBacked(s: State, e: nat, known: set<Record>)
    requires Inv(s) && AllBacked(s, known) && e in s.evaluators && s.evaluators[e].phase.Cleared?
    ensures AllBacked(Advance(s, e), known)
  {
    var v, s' := s.evaluators[e], Advance(s, e);
    assert EvaluatorOk(s, v) && EvaluatorBacked(s, known, v);
    if s'.bindings != s.bindings {
      var l, res := v.phase.l, v.phase.res;
      var r := Record(v.caseId, v.ctx, l.at, res);
      NewDeadline(l.at, res);
      StoredVersions(s.cat, res.versions);
      assert r in known && Supports(s', r, NewBinding(v, l, res, v.phase.snapshot));
    }
    OthersStayBacked(s, s', known, known, |s.bindings|, e);
  }

  lemma {:induction false} ReuseBacked(s: State, e: nat, l: Locals, res: Resolution, known: set<Record>)
    requires Inv(s) && AllBacked(s, known) && e in s.evaluators && s.evaluators[e].phase == Answered(l, res)
    requires Decide(s, l, s.evaluators[e].ctx, res).ReuseInPlace?
    ensures AllBacked(Advance(s, e), known)
  {
    var v, s' := s.evaluators[e], Advance(s, e);
    assert EvaluatorOk(s, v) && EvaluatorBacked(s, known, v);
    var f, r := l.existing.value, Record(v.caseId, v.ctx, l.at, res);
    NewDeadline(l.at, res);
    ReusedVersions(s, v, l, res);
    assert BindingOk(s, s.bindings[f.id]);
    assert r in known && Supports(s', r, s'.bindings[f.id]);
    OthersStayBacked(s, s', known, known, f.id, e);
  }

  /** Rows are invalidated at most. */
  ghost predicate OnlyInvalidates(s: State, s': State) {
    && Later(s, s', {}, {}) && |s'.bindings| == |s.bindings| && s'.evaluators.Keys == s.evaluators.Keys
    && forall k :: 0 <= k < |s.bindings| ==> SameDeadline(s.bindings[k], s'.bindings[k])
  }

  lemma {:induction false} PhaseBacked(s: State, s': State, e: nat, known: set<Record>)
    requires Inv(s) && AllBacked(s, known) && e in s.evaluators && OnlyInvalidates(s, s')
    requires s'.evaluators == s.evaluators[e := s'.evaluators[e]] && EvaluatorBacked(s', known, s'.evaluators[e])
    ensures AllBacked(s', known)
  {
    OthersStayBacked(s, s', known, known, |s.bindings|, e);
  }

  lemma {:induction false} SetPhaseBacked(s: State, e: nat, p: Phase, known: set<Record>)
    requires Inv(s) && AllBacked(s, known) && e in s.evaluators
    requires EvaluatorBacked(s, known, s.evaluators[e].(phase := p))
    ensures AllBacked(SetPhase(s, e, p), known)
  {
    var s' := SetPhase(s, e, p);
    ReadsAnswer(s, s', known, s'.evaluators[e]);
    PhaseBacked(s, s', e, known);
  }

  lemma {:induction false} ReadsBacked(s: State, e: nat, known: set<Record>)
    requires Inv(s) && AllBacked(s, known) && e in s.evaluators
    requires Reading(s.evaluators[e].phase)
    ensures AllBacked(Advance(s, e), known)
  {
    var v := s.evaluators[e];
    assert EvaluatorBacked(s, known, v);
    var i := ActiveBinding(s.bindings, v.caseId);
    assert i.Some? ==> Backed(s, known, s.bindings[i.value]);
    SetPhaseBacked(s, e, Advance(s, e).evaluators[e].phase, known);
  }

  lemma {:induction false} ReturnsBacked(s: State, e: nat, known: set<Record>)
    requires Inv(s) && AllBacked(s, known) && e in s.evaluators
    requires s.evaluators[e].phase.SawBinding? || s.evaluators[e].phase.SawWinner?
    ensures AllBacked(Advance(s, e), known)
  {
    assert EvaluatorBacked(s, known, s.evaluators[e]);
    SetPhaseBacked(s, e, Advance(s, e).evaluators[e].phase, known);
  }

  /** What is backed does not depend on where evaluators stand. */
  lemma {:induction false} ReadsAnswer(s: State, s': State, known: set<Record>, v: Evaluator)
    requires s'.snapshots == s.snapshots && s'.now == s.now && EvaluatorBacked(s, known, v)
    ensures EvaluatorBacked(s', known, v)
  {
    assert forall b :: Backed(s, known, b) ==> Backed(s', known, b) by {
      forall b | Backed(s, known, b) ensures Backed(s', known, b) {
        if b.snapshot < |s.snapshots| && s.snapshots[b.snapshot].resolverVersion == RESOLVER_VERSION {
          var r :| r in known && Supports(s, r, b);
          assert Supports(s', r, b);
        }
      }
    }
  }

  lemma {:induction false} StoreBacked(s: State, e: nat, l: Locals, res: Resolution, known: set<Record>)
    requires Inv(s) && AllBacked(s, known) && e in s.evaluators && s.evaluators[e].phase == Answered(l, res)
    requires !Decide(s, l, s.evaluators[e].ctx, res).ReuseInPlace?
    ensures AllBacked(Advance(s, e), known)
  {
    var v, s' := s.evaluators[e], Advance(s, e);
    assert EvaluatorOk(s, v) && EvaluatorBacked(s, known, v);
    LocalsStayBacked(s, s', known, known, v, l);
    PhaseBacked(s, s', e, known);
  }

  lemma {:induction false} ClearBacked(s: State, e: nat, known: set<Record>)
    requires Inv(s) && AllBacked(s, known) && e in s.evaluators && s.evaluators[e].phase.RefreshStored?
    ensures AllBacked(Advance(s, e), known)
  {
    var v, s' := s.evaluators[e], Advance(s, e);
    assert EvaluatorOk(s, v) && EvaluatorBacked(s, known, v);
    LocalsStayBacked(s, s', known, known, v, v.phase.l);
    PhaseBacked(s, s', e, known);
  }

  lemma {:induction false} AdvanceBacked(s: State, e: nat, known: set<Record>)
    requires Inv(s) && AllBacked(s, known) && e in s.evaluators
    ensures AllBacked(Advance(s, e), known)
  {
    match s.evaluators[e].phase
    case Cleared(_, _, _) => RefreshBacked(s, e, known);
    case Answered(l, res) =>
      if Decide(s, l, s.evaluators[e].ctx, res).ReuseInPlace? {
        ReuseBacked(s, e, l, res, known);
      } else {
        StoreBacked(s, e, l, res, known);
      }
    case RefreshStored(_, _, _) => ClearBacked(s, e, known);
    case ReviewStored(_) => PhaseBacked(s, Advance(s, e), e, known);
    case SawBinding(_, _) => ReturnsBacked(s, e, known);
    case SawWinner(_) => ReturnsBacked(s, e, known);
    case SawRows(_, _, _, _) =>
    case Returned(_) =>
    case Threw =>
    case _ => ReadsBacked(s, e, known);
  }

  // ---------------------------------------------------------------------------------------------
  // Every run

  lemma {:induction false} AnswerBacked(s: State, e: nat, res: Resolution, known: set<Record>)
    requires Inv(s) && Enabled(s, Answer(e, res)) && AllBacked(s, known)
    ensures AllBacked(Apply(s, Answer(e, res)), known + RecordOf(s, Answer(e, res)))
  {
    var v, s', known' := s.evaluators[e], Apply(s, Answer(e, res)), known + RecordOf(s, Answer(e, res));
    assert EvaluatorOk(s, v) && EvaluatorBacked(s, known, v);
    LocalsStayBacked(s, s', known, known', v, v.phase.l);
    OthersStayBacked(s, s', known, known', |s.bindings|, e);
  }

  lemma {:induction false} StepBacked(s: State, a: Action, known: set<Record>)
    requires Inv(s) && Enabled(s, a) && AllBacked(s, known)
    ensures AllBacked(Apply(s, a), known + RecordOf(s, a))
  {
    var s', known' := Apply(s, a), known + RecordOf(s, a);
    if a.Go? {
      AdvanceBacked(s, a.e, known);
      assert known' == known;
    } else if a.Answer? {
      AnswerBacked(s, a.e, a.res, known);
    } else if a.Call? {
      OthersStayBacked(s, s', known, known', |s.bindings|, a.e);
    } else {
      EnvironmentKeepsInv(s, a);
      var e := FreshId(s.evaluators.Keys);
      OthersStayBacked(s, s', known, known', |s.bindings|, e);
    }
  }

  lemma {:induction false} RunBacked(s: State, actions: seq<Action>, s': State, known: set<Record>)
    requires Inv(s) && AllBacked(s, known) && Runs(s, actions, s')
    ensures Inv(s') && AllBacked(s', known + Records(s, actions))
    decreases |actions|
  {
    if actions == [] {
      assert known + {} == known;
    } else {
      var m, first := Apply(s, actions[0]), RecordOf(s, actions[0]);
      StepKeepsInv(s, actions[0]);
      StepBacked(s, actions[0], known);
      RunBacked(m, actions[1..], s', known + first);
      assert known + first + Records(m, actions[1..]) == known + Records(s, actions);
    }
  }

  /** In every interleaving: a fast path returns versions that the resolver named for that case and context in an
      evaluation of this run that began less than an hour ago. */
  lemma {:induction false} ReuseIsRecent(s0: State, actions: seq<Action>, s: State, e: nat) returns (r: Record)
    requires Initial(s0) && Runs(s0, actions, s)
    requires e in s.evaluators && s.evaluators[e].phase.SawBinding? && s.evaluators[e].phase.existing.Some?
    requires FastPath(s, s.evaluators[e].phase.existing.value, s.evaluators[e].ctx, s.evaluators[e].phase.generation)
    ensures r in Records(s0, actions) && r.res.resolved
    ensures r.caseId == s.evaluators[e].caseId && ContextKey(r.ctx) == ContextKey(s.evaluators[e].ctx)
    ensures r.at <= s.now < r.at + 3_600_000 && (r.res.revalidateAfter.Some? ==> s.now < r.res.revalidateAfter.value)
    ensures Advance(s, e).evaluators[e].phase.Returned? && Advance(s, e).evaluators[e].phase.result.Evaluated?
    ensures Members(Advance(s, e).evaluators[e].phase.result.versions) == Members(r.res.versions)
  {
    InitialIsOk(s0);
    RunBacked(s0, actions, s, {});
    assert {} + Records(s0, actions) == Records(s0, actions);
    var v := s.evaluators[e];
    assert EvaluatorOk(s, v) && EvaluatorBacked(s, Records(s0, actions), v);
    r :| r in Records(s0, actions) && Supports(s, r, v.phase.existing.value.row);
  }

  /** In every interleaving no binding of this resolver release may be reused for more than an hour from now. */
  lemma {:induction false} BindingsLastAnHour(s0: State, actions: seq<Action>, s: State, i: nat)
    requires Initial(s0) && Runs(s0, actions, s) && i < |s.bindings| && s.bindings[i].snapshot < |s.snapshots|
    requires s.snapshots[s.bindings[i].snapshot].resolverVersion == RESOLVER_VERSION
    ensures s.bindings[i].revalidateAfter <= s.now + 3_600_000
  {
    InitialIsOk(s0);
    RunBacked(s0, actions, s, {});
    assert Backed(s, {} + Records(s0, actions), s.bindings[i]);
  }

  // ---------------------------------------------------------------------------------------------
  // Snapshots are answers

  /** The snapshot tells this answer: its status, its versions, its reasons in words, and their digest. */
  ghost predicate Tells(n: Snapshot, r: Record) {
    && n.caseId == r.caseId && n.resolved == r.res.resolved
    && multiset(n.versions) == multiset(r.res.versions)
    && |n.reasons| == |r.res.reasons|
    && (forall i :: 0 <= i < |n.reasons| ==> n.reasons[i] == Describe(r.res.reasons[i]))
    && n.digest == ComputeDigest(r.res.resolved, n.reasons, r.res.versions)
  }

  ghost predicate Told(n: Snapshot, known: set<Record>) {
    n.resolverVersion == RESOLVER_VERSION ==> exists r :: r in known && Tells(n, r)
  }

  ghost predicate AllTold(s: State, known: set<Record>) {
    forall i :: 0 <= i < |s.snapshots| ==> Told(s.snapshots[i], known)
  }

  lemma {:induction false} SnapshotTells(caseId: nat, ctx: Context, at: Instant, res: Resolution)
    ensures Tells(SnapshotOf(caseId, res), Record(caseId, ctx, at, res))
  {
    SortBag(res.versions, IdLe);
  }

  /** A step of an evaluator stores at most the snapshot of the answer it was given. */
  lemma {:induction false} StoresAnswer(s: State, e: nat)
    requires e in s.evaluators
    ensures
      var v, s' := s.evaluators[e], Advance(s, e);
      || s'.snapshots == s.snapshots
      || (v.phase.Answered? && s'.snapshots == s.snapshots + [SnapshotOf(v.caseId, v.phase.res)])
  {
  }

  lemma {:induction false} StoreIsTold(s: State, e: nat, known: set<Record>)
    requires AllBacked(s, known) && AllTold(s, known) && e in s.evaluators
    ensures AllTold(Advance(s, e), known)
  {
    var v := s.evaluators[e];
    StoresAnswer(s, e);
    if v.phase.Answered? {
      assert EvaluatorBacked(s, known, v);
      var r := Record(v.caseId, v.ctx, v.phase.l.at, v.phase.res);
      SnapshotTells(v.caseId, v.ctx, v.phase.l.at, v.phase.res);
      assert r in known && Told(SnapshotOf(v.caseId, v.phase.res), known);
    }
  }

  lemma {:induction false} StepIsTold(s: State, a: Action, known: set<Record>)
    requires Inv(s) && Enabled(s, a) && AllBacked(s, known) && AllTold(s, known)
    ensures AllTold(Apply(s, a), known + RecordOf(s, a))
  {
    var s', known' := Apply(s, a), known + RecordOf(s, a);
    if a.Go? { StoreIsTold(s, a.e, known); } else { assert s'.snapshots == s.snapshots; }
    forall i | 0 <= i < |s'.snapshots| ensures Told(s'.snapshots[i], known') {
      assert Told(s'.snapshots[i], known);
    }
  }

  lemma {:induction false} RunIsTold(s: State, actions: seq<Action>, s': State, known: set<Record>)
    requires Inv(s) && AllBacked(s, known) && AllTold(s, known) && Runs(s, actions, s')
    ensures AllTold(s', known + Records(s, actions))
    decreases |actions|
  {
    if actions == [] {
      assert known + {} == known;
    } else {
      var m, first := Apply(s, actions[0]), RecordOf(s, actions[0]);
      StepKeepsInv(s, actions[0]);
      StepBacked(s, actions[0], known);
      StepIsTold(s, actions[0], known);
      RunIsTold(m, actions[1..], s', known + first);
      assert known + first + Records(m, actions[1..]) == known + Records(s, actions);
    }
  }

  /** In every interleaving every snapshot of this resolver release tells an answer that the resolver gave for its case
      in this run, reasons included. */
  lemma {:induction false} SnapshotsTellAnswers(s0: State, actions: seq<Action>, s: State, i: nat) returns (r: Record)
    requires Initial(s0) && Runs(s0, actions, s) && i < |s.snapshots|
    requires s.snapshots[i].resolverVersion == RESOLVER_VERSION
    ensures r in Records(s0, actions) && Tells(s.snapshots[i], r)
  {
    InitialIsOk(s0);
    RunIsTold(s0, actions, s, {});
    assert {} + Records(s0, actions) == Records(s0, actions);
    assert Told(s.snapshots[i], Records(s0, actions));
    r :| r in Records(s0, actions) && Tells(s.snapshots[i], r);
  }
}
