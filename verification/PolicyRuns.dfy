/** Building runs: evaluators that are driven step by step while the catalog and the clock stand still. */
module PolicyRuns {
  import opened Basics
  import opened PolicyCatalog
  import opened PolicyResolver
  import opened PolicyEvaluation
  import opened PolicyCache

  // ---------------------------------------------------------------------------------------------
  // Joining runs

  lemma {:induction false} RunsOn(s: State, actions: seq<Action>, m: State, a: Action)
    requires Runs(s, actions, m) && Enabled(m, a)
    ensures Runs(s, actions + [a], Apply(m, a))
    decreases |actions|
  {
    if actions == [] {
      assert actions + [a] == [a] && [a][1..] == [];
    } else {
      assert (actions + [a])[1..] == actions[1..] + [a];
      RunsOn(Apply(s, actions[0]), actions[1..], m, a);
    }
  }

  lemma {:induction false} RunsJoin(s: State, xs: seq<Action>, m: State, ys: seq<Action>, s': State)
    requires Runs(s, xs, m) && Runs(m, ys, s')
    ensures Runs(s, xs + ys, s')
    decreases |xs|
  {
    if xs == [] {
      assert xs + ys == ys;
    } else {
      assert (xs + ys)[1..] == xs[1..] + ys;
      RunsJoin(Apply(s, xs[0]), xs[1..], m, ys, s');
    }
  }

  /** A step of an evaluator. */
  predicate IsWork(a: Action) { a.Call? || a.Go? || a.Answer? }

  /** A run of evaluators alone. */
  ghost predicate Works(s: State, actions: seq<Action>, s': State) {
    Runs(s, actions, s') && forall k :: 0 <= k < |actions| ==> IsWork(actions[k])
  }

  lemma {:induction false} WorksOn(s: State, actions: seq<Action>, m: State, a: Action)
    requires Works(s, actions, m) && Enabled(m, a) && IsWork(a)
    ensures Works(s, actions + [a], Apply(m, a))
  {
    RunsOn(s, actions, m, a);
  }

  lemma {:induction false} WorksJoin(s: State, xs: seq<Action>, m: State, ys: seq<Action>, s': State)
    requires Works(s, xs, m) && Works(m, ys, s')
    ensures Works(s, xs + ys, s')
  {
    RunsJoin(s, xs, m, ys, s');
  }

  lemma {:induction false} NoProposeIsGentle(s: State, actions: seq<Action>)
    requires forall k :: 0 <= k < |actions| ==> !actions[k].WriteProposed?
    ensures GentleRun(s, actions)
    decreases |actions|
  {
    if actions != [] { NoProposeIsGentle(Apply(s, actions[0]), actions[1..]); }
  }

  lemma {:induction false} WorkIsGentle(s: State, actions: seq<Action>, s': State)
    requires Works(s, actions, s')
    ensures GentleRun(s, actions)
  {
    NoProposeIsGentle(s, actions);
  }

  /** Something about the catalog and the time holds in every state of a run. */
  ghost predicate Throughout(s: State, actions: seq<Action>, ok: (Catalog, Instant) -> bool)
    decreases |actions|
  {
    ok(s.cat, s.now) && (actions == [] || Throughout(Apply(s, actions[0]), actions[1..], ok))
  }

  lemma {:induction false} ThroughoutBefore(s: State, a: Action, rest: seq<Action>, ok: (Catalog, Instant) -> bool)
    requires ok(s.cat, s.now) && Throughout(Apply(s, a), rest, ok)
    ensures Throughout(s, [a] + rest, ok)
  {
    assert ([a] + rest)[1..] == rest;
  }

  lemma {:induction false} ThroughoutJoin(
    s: State, xs: seq<Action>, m: State, ys: seq<Action>, ok: (Catalog, Instant) -> bool)
    requires Runs(s, xs, m) && Throughout(s, xs, ok) && Throughout(m, ys, ok)
    ensures Throughout(s, xs + ys, ok)
    decreases |xs|
  {
    if xs == [] {
      assert xs + ys == ys;
    } else {
      assert (xs + ys)[1..] == xs[1..] + ys;
      ThroughoutJoin(Apply(s, xs[0]), xs[1..], m, ys, ok);
    }
  }

  /** Evaluators leave the catalog and the clock alone. */
  lemma {:induction false} WorksThroughout(s: State, actions: seq<Action>, s': State, ok: (Catalog, Instant) -> bool)
    requires Works(s, actions, s') && ok(s.cat, s.now)
    ensures Throughout(s, actions, ok)
    decreases |actions|
  {
    if actions != [] {
      WorkStandsStill(s, actions[0]);
      WorksThroughout(Apply(s, actions[0]), actions[1..], s', ok);
    }
  }

  lemma {:induction false} WorkStandsStill(s: State, a: Action)
    requires IsWork(a)
    ensures Apply(s, a).cat == s.cat && Apply(s, a).now == s.now
  {
  }

  // ---------------------------------------------------------------------------------------------
  // One evaluator

  /** `s` with evaluator `e` of case `c` in phase `p`, called at the present instant. */
  function In(s: State, e: nat, c: nat, ctx: Context, p: Phase): State {
    s.(evaluators := s.evaluators[e := Evaluator(c, ctx, s.now, p)])
  }

  lemma {:induction false} GoOn(
    s0: State, actions: seq<Action>, s: State, e: nat, c: nat, ctx: Context, p: Phase, w: State, p': Phase)
    requires Works(s0, actions, In(s, e, c, ctx, p)) && !p.SawRows?
    requires Advance(In(s, e, c, ctx, p), e) == In(w, e, c, ctx, p')
    ensures Works(s0, actions + [Go(e)], In(w, e, c, ctx, p'))
  {
    WorksOn(s0, actions, In(s, e, c, ctx, p), Go(e));
  }

  /** The active binding of a case, as an evaluator finds it. */
  function Existing(s: State, c: nat): Option<Found> {
    var i := ActiveBinding(s.bindings, c);
    if i.Some? then Some(Found(i.value, s.bindings[i.value])) else None
  }

  /** What an evaluator called now carries to the resolver. */
  function Carried(s: State, c: nat): Locals { Locals(s.generation, Existing(s, c), s.now) }

  /** An evaluator that finds no binding to reuse. */
  predicate MustResolve(s: State, c: nat, ctx: Context) {
    var f := Existing(s, c);
    f.Some? ==> f.value.row.snapshot < |s.snapshots| && !FastPath(s, f.value, ctx, s.generation)
  }

  lemma {:induction false} FirstReads(s: State, e: nat, c: nat, ctx: Context)
    ensures Advance(In(s, e, c, ctx, Called), e) == In(s, e, c, ctx, SawGeneration(s.generation))
    ensures Advance(In(s, e, c, ctx, SawGeneration(s.generation)), e)
        == In(s, e, c, ctx, SawBinding(s.generation, Existing(s, c)))
  {
  }

  lemma {:induction false} TurnsToResolver(s: State, e: nat, c: nat, ctx: Context)
    requires MustResolve(s, c, ctx)
    ensures Advance(In(s, e, c, ctx, SawBinding(s.generation, Existing(s, c))), e)
        == In(s, e, c, ctx, Resolving(Carried(s, c)))
  {
  }

  lemma {:induction false} LaterReads(s: State, e: nat, c: nat, ctx: Context, l: Locals)
    ensures Advance(In(s, e, c, ctx, Resolving(l)), e) == In(s, e, c, ctx, Dated(l, s.now))
    ensures Advance(In(s, e, c, ctx, Dated(l, s.now)), e) == In(s, e, c, ctx, SawRevisions(l, s.now, s.cat.revisions))
    ensures Advance(In(s, e, c, ctx, SawRevisions(l, s.now, s.cat.revisions)), e)
         == In(s, e, c, ctx, SawRows(l, s.now, s.cat.revisions, s.cat.rows))
  {
  }

  /** A call that reads the generation. */
  lemma {:induction false} Calls(s: State, e: nat, c: nat, ctx: Context) returns (actions: seq<Action>)
    requires e !in s.evaluators
    ensures Works(s, actions, In(s, e, c, ctx, SawGeneration(s.generation)))
  {
    assert Works(s, [], s);
    WorksOn(s, [], s, Call(e, c, ctx));
    actions := [] + [Call(e, c, ctx)];
    FirstReads(s, e, c, ctx);
    GoOn(s, actions, s, e, c, ctx, Called, s, SawGeneration(s.generation));
    actions := actions + [Go(e)];
  }

  /** A call that comes as far as the rows. */
  lemma {:induction false} ReadsAll(s: State, e: nat, c: nat, ctx: Context) returns (actions: seq<Action>)
    requires e !in s.evaluators && MustResolve(s, c, ctx)
    ensures Works(s, actions, In(s, e, c, ctx, SawRows(Carried(s, c), s.now, s.cat.revisions, s.cat.rows)))
  {
    actions := Calls(s, e, c, ctx);
    FirstReads(s, e, c, ctx);
    TurnsToResolver(s, e, c, ctx);
    GoOn(s, actions, s, e, c, ctx, SawGeneration(s.generation), s, SawBinding(s.generation, Existing(s, c)));
    actions := actions + [Go(e)];
    GoOn(s, actions, s, e, c, ctx, SawBinding(s.generation, Existing(s, c)), s, Resolving(Carried(s, c)));
    actions := actions + [Go(e)];
    actions := ReadsRows(s, actions, s, e, c, ctx, Carried(s, c));
  }

  lemma {:induction false} ReadsRows(
    s0: State, before: seq<Action>, s: State, e: nat, c: nat, ctx: Context, l: Locals) returns (actions: seq<Action>)
    requires Works(s0, before, In(s, e, c, ctx, Resolving(l)))
    ensures Works(s0, actions, In(s, e, c, ctx, SawRows(l, s.now, s.cat.revisions, s.cat.rows)))
  {
    LaterReads(s, e, c, ctx, l);
    GoOn(s0, before, s, e, c, ctx, Resolving(l), s, Dated(l, s.now));
    actions := before + [Go(e)];
    GoOn(s0, actions, s, e, c, ctx, Dated(l, s.now), s, SawRevisions(l, s.now, s.cat.revisions));
    actions := actions + [Go(e)];
    GoOn(s0, actions, s, e, c, ctx, SawRevisions(l, s.now, s.cat.revisions), s,
        SawRows(l, s.now, s.cat.revisions, s.cat.rows));
    actions := actions + [Go(e)];
  }

  lemma {:induction false} AnswerStep(
    s: State, e: nat, c: nat, ctx: Context, l: Locals, revisions: set<Revision>, rows: set<Row>, res: Resolution)
    requires Answers(SeenBy(s.cat, rows, revisions), ctx, s.now, s.now, res)
    ensures
      var m := In(s, e, c, ctx, SawRows(l, s.now, revisions, rows));
      Works(m, [Answer(e, res)], In(s, e, c, ctx, Answered(l, res)))
  {
    var m := In(s, e, c, ctx, SawRows(l, s.now, revisions, rows));
    assert Apply(m, Answer(e, res)) == In(s, e, c, ctx, Answered(l, res));
    assert Works(m, [], m);
    WorksOn(m, [], m, Answer(e, res));
    assert [] + [Answer(e, res)] == [Answer(e, res)];
  }

  // ---------------------------------------------------------------------------------------------
  // Binding a case for the first time

  function WithSnapshot(s: State, c: nat, res: Resolution): State {
    s.(snapshots := s.snapshots + [SnapshotOf(c, res)])
  }

  /** What the first evaluation of a case leaves behind. */
  function Bound(s: State, c: nat, ctx: Context, l: Locals, res: Resolution): State {
    WithSnapshot(s, c, res).(bindings := s.bindings + [FirstBinding(s, c, ctx, l, res)])
  }

  function FirstBinding(s: State, c: nat, ctx: Context, l: Locals, res: Resolution): Binding {
    NewBinding(Evaluator(c, ctx, s.now, Called), l, res, |s.snapshots|)
  }

  lemma {:induction false} StoreStep(s: State, e: nat, c: nat, ctx: Context, l: Locals, res: Resolution)
    requires res.resolved && l.existing.None?
    ensures Advance(In(s, e, c, ctx, Answered(l, res)), e)
         == In(WithSnapshot(s, c, res), e, c, ctx, RefreshStored(l, res, |s.snapshots|))
  {
  }

  lemma {:induction false} ClearStep(s: State, e: nat, c: nat, ctx: Context, l: Locals, res: Resolution, sid: nat)
    requires l.existing.None?
    ensures Advance(In(s, e, c, ctx, RefreshStored(l, res, sid)), e) == In(s, e, c, ctx, Cleared(l, res, sid))
  {
  }

  lemma {:induction false} BindStep(s: State, e: nat, c: nat, ctx: Context, l: Locals, res: Resolution)
    requires ActiveBinding(s.bindings, c).None?
    ensures Advance(In(WithSnapshot(s, c, res), e, c, ctx, Cleared(l, res, |s.snapshots|)), e)
         == In(Bound(s, c, ctx, l, res), e, c, ctx, BoundPhase(s, c, ctx, l, res))
  {
  }

  function BoundPhase(s: State, c: nat, ctx: Context, l: Locals, res: Resolution): Phase {
    Returned(Evaluated(Refreshed, res.versions, |s.snapshots|, FirstBinding(s, c, ctx, l, res)))
  }

  /** Answered with a resolution, an evaluator that saw no binding binds its case. */
  lemma {:induction false} Binds(
    s: State, e: nat, c: nat, ctx: Context, l: Locals, res: Resolution) returns (actions: seq<Action>)
    requires ActiveBinding(s.bindings, c).None? && res.resolved && l.existing.None?
    ensures Works(In(s, e, c, ctx, Answered(l, res)), actions,
        In(Bound(s, c, ctx, l, res), e, c, ctx, BoundPhase(s, c, ctx, l, res)))
  {
    var m, w, sid := In(s, e, c, ctx, Answered(l, res)), WithSnapshot(s, c, res), |s.snapshots|;
    StoreStep(s, e, c, ctx, l, res);
    ClearStep(w, e, c, ctx, l, res, sid);
    BindStep(s, e, c, ctx, l, res);
    assert Works(m, [], m);
    GoOn(m, [], s, e, c, ctx, Answered(l, res), w, RefreshStored(l, res, sid));
    actions := [] + [Go(e)];
    GoOn(m, actions, w, e, c, ctx, RefreshStored(l, res, sid), w, Cleared(l, res, sid));
    actions := actions + [Go(e)];
    GoOn(m, actions, w, e, c, ctx, Cleared(l, res, sid), Bound(s, c, ctx, l, res), BoundPhase(s, c, ctx, l, res));
    actions := actions + [Go(e)];
  }

  /** A first evaluation from call to binding. */
  lemma {:induction false} Evaluates(
    s: State, e: nat, c: nat, ctx: Context, res: Resolution) returns (actions: seq<Action>)
    requires e !in s.evaluators && ActiveBinding(s.bindings, c).None? && Answers(s.cat, ctx, s.now, s.now, res)
    requires res.resolved
    ensures
      var l := Carried(s, c);
      Works(s, actions, In(Bound(s, c, ctx, l, res), e, c, ctx, BoundPhase(s, c, ctx, l, res)))
  {
    var l := Carried(s, c);
    actions := ReadsAll(s, e, c, ctx);
    assert SeenBy(s.cat, s.cat.rows, s.cat.revisions) == s.cat;
    AnswerStep(s, e, c, ctx, l, s.cat.revisions, s.cat.rows, res);
    var told := In(s, e, c, ctx, Answered(l, res));
    WorksJoin(s, actions, In(s, e, c, ctx, SawRows(l, s.now, s.cat.revisions, s.cat.rows)), [Answer(e, res)], told);
    var more := Binds(s, e, c, ctx, l, res);
    WorksJoin(s, actions + [Answer(e, res)], told, more,
        In(Bound(s, c, ctx, l, res), e, c, ctx, BoundPhase(s, c, ctx, l, res)));
    actions := actions + [Answer(e, res)] + more;
  }

  // ---------------------------------------------------------------------------------------------
  // Clearing a case

  lemma {:induction false} ReviewSteps(s: State, e: nat, c: nat, ctx: Context, l: Locals, res: Resolution)
    requires !res.resolved
    ensures
      var w, sid := WithSnapshot(s, c, res), |s.snapshots|;
      && Advance(In(s, e, c, ctx, Answered(l, res)), e) == In(w, e, c, ctx, ReviewStored(sid))
      && Advance(In(w, e, c, ctx, ReviewStored(sid)), e)
           == In(w.(bindings := InvalidateActive(s.bindings, c)), e, c, ctx, Returned(ReviewRequired(sid)))
  {
  }

  /** An evaluation that ends in review leaves its case without an active binding. */
  lemma {:induction false} Reviews(
    s: State, e: nat, c: nat, ctx: Context, l: Locals, res: Resolution) returns (actions: seq<Action>)
    requires !res.resolved
    ensures
      var w, sid := WithSnapshot(s, c, res), |s.snapshots|;
      Works(In(s, e, c, ctx, Answered(l, res)), actions,
            In(w.(bindings := InvalidateActive(s.bindings, c)), e, c, ctx, Returned(ReviewRequired(sid))))
  {
    var m, w, sid := In(s, e, c, ctx, Answered(l, res)), WithSnapshot(s, c, res), |s.snapshots|;
    ReviewSteps(s, e, c, ctx, l, res);
    assert Works(m, [], m);
    GoOn(m, [], s, e, c, ctx, Answered(l, res), w, ReviewStored(sid));
    actions := [] + [Go(e)];
    GoOn(m, actions, w, e, c, ctx, ReviewStored(sid), w.(bindings := InvalidateActive(s.bindings, c)),
        Returned(ReviewRequired(sid)));
    actions := actions + [Go(e)];
  }
}
