/** A propose write to a version in use is never harmless: evaluators alone can bring the cache to disagree. */
module PolicyHarm {
  import opened Basics
  import opened Sorting
  import opened PolicyCatalog
  import opened PolicyReasons
  import opened PolicyResolver
  import opened PolicyContextKey
  import opened PolicyEvaluation
  import opened PolicyBindings
  import opened PolicyCache
  import opened PolicyRuns

  /** Evaluators alone can come from here to a state in which the cache is not right. */
  ghost predicate CanGoWrong(s: State) { exists actions, s' :: Works(s, actions, s') && !CacheIsRight(s') }

  lemma {:induction false} WrongLater(s: State, actions: seq<Action>, m: State)
    requires Works(s, actions, m) && CanGoWrong(m)
    ensures CanGoWrong(s)
  {
    var more, s' :| Works(m, more, s') && !CacheIsRight(s');
    WorksJoin(s, actions, m, more, s');
  }

  lemma {:induction false} WrongNow(s: State)
    requires !CacheIsRight(s)
    ensures CanGoWrong(s)
  {
    assert Works(s, [], s);
  }

  lemma {:induction false} WrongNext(s: State, e: nat)
    requires e in s.evaluators && !s.evaluators[e].phase.SawRows? && CanGoWrong(Advance(s, e))
    ensures CanGoWrong(s)
  {
    assert Works(s, [], s);
    WorksOn(s, [], s, Go(e));
    WrongLater(s, [] + [Go(e)], Advance(s, e));
  }

  /** A resolution that a fresh one does not confirm, but whose binding would be reused. */
  ghost predicate Outdated(s: State, v: Evaluator, l: Locals, res: Resolution) {
    && Matters(s, v, l) && s.now < NextRevalidationDeadline(l.at, res)
    && Fresh(s.cat, v.ctx, s.now, s.now) != Some(Members(res.versions))
  }

  // ---------------------------------------------------------------------------------------------
  // Writing it

  lemma {:induction false} WrittenIsWrong(s: State, v: Evaluator, l: Locals, res: Resolution, b: Binding)
    requires Outdated(s, v, l, res) && b.snapshot < |s.snapshots|
    requires s.snapshots[b.snapshot].resolverVersion == RESOLVER_VERSION
    requires b.contextKey == ContextKey(v.ctx) && b.generation == l.generation
    requires b.revalidateAfter == NextRevalidationDeadline(l.at, res)
    requires Members(s.snapshots[b.snapshot].versions) == Members(res.versions)
    ensures !Agrees(s, b)
  {
    assert For(b, v.ctx);
  }

  lemma {:induction false} ReuseGoesWrong(s: State, e: nat, l: Locals, res: Resolution)
    requires Inv(s) && e in s.evaluators && s.evaluators[e].phase == Answered(l, res)
    requires Outdated(s, s.evaluators[e], l, res)
    requires Decide(s, l, s.evaluators[e].ctx, res).ReuseInPlace? && TargetActive(s, l)
    ensures CanGoWrong(s)
  {
    var v, s', f := s.evaluators[e], Advance(s, e), l.existing.value;
    assert EvaluatorOk(s, v);
    ReusedVersions(s, v, l, res);
    assert SameBinding(f.row, s.bindings[f.id]);
    WrittenIsWrong(s', v, l, res, s'.bindings[f.id]);
    WrongNow(s');
    WrongNext(s, e);
  }

  lemma {:induction false} BindGoesWrong(s: State, e: nat)
    requires Inv(s) && e in s.evaluators && s.evaluators[e].phase.Cleared?
    requires ActiveBinding(s.bindings, s.evaluators[e].caseId).None?
    requires Outdated(s, s.evaluators[e], s.evaluators[e].phase.l, s.evaluators[e].phase.res)
    ensures CanGoWrong(s)
  {
    var v, s' := s.evaluators[e], Advance(s, e);
    var l, res, sid := v.phase.l, v.phase.res, v.phase.snapshot;
    assert EvaluatorOk(s, v);
    StoredVersions(s.cat, res.versions);
    WrittenIsWrong(s', v, l, res, NewBinding(v, l, res, sid));
    assert s'.bindings[|s.bindings|] == NewBinding(v, l, res, sid);
    WrongNow(s');
    WrongNext(s, e);
  }

  // ---------------------------------------------------------------------------------------------
  // Making room for it

  function Xs(n: nat): string { seq(n, i => 'x') }

  lemma {:induction false} FreshCode(known: set<Code>, longer: nat) returns (c: Code)
    ensures c !in known && |c| > longer
  {
    var rest, n := known, longer + 1;
    while Xs(n) in rest
      invariant n > longer && rest <= known && forall k :: k in known && k !in rest ==> |k| < n
      decreases |rest|
    {
      rest, n := rest - {Xs(n)}, n + 1;
    }
    c := Xs(n);
  }

  /** A context whose jurisdiction is unknown ends in review. */
  lemma {:induction false} UnknownIsReviewed(cat: Catalog, ctx: Context, t: Instant)
    requires ctx.jurisdiction !in cat.jurisdictions && ctx.jurisdiction != ""
    ensures Answers(cat, ctx, t, t, Resolution(false, [], [UnknownCode(ctx.jurisdiction)], None))
  {
    var r := UnknownCode(ctx.jurisdiction);
    assert forall path :: !IsAncestry(cat.jurisdictions, Some(ctx.jurisdiction), path);
    StoppedBy(cat.jurisdictions, ctx.jurisdiction, [], r);
  }

  lemma {:induction false} LongKey(ctx: Context)
    ensures |ContextKey(ctx)| > |ctx.jurisdiction|
  {
  }

  /** Some other call can leave the case without an active binding and everything else that matters as it is. */
  lemma {:induction false} CanBeCleared(s: State, e: nat) returns (actions: seq<Action>, m: State)
    requires Inv(s) && e in s.evaluators
    ensures Works(s, actions, m) && e in m.evaluators && m.evaluators[e] == s.evaluators[e]
    ensures m.cat == s.cat && m.now == s.now && m.generation == s.generation
    ensures ActiveBinding(m.bindings, s.evaluators[e].caseId).None?
  {
    var c := s.evaluators[e].caseId;
    var d := FreshId(s.evaluators.Keys);
    var f := Existing(s, c);
    var code := FreshCode(s.cat.jurisdictions.Keys, if f.Some? then |f.value.row.contextKey| else 0);
    var ctx := Context(code, "", "", None);
    var res := Resolution(false, [], [UnknownCode(code)], None);
    LongKey(ctx);
    assert f.Some? ==> BindingOk(s, f.value.row);
    actions := ReadsAll(s, d, c, ctx);
    UnknownIsReviewed(s.cat, ctx, s.now);
    actions, m := ReviewedAway(s, actions, d, c, ctx, res);
  }

  lemma {:induction false} ReviewedAway(s: State, before: seq<Action>, d: nat, c: nat, ctx: Context, res: Resolution)
    returns (actions: seq<Action>, m: State)
    requires Works(s, before, In(s, d, c, ctx, SawRows(Carried(s, c), s.now, s.cat.revisions, s.cat.rows)))
    requires Answers(s.cat, ctx, s.now, s.now, res) && !res.resolved
    ensures Works(s, actions, m) && forall e :: e in s.evaluators && e != d ==>
      e in m.evaluators && m.evaluators[e] == s.evaluators[e]
    ensures m.cat == s.cat && m.now == s.now && m.generation == s.generation && ActiveBinding(m.bindings, c).None?
  {
    var l, w, sid := Carried(s, c), WithSnapshot(s, c, res), |s.snapshots|;
    var seen := In(s, d, c, ctx, SawRows(l, s.now, s.cat.revisions, s.cat.rows));
    var told := In(s, d, c, ctx, Answered(l, res));
    m := In(w.(bindings := InvalidateActive(s.bindings, c)), d, c, ctx, Returned(ReviewRequired(sid)));
    assert SeenBy(s.cat, s.cat.rows, s.cat.revisions) == s.cat;
    AnswerStep(s, d, c, ctx, l, s.cat.revisions, s.cat.rows, res);
    WorksJoin(s, before, seen, [Answer(d, res)], told);
    var more := Reviews(s, d, c, ctx, l, res);
    actions := before + [Answer(d, res)] + more;
    WorksJoin(s, before + [Answer(d, res)], told, more, m);
  }

  // ---------------------------------------------------------------------------------------------
  // Every way to go wrong

  lemma {:induction false} ClearedGoesWrong(s: State, e: nat)
    requires Inv(s) && e in s.evaluators && s.evaluators[e].phase.Cleared?
    requires Outdated(s, s.evaluators[e], s.evaluators[e].phase.l, s.evaluators[e].phase.res)
    ensures CanGoWrong(s)
  {
    var actions, m := CanBeCleared(s, e);
    RunKeepsInv(s, actions, m);
    BindGoesWrong(m, e);
    WrongLater(s, actions, m);
  }

  lemma {:induction false} StoredGoesWrong(s: State, e: nat)
    requires Inv(s) && e in s.evaluators && s.evaluators[e].phase.RefreshStored?
    requires Outdated(s, s.evaluators[e], s.evaluators[e].phase.l, s.evaluators[e].phase.res)
    ensures CanGoWrong(s)
  {
    AdvanceKeepsInv(s, e);
    ClearedGoesWrong(Advance(s, e), e);
    WrongNext(s, e);
  }

  lemma {:induction false} AnsweredGoesWrong(s: State, e: nat, l: Locals, res: Resolution)
    requires Inv(s) && e in s.evaluators && s.evaluators[e].phase == Answered(l, res)
    requires Decide(s, l, s.evaluators[e].ctx, res).Refresh? && Outdated(s, s.evaluators[e], l, res)
    ensures CanGoWrong(s)
  {
    AdvanceKeepsInv(s, e);
    StoredGoesWrong(Advance(s, e), e);
    WrongNext(s, e);
  }

  lemma {:induction false} PendingGoesWrong(s: State, e: nat)
    requires Inv(s) && e in s.evaluators && Pending(s, s.evaluators[e]).Some?
    requires var r := Pending(s, s.evaluators[e]).value; Outdated(s, s.evaluators[e], r.0, r.1)
    ensures CanGoWrong(s)
  {
    match s.evaluators[e].phase
    case Answered(l, res) =>
      if Decide(s, l, s.evaluators[e].ctx, res).ReuseInPlace? {
        ReuseGoesWrong(s, e, l, res);
      } else {
        AnsweredGoesWrong(s, e, l, res);
      }
    case RefreshStored(_, _, _) => StoredGoesWrong(s, e);
    case Cleared(_, _, _) => ClearedGoesWrong(s, e);
  }

  lemma {:induction false} TouchedGoesWrong(s: State, p: nat, e: nat)
    requires Inv(s) && p in s.proposers && e in s.evaluators && TouchesEvaluator(s, s.proposers[p], s.evaluators[e])
    ensures CanGoWrong(Apply(s, WriteProposed(p)))
  {
    var s', v := Apply(s, WriteProposed(p)), s.evaluators[e];
    var r := Pending(s, v).value;
    EnvironmentKeepsInv(s, WriteProposed(p));
    LoweredVersion(s.cat, s.proposers[p], v.ctx, s.now, Members(r.1.versions));
    assert Pending(s', v) == Pending(s, v);
    PendingGoesWrong(s', e);
  }

  lemma {:induction false} TouchedIsWrong(s: State, p: nat, i: nat)
    requires ProposersOk(s) && p in s.proposers && i < |s.bindings| && s.bindings[i].active
    requires Touches(s, s.proposers[p], s.bindings[i])
    ensures CanGoWrong(Apply(s, WriteProposed(p)))
  {
    LateWriteGoesWrong(s, p, s.bindings[i]);
    WrongNow(Apply(s, WriteProposed(p)));
  }

  /** After a propose write to a version in use, evaluators alone can bring the cache to disagree. */
  lemma {:induction false} HarmfulWrite(s: State, p: nat)
    requires Inv(s) && p in s.proposers && InUse(s, s.proposers[p])
    ensures CanGoWrong(Apply(s, WriteProposed(p)))
  {
    var id := s.proposers[p];
    if i :| 0 <= i < |s.bindings| && s.bindings[i].active && Touches(s, id, s.bindings[i]) {
      TouchedIsWrong(s, p, i);
    } else {
      var e :| e in s.evaluators && TouchesEvaluator(s, id, s.evaluators[e]);
      TouchedGoesWrong(s, p, e);
    }
  }

  /** Whatever happens next, as long as no propose write hits a version in use, the cache is right. */
  ghost predicate StaysRight(s: State) {
    forall actions, s' :: Runs(s, actions, s') && GentleRun(s, actions) ==> CacheIsRight(s')
  }

  /** While the cache knows, a propose write leaves it right for good if and only if its version is not in use. */
  lemma {:induction false} CacheStaysRightIff(s: State, p: nat)
    requires Inv(s) && Knows(s) && p in s.proposers
    ensures StaysRight(Apply(s, WriteProposed(p))) <==> !InUse(s, s.proposers[p])
  {
    var w := Apply(s, WriteProposed(p));
    EnvironmentKeepsInv(s, WriteProposed(p));
    if InUse(s, s.proposers[p]) {
      HarmfulWrite(s, p);
      var actions, s' :| Works(w, actions, s') && !CacheIsRight(s');
      WorkIsGentle(w, actions, s');
    } else {
      ProposeWriteIff(s, p);
      forall actions, s' | Runs(w, actions, s') && GentleRun(w, actions) ensures CacheIsRight(s') {
        RunKeepsKnowledge(w, actions, s');
        KnowingIsRight(s');
      }
    }
  }
}
