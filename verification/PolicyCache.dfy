/** When a binding that may be reused holds exactly what a fresh resolution would find. */
module PolicyCache {
  import opened Basics
  import opened Sorting
  import opened PolicyCatalog
  import opened PolicyResolver
  import opened PolicyStability
  import opened PolicyContextKey
  import opened PolicyEvaluation
  import opened PolicyBindings

  // ---------------------------------------------------------------------------------------------
  // What the cache knows

  /** From now until `until` a fresh resolution finds exactly `vs`. */
  ghost predicate Lasts(s: State, ctx: Context, vs: set<VersionRef>, until: Option<Instant>) {
    forall t :: s.now <= t && Before(t, until) ==> Fresh(s.cat, ctx, t, t) == Some(vs)
  }

  /** Made by this resolver release while the catalog was in its current generation. */
  predicate OfNow(s: State, b: Binding) {
    b.snapshot < |s.snapshots| && s.snapshots[b.snapshot].resolverVersion == RESOLVER_VERSION
        && b.generation == s.generation
  }

  /** The binding was made for this context and no other has its key. */
  predicate For(b: Binding, ctx: Context) { Plain(ctx) && ContextKey(ctx) == b.contextKey }

  /** While the generation is the observed one, a fresh resolution finds exactly the bound versions, now and at every
      instant up to the binding's deadline. */
  ghost predicate Serves(s: State, b: Binding) {
    OfNow(s, b) ==> forall ctx :: For(b, ctx) ==>
        Lasts(s, ctx, Members(s.snapshots[b.snapshot].versions), Some(b.revalidateAfter))
  }

  /** The row an in-place refresh would write to can still be found. */
  predicate TargetActive(s: State, l: Locals) {
    l.existing.Some? && l.existing.value.id < |s.bindings| && s.bindings[l.existing.value.id].active
  }

  /** The resolution that an evaluator may still put into a binding that can be found, with what it read before. */
  function Pending(s: State, v: Evaluator): Option<(Locals, Resolution)> {
    match v.phase
    case Answered(l, res) =>
      if !res.resolved || (Decide(s, l, v.ctx, res).ReuseInPlace? && !TargetActive(s, l)) then None else Some((l, res))
    case RefreshStored(l, res, _) => Some((l, res))
    case Cleared(l, res, _) => Some((l, res))
    case _ => None
  }

  /** A binding written from it would be one of now, and reusable for a context of its own key. */
  predicate Matters(s: State, v: Evaluator, l: Locals) { Plain(v.ctx) && l.generation == s.generation }

  /** What an evaluator may still bind says what a fresh resolution would, up to the deadline it would be bound with. */
  ghost predicate EvaluatorKnows(s: State, v: Evaluator) {
    var r := Pending(s, v);
    r.Some? && Matters(s, v, r.value.0) ==>
      Lasts(s, v.ctx, Members(r.value.1.versions), Some(NextRevalidationDeadline(r.value.0.at, r.value.1)))
  }

  /** Every binding that can still be found serves; invalidated rows are never looked up. */
  ghost predicate BindingsServe(s: State) {
    forall i :: 0 <= i < |s.bindings| && s.bindings[i].active ==> Serves(s, s.bindings[i])
  }

  ghost predicate Knows(s: State) {
    BindingsServe(s) && forall e :: e in s.evaluators ==> EvaluatorKnows(s, s.evaluators[e])
  }

  lemma {:induction false} InitialKnows(s: State)
    requires Initial(s)
    ensures Knows(s)
  {
    forall i | 0 <= i < |s.bindings| && s.bindings[i].active
      ensures Serves(s, s.bindings[i])
    {
      assert BindingOk(s, s.bindings[i]);
    }
  }

  // ---------------------------------------------------------------------------------------------
  // Steps that change no current answer

  /** Unless the generation moves, whatever could be resolved still resolves to the same. */
  ghost predicate Quiet(s: State, s': State) {
    && Moves(s, s')
    && (s'.generation == s.generation ==>
          forall ctx, t :: Fresh(s.cat, ctx, t, t).Some? ==> Fresh(s'.cat, ctx, t, t) == Fresh(s.cat, ctx, t, t))
  }

  lemma {:induction false} QuietLasts(s: State, s': State, ctx: Context, vs: set<VersionRef>, until: Option<Instant>)
    requires Quiet(s, s') && s'.generation == s.generation && Lasts(s, ctx, vs, until)
    ensures Lasts(s', ctx, vs, until)
  {
  }

  lemma {:induction false} QuietServes(s: State, s': State, b: Binding)
    requires Quiet(s, s') && b.generation <= s.generation && Serves(s, b)
    ensures Serves(s', b)
  {
    if OfNow(s', b) {
      forall ctx | For(b, ctx)
        ensures Lasts(s', ctx, Members(s'.snapshots[b.snapshot].versions), Some(b.revalidateAfter))
      {
        QuietLasts(s, s', ctx, Members(s.snapshots[b.snapshot].versions), Some(b.revalidateAfter));
      }
    }
  }

  lemma {:induction false} QuietKnows(s: State, s': State, v: Evaluator)
    requires Quiet(s, s') && EvaluatorOk(s, v) && EvaluatorKnows(s, v)
    ensures EvaluatorKnows(s', v)
  {
    var r := Pending(s, v);
    if r.Some? && Matters(s', v, r.value.0) {
      QuietLasts(s, s', v.ctx, Members(r.value.1.versions), Some(NextRevalidationDeadline(r.value.0.at, r.value.1)));
    }
  }

  lemma {:induction false} QuietKeepsKnowledge(s: State, s': State)
    requires Inv(s) && Knows(s) && Quiet(s, s')
    ensures Knows(s')
  {
    forall i | 0 <= i < |s'.bindings| && s'.bindings[i].active ensures Serves(s', s'.bindings[i]) {
      assert BindingOk(s, s.bindings[i]);
      QuietServes(s, s', s.bindings[i]);
    }
    forall e | e in s'.evaluators ensures EvaluatorKnows(s', s'.evaluators[e]) {
      assert EvaluatorOk(s, s.evaluators[e]);
      QuietKnows(s, s', s.evaluators[e]);
    }
  }

  lemma {:induction false} EnvironmentIsQuiet(s: State, a: Action)
    requires Inv(s) && Enabled(s, a) && Environmental(a) && !a.WriteProposed?
    ensures Quiet(s, Apply(s, a))
  {
    var s' := Apply(s, a);
    EnvironmentMoves(s, a);
    if a.RecordRevision? {
      forall ctx, t | Fresh(s.cat, ctx, t, t).Some? ensures Fresh(s'.cat, ctx, t, t) == Fresh(s.cat, ctx, t, t) {
        RevisionsKeepResolution(s.cat, s'.cat.revisions, ctx, t, t);
      }
    } else if a.AddDraft? {
      assert SameLive(s.cat, s'.cat);
      forall ctx, t { SameLiveSameResolution(s.cat, s'.cat, ctx, t, t); }
    }
  }

  // ---------------------------------------------------------------------------------------------
  // The write of a propose call

  ghost predicate Has(vs: set<VersionRef>, id: VersionId) { exists v :: v in vs && v.id == id }

  function Demoted(s: State, id: VersionId): State
    requires id in s.cat.versions
  {
    s.(cat := WithStatus(s.cat, id, Proposed))
  }

  /** Lowering a version that does not apply changes nothing that applies. */
  lemma {:induction false} UnusedVersion(cat: Catalog, id: VersionId, ctx: Context, t: Instant, vs: set<VersionRef>)
    requires id in cat.versions && Fresh(cat, ctx, t, t) == Some(vs) && !Has(vs, id)
    ensures Fresh(WithStatus(cat, id, Proposed), ctx, t, t) == Some(vs)
  {
    var cat', codes := WithStatus(cat, id, Proposed), Codes(cat, ctx);
    SameRows(cat, cat', ctx);
    forall row | row in cat.rows ensures Candidate(cat', ctx, codes, row, t) <==> Candidate(cat, ctx, codes, row, t) {
      if Candidate(cat, ctx, codes, row, t) { assert RefOf(row.version, cat.versions[row.version]) in vs; }
    }
    SameSourcesFresh(cat, cat', codes, t);
    assert RulesUsable(cat', ctx, codes, t);
    assert NoOverlap(cat', ctx, codes, t);
    SameApplicable(cat, cat', ctx, t);
  }

  lemma {:induction false} SameSourcesFresh(cat: Catalog, cat': Catalog, codes: set<Code>, know: Instant)
    requires cat'.sources == cat.sources && cat'.revisions == cat.revisions && SourcesFresh(cat, codes, know)
    ensures SourcesFresh(cat', codes, know)
  {
    forall c | c in codes ensures HasSource(cat', c) { assert HasSource(cat, c); }
    forall s | s in cat'.sources && s.jurisdiction in codes
      ensures IsFresh(cat', s, know)
    {
      assert IsFresh(cat, s, know);
    }
  }

  lemma {:induction false} SameApplicable(cat: Catalog, cat': Catalog, ctx: Context, t: Instant)
    requires cat'.rows == cat.rows && Codes(cat', ctx) == Codes(cat, ctx)
    requires forall row :: row in cat.rows ==>
      (Candidate(cat', ctx, Codes(cat, ctx), row, t) <==> Candidate(cat, ctx, Codes(cat, ctx), row, t))
    requires forall id :: id in cat.versions ==>
      id in cat'.versions && RefOf(id, cat'.versions[id]) == RefOf(id, cat.versions[id])
    ensures Applicable(cat', ctx, t) == Applicable(cat, ctx, t)
  {
  }

  /** Lowering a version that applies takes it out of every answer. */
  lemma {:induction false} LoweredVersion(cat: Catalog, id: VersionId, ctx: Context, t: Instant, vs: set<VersionRef>)
    requires id in cat.versions && Has(vs, id)
    ensures Fresh(WithStatus(cat, id, Proposed), ctx, t, t) != Some(vs)
  {
    var cat' := WithStatus(cat, id, Proposed);
    var v :| v in vs && v.id == id;
    assert v !in Applicable(cat', ctx, t);
  }

  /** An answer survives the lowering of a version exactly when its time is over or the version is not in it. */
  lemma {:induction false} LastsIff(s: State, id: VersionId, ctx: Context, vs: set<VersionRef>, until: Option<Instant>)
    requires id in s.cat.versions && Lasts(s, ctx, vs, until)
    ensures Lasts(Demoted(s, id), ctx, vs, until) <==> !(Before(s.now, until) && Has(vs, id))
  {
    var s' := Demoted(s, id);
    if Before(s.now, until) && Has(vs, id) {
      LoweredVersion(s.cat, id, ctx, s.now, vs);
    } else {
      forall t | s'.now <= t && Before(t, until)
        ensures Fresh(s'.cat, ctx, t, t) == Some(vs)
      {
        UnusedVersion(s.cat, id, ctx, t, vs);
      }
    }
  }

  /** A binding row that would be reused if it is found, for some context, holds the version. */
  ghost predicate Touches(s: State, id: VersionId, b: Binding) {
    && OfNow(s, b) && s.now < b.revalidateAfter && Has(Members(s.snapshots[b.snapshot].versions), id)
    && exists ctx :: For(b, ctx)
  }

  lemma {:induction false} ServesIff(s: State, id: VersionId, b: Binding)
    requires id in s.cat.versions && Serves(s, b)
    ensures Serves(Demoted(s, id), b) <==> !Touches(s, id, b)
  {
    var s' := Demoted(s, id);
    if OfNow(s, b) {
      var vs := Members(s.snapshots[b.snapshot].versions);
      forall ctx | For(b, ctx)
        ensures Lasts(s', ctx, vs, Some(b.revalidateAfter)) <==> !(s.now < b.revalidateAfter && Has(vs, id))
      {
        LastsIff(s, id, ctx, vs, Some(b.revalidateAfter));
      }
    }
  }

  /** A propose write keeps every active binding serving exactly when no active binding that would be reused holds its
      version. */
  lemma {:induction false} BindingsServeIff(s: State, id: VersionId)
    requires id in s.cat.versions && BindingsServe(s)
    ensures BindingsServe(Demoted(s, id)) <==> forall i :: 0 <= i < |s.bindings| && s.bindings[i].active ==>
      !Touches(s, id, s.bindings[i])
  {
    forall i | 0 <= i < |s.bindings| && s.bindings[i].active
      ensures Serves(Demoted(s, id), s.bindings[i]) <==> !Touches(s, id, s.bindings[i])
    {
      ServesIff(s, id, s.bindings[i]);
    }
  }

  /** What an evaluator may still bind, in time to be reused, holds the version. */
  ghost predicate TouchesEvaluator(s: State, id: VersionId, v: Evaluator) {
    var r := Pending(s, v);
    && r.Some? && Matters(s, v, r.value.0) && s.now < NextRevalidationDeadline(r.value.0.at, r.value.1)
    && Has(Members(r.value.1.versions), id)
  }

  lemma {:induction false} EvaluatorKnowsIff(s: State, id: VersionId, v: Evaluator)
    requires id in s.cat.versions && EvaluatorKnows(s, v)
    ensures EvaluatorKnows(Demoted(s, id), v) <==> !TouchesEvaluator(s, id, v)
  {
    var r := Pending(s, v);
    if r.Some? && Matters(s, v, r.value.0) {
      LastsIff(s, id, v.ctx, Members(r.value.1.versions), Some(NextRevalidationDeadline(r.value.0.at, r.value.1)));
    }
  }

  /** A binding that can be found and reused, or a resolution that may still become one, holds the version. */
  ghost predicate InUse(s: State, id: VersionId) {
    || (exists i :: 0 <= i < |s.bindings| && s.bindings[i].active && Touches(s, id, s.bindings[i]))
    || (exists e :: e in s.evaluators && TouchesEvaluator(s, id, s.evaluators[e]))
  }

  /** The write of a propose call keeps all that the cache knows exactly when its version is not in use. */
  lemma {:induction false} ProposeWriteIff(s: State, p: nat)
    requires Inv(s) && Knows(s) && p in s.proposers
    ensures Knows(Apply(s, WriteProposed(p))) <==> !InUse(s, s.proposers[p])
  {
    var id := s.proposers[p];
    assert id in s.cat.versions;
    var d, s' := Demoted(s, id), Apply(s, WriteProposed(p));
    SameKnowledge(d, s');
    BindingsServeIff(s, id);
    forall e | e in s.evaluators
      ensures EvaluatorKnows(d, s.evaluators[e]) <==> !TouchesEvaluator(s, id, s.evaluators[e])
    {
      EvaluatorKnowsIff(s, id, s.evaluators[e]);
    }
  }

  lemma {:induction false} SameKnowledge(s: State, s': State)
    requires s' == s.(proposers := s'.proposers)
    ensures Knows(s') <==> Knows(s)
  {
    assert forall b :: Serves(s', b) <==> Serves(s, b);
    assert forall v :: EvaluatorKnows(s', v) <==> EvaluatorKnows(s, v);
  }

  /** A version that is not released is not in use: only late writes do harm. */
  lemma {:induction false} UnreleasedIsUnused(s: State, id: VersionId)
    requires Inv(s) && Knows(s) && id in s.cat.versions && !s.cat.versions[id].status.Released?
    ensures !InUse(s, id)
  {
    forall b | Serves(s, b) ensures !Touches(s, id, b) { UnreleasedUntouched(s, id, b); }
    forall e | e in s.evaluators ensures !TouchesEvaluator(s, id, s.evaluators[e]) {
      UnreleasedUnresolved(s, id, s.evaluators[e]);
    }
  }

  lemma {:induction false} UnreleasedNotFresh(
    cat: Catalog, id: VersionId, ctx: Context, t: Instant, vs: set<VersionRef>)
    requires id in cat.versions && !cat.versions[id].status.Released? && Fresh(cat, ctx, t, t) == Some(vs)
    ensures !Has(vs, id)
  {
  }

  lemma {:induction false} UnreleasedUntouched(s: State, id: VersionId, b: Binding)
    requires id in s.cat.versions && !s.cat.versions[id].status.Released? && Serves(s, b)
    ensures !Touches(s, id, b)
  {
    if OfNow(s, b) && s.now < b.revalidateAfter && exists ctx :: For(b, ctx) {
      var ctx :| For(b, ctx);
      var vs := Members(s.snapshots[b.snapshot].versions);
      assert Lasts(s, ctx, vs, Some(b.revalidateAfter));
      UnreleasedNotFresh(s.cat, id, ctx, s.now, vs);
    }
  }

  lemma {:induction false} UnreleasedUnresolved(s: State, id: VersionId, v: Evaluator)
    requires id in s.cat.versions && !s.cat.versions[id].status.Released? && EvaluatorKnows(s, v)
    ensures !TouchesEvaluator(s, id, v)
  {
    var r := Pending(s, v);
    if r.Some? && Matters(s, v, r.value.0) && s.now < NextRevalidationDeadline(r.value.0.at, r.value.1) {
      UnreleasedNotFresh(s.cat, id, v.ctx, s.now, Members(r.value.1.versions));
    }
  }

  // ---------------------------------------------------------------------------------------------
  // Evaluators

  lemma {:induction false} WritesKeepServes(s: State, s': State, b: Binding)
    requires Writes(s, s') && b.snapshot < |s.snapshots|
    ensures Serves(s, b) <==> Serves(s', b)
  {
    assert s'.snapshots[b.snapshot] == s.snapshots[b.snapshot];
  }

  /** What others write takes nothing from what an evaluator may still bind, and adds nothing to it. */
  lemma {:induction false} WritesKeepKnows(s: State, s': State, v: Evaluator)
    requires Writes(s, s') && EvaluatorOk(s, v) && EvaluatorKnows(s, v)
    ensures EvaluatorKnows(s', v)
  {
    assert Pending(s', v).Some? ==> Pending(s', v) == Pending(s, v) by {
      if v.phase.Answered? && v.phase.l.existing.Some? {
        var f := v.phase.l.existing.value;
        assert SameBinding(s.bindings[f.id], s'.bindings[f.id])
            && s'.snapshots[f.row.snapshot] == s.snapshots[f.row.snapshot];
      }
    }
  }

  /** One evaluator moves on; the bindings it leaves serve and its new phase is known. */
  lemma {:induction false} PhaseKeepsKnowledge(s: State, s': State, e: nat)
    requires Inv(s) && Knows(s) && Writes(s, s') && e in s'.evaluators
    requires s'.evaluators == s.evaluators[e := s'.evaluators[e]]
    requires BindingsServe(s') && EvaluatorKnows(s', s'.evaluators[e])
    ensures Knows(s')
  {
    forall d | d in s'.evaluators ensures EvaluatorKnows(s', s'.evaluators[d]) {
      if d != e {
        assert EvaluatorOk(s, s.evaluators[d]) && EvaluatorKnows(s, s.evaluators[d]);
        WritesKeepKnows(s, s', s.evaluators[d]);
      }
    }
  }

  /** Binding rows that are only invalidated, or not touched at all, still serve. */
  lemma {:induction false} UnmovedBindingsServe(s: State, s': State)
    requires Inv(s) && BindingsServe(s) && Writes(s, s') && |s'.bindings| == |s.bindings|
    requires forall i :: 0 <= i < |s.bindings| ==>
      s'.bindings[i].generation == s.bindings[i].generation
          && s'.bindings[i].revalidateAfter == s.bindings[i].revalidateAfter
    ensures BindingsServe(s')
  {
    forall i | 0 <= i < |s'.bindings| && s'.bindings[i].active ensures Serves(s', s'.bindings[i]) {
      assert BindingOk(s, s.bindings[i]);
      assert SameBinding(s.bindings[i], s'.bindings[i]);
      WritesKeepServes(s, s', s.bindings[i]);
    }
  }

  /** What the resolver answered lasts until its revalidation instant. */
  lemma {:induction false} AnswerHolds(
    s: State, v: Evaluator, l: Locals, know: Instant, revisions: set<Revision>, rows: set<Row>, res: Resolution)
    requires v.asOf <= s.now && know <= s.now && revisions <= s.cat.revisions && RowsSeen(s, l, rows)
    requires Answers(SeenBy(s.cat, rows, revisions), v.ctx, v.asOf, know, res) && res.resolved
    requires l.generation == s.generation
    ensures Lasts(s, v.ctx, Members(res.versions), Some(NextRevalidationDeadline(l.at, res)))
  {
    var seen, full := SeenBy(s.cat, rows, revisions), SeenBy(s.cat, rows, s.cat.revisions);
    forall t | s.now <= t && Before(t, res.revalidateAfter)
      ensures Fresh(s.cat, v.ctx, t, t) == Some(Members(res.versions))
    {
      ResolutionIsStable(seen, v.ctx, v.asOf, know, res.revalidateAfter, t, t);
      RevisionsKeepResolution(seen, s.cat.revisions, v.ctx, t, t);
      assert seen.(revisions := s.cat.revisions) == full;
      SameLiveSameResolution(full, s.cat, v.ctx, t, t);
    }
  }

  /** A binding written from a resolution that lasts serves its context. */
  lemma {:induction false} WrittenServes(s: State, v: Evaluator, l: Locals, res: Resolution, b: Binding)
    requires EvaluatorKnows(s, v) && Pending(s, v) == Some((l, res)) && b.snapshot < |s.snapshots|
    requires b.contextKey == ContextKey(v.ctx) && b.generation == l.generation
    requires b.revalidateAfter == NextRevalidationDeadline(l.at, res)
    requires Members(s.snapshots[b.snapshot].versions) == Members(res.versions)
    ensures Serves(s, b)
  {
    if OfNow(s, b) {
      forall c | For(b, c) ensures Lasts(s, c, Members(s.snapshots[b.snapshot].versions), Some(b.revalidateAfter)) {
        KeyIsExactForPlain(c);
        assert c == v.ctx;
      }
    }
  }

  lemma {:induction false} ReadsKeepKnowledge(s: State, e: nat)
    requires Inv(s) && Knows(s) && e in s.evaluators
    requires var p := s.evaluators[e].phase; Reading(p) || p.SawBinding? || p.SawWinner?
    ensures Knows(Advance(s, e))
  {
    var s' := Advance(s, e);
    AdvanceKeepsInv(s, e);
    UnmovedBindingsServe(s, s');
    ReadingStaysIdle(s, e);
    IdleKnows(s', s'.evaluators[e]);
    PhaseKeepsKnowledge(s, s', e);
  }

  /** No resolution in hand. */
  predicate Idle(p: Phase) { !p.Answered? && !p.RefreshStored? && !p.Cleared? }

  lemma {:induction false} IdleKnows(s: State, v: Evaluator)
    requires Idle(v.phase)
    ensures EvaluatorKnows(s, v)
  {
  }

  lemma {:induction false} ReadingStaysIdle(s: State, e: nat)
    requires e in s.evaluators
    requires var p := s.evaluators[e].phase; Reading(p) || p.SawBinding? || p.SawWinner?
    ensures Idle(Advance(s, e).evaluators[e].phase)
  {
  }

  lemma {:induction false} BindingEndsIdle(s: State, e: nat)
    requires e in s.evaluators && s.evaluators[e].phase.Cleared?
    ensures Idle(Advance(s, e).evaluators[e].phase)
  {
  }

  lemma {:induction false} ReuseEndsIdle(s: State, e: nat, l: Locals, res: Resolution)
    requires e in s.evaluators && s.evaluators[e].phase == Answered(l, res)
    requires Decide(s, l, s.evaluators[e].ctx, res).ReuseInPlace?
    ensures Idle(Advance(s, e).evaluators[e].phase)
  {
  }

  lemma {:induction false} AnswerKeepsKnowledge(s: State, e: nat, res: Resolution)
    requires Inv(s) && Knows(s) && Enabled(s, Answer(e, res))
    ensures Knows(Apply(s, Answer(e, res)))
  {
    var v, s' := s.evaluators[e], Apply(s, Answer(e, res));
    assert EvaluatorOk(s, v);
    AnswerKeepsInv(s, e, res);
    if res.resolved && v.phase.l.generation == s.generation {
      AnswerHolds(s, v, v.phase.l, v.phase.know, v.phase.revisions, v.phase.rows, res);
      SameLasts(s, s', v.ctx, Members(res.versions), Some(NextRevalidationDeadline(v.phase.l.at, res)));
    }
    UnmovedBindingsServe(s, s');
    PhaseKeepsKnowledge(s, s', e);
  }

  lemma {:induction false} SameLasts(s: State, s': State, ctx: Context, vs: set<VersionRef>, until: Option<Instant>)
    requires s'.cat == s.cat && s'.now == s.now && Lasts(s, ctx, vs, until)
    ensures Lasts(s', ctx, vs, until)
  {
  }

  lemma {:induction false} StoreKeepsKnowledge(s: State, e: nat, l: Locals, res: Resolution)
    requires Inv(s) && Knows(s) && e in s.evaluators && s.evaluators[e].phase == Answered(l, res)
    requires !Decide(s, l, s.evaluators[e].ctx, res).ReuseInPlace?
    ensures Knows(Advance(s, e))
  {
    var v, s' := s.evaluators[e], Advance(s, e);
    StoreKeepsInv(s, e, l, res);
    assert EvaluatorKnows(s, v);
    UnmovedBindingsServe(s, s');
    PhaseKeepsKnowledge(s, s', e);
  }

  lemma {:induction false} ReuseKeepsKnowledge(s: State, e: nat, l: Locals, res: Resolution)
    requires Inv(s) && Knows(s) && e in s.evaluators && s.evaluators[e].phase == Answered(l, res)
    requires Decide(s, l, s.evaluators[e].ctx, res).ReuseInPlace?
    ensures Knows(Advance(s, e))
  {
    var s' := Advance(s, e);
    ReuseKeepsInv(s, e, l, res);
    ReuseServes(s, e, l, res);
    ReuseEndsIdle(s, e, l, res);
    IdleKnows(s', s'.evaluators[e]);
    PhaseKeepsKnowledge(s, s', e);
  }

  lemma {:induction false} ReuseServes(s: State, e: nat, l: Locals, res: Resolution)
    requires Inv(s) && Knows(s) && e in s.evaluators && s.evaluators[e].phase == Answered(l, res)
    requires Decide(s, l, s.evaluators[e].ctx, res).ReuseInPlace?
    ensures BindingsServe(Advance(s, e))
  {
    var v, s' := s.evaluators[e], Advance(s, e);
    assert EvaluatorOk(s, v) && EvaluatorKnows(s, v);
    ReuseKeepsInv(s, e, l, res);
    ReusedVersions(s, v, l, res);
    var f := l.existing.value;
    if s.bindings[f.id].active { WrittenServes(s, v, l, res, s'.bindings[f.id]); }
    forall i | 0 <= i < |s'.bindings| && s'.bindings[i].active ensures Serves(s', s'.bindings[i]) {
      assert BindingOk(s, s.bindings[i]) && SameBinding(s.bindings[i], s'.bindings[i]);
      assert Serves(s, s.bindings[i]);
      WritesKeepServes(s, s', s'.bindings[i]);
    }
  }

  lemma {:induction false} InvalidatingKeepsKnowledge(s: State, e: nat)
    requires Inv(s) && Knows(s) && e in s.evaluators
    requires (s.evaluators[e].phase.ReviewStored? || s.evaluators[e].phase.RefreshStored?)
    ensures Knows(Advance(s, e))
  {
    var v, s' := s.evaluators[e], Advance(s, e);
    AdvanceKeepsInv(s, e);
    assert EvaluatorKnows(s, v);
    UnmovedBindingsServe(s, s');
    PhaseKeepsKnowledge(s, s', e);
  }

  lemma {:induction false} BindKeepsKnowledge(s: State, e: nat)
    requires Inv(s) && Knows(s) && e in s.evaluators && s.evaluators[e].phase.Cleared?
    ensures Knows(Advance(s, e))
  {
    var s' := Advance(s, e);
    BindKeepsInv(s, e);
    BindServes(s, e);
    BindingEndsIdle(s, e);
    IdleKnows(s', s'.evaluators[e]);
    PhaseKeepsKnowledge(s, s', e);
  }

  lemma {:induction false} BindServes(s: State, e: nat)
    requires Inv(s) && Knows(s) && e in s.evaluators && s.evaluators[e].phase.Cleared?
    ensures BindingsServe(Advance(s, e))
  {
    var v, s' := s.evaluators[e], Advance(s, e);
    assert EvaluatorOk(s, v) && EvaluatorKnows(s, v);
    BindKeepsInv(s, e);
    if ActiveBinding(s.bindings, v.caseId).Some? {
      UnmovedBindingsServe(s, s');
    } else {
      var l, res, sid := v.phase.l, v.phase.res, v.phase.snapshot;
      StoredVersions(s.cat, res.versions);
      WrittenServes(s, v, l, res, NewBinding(v, l, res, sid));
      forall i | 0 <= i < |s'.bindings| && s'.bindings[i].active ensures Serves(s', s'.bindings[i]) {
        assert i < |s.bindings| ==> BindingOk(s, s.bindings[i]) && Serves(s, s.bindings[i]);
        WritesKeepServes(s, s', s'.bindings[i]);
      }
    }
  }

  lemma {:induction false} AdvanceKeepsKnowledge(s: State, e: nat)
    requires Inv(s) && Knows(s) && e in s.evaluators
    ensures Knows(Advance(s, e))
  {
    match s.evaluators[e].phase
    case Answered(l, res) =>
      if Decide(s, l, s.evaluators[e].ctx, res).ReuseInPlace? {
        ReuseKeepsKnowledge(s, e, l, res);
      } else {
        StoreKeepsKnowledge(s, e, l, res);
      }
    case ReviewStored(_) => InvalidatingKeepsKnowledge(s, e);
    case RefreshStored(_, _, _) => InvalidatingKeepsKnowledge(s, e);
    case Cleared(_, _, _) => BindKeepsKnowledge(s, e);
    case SawRows(_, _, _, _) =>
    case Returned(_) =>
    case Threw =>
    case _ => ReadsKeepKnowledge(s, e);
  }

  lemma {:induction false} CallKeepsKnowledge(s: State, a: Action)
    requires Inv(s) && Knows(s) && Enabled(s, a) && a.Call?
    ensures Knows(Apply(s, a))
  {
    var s' := Apply(s, a);
    CallKeepsInv(s, a);
    UnmovedBindingsServe(s, s');
    PhaseKeepsKnowledge(s, s', a.e);
  }

  // ---------------------------------------------------------------------------------------------
  // Every run

  /** The step is not the write of a propose call whose version is in use. */
  ghost predicate Gentle(s: State, a: Action) {
    a.WriteProposed? && a.p in s.proposers ==> !InUse(s, s.proposers[a.p])
  }

  ghost predicate GentleRun(s: State, actions: seq<Action>)
    decreases |actions|
  {
    actions == [] || (Gentle(s, actions[0]) && GentleRun(Apply(s, actions[0]), actions[1..]))
  }

  /** Every step keeps what the cache knows, the write of a propose call exactly when it is gentle. */
  lemma {:induction false} StepKeepsKnowledge(s: State, a: Action)
    requires Inv(s) && Knows(s) && Enabled(s, a)
    ensures Knows(Apply(s, a)) <==> Gentle(s, a)
  {
    if a.WriteProposed? {
      ProposeWriteIff(s, a.p);
    } else if Environmental(a) {
      EnvironmentIsQuiet(s, a);
      QuietKeepsKnowledge(s, Apply(s, a));
    } else if a.Call? {
      CallKeepsKnowledge(s, a);
    } else if a.Answer? {
      AnswerKeepsKnowledge(s, a.e, a.res);
    } else {
      AdvanceKeepsKnowledge(s, a.e);
    }
  }

  lemma {:induction false} RunKeepsKnowledge(s: State, actions: seq<Action>, s': State)
    requires Inv(s) && Knows(s) && Runs(s, actions, s') && GentleRun(s, actions)
    ensures Inv(s') && Knows(s')
    decreases |actions|
  {
    if actions != [] {
      StepKeepsInv(s, actions[0]);
      StepKeepsKnowledge(s, actions[0]);
      RunKeepsKnowledge(Apply(s, actions[0]), actions[1..], s');
    }
  }

  /** The cache agrees with the slow computation: every active binding of this resolver release with the current
      generation and its deadline ahead holds exactly the versions a fresh resolution of its context finds now. */
  ghost predicate CacheIsRight(s: State) {
    forall i :: 0 <= i < |s.bindings| && s.bindings[i].active ==> Agrees(s, s.bindings[i])
  }

  ghost predicate Agrees(s: State, b: Binding) {
    OfNow(s, b) && s.now < b.revalidateAfter ==>
      forall ctx :: For(b, ctx) ==> Fresh(s.cat, ctx, s.now, s.now) == Some(Members(s.snapshots[b.snapshot].versions))
  }

  lemma {:induction false} KnowingIsRight(s: State)
    requires BindingsServe(s)
    ensures CacheIsRight(s)
  {
    forall i | 0 <= i < |s.bindings| && s.bindings[i].active ensures Agrees(s, s.bindings[i]) {
      ServingAgrees(s, s.bindings[i]);
    }
  }

  lemma {:induction false} ServingAgrees(s: State, b: Binding)
    requires Serves(s, b)
    ensures Agrees(s, b)
  {
    if OfNow(s, b) && s.now < b.revalidateAfter {
      forall ctx | For(b, ctx)
        ensures Fresh(s.cat, ctx, s.now, s.now) == Some(Members(s.snapshots[b.snapshot].versions))
      {
        assert Lasts(s, ctx, Members(s.snapshots[b.snapshot].versions), Some(b.revalidateAfter));
      }
    }
  }

  /** After any run without a propose write to a version in use, the cache is right. */
  lemma {:induction false} CacheAgreesWithResolver(s0: State, actions: seq<Action>, s: State)
    requires Initial(s0) && Runs(s0, actions, s) && GentleRun(s0, actions)
    ensures CacheIsRight(s)
  {
    InitialIsOk(s0);
    InitialKnows(s0);
    RunKeepsKnowledge(s0, actions, s);
    KnowingIsRight(s);
  }

  /** The version of a propose call is not released when it is written: the write does not come late. */
  predicate InTime(s: State, a: Action) {
    a.WriteProposed? && a.p in s.proposers && s.proposers[a.p] in s.cat.versions ==>
        !s.cat.versions[s.proposers[a.p]].status.Released?
  }

  predicate OrderlyRun(s: State, actions: seq<Action>)
    decreases |actions|
  {
    actions == [] || (InTime(s, actions[0]) && OrderlyRun(Apply(s, actions[0]), actions[1..]))
  }

  /** Without late writes every run is gentle. */
  lemma {:induction false} OrderlyIsGentle(s: State, actions: seq<Action>, s': State)
    requires Inv(s) && Knows(s) && Runs(s, actions, s') && OrderlyRun(s, actions)
    ensures GentleRun(s, actions)
    decreases |actions|
  {
    if actions != [] {
      var a := actions[0];
      if a.WriteProposed? { UnreleasedIsUnused(s, s.proposers[a.p]); }
      StepKeepsInv(s, a);
      StepKeepsKnowledge(s, a);
      OrderlyIsGentle(Apply(s, a), actions[1..], s');
    }
  }

  /** After a propose write to a version that a reusable binding holds, that binding disagrees with the resolver. */
  lemma {:induction false} LateWriteGoesWrong(s: State, p: nat, b: Binding)
    requires ProposersOk(s) && p in s.proposers && Touches(s, s.proposers[p], b)
    ensures !Agrees(Apply(s, WriteProposed(p)), b)
  {
    var ctx :| For(b, ctx);
    LoweredVersion(s.cat, s.proposers[p], ctx, s.now, Members(s.snapshots[b.snapshot].versions));
  }

  // ---------------------------------------------------------------------------------------------
  // The fast path

  /** If the generation was still the one it had read when the evaluator read its binding, then, whatever run follows,
      late proposals included, a fast path taken with that binding returns what a fresh resolution found at that read.
      */
  lemma {:induction false} FastPathWasFresh(s: State, e: nat, actions: seq<Action>, s': State)
    requires Inv(s) && BindingsServe(s) && e in s.evaluators && s.evaluators[e].phase == SawGeneration(s.generation)
    requires Plain(s.evaluators[e].ctx)
    requires Runs(Advance(s, e), actions, s') && e in s'.evaluators && s'.evaluators[e] == Advance(s, e).evaluators[e]
    requires var v := s'.evaluators[e];
      v.phase.existing.Some? && FastPath(s', v.phase.existing.value, v.ctx, v.phase.generation)
    ensures
      var v := Advance(s', e).evaluators[e];
      && v.phase.Returned? && v.phase.result.Evaluated? && v.phase.result.outcome == Reused
      && Fresh(s.cat, v.ctx, s.now, s.now) == Some(Members(v.phase.result.versions))
  {
    var v, m := s.evaluators[e], Advance(s, e);
    AdvanceKeepsInv(s, e);
    RunsKeepHistory(m, actions, s');
    var b := s'.evaluators[e].phase.existing.value.row;
    BindingAsRead(s, e, b);
    assert s'.snapshots[b.snapshot] == s.snapshots[b.snapshot];
    assert For(b, v.ctx);
    assert Lasts(s, v.ctx, Members(s.snapshots[b.snapshot].versions), Some(b.revalidateAfter));
  }

  lemma {:induction false} BindingAsRead(s: State, e: nat, b: Binding)
    requires Inv(s) && BindingsServe(s) && e in s.evaluators && s.evaluators[e].phase.SawGeneration?
    requires
      var p := Advance(s, e).evaluators[e].phase;
      p.SawBinding? && p.existing.Some? && p.existing.value.row == b
    ensures b.snapshot < |s.snapshots| && Serves(s, b) && Advance(s, e).snapshots == s.snapshots
    ensures Advance(s, e).now == s.now
  {
    var i := ActiveBinding(s.bindings, s.evaluators[e].caseId);
    assert BindingOk(s, s.bindings[i.value]) && Serves(s, s.bindings[i.value]);
  }

  /** No step of the run is a propose write to a version that `b` holds while it would be reused. */
  ghost predicate Spared(s: State, actions: seq<Action>, b: Binding)
    decreases |actions|
  {
    actions == [] ||
    (&& (actions[0].WriteProposed? && actions[0].p in s.proposers ==> !Touches(s, s.proposers[actions[0].p], b))
     && Spared(Apply(s, actions[0]), actions[1..], b))
  }

  lemma {:induction false} StepKeepsServing(s: State, a: Action, b: Binding)
    requires Inv(s) && Enabled(s, a) && BindingOk(s, b) && Serves(s, b)
    ensures BindingOk(Apply(s, a), b)
    ensures Serves(Apply(s, a), b) <==> !(a.WriteProposed? && Touches(s, s.proposers[a.p], b))
  {
    StepKeepsInv(s, a);
    var s' := Apply(s, a);
    if a.WriteProposed? {
      ServesIff(s, s.proposers[a.p], b);
      SameServes(Demoted(s, s.proposers[a.p]), s', b);
    } else if Environmental(a) {
      EnvironmentIsQuiet(s, a);
      QuietServes(s, s', b);
    } else {
      NotEnvironmental(s, a);
      WritesKeepServes(s, s', b);
    }
  }

  lemma {:induction false} NotEnvironmental(s: State, a: Action)
    requires Inv(s) && Enabled(s, a) && !Environmental(a)
    ensures Writes(s, Apply(s, a))
  {
    if a.Call? { CallKeepsInv(s, a); } else if a.Answer? { AnswerKeepsInv(s, a.e, a.res); }
        else { AdvanceKeepsInv(s, a.e); }
  }

  lemma {:induction false} SameServes(s: State, s': State, b: Binding)
    requires s' == s.(proposers := s'.proposers)
    ensures Serves(s', b) <==> Serves(s, b)
  {
  }

  lemma {:induction false} SparedServes(s: State, actions: seq<Action>, s': State, b: Binding)
    requires Inv(s) && BindingOk(s, b) && Serves(s, b) && Runs(s, actions, s') && Spared(s, actions, b)
    ensures Serves(s', b)
    decreases |actions|
  {
    if actions != [] {
      StepKeepsInv(s, actions[0]);
      StepKeepsServing(s, actions[0], b);
      SparedServes(Apply(s, actions[0]), actions[1..], s', b);
    }
  }

  /** If moreover no propose write has hit the binding and the generation is still the one it read, the evaluator
      returns what a fresh resolution finds at the very moment it returns. */
  lemma {:induction false} FastPathIsFresh(s: State, e: nat, actions: seq<Action>, s': State)
    requires Inv(s) && BindingsServe(s) && e in s.evaluators && s.evaluators[e].phase == SawGeneration(s.generation)
    requires Plain(s.evaluators[e].ctx)
    requires Runs(Advance(s, e), actions, s') && e in s'.evaluators && s'.evaluators[e] == Advance(s, e).evaluators[e]
    requires var v := s'.evaluators[e];
      && v.phase.existing.Some? && FastPath(s', v.phase.existing.value, v.ctx, v.phase.generation)
      && Spared(Advance(s, e), actions, v.phase.existing.value.row) && s'.generation == v.phase.generation
    ensures
      var v := Advance(s', e).evaluators[e];
      && v.phase.Returned? && v.phase.result.Evaluated? && v.phase.result.outcome == Reused
      && Fresh(s'.cat, v.ctx, s'.now, s'.now) == Some(Members(v.phase.result.versions))
  {
    var m := Advance(s, e);
    AdvanceKeepsInv(s, e);
    var b := s'.evaluators[e].phase.existing.value.row;
    BindingAsRead(s, e, b);
    WritesKeepServes(s, m, b);
    assert EvaluatorOk(m, m.evaluators[e]);
    SparedServes(m, actions, s', b);
    ServingAgrees(s', b);
    assert OfNow(s', b) && For(b, s.evaluators[e].ctx);
  }
}
