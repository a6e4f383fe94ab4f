/** In every interleaving: what the rows and the evaluators between two steps can rely on, whoever writes when. */
module PolicyBindings {
  import opened Basics
  import opened Sorting
  import opened PolicyCatalog
  import opened PolicyResolver
  import opened PolicyDependency
  import opened PolicyWording
  import opened PolicyEvaluation

  // ---------------------------------------------------------------------------------------------
  // The invariant

  /** The references carry the content of catalog versions, each version at most once. */
  ghost predicate FromCatalog(cat: Catalog, vs: seq<VersionRef>) {
    DistinctIds(vs) && forall v :: v in vs ==> v.id in cat.versions && v == RefOf(v.id, cat.versions[v.id])
  }

  ghost predicate CatalogOk(cat: Catalog) {
    forall id :: id in cat.versions ==> WellFormedRule(cat.versions[id])
  }

  ghost predicate SnapshotOk(s: State, n: Snapshot) {
    n.resolved ==> FromCatalog(s.cat, n.versions) && n.digest == ComputeDigest(true, [], n.versions)
  }

  ghost predicate BindingOk(s: State, b: Binding) {
    && b.snapshot < |s.snapshots| && b.generation <= s.generation
    && var n := s.snapshots[b.snapshot];
       n.resolved && n.caseId == b.caseId && n.digest == b.digest
  }

  ghost predicate OneActive(bs: seq<Binding>) {
    forall i, j :: 0 <= i < j < |bs| ==> !(bs[i].active && bs[j].active && bs[i].caseId == bs[j].caseId)
  }

  ghost predicate ResolutionOk(s: State, res: Resolution) {
    res.resolved ==> FromCatalog(s.cat, res.versions) && res.reasons == []
  }

  /** What never changes in a binding row; an invalidated row stays invalidated. */
  predicate SameBinding(b: Binding, b': Binding) {
    && b'.caseId == b.caseId && b'.digest == b.digest && b'.contextKey == b.contextKey && b'.snapshot == b.snapshot
    && (b'.active ==> b.active)
  }

  ghost predicate FoundOk(s: State, caseId: nat, f: Found) {
    f.id < |s.bindings| && SameBinding(f.row, s.bindings[f.id]) && f.row.caseId == caseId && BindingOk(s, f.row)
  }

  ghost predicate LocalsOk(s: State, v: Evaluator, l: Locals) {
    l.generation <= s.generation && l.at <= s.now && (l.existing.Some? ==> FoundOk(s, v.caseId, l.existing.value))
  }

  /** The rows an evaluator read are rows still, and unless the generation has moved no released row is missing. */
  ghost predicate RowsSeen(s: State, l: Locals, rows: set<Row>) {
    && rows <= s.cat.rows
    && (l.generation == s.generation ==> forall row :: row in s.cat.rows && Live(s.cat, row) ==> row in rows)
  }

  /** The returned resolution, snapshot and binding describe the same versions of the same case. */
  ghost predicate ResultOk(s: State, v: Evaluator, r: Result) {
    match r
    case Evaluated(_, versions, sid, b) =>
      && sid < |s.snapshots| && b.snapshot == sid && b.caseId == v.caseId
      && var n := s.snapshots[sid];
         n.resolved && n.caseId == v.caseId && Members(versions) == Members(n.versions)
    case ReviewRequired(sid) => sid < |s.snapshots| && !s.snapshots[sid].resolved && s.snapshots[sid].caseId == v.caseId
  }

  ghost predicate EvaluatorOk(s: State, v: Evaluator) {
    && v.asOf <= s.now
    && match v.phase
       case Called => true
       case SawGeneration(g) => g <= s.generation
       case SawBinding(g, existing) => g <= s.generation && (existing.Some? ==> FoundOk(s, v.caseId, existing.value))
       case Resolving(l) => LocalsOk(s, v, l)
       case Dated(l, know) => LocalsOk(s, v, l) && know <= s.now
       case SawRevisions(l, know, rs) => LocalsOk(s, v, l) && know <= s.now && rs <= s.cat.revisions
       case SawRows(l, know, rs, rows) =>
         LocalsOk(s, v, l) && know <= s.now && rs <= s.cat.revisions && RowsSeen(s, l, rows)
       case Answered(l, res) => LocalsOk(s, v, l) && ResolutionOk(s, res)
       case ReviewStored(sid) =>
         sid < |s.snapshots| && !s.snapshots[sid].resolved && s.snapshots[sid].caseId == v.caseId
       case RefreshStored(l, res, sid) => StoredOk(s, v, l, res, sid)
       case Cleared(l, res, sid) => StoredOk(s, v, l, res, sid)
       case Lost => true
       case SawWinner(w) => BindingOk(s, w) && w.caseId == v.caseId
       case Returned(r) => ResultOk(s, v, r)
       case Threw => true
  }

  ghost predicate StoredOk(s: State, v: Evaluator, l: Locals, res: Resolution, sid: nat) {
    && LocalsOk(s, v, l) && res.resolved && ResolutionOk(s, res)
    && sid < |s.snapshots| && s.snapshots[sid] == SnapshotOf(v.caseId, res)
  }

  ghost predicate RowsOk(s: State) {
    && CatalogOk(s.cat)
    && (forall i :: 0 <= i < |s.snapshots| ==> SnapshotOk(s, s.snapshots[i]))
    && (forall i :: 0 <= i < |s.bindings| ==> BindingOk(s, s.bindings[i]))
    && OneActive(s.bindings)
  }

  ghost predicate ProposersOk(s: State) { forall p :: p in s.proposers ==> s.proposers[p] in s.cat.versions }

  ghost predicate Inv(s: State) {
    RowsOk(s) && ProposersOk(s) && forall e :: e in s.evaluators ==> EvaluatorOk(s, s.evaluators[e])
  }

  /** Where a run may start: no call under way, and rows left by an older resolver release. */
  ghost predicate Initial(s: State) {
    && CatalogOk(s.cat) && s.evaluators == map[] && s.proposers == map[] && OneActive(s.bindings)
    && (forall i :: 0 <= i < |s.snapshots| ==>
        SnapshotOk(s, s.snapshots[i]) && s.snapshots[i].resolverVersion != RESOLVER_VERSION)
    && (forall i :: 0 <= i < |s.bindings| ==> BindingOk(s, s.bindings[i]))
  }

  lemma {:induction false} InitialIsOk(s: State)
    requires Initial(s)
    ensures Inv(s)
  {
  }

  // ---------------------------------------------------------------------------------------------
  // The environment: time, catalog, source revisions, propose calls

  /** Time and the catalog move on; without a new generation no row becomes live. */
  ghost predicate Moves(s: State, s': State) {
    && s'.snapshots == s.snapshots && s'.bindings == s.bindings && s'.evaluators == s.evaluators
    && s.now <= s'.now && s.generation <= s'.generation && s.cat.revisions <= s'.cat.revisions
    && s.cat.rows <= s'.cat.rows && CatalogOk(s'.cat)
    && (forall id :: id in s.cat.versions ==>
        id in s'.cat.versions && RefOf(id, s'.cat.versions[id]) == RefOf(id, s.cat.versions[id]))
    && (s'.generation == s.generation ==>
          forall row :: row in s'.cat.rows && Live(s'.cat, row) ==> row in s.cat.rows && Live(s.cat, row))
  }

  lemma {:induction false} MovesKeepRefs(s: State, s': State, vs: seq<VersionRef>)
    requires Moves(s, s') && FromCatalog(s.cat, vs)
    ensures FromCatalog(s'.cat, vs)
  {
  }

  lemma {:induction false} MovesKeepEvaluator(s: State, s': State, v: Evaluator)
    requires Moves(s, s') && EvaluatorOk(s, v)
    ensures EvaluatorOk(s', v)
  {
    match v.phase
    case Answered(l, res) => if res.resolved { MovesKeepRefs(s, s', res.versions); }
    case RefreshStored(l, res, _) => MovesKeepRefs(s, s', res.versions);
    case Cleared(l, res, _) => MovesKeepRefs(s, s', res.versions);
    case _ =>
  }

  lemma {:induction false} MovesKeepRows(s: State, s': State)
    requires Moves(s, s') && RowsOk(s)
    ensures RowsOk(s')
  {
    forall i | 0 <= i < |s'.snapshots| ensures SnapshotOk(s', s'.snapshots[i]) {
      assert SnapshotOk(s, s.snapshots[i]);
      if s.snapshots[i].resolved { MovesKeepRefs(s, s', s.snapshots[i].versions); }
    }
    forall i | 0 <= i < |s'.bindings| ensures BindingOk(s', s'.bindings[i]) { assert BindingOk(s, s.bindings[i]); }
  }

  predicate Environmental(a: Action) {
    a.Tick? || a.Release? || a.Withdraw? || a.ReadDraft? || a.WriteProposed? || a.AddDraft? || a.RecordRevision?
  }

  lemma {:induction false} EnvironmentMoves(s: State, a: Action)
    requires CatalogOk(s.cat) && ProposersOk(s) && Enabled(s, a) && Environmental(a)
    ensures Moves(s, Apply(s, a)) && ProposersOk(Apply(s, a))
  {
    match a
    case Release(id) => StatusMoves(s, id, Released, s.generation + 1, s.proposers);
    case Withdraw(id) => StatusMoves(s, id, Withdrawn, s.generation + 1, s.proposers);
    case WriteProposed(p) => StatusMoves(s, s.proposers[p], Proposed, s.generation, s.proposers - {p});
    case AddDraft(id, d, row) => DraftMoves(s, id, d, row);
    case _ =>
  }

  lemma {:induction false} StatusMoves(
    s: State, id: VersionId, status: ReleaseStatus, generation: int, proposers: map<nat, VersionId>)
    requires CatalogOk(s.cat) && id in s.cat.versions && s.generation <= generation
    requires (generation == s.generation ==> !status.Released?)
    ensures Moves(s, s.(cat := WithStatus(s.cat, id, status), generation := generation, proposers := proposers))
  {
  }

  lemma {:induction false} DraftMoves(s: State, id: VersionId, d: Version, row: Row)
    requires CatalogOk(s.cat) && Enabled(s, AddDraft(id, d, row))
    ensures Moves(s, Apply(s, AddDraft(id, d, row)))
  {
  }

  lemma {:induction false} EnvironmentKeepsInv(s: State, a: Action)
    requires Inv(s) && Enabled(s, a) && Environmental(a)
    ensures Inv(Apply(s, a)) && Moves(s, Apply(s, a))
  {
    var s' := Apply(s, a);
    EnvironmentMoves(s, a);
    MovesKeepRows(s, s');
    forall e | e in s'.evaluators ensures EvaluatorOk(s', s'.evaluators[e]) {
      assert EvaluatorOk(s, s.evaluators[e]);
      MovesKeepEvaluator(s, s', s.evaluators[e]);
    }
  }

  // ---------------------------------------------------------------------------------------------
  // The writes of evaluators

  /** Snapshots are only appended, binding rows keep what identifies them, and nothing else moves. */
  ghost predicate Writes(s: State, s': State) {
    && s'.now == s.now && s'.cat == s.cat && s'.generation == s.generation && s'.proposers == s.proposers
    && s.snapshots <= s'.snapshots && |s.bindings| <= |s'.bindings|
    && forall i :: 0 <= i < |s.bindings| ==> SameBinding(s.bindings[i], s'.bindings[i])
  }

  lemma {:induction false} WritesKeepFound(s: State, s': State, caseId: nat, f: Found)
    requires Writes(s, s') && FoundOk(s, caseId, f)
    ensures FoundOk(s', caseId, f)
  {
    assert SameBinding(s.bindings[f.id], s'.bindings[f.id]);
  }

  lemma {:induction false} WritesKeepLocals(s: State, s': State, v: Evaluator, l: Locals)
    requires Writes(s, s') && LocalsOk(s, v, l)
    ensures LocalsOk(s', v, l)
  {
    if l.existing.Some? { WritesKeepFound(s, s', v.caseId, l.existing.value); }
  }

  lemma {:induction false} WritesKeepEvaluator(s: State, s': State, v: Evaluator)
    requires Writes(s, s') && EvaluatorOk(s, v)
    ensures EvaluatorOk(s', v)
  {
    match v.phase
    case SawBinding(_, existing) => if existing.Some? { WritesKeepFound(s, s', v.caseId, existing.value); }
    case Resolving(l) => WritesKeepLocals(s, s', v, l);
    case Dated(l, _) => WritesKeepLocals(s, s', v, l);
    case SawRevisions(l, _, _) => WritesKeepLocals(s, s', v, l);
    case SawRows(l, _, _, _) => WritesKeepLocals(s, s', v, l);
    case Answered(l, _) => WritesKeepLocals(s, s', v, l);
    case RefreshStored(l, _, _) => WritesKeepLocals(s, s', v, l);
    case Cleared(l, _, _) => WritesKeepLocals(s, s', v, l);
    case _ =>
  }

  /** One evaluator moves to its next phase, possibly after a write. */
  lemma {:induction false} PhaseKeepsInv(s: State, w: State, e: nat, p: Phase)
    requires Inv(s) && e in s.evaluators && Writes(s, w) && w.evaluators == s.evaluators && RowsOk(w)
    requires EvaluatorOk(w, s.evaluators[e].(phase := p))
    ensures Inv(SetPhase(w, e, p))
  {
    var s' := SetPhase(w, e, p);
    forall d | d in s'.evaluators ensures EvaluatorOk(s', s'.evaluators[d]) {
      if d != e { WritesKeepEvaluator(s, w, s.evaluators[d]); }
      WritesKeepEvaluator(w, s', if d == e then s.evaluators[e].(phase := p) else s.evaluators[d]);
    }
    SameRowsOk(w, s');
  }

  lemma {:induction false} SameRowsOk(s: State, s': State)
    requires RowsOk(s) && s' == s.(evaluators := s'.evaluators)
    ensures RowsOk(s')
  {
    forall i | 0 <= i < |s'.bindings| ensures BindingOk(s', s'.bindings[i]) { assert BindingOk(s, s.bindings[i]); }
    forall i | 0 <= i < |s'.snapshots| ensures SnapshotOk(s', s'.snapshots[i]) { assert SnapshotOk(s, s.snapshots[i]); }
  }

  lemma {:induction false} AnswerFromCatalog(cat: Catalog, ctx: Context, asOf: Instant, res: Resolution)
    requires Members(res.versions) == Applicable(cat, ctx, asOf) && DistinctIds(res.versions)
    ensures FromCatalog(cat, res.versions)
  {
    forall v | v in res.versions ensures v.id in cat.versions && v == RefOf(v.id, cat.versions[v.id]) {
      assert v in Members(res.versions);
      assert v in Applicable(cat, ctx, asOf);
    }
  }

  // ---------------------------------------------------------------------------------------------
  // Digests of stored versions

  lemma {:induction false} CatalogRules(cat: Catalog, vs: seq<VersionRef>)
    requires CatalogOk(cat) && FromCatalog(cat, vs)
    ensures RulesWellFormed(vs)
  {
    forall i | 0 <= i < |vs| ensures PolicyDigest.WellFormed(vs[i].rule) {
      assert vs[i] in vs;
      assert WellFormedRule(cat.versions[vs[i].id]);
    }
  }

  lemma {:induction false} StoredVersions(cat: Catalog, vs: seq<VersionRef>)
    requires CatalogOk(cat) && FromCatalog(cat, vs)
    ensures FromCatalog(cat, SnapshotVersions(vs)) && Members(SnapshotVersions(vs)) == Members(vs)
    ensures ComputeDigest(true, [], SnapshotVersions(vs)) == ComputeDigest(true, [], vs)
  {
    SnapshotKeeps(vs);
    var stored := SnapshotVersions(vs);
    CatalogRules(cat, vs);
    CatalogRules(cat, stored);
    assert CanonicalRefs(stored) == CanonicalRefs(vs);
    DigestIsExact(true, [], stored, true, [], vs);
  }

  /** Catalog versions with the same digest are the same versions. */
  lemma {:induction false} SameDigestSameVersions(cat: Catalog, vs: seq<VersionRef>, ws: seq<VersionRef>)
    requires CatalogOk(cat) && FromCatalog(cat, vs) && FromCatalog(cat, ws)
    ensures ComputeDigest(true, [], vs) == ComputeDigest(true, [], ws) <==> Members(vs) == Members(ws)
  {
    CatalogRules(cat, vs);
    CatalogRules(cat, ws);
    DigestIsExact(true, [], vs, true, [], ws);
    if CanonicalRefs(vs) == CanonicalRefs(ws) {
      CoveredVersions(cat, vs, ws);
      CoveredVersions(cat, ws, vs);
    }
    if Members(vs) == Members(ws) {
      forall v ensures v in vs <==> v in ws { assert v in Members(vs) <==> v in Members(ws); }
      assert CanonicalRefs(vs) == CanonicalRefs(ws);
    }
  }

  lemma {:induction false} CoveredVersions(cat: Catalog, vs: seq<VersionRef>, ws: seq<VersionRef>)
    requires FromCatalog(cat, vs) && FromCatalog(cat, ws) && CanonicalRefs(vs) <= CanonicalRefs(ws)
    ensures Members(vs) <= Members(ws)
  {
    forall v | v in Members(vs) ensures v in Members(ws) {
      assert CanonicalRef(v) in CanonicalRefs(vs);
      var w :| w in ws && CanonicalRef(w) == CanonicalRef(v);
      assert w.id == v.id;
    }
  }

  // ---------------------------------------------------------------------------------------------
  // Storing a snapshot, writing a binding

  lemma {:induction false} StoreKeepsRows(s: State, caseId: nat, res: Resolution)
    requires RowsOk(s) && ResolutionOk(s, res)
    ensures
      var w := s.(snapshots := s.snapshots + [SnapshotOf(caseId, res)]);
      RowsOk(w) && Writes(s, w)
  {
    var n := SnapshotOf(caseId, res);
    var w := s.(snapshots := s.snapshots + [n]);
    forall i | 0 <= i < |w.snapshots| ensures SnapshotOk(w, w.snapshots[i]) {
      if i < |s.snapshots| {
        assert SnapshotOk(s, s.snapshots[i]);
      } else if res.resolved {
        StoredVersions(s.cat, res.versions);
        assert Reasons(res.reasons) == [];
      }
    }
    forall i | 0 <= i < |w.bindings| ensures BindingOk(w, w.bindings[i]) { assert BindingOk(s, s.bindings[i]); }
  }

  /** Changing one binding row in place. */
  lemma {:induction false} UpdateKeepsRows(s: State, i: nat, b: Binding)
    requires RowsOk(s) && i < |s.bindings| && SameBinding(s.bindings[i], b) && BindingOk(s, b)
    ensures
      var w := s.(bindings := s.bindings[i := b]);
      RowsOk(w) && Writes(s, w)
  {
    SameSnapshots(s, s.(bindings := s.bindings[i := b]));
  }

  lemma {:induction false} SameSnapshots(s: State, w: State)
    requires RowsOk(s) && w == s.(bindings := w.bindings) && OneActive(w.bindings)
    requires forall k :: 0 <= k < |w.bindings| ==> BindingOk(s, w.bindings[k])
    ensures RowsOk(w)
  {
    forall k | 0 <= k < |w.bindings| ensures BindingOk(w, w.bindings[k]) { assert BindingOk(s, w.bindings[k]); }
    forall k | 0 <= k < |w.snapshots| ensures SnapshotOk(w, w.snapshots[k]) { assert SnapshotOk(s, s.snapshots[k]); }
  }

  lemma {:induction false} InvalidateKeepsRows(s: State, caseId: nat)
    requires RowsOk(s)
    ensures
      var w := s.(bindings := InvalidateActive(s.bindings, caseId));
      RowsOk(w) && Writes(s, w) && ActiveBinding(w.bindings, caseId).None?
  {
    var w := s.(bindings := InvalidateActive(s.bindings, caseId));
    forall k | 0 <= k < |w.bindings| ensures BindingOk(s, w.bindings[k]) { assert BindingOk(s, s.bindings[k]); }
    SameSnapshots(s, w);
  }

  /** The unique index on active bindings lets a new one in only when there is none. */
  lemma {:induction false} InsertKeepsRows(s: State, b: Binding)
    requires RowsOk(s) && BindingOk(s, b) && ActiveBinding(s.bindings, b.caseId).None?
    ensures
      var w := s.(bindings := s.bindings + [b]);
      RowsOk(w) && Writes(s, w)
  {
    SameSnapshots(s, s.(bindings := s.bindings + [b]));
  }

  // ---------------------------------------------------------------------------------------------
  // The evaluator, phase by phase

  predicate Reading(p: Phase) {
    p.Called? || p.SawGeneration? || p.Resolving? || p.Dated? || p.SawRevisions? || p.Lost?
  }

  lemma {:induction false} ReadsKeepInv(s: State, e: nat)
    requires Inv(s) && e in s.evaluators && Reading(s.evaluators[e].phase)
    ensures Inv(Advance(s, e)) && Writes(s, Advance(s, e))
  {
    var v := s.evaluators[e];
    assert EvaluatorOk(s, v);
    var i := ActiveBinding(s.bindings, v.caseId);
    assert i.Some? ==> BindingOk(s, s.bindings[i.value]);
    PhaseKeepsInv(s, s, e, Advance(s, e).evaluators[e].phase);
  }

  lemma {:induction false} FastPathKeepsInv(s: State, e: nat)
    requires Inv(s) && e in s.evaluators && (s.evaluators[e].phase.SawBinding? || s.evaluators[e].phase.SawWinner?)
    ensures Inv(Advance(s, e)) && Writes(s, Advance(s, e))
  {
    assert EvaluatorOk(s, s.evaluators[e]);
    PhaseKeepsInv(s, s, e, Advance(s, e).evaluators[e].phase);
  }

  lemma {:induction false} AnswerKeepsInv(s: State, e: nat, res: Resolution)
    requires Inv(s) && Enabled(s, Answer(e, res))
    ensures Inv(Apply(s, Answer(e, res))) && Writes(s, Apply(s, Answer(e, res)))
  {
    var v := s.evaluators[e];
    assert EvaluatorOk(s, v);
    if res.resolved { AnswerFromCatalog(SeenBy(s.cat, v.phase.rows, v.phase.revisions), v.ctx, v.asOf, res); }
    PhaseKeepsInv(s, s, e, Answered(v.phase.l, res));
  }

  lemma {:induction false} StoreKeepsInv(s: State, e: nat, l: Locals, res: Resolution)
    requires Inv(s) && e in s.evaluators && s.evaluators[e].phase == Answered(l, res)
    requires !Decide(s, l, s.evaluators[e].ctx, res).ReuseInPlace?
    ensures Inv(Advance(s, e)) && Writes(s, Advance(s, e))
  {
    var v := s.evaluators[e];
    assert EvaluatorOk(s, v);
    StoreKeepsRows(s, v.caseId, res);
    var w := s.(snapshots := s.snapshots + [SnapshotOf(v.caseId, res)]);
    WritesKeepEvaluator(s, w, v);
    PhaseKeepsInv(s, w, e, Advance(s, e).evaluators[e].phase);
  }

  /** The digest comparison found the bound versions unchanged. */
  lemma {:induction false} ReusedVersions(s: State, v: Evaluator, l: Locals, res: Resolution)
    requires RowsOk(s) && LocalsOk(s, v, l) && ResolutionOk(s, res)
    requires Decide(s, l, v.ctx, res).ReuseInPlace?
    ensures Members(s.snapshots[l.existing.value.row.snapshot].versions) == Members(res.versions)
  {
    var n := s.snapshots[l.existing.value.row.snapshot];
    assert SnapshotOk(s, n);
    assert Reasons(res.reasons) == [];
    SameDigestSameVersions(s.cat, n.versions, res.versions);
  }

  lemma {:induction false} ReuseKeepsInv(s: State, e: nat, l: Locals, res: Resolution)
    requires Inv(s) && e in s.evaluators && s.evaluators[e].phase == Answered(l, res)
    requires Decide(s, l, s.evaluators[e].ctx, res).ReuseInPlace?
    ensures Inv(Advance(s, e)) && Writes(s, Advance(s, e))
  {
    var v := s.evaluators[e];
    assert EvaluatorOk(s, v);
    ReusedVersions(s, v, l, res);
    var f := l.existing.value;
    var b := s.bindings[f.id].(generation := l.generation, revalidateAfter := NextRevalidationDeadline(l.at, res));
    assert BindingOk(s, s.bindings[f.id]);
    UpdateKeepsRows(s, f.id, b);
    PhaseKeepsInv(s, s.(bindings := s.bindings[f.id := b]), e, Advance(s, e).evaluators[e].phase);
  }

  lemma {:induction false} ReviewKeepsInv(s: State, e: nat)
    requires Inv(s) && e in s.evaluators && s.evaluators[e].phase.ReviewStored?
    ensures Inv(Advance(s, e)) && Writes(s, Advance(s, e))
  {
    var v := s.evaluators[e];
    assert EvaluatorOk(s, v);
    InvalidateKeepsRows(s, v.caseId);
    var w := s.(bindings := InvalidateActive(s.bindings, v.caseId));
    PhaseKeepsInv(s, w, e, Returned(ReviewRequired(v.phase.snapshot)));
  }

  lemma {:induction false} ClearKeepsInv(s: State, e: nat)
    requires Inv(s) && e in s.evaluators && s.evaluators[e].phase.RefreshStored?
    ensures Inv(Advance(s, e)) && Writes(s, Advance(s, e))
  {
    var v := s.evaluators[e];
    assert EvaluatorOk(s, v);
    var l, w := v.phase.l, s;
    if l.existing.Some? {
      var i := l.existing.value.id;
      assert BindingOk(s, s.bindings[i]);
      UpdateKeepsRows(s, i, s.bindings[i].(active := false));
      w := s.(bindings := s.bindings[i := s.bindings[i].(active := false)]);
    }
    WritesKeepEvaluator(s, w, v);
    PhaseKeepsInv(s, w, e, Cleared(l, v.phase.res, v.phase.snapshot));
  }

  lemma {:induction false} BindKeepsInv(s: State, e: nat)
    requires Inv(s) && e in s.evaluators && s.evaluators[e].phase.Cleared?
    ensures Inv(Advance(s, e)) && Writes(s, Advance(s, e))
  {
    var v := s.evaluators[e];
    assert EvaluatorOk(s, v);
    if ActiveBinding(s.bindings, v.caseId).Some? {
      PhaseKeepsInv(s, s, e, Lost);
    } else {
      var l, res, sid := v.phase.l, v.phase.res, v.phase.snapshot;
      var b := NewBinding(v, l, res, sid);
      StoredVersions(s.cat, res.versions);
      InsertKeepsRows(s, b);
      PhaseKeepsInv(s, s.(bindings := s.bindings + [b]), e, Returned(Evaluated(Refreshed, res.versions, sid, b)));
    }
  }

  lemma {:induction false} AdvanceKeepsInv(s: State, e: nat)
    requires Inv(s) && e in s.evaluators
    ensures Inv(Advance(s, e)) && Writes(s, Advance(s, e))
  {
    match s.evaluators[e].phase
    case SawBinding(_, _) => FastPathKeepsInv(s, e);
    case SawWinner(_) => FastPathKeepsInv(s, e);
    case Answered(l, res) =>
      if Decide(s, l, s.evaluators[e].ctx, res).ReuseInPlace? {
        ReuseKeepsInv(s, e, l, res);
      } else {
        StoreKeepsInv(s, e, l, res);
      }
    case ReviewStored(_) => ReviewKeepsInv(s, e);
    case RefreshStored(_, _, _) => ClearKeepsInv(s, e);
    case Cleared(_, _, _) => BindKeepsInv(s, e);
    case SawRows(_, _, _, _) =>
    case Returned(_) =>
    case Threw =>
    case _ => ReadsKeepInv(s, e);
  }

  // ---------------------------------------------------------------------------------------------
  // Every run

  lemma {:induction false} CallKeepsInv(s: State, a: Action)
    requires Inv(s) && Enabled(s, a) && a.Call?
    ensures Inv(Apply(s, a)) && Writes(s, Apply(s, a))
  {
    var s' := Apply(s, a);
    forall d | d in s'.evaluators ensures EvaluatorOk(s', s'.evaluators[d]) {
      if d != a.e { WritesKeepEvaluator(s, s', s.evaluators[d]); }
    }
    SameRowsOk(s, s');
  }

  lemma {:induction false} StepKeepsInv(s: State, a: Action)
    requires Inv(s) && Enabled(s, a)
    ensures Inv(Apply(s, a)) && (Moves(s, Apply(s, a)) || Writes(s, Apply(s, a)))
  {
    if Environmental(a) {
      EnvironmentKeepsInv(s, a);
    } else if a.Call? {
      CallKeepsInv(s, a);
    } else if a.Answer? {
      AnswerKeepsInv(s, a.e, a.res);
    } else {
      AdvanceKeepsInv(s, a.e);
    }
  }

  lemma {:induction false} RunKeepsInv(s: State, actions: seq<Action>, s': State)
    requires Inv(s) && Runs(s, actions, s')
    ensures Inv(s')
    decreases |actions|
  {
    if actions != [] {
      StepKeepsInv(s, actions[0]);
      RunKeepsInv(Apply(s, actions[0]), actions[1..], s');
    }
  }

  /** After any run: one active binding per case at most, and every returned evaluation is coherent. */
  lemma {:induction false} RunsAreCoherent(s0: State, actions: seq<Action>, s: State, e: nat)
    requires Initial(s0) && Runs(s0, actions, s)
    ensures OneActive(s.bindings)
    ensures e in s.evaluators && s.evaluators[e].phase.Returned? ==>
      ResultOk(s, s.evaluators[e], s.evaluators[e].phase.result)
  {
    InitialIsOk(s0);
    RunKeepsInv(s0, actions, s);
    assert e in s.evaluators ==> EvaluatorOk(s, s.evaluators[e]);
  }

  /** Rows are history: snapshots are only appended and never altered, bindings are never re-pointed or reactivated. */
  ghost predicate History(s: State, s': State) {
    && s.now <= s'.now && s.snapshots <= s'.snapshots && |s.bindings| <= |s'.bindings|
    && forall i :: 0 <= i < |s.bindings| ==> SameBinding(s.bindings[i], s'.bindings[i])
  }

  lemma {:induction false} RunsKeepHistory(s: State, actions: seq<Action>, s': State)
    requires Inv(s) && Runs(s, actions, s')
    ensures History(s, s')
    decreases |actions|
  {
    if actions != [] {
      var m := Apply(s, actions[0]);
      StepKeepsInv(s, actions[0]);
      RunsKeepHistory(m, actions[1..], s');
      forall i | 0 <= i < |s.bindings| ensures SameBinding(s.bindings[i], s'.bindings[i]) {
        assert SameBinding(s.bindings[i], m.bindings[i]) && SameBinding(m.bindings[i], s'.bindings[i]);
      }
    }
  }
}
