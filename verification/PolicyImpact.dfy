/** The dry-run impact verdict, and what the real evaluation then does. */
module PolicyImpact {
  import opened Basics
  import opened Sorting
  import opened PolicyCatalog
  import opened PolicyResolver
  import opened PolicyWording
  import opened PolicyEvaluation
  import opened PolicyBindings

  datatype Impact = NoImpact | RequiresReevaluation | Ambiguous

  function Ids(vs: seq<VersionRef>): set<VersionId> { set v | v in vs :: v.id }

  function ClassifyImpact(prior: Snapshot, dryRun: Resolution): Impact {
    if !dryRun.resolved then Ambiguous
    else
      var was, now := Ids(prior.versions), Ids(dryRun.versions);
      if |was| == |now| && forall id :: id in was ==> id in now then NoImpact else RequiresReevaluation
  }

  lemma {:induction false} SubsetOfSameSize(a: set<VersionId>, b: set<VersionId>)
    requires a <= b && |a| == |b|
    ensures a == b
  {
    assert b == a + (b - a);
    assert |b| == |a| + |b - a|;
  }

  /** Comparing ids is as good as comparing whole versions, because version content never changes. */
  lemma {:induction false} SameIdsSameVersions(cat: Catalog, vs: seq<VersionRef>, ws: seq<VersionRef>)
    requires FromCatalog(cat, vs) && FromCatalog(cat, ws)
    ensures (|Ids(vs)| == |Ids(ws)| && forall id :: id in Ids(vs) ==> id in Ids(ws)) <==> Members(vs) == Members(ws)
  {
    if |Ids(vs)| == |Ids(ws)| && forall id :: id in Ids(vs) ==> id in Ids(ws) {
      SubsetOfSameSize(Ids(vs), Ids(ws));
      IdsCover(cat, vs, ws);
      IdsCover(cat, ws, vs);
    }
    if Members(vs) == Members(ws) {
      forall v ensures v in vs <==> v in ws { assert v in Members(vs) <==> v in Members(ws); }
      assert Ids(vs) == Ids(ws);
    }
  }

  lemma {:induction false} IdsCover(cat: Catalog, vs: seq<VersionRef>, ws: seq<VersionRef>)
    requires FromCatalog(cat, vs) && FromCatalog(cat, ws) && Ids(vs) <= Ids(ws)
    ensures Members(vs) <= Members(ws)
  {
    forall v | v in Members(vs) ensures v in Members(ws) {
      assert v.id in Ids(vs);
      var w :| w in ws && w.id == v.id;
    }
  }

  /** The dry run and the evaluation saw the same catalog, context and instants. */
  ghost predicate SameQuestion(
    cat: Catalog, ctx: Context, asOf: Instant, know: Instant, dryRun: Resolution, res: Resolution) {
    Answers(cat, ctx, asOf, know, dryRun) && Answers(cat, ctx, asOf, know, res)
  }

  /** For a binding of this resolver release and this context, the verdict is the branch the slow path takes. */
  lemma {:induction false} VerdictIsBranch(
      s: State, e: nat, l: Locals, res: Resolution, dryRun: Resolution, cat: Catalog, know: Instant)
    requires Inv(s) && e in s.evaluators && s.evaluators[e].phase == Answered(l, res)
    requires l.existing.Some? && Comparable(s, l.existing.value, s.evaluators[e].ctx)
    requires SameQuestion(cat, s.evaluators[e].ctx, s.evaluators[e].asOf, know, dryRun, res)
    ensures
      var impact := ClassifyImpact(s.snapshots[l.existing.value.row.snapshot], dryRun);
      var branch := Decide(s, l, s.evaluators[e].ctx, res);
      && (impact == NoImpact <==> branch == ReuseInPlace)
      && (impact == RequiresReevaluation <==> branch == Refresh)
      && (impact == Ambiguous <==> branch == ToReview)
  {
    var v := s.evaluators[e];
    assert EvaluatorOk(s, v);
    var n := s.snapshots[l.existing.value.row.snapshot];
    assert SnapshotOk(s, n);
    if res.resolved {
      assert Reasons(res.reasons) == [];
      SameDigestSameVersions(s.cat, n.versions, res.versions);
      SameIdsSameVersions(s.cat, n.versions, res.versions);
      assert Members(dryRun.versions) == Members(res.versions);
      forall x
        ensures x in dryRun.versions <==> x in res.versions
      {
        assert x in Members(dryRun.versions) <==> x in Members(res.versions);
      }
      assert Ids(dryRun.versions) == Ids(res.versions);
    }
  }

  lemma {:induction false} RefreshAlone(s: State, e: nat, l: Locals, res: Resolution)
    requires OneActive(s.bindings) && e in s.evaluators && s.evaluators[e].phase == Answered(l, res)
    requires Decide(s, l, s.evaluators[e].ctx, res).Refresh?
    requires ActiveBinding(s.bindings, s.evaluators[e].caseId) == if l.existing.Some?
        then Some(l.existing.value.id) else None
    ensures
      var a := Advance(s, e);
      var b := Advance(a, e);
      var c := Advance(b, e);
      && c.snapshots == s.snapshots + [SnapshotOf(s.evaluators[e].caseId, res)]
      && c.evaluators[e].phase.Returned? && c.evaluators[e].phase.result.Evaluated?
      && c.evaluators[e].phase.result.outcome == Refreshed && c.evaluators[e].phase.result.snapshot == |s.snapshots|
  {
    var v := s.evaluators[e];
    var a := Advance(s, e);
    var b := Advance(a, e);
    assert a.evaluators[e].phase == RefreshStored(l, res, |s.snapshots|);
    assert b.evaluators[e].phase == Cleared(l, res, |s.snapshots|);
    assert ActiveBinding(b.bindings, v.caseId).None?;
  }

  lemma {:induction false} ReviewAlone(s: State, e: nat, l: Locals, res: Resolution)
    requires e in s.evaluators && s.evaluators[e].phase == Answered(l, res) && !res.resolved
    ensures
      var b := Advance(Advance(s, e), e);
      && b.evaluators[e].phase == Returned(ReviewRequired(|s.snapshots|))
      && ActiveBinding(b.bindings, s.evaluators[e].caseId).None?
  {
    var a := Advance(s, e);
    assert a.evaluators[e].phase == ReviewStored(|s.snapshots|);
  }

  /** The dry run predicts the evaluation: no impact means the binding is reused and no snapshot is written, a required
      re-evaluation means a refresh with one new snapshot,
          an ambiguous one ends in review with no active binding left. */
  lemma {:induction false} DryRunPredicts(
      s: State, e: nat, l: Locals, res: Resolution, dryRun: Resolution, cat: Catalog, know: Instant)
    requires Inv(s) && e in s.evaluators && s.evaluators[e].phase == Answered(l, res)
    requires l.existing.Some? && Comparable(s, l.existing.value, s.evaluators[e].ctx)
    requires ActiveBinding(s.bindings, s.evaluators[e].caseId) == Some(l.existing.value.id)
    requires SameQuestion(cat, s.evaluators[e].ctx, s.evaluators[e].asOf, know, dryRun, res)
    ensures
      var a := Advance(s, e);
      var b := Advance(a, e);
      var c := Advance(b, e);
      match ClassifyImpact(s.snapshots[l.existing.value.row.snapshot], dryRun)
      case NoImpact =>
        a.snapshots == s.snapshots && a.evaluators[e].phase.Returned? && a.evaluators[e].phase.result.Evaluated?
        && a.evaluators[e].phase.result.outcome == Reused
        && a.evaluators[e].phase.result.snapshot == l.existing.value.row.snapshot
      case RequiresReevaluation =>
        |c.snapshots| == |s.snapshots| + 1 && c.evaluators[e].phase.Returned? && c.evaluators[e].phase.result.Evaluated?
        && c.evaluators[e].phase.result.outcome == Refreshed
      case Ambiguous =>
        b.evaluators[e].phase == Returned(ReviewRequired(|s.snapshots|))
            && ActiveBinding(b.bindings, s.evaluators[e].caseId).None?
  {
    VerdictIsBranch(s, e, l, res, dryRun, cat, know);
    var branch := Decide(s, l, s.evaluators[e].ctx, res);
    if branch == Refresh { RefreshAlone(s, e, l, res); }
    if branch == ToReview { ReviewAlone(s, e, l, res); }
  }
}
