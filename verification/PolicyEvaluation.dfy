/**
 * Evaluation of a case's policy as a protocol. Any number of evaluators run at once; each access of an evaluator to a
 * table that changes is a step of its own, and time, releases, withdrawals, the reads and writes of propose calls,
 * drafts and source revisions happen in between. Jurisdictions and sources do not change.
 */
module PolicyEvaluation {
  import opened Basics
  import opened PolicyCatalog
  import opened PolicyWording
  import opened PolicyResolver
  import opened PolicyDependency
  import opened PolicyContextKey

  const RESOLVER_VERSION := "2.0.0"
  const MAX_VALIDATION_INTERVAL := HOUR

  /** A case stands for the pair of tenant and case id. */
  datatype Snapshot = Snapshot(
    caseId: nat, digest: Digest, resolverVersion: string, resolved: bool, versions: seq<VersionRef>,
        reasons: seq<string>)

  datatype Binding = Binding(
    caseId: nat, digest: Digest, contextKey: string, generation: int, snapshot: nat, revalidateAfter: Instant,
        active: bool)

  /** A binding row as an evaluator read it. */
  datatype Found = Found(id: nat, row: Binding)

  datatype Locals = Locals(generation: int, existing: Option<Found>, at: Instant)

  datatype Outcome = Reused | Refreshed

  datatype Result =
    | Evaluated(outcome: Outcome, versions: seq<VersionRef>, snapshot: nat, binding: Binding)
    | ReviewRequired(reviewed: nat)

  /** Where an evaluator stands; each phase carries what has been read so far. */
  datatype Phase =
    | Called
    | SawGeneration(generation: int)
    | SawBinding(generation: int, existing: Option<Found>)
    | Resolving(l: Locals)
    | Dated(l: Locals, know: Instant)
    | SawRevisions(l: Locals, know: Instant, revisions: set<Revision>)
    | SawRows(l: Locals, know: Instant, revisions: set<Revision>, rows: set<Row>)
    | Answered(l: Locals, res: Resolution)
    | ReviewStored(snapshot: nat)
    | RefreshStored(l: Locals, res: Resolution, snapshot: nat)
    | Cleared(l: Locals, res: Resolution, snapshot: nat)
    | Lost
    | SawWinner(winner: Binding)
    | Returned(result: Result)
    | Threw

  datatype Evaluator = Evaluator(caseId: nat, ctx: Context, asOf: Instant, phase: Phase)

  /** `proposers` are the propose calls that have read DRAFT and not written yet, each with its version. */
  datatype State = State(
    now: Instant, cat: Catalog, generation: int, snapshots: seq<Snapshot>, bindings: seq<Binding>,
        evaluators: map<nat, Evaluator>,
    proposers: map<nat, VersionId>)

  // ---------------------------------------------------------------------------------------------
  // Pure helpers of the service

  function DigestOf(res: Resolution): Digest { ComputeDigest(res.resolved, Reasons(res.reasons), res.versions) }

  function NextRevalidationDeadline(at: Instant, res: Resolution): Instant {
    if res.revalidateAfter.Some?
        && res.revalidateAfter.value < at + MAX_VALIDATION_INTERVAL then res.revalidateAfter.value
    else at + MAX_VALIDATION_INTERVAL
  }

  function SnapshotOf(caseId: nat, res: Resolution): Snapshot {
    Snapshot(caseId, DigestOf(res), RESOLVER_VERSION, res.resolved, SnapshotVersions(res.versions),
        Reasons(res.reasons))
  }

  function ActiveBinding(bindings: seq<Binding>, caseId: nat): (r: Option<nat>)
    ensures r.Some? ==> r.value < |bindings| && bindings[r.value].active && bindings[r.value].caseId == caseId
    ensures r.None? ==> forall i :: 0 <= i < |bindings| ==> !(bindings[i].active && bindings[i].caseId == caseId)
  {
    if bindings == [] then None
    else
      var n := |bindings| - 1;
      if bindings[n].active && bindings[n].caseId == caseId then Some(n) else ActiveBinding(bindings[..n], caseId)
  }

  function InvalidateActive(bindings: seq<Binding>, caseId: nat): (r: seq<Binding>)
    ensures |r| == |bindings|
    ensures forall i :: 0 <= i < |r| ==>
      r[i] == if bindings[i].caseId == caseId then bindings[i].(active := false) else bindings[i]
  {
    seq(|bindings|, i requires 0 <= i < |bindings| =>
      if bindings[i].caseId == caseId then bindings[i].(active := false) else bindings[i])
  }

  /** The binding was made by this resolver release and for this context. */
  predicate Comparable(s: State, f: Found, ctx: Context) {
    && f.row.snapshot < |s.snapshots|
    && s.snapshots[f.row.snapshot].resolverVersion == RESOLVER_VERSION
    && f.row.contextKey == ContextKey(ctx)
  }

  predicate FastPath(s: State, f: Found, ctx: Context, generation: int) {
    Comparable(s, f, ctx) && f.row.generation == generation && s.now < f.row.revalidateAfter
  }

  /** What the slow path does with its resolution. */
  datatype Verdict = ToReview | ReuseInPlace | Refresh

  function Decide(s: State, l: Locals, ctx: Context, res: Resolution): Verdict {
    if !res.resolved then ToReview
    else if l.existing.Some? && Comparable(s, l.existing.value, ctx)
        && l.existing.value.row.digest == DigestOf(res) then ReuseInPlace
    else Refresh
  }

  // ---------------------------------------------------------------------------------------------
  // One step of an evaluator

  function SetPhase(s: State, e: nat, p: Phase): State
    requires e in s.evaluators
  {
    s.(evaluators := s.evaluators[e := s.evaluators[e].(phase := p)])
  }

  function Advance(s: State, e: nat): (r: State)
    requires e in s.evaluators
    ensures e in r.evaluators
  {
    var v := s.evaluators[e];
    match v.phase
    case Called => SetPhase(s, e, SawGeneration(s.generation))
    case SawGeneration(g) =>
      var i := ActiveBinding(s.bindings, v.caseId);
      SetPhase(s, e, SawBinding(g, if i.Some? then Some(Found(i.value, s.bindings[i.value])) else None))
    case SawBinding(g, existing) =>
      if existing.Some? && existing.value.row.snapshot >= |s.snapshots| then SetPhase(s, e, Threw)
      else if existing.Some? && FastPath(s, existing.value, v.ctx, g) then
        var sid := existing.value.row.snapshot;
        SetPhase(s, e, Returned(Evaluated(Reused, s.snapshots[sid].versions, sid, existing.value.row)))
      else SetPhase(s, e, Resolving(Locals(g, existing, s.now)))
    case Resolving(l) => SetPhase(s, e, Dated(l, s.now))
    case Dated(l, know) => SetPhase(s, e, SawRevisions(l, know, s.cat.revisions))
    case SawRevisions(l, know, rs) => SetPhase(s, e, SawRows(l, know, rs, s.cat.rows))
    case Answered(l, res) => Conclude(s, e, l, res)
    case ReviewStored(sid) =>
      SetPhase(s.(bindings := InvalidateActive(s.bindings, v.caseId)), e, Returned(ReviewRequired(sid)))
    case RefreshStored(l, res, sid) =>
      var bindings :=
        if l.existing.Some? && l.existing.value.id < |s.bindings|
        then s.bindings[l.existing.value.id := s.bindings[l.existing.value.id].(active := false)] else s.bindings;
      SetPhase(s.(bindings := bindings), e, Cleared(l, res, sid))
    case Cleared(l, res, sid) =>
      if ActiveBinding(s.bindings, v.caseId).Some? then SetPhase(s, e, Lost)
      else
        var b := NewBinding(v, l, res, sid);
        SetPhase(s.(bindings := s.bindings + [b]), e, Returned(Evaluated(Refreshed, res.versions, sid, b)))
    case Lost =>
      var i := ActiveBinding(s.bindings, v.caseId);
      SetPhase(s, e, if i.Some? then SawWinner(s.bindings[i.value]) else Threw)
    case SawWinner(w) =>
      if w.snapshot < |s.snapshots| then
        SetPhase(s, e, Returned(Evaluated(Reused, s.snapshots[w.snapshot].versions, w.snapshot, w)))
      else SetPhase(s, e, Threw)
    case _ => s
  }

  function NewBinding(v: Evaluator, l: Locals, res: Resolution, sid: nat): Binding {
    Binding(v.caseId, DigestOf(res), ContextKey(v.ctx), l.generation, sid, NextRevalidationDeadline(l.at, res), true)
  }

  /** The first write after a resolution. */
  function Conclude(s: State, e: nat, l: Locals, res: Resolution): (r: State)
    requires e in s.evaluators
    ensures e in r.evaluators
  {
    var v := s.evaluators[e];
    match Decide(s, l, v.ctx, res)
    case ToReview =>
      SetPhase(s.(snapshots := s.snapshots + [SnapshotOf(v.caseId, res)]), e, ReviewStored(|s.snapshots|))
    case ReuseInPlace =>
      var f, after := l.existing.value, NextRevalidationDeadline(l.at, res);
      var bindings :=
        if f.id < |s.bindings|
            then s.bindings[f.id := s.bindings[f.id].(generation := l.generation, revalidateAfter := after)]
                else s.bindings;
      SetPhase(s.(bindings := bindings), e,
               Returned(Evaluated(Reused, res.versions, f.row.snapshot,
                   f.row.(generation := l.generation, revalidateAfter := after))))
    case Refresh =>
      SetPhase(s.(snapshots := s.snapshots + [SnapshotOf(v.caseId, res)]), e, RefreshStored(l, res, |s.snapshots|))
  }

  // ---------------------------------------------------------------------------------------------
  // The protocol

  datatype Action =
    | Tick(ms: nat)
    | Release(version: VersionId)
    | Withdraw(version: VersionId)
    | ReadDraft(p: nat, version: VersionId)
    | WriteProposed(p: nat)
    | AddDraft(version: VersionId, draft: Version, row: Row)
    | RecordRevision(revision: Revision)
    | Call(e: nat, caseId: nat, ctx: Context)
    | Go(e: nat)
    | Answer(e: nat, res: Resolution)

  function WithStatus(cat: Catalog, id: VersionId, status: ReleaseStatus): Catalog
    requires id in cat.versions
  {
    cat.(versions := cat.versions[id := cat.versions[id].(status := status)])
  }

  /** The catalog as an evaluator saw it: the rows and revisions it read, with the versions as they are now. */
  function SeenBy(cat: Catalog, rows: set<Row>, revisions: set<Revision>): Catalog {
    cat.(rows := rows, revisions := revisions)
  }

  /** Rows change only here. A release and a withdrawal raise the generation in the same transaction; proposing and
      drafting do not. A propose call reads in one step and writes in another, whatever the status has become. An
      evaluator that has read the rows is answered by the resolver from what it read. */
  ghost predicate Enabled(s: State, a: Action) {
    match a
    case Tick(_) => true
    case Release(id) => id in s.cat.versions
    case Withdraw(id) => id in s.cat.versions
    case ReadDraft(p, id) => p !in s.proposers && id in s.cat.versions && s.cat.versions[id].status.Draft?
    case WriteProposed(p) => p in s.proposers
    case AddDraft(id, d, row) => id !in s.cat.versions && d.status.Draft? && WellFormedRule(d) && row.version == id
    case RecordRevision(_) => true
    case Call(e, _, ctx) => e !in s.evaluators
    case Go(e) => e in s.evaluators && !s.evaluators[e].phase.SawRows?
    case Answer(e, res) =>
      && e in s.evaluators && s.evaluators[e].phase.SawRows?
      && var v := s.evaluators[e];
         Answers(SeenBy(s.cat, v.phase.rows, v.phase.revisions), v.ctx, v.asOf, v.phase.know, res)
  }

  ghost predicate WellFormedRule(v: Version) { PolicyDigest.WellFormed(v.rule) }

  function Apply(s: State, a: Action): State {
    match a
    case Tick(ms) => s.(now := s.now + ms)
    case Release(id) =>
      if id in s.cat.versions then s.(cat := WithStatus(s.cat, id, Released), generation := s.generation + 1) else s
    case Withdraw(id) =>
      if id in s.cat.versions then s.(cat := WithStatus(s.cat, id, Withdrawn), generation := s.generation + 1) else s
    case ReadDraft(p, id) => s.(proposers := s.proposers[p := id])
    case WriteProposed(p) =>
      if p !in s.proposers then s
      else
        var id, waiting := s.proposers[p], s.proposers - {p};
        if id in s.cat.versions then s.(cat := WithStatus(s.cat, id, Proposed), proposers := waiting)
            else s.(proposers := waiting)
    case AddDraft(id, d, row) => s.(cat := s.cat.(versions := s.cat.versions[id := d], rows := s.cat.rows + {row}))
    case RecordRevision(r) => s.(cat := s.cat.(revisions := s.cat.revisions + {r}))
    case Call(e, c, ctx) => s.(evaluators := s.evaluators[e := Evaluator(c, ctx, s.now, Called)])
    case Go(e) => if e in s.evaluators then Advance(s, e) else s
    case Answer(e, res) =>
      if e in s.evaluators && s.evaluators[e].phase.SawRows?
          then SetPhase(s, e, Answered(s.evaluators[e].phase.l, res)) else s
  }

  ghost predicate Runs(s: State, actions: seq<Action>, s': State)
    decreases |actions|
  {
    if actions == [] then s' == s
    else Enabled(s, actions[0]) && Runs(Apply(s, actions[0]), actions[1..], s')
  }
}
