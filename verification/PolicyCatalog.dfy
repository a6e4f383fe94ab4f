/** The policy catalog and what it means for a policy version to apply, stated without any algorithm. */
module PolicyCatalog {
  import opened Basics
  import opened PolicyDigest

  type Code = string
  type VersionId = nat

  const HOUR: int := 60 * 60 * 1000
  const RECEIVED := "application_received_on_or_after_effective_date"
  const AS_OF := "evaluation_as_of_effective_date"

  datatype Jurisdiction = Jurisdiction(parent: Option<Code>, covered: bool)

  datatype Source = Source(id: nat, name: string, jurisdiction: Code, freshnessHours: int)

  datatype Revision = Revision(id: nat, source: nat, recordedAt: Instant)

  datatype ReleaseStatus = Draft | Proposed | Released | Superseded | Withdrawn | Corrected

  datatype Version = Version(
    ruleId: string, tag: string, rule: Json, effectiveFrom: Instant, effectiveTo: Option<Instant>,
        status: ReleaseStatus)

  /** One applicability row. */
  datatype Row = Row(
    id: nat, version: VersionId, jurisdiction: Code, product: string, event: string, transition: Option<string>)

  datatype Catalog = Catalog(
    jurisdictions: map<Code, Jurisdiction>, sources: set<Source>, revisions: set<Revision>, rows: set<Row>,
    versions: map<VersionId, Version>)

  datatype Context = Context(jurisdiction: Code, product: string, event: string, receivedAt: Option<Instant>)

  datatype VersionRef = VersionRef(
    id: VersionId, ruleId: string, tag: string, rule: Json, effectiveFrom: Instant, effectiveTo: Option<Instant>)

  predicate DistinctIds(vs: seq<VersionRef>) { forall i, j :: 0 <= i < j < |vs| ==> vs[i].id != vs[j].id }

  // ---------------------------------------------------------------------------------------------
  // Ancestry

  /** A missing and an empty code both end the walk. */
  function Onward(code: Option<Code>): Option<Code> {
    if code == Some("") then None else code
  }

  /** `path` is the whole chain of covered jurisdictions from `leaf` up, ending at one without a parent. */
  ghost predicate IsAncestry(js: map<Code, Jurisdiction>, leaf: Option<Code>, path: seq<Code>)
    decreases |path|
  {
    match Onward(leaf)
    case None => path == []
    case Some(c) =>
      && path != [] && path[0] == c && c in js && js[c].covered && c !in path[1..]
      && IsAncestry(js, js[c].parent, path[1..])
  }

  ghost predicate HasAncestry(js: map<Code, Jurisdiction>, leaf: Code) {
    exists path :: IsAncestry(js, Some(leaf), path)
  }

  lemma {:induction false} AncestryUnique(js: map<Code, Jurisdiction>, leaf: Option<Code>, p: seq<Code>, q: seq<Code>)
    requires IsAncestry(js, leaf, p) && IsAncestry(js, leaf, q)
    ensures p == q
    decreases |p|
  {
    match Onward(leaf)
    case None =>
    case Some(c) =>
      AncestryUnique(js, js[c].parent, p[1..], q[1..]);
      assert p == [p[0]] + p[1..] && q == [q[0]] + q[1..];
  }

  /** Climbing from `start` over the parents of the known and covered jurisdictions `path` one arrives at `c`. */
  ghost predicate Climbs(js: map<Code, Jurisdiction>, start: Option<Code>, path: seq<Code>, c: Code)
    decreases |path|
  {
    if path == [] then Onward(start) == Some(c)
    else
      && Onward(start) == Some(path[0]) && path[0] in js && js[path[0]].covered
      && Climbs(js, js[path[0]].parent, path[1..], c)
  }

  /** The walk over the parents of `leaf` comes to `c`. */
  ghost predicate Reached(js: map<Code, Jurisdiction>, leaf: Code, c: Code) {
    exists path :: Climbs(js, Some(leaf), path, c)
  }

  /** The parents of `c` lead back to it. */
  ghost predicate OnCycle(js: map<Code, Jurisdiction>, c: Code) {
    c in js && exists path :: Climbs(js, js[c].parent, path, c)
  }

  lemma {:induction false} ClimbOn(js: map<Code, Jurisdiction>, start: Option<Code>, path: seq<Code>, c: Code, d: Code)
    requires Climbs(js, start, path, c) && c in js && js[c].covered && Onward(js[c].parent) == Some(d)
    ensures Climbs(js, start, path + [c], d)
    decreases |path|
  {
    if path == [] {
      assert ([] + [c])[1..] == [];
    } else {
      assert (path + [c])[1..] == path[1..] + [c];
      ClimbOn(js, js[path[0]].parent, path[1..], c, d);
    }
  }

  /** Past any jurisdiction on the way, the climb goes on from its parent. */
  lemma {:induction false} ClimbFrom(js: map<Code, Jurisdiction>, start: Option<Code>, path: seq<Code>, c: Code, i: nat)
    requires Climbs(js, start, path, c) && i < |path|
    ensures path[i] in js && Climbs(js, js[path[i]].parent, path[i + 1..], c)
    decreases |path|
  {
    if i > 0 {
      ClimbFrom(js, js[path[0]].parent, path[1..], c, i - 1);
      assert path[1..][i..] == path[i + 1..];
    }
  }

  function CodeSet(path: seq<Code>): set<Code> { set c | c in path }

  /** The codes that count for a context; none if the ancestry is broken. */
  ghost function Codes(cat: Catalog, ctx: Context): set<Code> {
    if HasAncestry(cat.jurisdictions, ctx.jurisdiction) then
      var path :| IsAncestry(cat.jurisdictions, Some(ctx.jurisdiction), path);
      CodeSet(path)
    else {}
  }

  lemma {:induction false} CodesOfPath(cat: Catalog, ctx: Context, path: seq<Code>)
    requires IsAncestry(cat.jurisdictions, Some(ctx.jurisdiction), path)
    ensures HasAncestry(cat.jurisdictions, ctx.jurisdiction)
    ensures Codes(cat, ctx) == CodeSet(path)
  {
    var js := cat.jurisdictions;
    var p :| IsAncestry(js, Some(ctx.jurisdiction), p) && Codes(cat, ctx) == CodeSet(p);
    AncestryUnique(js, Some(ctx.jurisdiction), p, path);
  }

  // ---------------------------------------------------------------------------------------------
  // Sources

  function Deadline(s: Source, r: Revision): Instant { r.recordedAt + s.freshnessHours * HOUR }

  ghost predicate IsFresh(cat: Catalog, s: Source, know: Instant) {
    s.freshnessHours > 0 && exists r :: r in cat.revisions && r.source == s.id && know < Deadline(s, r)
  }

  ghost predicate HasSource(cat: Catalog, c: Code) { exists s :: s in cat.sources && s.jurisdiction == c }

  ghost predicate SourcesFresh(cat: Catalog, codes: set<Code>, know: Instant) {
    && (forall c :: c in codes ==> HasSource(cat, c))
    && (forall s :: s in cat.sources && s.jurisdiction in codes ==> IsFresh(cat, s, know))
  }

  /** The revision of a source that was recorded last. */
  ghost predicate IsLatest(cat: Catalog, s: Source, r: Revision) {
    r in cat.revisions && r.source == s.id && forall q :: q in cat.revisions && q.source == s.id ==>
        q.recordedAt <= r.recordedAt
  }

  // ---------------------------------------------------------------------------------------------
  // Rows

  predicate Matches(ctx: Context, codes: set<Code>, row: Row) {
    row.jurisdiction in codes && row.product == ctx.product && row.event == ctx.event
  }

  predicate Live(cat: Catalog, row: Row) {
    row.version in cat.versions && cat.versions[row.version].status.Released?
  }

  /** The instant a row is judged at: the evaluation instant, or the receipt of the application. */
  function InstantOf(ctx: Context, row: Row, asOf: Instant): Option<Instant> {
    if row.transition.None? || row.transition == Some("") || row.transition == Some(AS_OF) then Some(asOf)
    else if row.transition == Some(RECEIVED) then ctx.receivedAt
    else None
  }

  predicate Effective(v: Version, t: Instant) {
    v.effectiveFrom <= t && (v.effectiveTo.Some? ==> t < v.effectiveTo.value)
  }

  predicate Candidate(cat: Catalog, ctx: Context, codes: set<Code>, row: Row, asOf: Instant) {
    && Matches(ctx, codes, row) && Live(cat, row)
    && InstantOf(ctx, row, asOf).Some? && Effective(cat.versions[row.version], InstantOf(ctx, row, asOf).value)
  }

  ghost predicate RulesUsable(cat: Catalog, ctx: Context, codes: set<Code>, asOf: Instant) {
    forall row :: row in cat.rows && Matches(ctx, codes, row) && Live(cat, row) ==> InstantOf(ctx, row, asOf).Some?
  }

  ghost predicate NoOverlap(cat: Catalog, ctx: Context, codes: set<Code>, asOf: Instant) {
    forall a, b | a in cat.rows && b in cat.rows && Candidate(cat, ctx, codes, a, asOf)
        && Candidate(cat, ctx, codes, b, asOf) ::
      cat.versions[a.version].ruleId == cat.versions[b.version].ruleId ==> a == b
  }

  // ---------------------------------------------------------------------------------------------
  // Resolution

  /** Everything the resolver promises before it answers RESOLVED. `asOf` judges effectiveness, `know` freshness. */
  ghost predicate Resolvable(cat: Catalog, ctx: Context, asOf: Instant, know: Instant) {
    var codes := Codes(cat, ctx);
    && HasAncestry(cat.jurisdictions, ctx.jurisdiction)
    && SourcesFresh(cat, codes, know)
    && RulesUsable(cat, ctx, codes, asOf)
    && NoOverlap(cat, ctx, codes, asOf)
  }

  function RefOf(id: VersionId, v: Version): VersionRef {
    VersionRef(id, v.ruleId, v.tag, v.rule, v.effectiveFrom, v.effectiveTo)
  }

  ghost function Applicable(cat: Catalog, ctx: Context, asOf: Instant): set<VersionRef> {
    var codes := Codes(cat, ctx);
    set row | row in cat.rows && Candidate(cat, ctx, codes, row, asOf) :: RefOf(row.version, cat.versions[row.version])
  }

  /** The evaluation instant at which the row's verdict will next change, for rows judged at that instant. */
  function Boundary(cat: Catalog, ctx: Context, codes: set<Code>, row: Row, asOf: Instant): Option<Instant> {
    if !Matches(ctx, codes, row) || !Live(cat, row) || row.transition == Some(RECEIVED)
       || InstantOf(ctx, row, asOf).None? then None
    else
      var v := cat.versions[row.version];
      if asOf < v.effectiveFrom then Some(v.effectiveFrom)
      else if Effective(v, asOf) then v.effectiveTo
      else None
  }

  /** The instants a resolution must be repeated at: a freshness deadline or a scheduled boundary. */
  ghost predicate IsBound(cat: Catalog, ctx: Context, asOf: Instant, t: Instant) {
    var codes := Codes(cat, ctx);
    || (exists s, r :: s in cat.sources && s.jurisdiction in codes && IsLatest(cat, s, r) && t == Deadline(s, r))
    || (exists row :: row in cat.rows && Boundary(cat, ctx, codes, row, asOf) == Some(t))
  }

  ghost predicate IsRevalidation(cat: Catalog, ctx: Context, asOf: Instant, after: Option<Instant>) {
    && (forall t :: IsBound(cat, ctx, asOf, t) ==> after.Some? && after.value <= t)
    && (after.Some? ==> IsBound(cat, ctx, asOf, after.value))
  }

  /** What a fresh resolution would find. */
  ghost function Fresh(cat: Catalog, ctx: Context, asOf: Instant, know: Instant): Option<set<VersionRef>> {
    if Resolvable(cat, ctx, asOf, know) then Some(Applicable(cat, ctx, asOf)) else None
  }
}
