/** The resolver's loops, proved against the declarative catalog for every row order. */
module PolicyResolver {
  import opened Basics
  import opened Sorting
  import opened PolicyCatalog
  import opened PolicyReasons

  datatype Resolution = Resolution(
    resolved: bool, versions: seq<VersionRef>, reasons: seq<Reason>, revalidateAfter: Option<Instant>)

  /** The tables in the order the database happens to return them; revisions newest first, as the query asks. */
  datatype Listing = Listing(sources: seq<Source>, revisions: seq<Revision>, rows: seq<Row>)

  ghost predicate Lists(cat: Catalog, l: Listing) {
    && (forall s :: s in l.sources <==> s in cat.sources) && Distinct(l.sources)
    && (forall r :: r in l.revisions <==> r in cat.revisions)
    && (forall i, j :: 0 <= i < j < |l.revisions| ==> l.revisions[j].recordedAt <= l.revisions[i].recordedAt)
    && (forall row :: row in l.rows <==> row in cat.rows) && Distinct(l.rows)
  }

  // ---------------------------------------------------------------------------------------------
  // Ancestry

  /** Any ancestry of `leaf` starts with `done` and goes on from `next`. */
  ghost predicate Partial(js: map<Code, Jurisdiction>, leaf: Code, done: seq<Code>, next: Option<Code>) {
    && (forall p :: IsAncestry(js, Some(leaf), p) ==>
          done <= p && IsAncestry(js, next, p[|done|..]) && forall c :: c in done ==> c !in p[|done|..])
    && (forall rest :: IsAncestry(js, next, rest) && (forall c :: c in done ==> c !in rest) ==>
          IsAncestry(js, Some(leaf), done + rest))
  }

  lemma {:induction false} PartialStart(js: map<Code, Jurisdiction>, leaf: Code)
    ensures Partial(js, leaf, [], Some(leaf))
  {
    assert forall rest: seq<Code> :: [] + rest == rest;
    assert forall p: seq<Code> :: p[0..] == p;
  }

  lemma {:induction false} PartialStep(js: map<Code, Jurisdiction>, leaf: Code, done: seq<Code>, c: Code)
    requires Partial(js, leaf, done, Some(c)) && c != "" && c in js && js[c].covered && c !in done
    ensures Partial(js, leaf, done + [c], js[c].parent)
  {
    forall p | IsAncestry(js, Some(leaf), p)
      ensures done + [c] <= p && IsAncestry(js, js[c].parent, p[|done| + 1..])
           && forall d :: d in done + [c] ==> d !in p[|done| + 1..]
    {
      var rest := p[|done|..];
      assert rest[1..] == p[|done| + 1..];
    }
    forall rest | IsAncestry(js, js[c].parent, rest) && (forall d :: d in done + [c] ==> d !in rest)
      ensures IsAncestry(js, Some(leaf), done + [c] + rest)
    {
      assert c in done + [c];
      assert forall d :: d in done ==> d in done + [c];
      assert ([c] + rest)[1..] == rest;
      assert IsAncestry(js, Some(c), [c] + rest);
      assert done + [c] + rest == done + ([c] + rest);
    }
  }

  /** So far the walk came over `done` and stands at `next`. */
  ghost predicate CameOver(js: map<Code, Jurisdiction>, leaf: Code, done: seq<Code>, next: Option<Code>) {
    Onward(next).Some? ==> Climbs(js, Some(leaf), done, Onward(next).value)
  }

  lemma {:induction false} CameFurther(js: map<Code, Jurisdiction>, leaf: Code, done: seq<Code>, c: Code)
    requires CameOver(js, leaf, done, Some(c)) && c != "" && c in js && js[c].covered
    ensures CameOver(js, leaf, done + [c], js[c].parent)
  {
    if Onward(js[c].parent).Some? { ClimbOn(js, Some(leaf), done, c, Onward(js[c].parent).value); }
  }

  lemma {:induction false} StoppedBy(js: map<Code, Jurisdiction>, leaf: Code, done: seq<Code>, r: Reason)
    requires StopsAt(js, leaf, done, r)
    ensures forall q :: q in [r] <==> BrokenAt(js, leaf, q)
  {
    forall q | BrokenAt(js, leaf, q) ensures q == r { BrokenOnce(js, leaf, q, r); }
  }

  /** Walks the parents until there is none. It stops on every parent graph, cyclic ones included. */
  method LoadCoveredAncestry(
    js: map<Code, Jurisdiction>, leaf: Code) returns (path: Option<seq<Code>>, reasons: seq<Reason>)
    ensures path.Some? <==> HasAncestry(js, leaf)
    ensures path.Some? ==> IsAncestry(js, Some(leaf), path.value) && Distinct(path.value) && reasons == []
    ensures path.None? ==> Distinct(reasons) && reasons != [] && forall r :: r in reasons <==> BrokenAt(js, leaf, r)
  {
    var ancestry: seq<Code>, visited: set<Code> := [], {};
    var next := Some(leaf);
    PartialStart(js, leaf);
    while Onward(next).Some?
      invariant Partial(js, leaf, ancestry, next) && CameOver(js, leaf, ancestry, next)
      invariant Distinct(ancestry) && visited <= js.Keys && forall c :: c in visited <==> c in ancestry
      decreases js.Keys - visited
    {
      var c := next.value;
      if c in visited {
        StoppedBy(js, leaf, ancestry, Cycle(c));
        return None, [Cycle(c)];
      }
      visited := visited + {c};
      if c !in js {
        StoppedBy(js, leaf, ancestry, UnknownCode(c));
        return None, [UnknownCode(c)];
      }
      if !js[c].covered {
        StoppedBy(js, leaf, ancestry, NotCovered(c));
        return None, [NotCovered(c)];
      }
      PartialStep(js, leaf, ancestry, c);
      CameFurther(js, leaf, ancestry, c);
      ancestry := ancestry + [c];
      next := js[c].parent;
    }
    assert IsAncestry(js, next, []);
    assert ancestry + [] == ancestry;
    return Some(ancestry), [];
  }

  // ---------------------------------------------------------------------------------------------
  // Source freshness

  method LatestRevisions(revisions: seq<Revision>) returns (latest: map<nat, Revision>)
    requires forall i, j :: 0 <= i < j < |revisions| ==> revisions[j].recordedAt <= revisions[i].recordedAt
    ensures forall r :: r in revisions ==> r.source in latest && r.recordedAt <= latest[r.source].recordedAt
    ensures forall id :: id in latest ==> latest[id] in revisions && latest[id].source == id
  {
    latest := map[];
    for n := 0 to |revisions|
      invariant forall i :: 0 <= i < n ==>
        revisions[i].source in latest && revisions[i].recordedAt <= latest[revisions[i].source].recordedAt
      invariant forall id :: id in latest ==> latest[id] in revisions[..n] && latest[id].source == id
    {
      var r := revisions[n];
      if r.source !in latest {
        latest := latest[r.source := r];
      }
    }
  }

  method MissingSources(cat: Catalog, l: Listing, path: seq<Code>) returns (reasons: seq<Reason>)
    requires Lists(cat, l) && Distinct(path)
    ensures Distinct(reasons) && forall r :: r in reasons <==> MissingHolds(cat, CodeSet(path), r)
  {
    var sources := l.sources;
    var byJurisdiction: map<Code, seq<Source>> := map[];
    for n := 0 to |sources|
      invariant forall i :: 0 <= i < n ==> sources[i].jurisdiction in byJurisdiction
      invariant forall c :: c in byJurisdiction ==> HasSource(cat, c)
    {
      var s := sources[n];
      var bucket := if s.jurisdiction in byJurisdiction then byJurisdiction[s.jurisdiction] else [];
      byJurisdiction := byJurisdiction[s.jurisdiction := bucket + [s]];
      assert s in cat.sources;
    }
    forall c | HasSource(cat, c) ensures c in byJurisdiction {
      var s :| s in cat.sources && s.jurisdiction == c;
      assert s in sources;
    }
    reasons := [];
    for n := 0 to |path|
      invariant Distinct(reasons) && forall r :: r in reasons <==> MissingHolds(cat, CodeSet(path[..n]), r)
    {
      assert path[..n + 1] == path[..n] + [path[n]];
      assert path[n] !in path[..n];
      if path[n] !in byJurisdiction {
        DistinctJoin(reasons, [NoSource(path[n])]);
        reasons := reasons + [NoSource(path[n])];
      }
    }
    assert path[..|path|] == path;
  }

  lemma {:induction false} NoneMissing(cat: Catalog, codes: set<Code>, reasons: seq<Reason>)
    requires forall r :: r in reasons <==> MissingHolds(cat, codes, r)
    ensures reasons == [] <==> forall c :: c in codes ==> HasSource(cat, c)
  {
    if reasons == [] {
      forall c | c in codes ensures HasSource(cat, c) { assert NoSource(c) !in reasons; }
    } else {
      assert reasons[0] in reasons;
    }
  }

  /** The latest revision decides freshness. */
  lemma {:induction false} LatestDecides(cat: Catalog, s: Source, r: Revision, know: Instant)
    requires IsLatest(cat, s, r) && s.freshnessHours > 0
    ensures IsFresh(cat, s, know) <==> know < Deadline(s, r)
  {
  }

  /** `t` is the freshness deadline of one of the first `n` listed sources that counts. */
  ghost predicate DeadlineAmong(cat: Catalog, sources: seq<Source>, n: nat, codes: set<Code>, t: Instant)
    requires n <= |sources|
  {
    exists i, r :: 0 <= i < n && sources[i].jurisdiction in codes && IsLatest(cat, sources[i], r)
        && t == Deadline(sources[i], r)
  }

  ghost predicate EarliestAmong(cat: Catalog, sources: seq<Source>, n: nat, codes: set<Code>, e: Option<Instant>)
    requires n <= |sources|
  {
    && (forall t :: DeadlineAmong(cat, sources, n, codes, t) ==> e.Some? && e.value <= t)
    && (e.Some? ==> DeadlineAmong(cat, sources, n, codes, e.value))
  }

  lemma {:induction false} DeadlineStep(
    cat: Catalog, sources: seq<Source>, n: nat, codes: set<Code>, r: Revision, t: Instant)
    requires n < |sources|
    ensures sources[n].jurisdiction !in codes ==>
      (DeadlineAmong(cat, sources, n + 1, codes, t) <==> DeadlineAmong(cat, sources, n, codes, t))
    ensures sources[n].jurisdiction in codes && IsLatest(cat, sources[n], r) ==>
      (DeadlineAmong(cat, sources, n + 1, codes, t) <==>
          DeadlineAmong(cat, sources, n, codes, t) || t == Deadline(sources[n], r))
  {
    if DeadlineAmong(cat, sources, n + 1, codes, t) && !DeadlineAmong(cat, sources, n, codes, t) {
      var i, q :| 0 <= i < n + 1 && sources[i].jurisdiction in codes && IsLatest(cat, sources[i], q)
          && t == Deadline(sources[i], q);
      assert i == n;
    }
  }

  lemma {:induction false} EarliestSkips(
    cat: Catalog, sources: seq<Source>, n: nat, codes: set<Code>, e: Option<Instant>)
    requires n < |sources| && sources[n].jurisdiction !in codes && EarliestAmong(cat, sources, n, codes, e)
    ensures EarliestAmong(cat, sources, n + 1, codes, e)
  {
    var m := n + 1;
    forall t | DeadlineAmong(cat, sources, m, codes, t) ensures e.Some? && e.value <= t {
      DeadlineStep(cat, sources, n, codes, Revision(0, 0, 0), t);
    }
    if e.Some? { DeadlineStep(cat, sources, n, codes, Revision(0, 0, 0), e.value); }
  }

  lemma {:induction false} EarliestStep(
    cat: Catalog, sources: seq<Source>, n: nat, codes: set<Code>, r: Revision, e: Option<Instant>, e': Option<Instant>)
    requires n < |sources| && EarliestAmong(cat, sources, n, codes, e)
    requires sources[n].jurisdiction in codes && IsLatest(cat, sources[n], r)
    requires e' == if e.None? || Deadline(sources[n], r) < e.value then Some(Deadline(sources[n], r)) else e
    ensures EarliestAmong(cat, sources, n + 1, codes, e')
  {
    var m := n + 1;
    forall t | DeadlineAmong(cat, sources, m, codes, t) ensures e'.value <= t {
      DeadlineStep(cat, sources, n, codes, r, t);
    }
    DeadlineStep(cat, sources, n, codes, r, e'.value);
  }

  /** What one source says: its deadline while fresh, otherwise why it is not. */
  method CheckSource(cat: Catalog, codes: set<Code>, s: Source, latest: map<nat, Revision>, know: Instant)
    returns (deadline: Instant, problem: Option<Reason>)
    requires s in cat.sources && s.jurisdiction in codes
    requires s.id in latest ==> IsLatest(cat, s, latest[s.id])
    requires s.id !in latest ==> !HasRevision(cat, s)
    ensures problem.None? <==> IsFresh(cat, s, know)
    ensures problem.None? ==> s.id in latest && deadline == Deadline(s, latest[s.id])
    ensures forall r :: problem == Some(r) <==> SourceReasonHolds(cat, codes, know, r) && r.source == s
  {
    deadline := know;
    if s.id !in latest {
      return deadline, Some(NoRevision(s));
    }
    if s.freshnessHours <= 0 {
      return deadline, Some(InvalidObjective(s));
    }
    deadline := Deadline(s, latest[s.id]);
    LatestDecides(cat, s, latest[s.id], know);
    problem := if deadline <= know then Some(Stale(s, deadline)) else None;
  }

  /** The defects of these sources, each once. */
  ghost predicate Noted(cat: Catalog, codes: set<Code>, know: Instant, sources: seq<Source>, reasons: seq<Reason>) {
    Distinct(reasons) && forall r :: r in reasons <==> SourceReasonHolds(cat, codes, know, r) && r.source in sources
  }

  /** One more source adds its defect, if it has one. */
  lemma {:induction false} NoteOne(
    cat: Catalog, codes: set<Code>, know: Instant, sources: seq<Source>, n: nat, reasons: seq<Reason>,
    problem: Option<Reason>)
    requires n < |sources| && Distinct(sources) && Noted(cat, codes, know, sources[..n], reasons)
    requires forall r :: problem == Some(r) <==> SourceReasonHolds(cat, codes, know, r) && r.source == sources[n]
    ensures Noted(cat, codes, know, sources[..n + 1], reasons + if problem.Some? then [problem.value] else [])
  {
    assert sources[..n + 1] == sources[..n] + [sources[n]] && sources[n] !in sources[..n];
    DistinctJoin(reasons, if problem.Some? then [problem.value] else []);
  }

  method EarliestDeadline(cat: Catalog, l: Listing, codes: set<Code>, know: Instant)
    returns (earliest: Option<Instant>, reasons: seq<Reason>)
    requires Lists(cat, l)
    ensures reasons == [] <==> forall i :: 0 <= i < |l.sources| && l.sources[i].jurisdiction in codes ==>
      IsFresh(cat, l.sources[i], know)
    ensures reasons == [] ==> EarliestAmong(cat, l.sources, |l.sources|, codes, earliest)
    ensures Distinct(reasons) && forall r :: r in reasons <==> SourceReasonHolds(cat, codes, know, r)
  {
    var latest := LatestRevisions(l.revisions);
    assert forall s: Source :: s.id in latest ==> IsLatest(cat, s, latest[s.id]);
    earliest, reasons := None, [];
    for n := 0 to |l.sources|
      invariant reasons == [] <==> forall i :: 0 <= i < n && l.sources[i].jurisdiction in codes ==>
        IsFresh(cat, l.sources[i], know)
      invariant reasons == [] ==> EarliestAmong(cat, l.sources, n, codes, earliest)
      invariant Noted(cat, codes, know, l.sources[..n], reasons)
    {
      var s := l.sources[n];
      if s.jurisdiction !in codes {
        NoteOne(cat, codes, know, l.sources, n, reasons, None);
        if reasons == [] { EarliestSkips(cat, l.sources, n, codes, earliest); }
        continue;
      }
      var deadline, problem := CheckSource(cat, codes, s, latest, know);
      NoteOne(cat, codes, know, l.sources, n, reasons, problem);
      if problem.Some? {
        reasons := reasons + [problem.value];
        continue;
      }
      ghost var before := earliest;
      if earliest.None? || deadline < earliest.value {
        earliest := Some(deadline);
      }
      if reasons == [] { EarliestStep(cat, l.sources, n, codes, latest[s.id], before, earliest); }
    }
    assert l.sources[..|l.sources|] == l.sources;
  }

  method ValidateSourceFreshness(cat: Catalog, l: Listing, path: seq<Code>, know: Instant)
    returns (deadline: Option<Instant>, reasons: seq<Reason>)
    requires Lists(cat, l) && Distinct(path)
    ensures reasons == [] <==> SourcesFresh(cat, CodeSet(path), know)
    ensures reasons == [] ==> EarliestAmong(cat, l.sources, |l.sources|, CodeSet(path), deadline)
    ensures Distinct(reasons) && forall r :: r in reasons <==>
      MissingHolds(cat, CodeSet(path), r) || SourceReasonHolds(cat, CodeSet(path), know, r)
  {
    var missing := MissingSources(cat, l, path);
    var unfresh;
    deadline, unfresh := EarliestDeadline(cat, l, CodeSet(path), know);
    reasons := missing + unfresh;
    DistinctJoin(missing, unfresh);
    NoneMissing(cat, CodeSet(path), missing);
    assert unfresh == [] <==> forall s :: s in cat.sources && s.jurisdiction in CodeSet(path) ==> IsFresh(cat, s, know);
  }

  // ---------------------------------------------------------------------------------------------
  // Applicability rows

  /** The candidate rows of one rule, in listing order. */
  ghost function Bucket(
    cat: Catalog, ctx: Context, codes: set<Code>, rows: seq<Row>, asOf: Instant, ruleId: string): seq<Row> {
    if rows == [] then []
    else
      var row, before := rows[|rows| - 1], Bucket(cat, ctx, codes, rows[..|rows| - 1], asOf, ruleId);
      if Candidate(cat, ctx, codes, row, asOf) && cat.versions[row.version].ruleId == ruleId then before + [row]
          else before
  }

  lemma {:induction false} BucketMembers(
    cat: Catalog, ctx: Context, codes: set<Code>, rows: seq<Row>, asOf: Instant, ruleId: string)
    requires Distinct(rows)
    ensures
      var b := Bucket(cat, ctx, codes, rows, asOf, ruleId);
      && Distinct(b)
      && forall row :: row in b <==>
          row in rows && Candidate(cat, ctx, codes, row, asOf) && cat.versions[row.version].ruleId == ruleId
  {
    if rows != [] {
      var n := |rows| - 1;
      BucketMembers(cat, ctx, codes, rows[..n], asOf, ruleId);
      assert rows == rows[..n] + [rows[n]];
      assert rows[n] !in rows[..n];
    }
  }

  method ResolveApplicabilityInstant(
    ctx: Context, row: Row, asOf: Instant) returns (at: Option<Instant>, problem: Option<Reason>)
    ensures at == InstantOf(ctx, row, asOf) && (problem.None? <==> at.Some?)
    ensures problem.Some? ==>
      || (problem.value == NeedsReceipt(row) && row.transition == Some(RECEIVED) && ctx.receivedAt.None?)
      || (problem.value == Unsupported(row) && row.transition.Some? && row.transition.value !in {"", AS_OF, RECEIVED})
  {
    if row.transition.None? || row.transition.value == "" {
      return Some(asOf), None;
    }
    if row.transition.value == RECEIVED {
      if ctx.receivedAt.None? {
        return None, Some(NeedsReceipt(row));
      }
      return ctx.receivedAt, None;
    }
    if row.transition.value == AS_OF {
      return Some(asOf), None;
    }
    return None, Some(Unsupported(row));
  }

  /** What the row loop has gathered after some rows. */
  datatype Gathered = Gathered(buckets: map<string, seq<Row>>, order: seq<string>, boundaries: seq<Instant>,
      reasons: seq<Reason>)

  ghost predicate GatheredFrom(
    cat: Catalog, ctx: Context, codes: set<Code>, rows: seq<Row>, asOf: Instant, g: Gathered) {
    && (forall k :: Bucket(cat, ctx, codes, rows, asOf, k) == if k in g.buckets then g.buckets[k] else [])
    && (forall k :: k in g.buckets ==> g.buckets[k] != [])
    && Distinct(g.order) && (forall k :: k in g.order <==> k in g.buckets)
    && (forall row :: row in rows && Boundary(cat, ctx, codes, row, asOf).Some? ==>
        Boundary(cat, ctx, codes, row, asOf).value in g.boundaries)
    && (forall t :: t in g.boundaries ==> exists row :: row in rows && Boundary(cat, ctx, codes, row, asOf) == Some(t))
    && Distinct(g.reasons)
    && (forall r :: r in g.reasons <==> RowReasonHolds(cat, ctx, codes, r) && r.row in rows)
  }

  /** One more row: candidates join the bucket of their rule, boundaries and problems are noted. */
  ghost predicate GatherStep(
    cat: Catalog, ctx: Context, codes: set<Code>, row: Row, asOf: Instant, g: Gathered, g': Gathered) {
    var bound := Boundary(cat, ctx, codes, row, asOf);
    && g'.boundaries == (if bound.Some? then g.boundaries + [bound.value] else g.boundaries)
    && (if Matches(ctx, codes, row) && Live(cat, row) && InstantOf(ctx, row, asOf).None?
        then
          g'.reasons == g.reasons + [if row.transition == Some(RECEIVED) then NeedsReceipt(row) else Unsupported(row)]
        else g'.reasons == g.reasons)
    && (if Candidate(cat, ctx, codes, row, asOf)
        then
          var k := cat.versions[row.version].ruleId;
          && g'.buckets == g.buckets[k := (if k in g.buckets then g.buckets[k] else []) + [row]]
          && g'.order == if k in g.buckets then g.order else g.order + [k]
        else g'.buckets == g.buckets && g'.order == g.order)
  }

  /** The body of the row loop, for one row. */
  method Gather(
    cat: Catalog, ctx: Context, codes: set<Code>, row: Row, asOf: Instant, g: Gathered) returns (g': Gathered)
    requires row in cat.rows
    ensures GatherStep(cat, ctx, codes, row, asOf, g, g')
  {
    g' := g;
    if !Matches(ctx, codes, row) {
      return;
    }
    if row.version !in cat.versions || !cat.versions[row.version].status.Released? {
      return;
    }
    var version := cat.versions[row.version];
    var at, problem := ResolveApplicabilityInstant(ctx, row, asOf);
    if problem.Some? {
      g' := g.(reasons := g.reasons + [problem.value]);
      return;
    }
    if version.effectiveFrom > at.value {
      if row.transition != Some(RECEIVED) {
        g' := g.(boundaries := g.boundaries + [version.effectiveFrom]);
      }
      return;
    }
    if version.effectiveTo.Some? && version.effectiveTo.value <= at.value {
      return;
    }
    if version.effectiveTo.Some? && row.transition != Some(RECEIVED) {
      g' := g'.(boundaries := g.boundaries + [version.effectiveTo.value]);
    }
    var bucket := if version.ruleId in g.buckets then g.buckets[version.ruleId] else [];
    g' := g'.(buckets := g.buckets[version.ruleId := bucket + [row]],
              order := if version.ruleId in g.buckets then g.order else g.order + [version.ruleId]);
  }

  lemma {:induction false} GatherBuckets(
    cat: Catalog, ctx: Context, codes: set<Code>, rows: seq<Row>, row: Row, asOf: Instant, g: Gathered, g': Gathered,
    k: string)
    requires Bucket(cat, ctx, codes, rows, asOf, k) == if k in g.buckets then g.buckets[k] else []
    requires GatherStep(cat, ctx, codes, row, asOf, g, g')
    ensures Bucket(cat, ctx, codes, rows + [row], asOf, k) == if k in g'.buckets then g'.buckets[k] else []
  {
    assert (rows + [row])[..|rows|] == rows;
  }

  lemma {:induction false} GatherExtends(
    cat: Catalog, ctx: Context, codes: set<Code>, rows: seq<Row>, row: Row, asOf: Instant, g: Gathered, g': Gathered)
    requires GatheredFrom(cat, ctx, codes, rows, asOf, g) && GatherStep(cat, ctx, codes, row, asOf, g, g')
    requires row in cat.rows && row !in rows
    ensures GatheredFrom(cat, ctx, codes, rows + [row], asOf, g')
  {
    forall k ensures Bucket(cat, ctx, codes, rows + [row], asOf, k) == if k in g'.buckets then g'.buckets[k] else [] {
      GatherBuckets(cat, ctx, codes, rows, row, asOf, g, g', k);
    }
    GatherOrder(cat, ctx, codes, row, asOf, g, g');
    GatherNotes(cat, ctx, codes, rows, row, asOf, g, g');
    GatherReasons(cat, ctx, codes, rows, row, asOf, g, g');
  }

  lemma {:induction false} GatherOrder(
    cat: Catalog, ctx: Context, codes: set<Code>, row: Row, asOf: Instant, g: Gathered, g': Gathered)
    requires GatherStep(cat, ctx, codes, row, asOf, g, g')
    requires (forall k :: k in g.buckets ==> g.buckets[k] != []) && Distinct(g.order)
    requires forall k :: k in g.order <==> k in g.buckets
    ensures (forall k :: k in g'.buckets ==> g'.buckets[k] != []) && Distinct(g'.order)
    ensures forall k :: k in g'.order <==> k in g'.buckets
  {
  }

  lemma {:induction false} GatherReasons(
    cat: Catalog, ctx: Context, codes: set<Code>, rows: seq<Row>, row: Row, asOf: Instant, g: Gathered, g': Gathered)
    requires GatheredFrom(cat, ctx, codes, rows, asOf, g) && GatherStep(cat, ctx, codes, row, asOf, g, g')
    requires row in cat.rows && row !in rows
    ensures Distinct(g'.reasons)
    ensures forall r :: r in g'.reasons <==> RowReasonHolds(cat, ctx, codes, r) && r.row in rows + [row]
  {
    assert forall r :: r in rows + [row] <==> r in rows || r == row;
    if g'.reasons != g.reasons { DistinctJoin(g.reasons, g'.reasons[|g.reasons|..]); }
  }

  lemma {:induction false} GatherNotes(
    cat: Catalog, ctx: Context, codes: set<Code>, rows: seq<Row>, row: Row, asOf: Instant, g: Gathered, g': Gathered)
    requires GatheredFrom(cat, ctx, codes, rows, asOf, g) && GatherStep(cat, ctx, codes, row, asOf, g, g')
    ensures forall r :: r in rows + [row] && Boundary(cat, ctx, codes, r, asOf).Some? ==>
      Boundary(cat, ctx, codes, r, asOf).value in g'.boundaries
    ensures forall t :: t in g'.boundaries ==>
      exists r :: r in rows + [row] && Boundary(cat, ctx, codes, r, asOf) == Some(t)
  {
    forall t | t in g'.boundaries
      ensures exists r :: r in rows + [row] && Boundary(cat, ctx, codes, r, asOf) == Some(t)
    {
      if t in g.boundaries {
        var r :| r in rows && Boundary(cat, ctx, codes, r, asOf) == Some(t);
        assert r in rows + [row];
      } else {
        assert row in rows + [row];
      }
    }
    assert row in rows + [row];
    assert forall r :: r in rows + [row] <==> r in rows || r == row;
  }

  method CollectCandidates(
    cat: Catalog, ctx: Context, codes: set<Code>, rows: seq<Row>, asOf: Instant) returns (g: Gathered)
    requires Distinct(rows) && forall row :: row in rows ==> row in cat.rows
    ensures GatheredFrom(cat, ctx, codes, rows, asOf, g)
  {
    g := Gathered(map[], [], [], []);
    for n := 0 to |rows|
      invariant GatheredFrom(cat, ctx, codes, rows[..n], asOf, g)
    {
      ghost var before := g;
      g := Gather(cat, ctx, codes, rows[n], asOf, g);
      CollectOne(cat, ctx, codes, rows, n, asOf, before, g);
    }
    assert rows[..|rows|] == rows;
  }

  lemma {:induction false} CollectOne(
    cat: Catalog, ctx: Context, codes: set<Code>, rows: seq<Row>, n: nat, asOf: Instant, g: Gathered, g': Gathered)
    requires n < |rows| && Distinct(rows) && rows[n] in cat.rows && GatheredFrom(cat, ctx, codes, rows[..n], asOf, g)
    requires GatherStep(cat, ctx, codes, rows[n], asOf, g, g')
    ensures GatheredFrom(cat, ctx, codes, rows[..n + 1], asOf, g')
  {
    assert rows[..n + 1] == rows[..n] + [rows[n]];
    GatherExtends(cat, ctx, codes, rows[..n], rows[n], asOf, g, g');
  }

  /** Each version stands for the first candidate of its rule. */
  ghost predicate Picked(cat: Catalog, g: Gathered, versions: seq<VersionRef>) {
    && |versions| <= |g.order|
    && forall i :: 0 <= i < |versions| ==>
      && g.order[i] in g.buckets && g.buckets[g.order[i]] != []
      && g.buckets[g.order[i]][0].version in cat.versions
      && var row := g.buckets[g.order[i]][0];
         versions[i] == RefOf(row.version, cat.versions[row.version])
  }

  /** One version per rule, or a conflict. */
  method PickVersions(
    cat: Catalog, g: Gathered, asOf: Instant) returns (versions: seq<VersionRef>, reasons: seq<Reason>)
    requires Distinct(g.order) && forall k :: k in g.order <==> k in g.buckets
    requires forall k :: k in g.buckets ==> g.buckets[k] != []
    requires forall k, row :: k in g.buckets && row in g.buckets[k] ==> row.version in cat.versions
    ensures reasons == [] <==> forall k :: k in g.buckets ==> |g.buckets[k]| == 1
    ensures reasons == [] ==> |versions| == |g.order| && Picked(cat, g, versions)
    ensures Clashes(g, g.order, asOf, reasons)
  {
    versions, reasons := [], [];
    for n := 0 to |g.order|
      invariant reasons == [] <==> forall i :: 0 <= i < n ==> |g.buckets[g.order[i]]| == 1
      invariant reasons == [] ==> |versions| == n && Picked(cat, g, versions)
      invariant Clashes(g, g.order[..n], asOf, reasons)
    {
      var k := g.order[n];
      assert k in g.order && k in g.buckets;
      var candidates := g.buckets[k];
      ClashOne(g, n, asOf, reasons);
      if |candidates| > 1 {
        reasons := reasons + [Overlap(k, |candidates|, asOf)];
        continue;
      }
      assert candidates[0] in g.buckets[k];
      var version := cat.versions[candidates[0].version];
      versions := versions + [RefOf(candidates[0].version, version)];
    }
    assert g.order[..|g.order|] == g.order;
    assert (forall i :: 0 <= i < |g.order| ==> |g.buckets[g.order[i]]| == 1) <==> forall k :: k in g.buckets ==>
        |g.buckets[k]| == 1;
  }

  /** One of these rules has more than one candidate. */
  predicate Clash(g: Gathered, rules: seq<string>, asOf: Instant, r: Reason) {
    && r.Overlap? && r.asOf == asOf && r.ruleId in rules && r.ruleId in g.buckets
    && r.count == |g.buckets[r.ruleId]| > 1
  }

  /** All of them, each once. */
  ghost predicate Clashes(g: Gathered, rules: seq<string>, asOf: Instant, reasons: seq<Reason>) {
    Distinct(reasons) && forall r :: r in reasons <==> Clash(g, rules, asOf, r)
  }

  lemma {:induction false} ClashOne(g: Gathered, n: nat, asOf: Instant, reasons: seq<Reason>)
    requires n < |g.order| && Distinct(g.order) && g.order[n] in g.buckets && Clashes(g, g.order[..n], asOf, reasons)
    ensures
      var candidates := g.buckets[g.order[n]];
      Clashes(g, g.order[..n + 1], asOf,
              reasons + if |candidates| > 1 then [Overlap(g.order[n], |candidates|, asOf)] else [])
  {
    var k := g.order[n];
    var more := if |g.buckets[k]| > 1 then [Overlap(k, |g.buckets[k]|, asOf)] else [];
    assert g.order[..n + 1] == g.order[..n] + [k] && k !in g.order[..n];
    assert forall r :: r in more <==> Clash(g, [k], asOf, r);
    DistinctJoin(reasons, more);
  }

  // ---------------------------------------------------------------------------------------------
  // The whole resolution

  ghost predicate ListsRows(cat: Catalog, rows: seq<Row>) {
    (forall row :: row in rows <==> row in cat.rows) && Distinct(rows)
  }

  lemma {:induction false} BucketOf(
    cat: Catalog, ctx: Context, codes: set<Code>, rows: seq<Row>, asOf: Instant, g: Gathered, row: Row)
    requires GatheredFrom(cat, ctx, codes, rows, asOf, g) && Distinct(rows)
    requires row in rows && Candidate(cat, ctx, codes, row, asOf)
    ensures var k := cat.versions[row.version].ruleId; k in g.buckets && row in g.buckets[k]
  {
    var k := cat.versions[row.version].ruleId;
    BucketMembers(cat, ctx, codes, rows, asOf, k);
  }

  lemma {:induction false} InBucket(
    cat: Catalog, ctx: Context, codes: set<Code>, rows: seq<Row>, asOf: Instant, g: Gathered, k: string)
    requires GatheredFrom(cat, ctx, codes, rows, asOf, g) && Distinct(rows) && k in g.buckets
    ensures Distinct(g.buckets[k])
    ensures forall row :: row in g.buckets[k] ==>
      row in rows && Candidate(cat, ctx, codes, row, asOf) && cat.versions[row.version].ruleId == k
  {
    BucketMembers(cat, ctx, codes, rows, asOf, k);
    assert Bucket(cat, ctx, codes, rows, asOf, k) == g.buckets[k];
  }

  /** Buckets of one row each are exactly the absence of overlapping candidates. */
  lemma {:induction false} SinglesMeanNoOverlap(
    cat: Catalog, ctx: Context, codes: set<Code>, rows: seq<Row>, asOf: Instant, g: Gathered)
    requires GatheredFrom(cat, ctx, codes, rows, asOf, g) && ListsRows(cat, rows)
    ensures (forall k :: k in g.buckets ==> |g.buckets[k]| == 1) <==> NoOverlap(cat, ctx, codes, asOf)
  {
    if forall k :: k in g.buckets ==> |g.buckets[k]| == 1 {
      forall a, b | a in cat.rows && b in cat.rows && Candidate(cat, ctx, codes, a, asOf)
          && Candidate(cat, ctx, codes, b, asOf)
                    && cat.versions[a.version].ruleId == cat.versions[b.version].ruleId
        ensures a == b
      {
        BucketOf(cat, ctx, codes, rows, asOf, g, a);
        BucketOf(cat, ctx, codes, rows, asOf, g, b);
      }
    }
    if NoOverlap(cat, ctx, codes, asOf) {
      forall k | k in g.buckets ensures |g.buckets[k]| == 1 {
        InBucket(cat, ctx, codes, rows, asOf, g, k);
        TwoMembers(g.buckets[k]);
      }
    }
  }

  lemma {:induction false} TwoMembers(rows: seq<Row>)
    requires Distinct(rows)
    ensures |rows| > 1 ==> exists a, b :: a in rows && b in rows && a != b
  {
    if |rows| > 1 {
      assert rows[0] in rows && rows[1] in rows && rows[0] != rows[1];
    }
  }

  lemma {:induction false} PickedRow(
    cat: Catalog, ctx: Context, codes: set<Code>, rows: seq<Row>, asOf: Instant, g: Gathered, versions: seq<VersionRef>,
    i: nat)
    requires GatheredFrom(cat, ctx, codes, rows, asOf, g) && Distinct(rows) && Picked(cat, g, versions)
    requires i < |versions|
    ensures
      var row := g.buckets[g.order[i]][0];
      && row in rows && Candidate(cat, ctx, codes, row, asOf)
      && versions[i] == RefOf(row.version, cat.versions[row.version])
      && versions[i].ruleId == g.order[i]
  {
    InBucket(cat, ctx, codes, rows, asOf, g, g.order[i]);
    assert g.buckets[g.order[i]][0] in g.buckets[g.order[i]];
  }

  lemma {:induction false} ApplicableIsPicked(
    cat: Catalog, ctx: Context, rows: seq<Row>, asOf: Instant, g: Gathered, versions: seq<VersionRef>, v: VersionRef)
    requires GatheredFrom(cat, ctx, Codes(cat, ctx), rows, asOf, g) && ListsRows(cat, rows)
    requires |versions| == |g.order| && Picked(cat, g, versions)
    requires forall k :: k in g.buckets ==> |g.buckets[k]| == 1
    requires v in Applicable(cat, ctx, asOf)
    ensures v in versions
  {
    var row :| row in cat.rows && Candidate(cat, ctx, Codes(cat, ctx), row, asOf)
        && v == RefOf(row.version, cat.versions[row.version]);
    BucketOf(cat, ctx, Codes(cat, ctx), rows, asOf, g, row);
    SoleIsPicked(cat, g, versions, cat.versions[row.version].ruleId, row);
  }

  lemma {:induction false} SoleIsPicked(cat: Catalog, g: Gathered, versions: seq<VersionRef>, k: string, row: Row)
    requires Picked(cat, g, versions) && |versions| == |g.order| && k in g.order && k in g.buckets
    requires |g.buckets[k]| == 1 && row in g.buckets[k] && row.version in cat.versions
    ensures RefOf(row.version, cat.versions[row.version]) in versions
  {
    assert g.buckets[k][0] == row;
    var i :| 0 <= i < |g.order| && g.order[i] == k;
    assert versions[i] == RefOf(row.version, cat.versions[row.version]);
  }

  lemma {:induction false} PickedIsApplicable(
    cat: Catalog, ctx: Context, rows: seq<Row>, asOf: Instant, g: Gathered, versions: seq<VersionRef>)
    requires GatheredFrom(cat, ctx, Codes(cat, ctx), rows, asOf, g) && ListsRows(cat, rows)
    requires |versions| == |g.order| && Picked(cat, g, versions)
    requires forall k :: k in g.buckets ==> |g.buckets[k]| == 1
    ensures Members(versions) == Applicable(cat, ctx, asOf) && DistinctIds(versions)
  {
    var codes, app := Codes(cat, ctx), Applicable(cat, ctx, asOf);
    forall i | 0 <= i < |versions|
      ensures versions[i] in app && versions[i].id in cat.versions && cat.versions[versions[i].id].ruleId == g.order[i]
    {
      PickedRow(cat, ctx, codes, rows, asOf, g, versions, i);
    }
    forall v | v in app ensures v in versions {
      ApplicableIsPicked(cat, ctx, rows, asOf, g, versions, v);
    }
    forall i, j | 0 <= i < j < |versions| ensures versions[i].id != versions[j].id {
      assert g.order[i] != g.order[j];
    }
  }

  predicate InstantLe(a: Instant, b: Instant) { a <= b }

  /** The earliest of some instants: sort, take the first. */
  function Earliest(ts: seq<Instant>): (e: Option<Instant>)
    ensures e.None? <==> ts == []
    ensures e.Some? ==> e.value in ts && forall t :: t in ts ==> e.value <= t
  {
    SortIsOrdered(ts, ts, InstantLe);
    SortBag(ts, InstantLe);
    BagMembers(Sort(ts, InstantLe), ts);
    var sorted := Sort(ts, InstantLe);
    assert forall t :: t in ts ==> t in sorted;
    if sorted == [] then None else Some(sorted[0])
  }

  /** What a resolution of this catalog for this context has to be. */
  ghost predicate Answers(cat: Catalog, ctx: Context, asOf: Instant, know: Instant, res: Resolution) {
    && (res.resolved <==> Resolvable(cat, ctx, asOf, know))
    && (res.resolved ==>
          && res.reasons == [] && DistinctIds(res.versions)
          && Members(res.versions) == Applicable(cat, ctx, asOf)
          && IsRevalidation(cat, ctx, asOf, res.revalidateAfter))
    && (!res.resolved ==>
          && res.versions == [] && res.revalidateAfter == None && res.reasons != [] && Distinct(res.reasons)
          && forall r :: r in res.reasons <==> Due(cat, ctx, asOf, know, r))
  }

  /** Whatever order the rows came in, the answer is the same up to the order of its versions and its reasons. */
  lemma {:induction false} AnswersAgree(
    cat: Catalog, ctx: Context, asOf: Instant, know: Instant, a: Resolution, b: Resolution)
    requires Answers(cat, ctx, asOf, know, a) && Answers(cat, ctx, asOf, know, b)
    ensures a.resolved == b.resolved && a.revalidateAfter == b.revalidateAfter
    ensures multiset(a.versions) == multiset(b.versions) && multiset(a.reasons) == multiset(b.reasons)
  {
    DistinctBags(a.versions, b.versions);
    if !a.resolved {
      assert Members(a.reasons) == Members(b.reasons);
      DistinctBags(a.reasons, b.reasons);
    }
  }

  lemma {:induction false} RevalidationFound(
    cat: Catalog, ctx: Context, l: Listing, asOf: Instant, g: Gathered, deadline: Option<Instant>,
    after: Option<Instant>)
    requires Lists(cat, l) && GatheredFrom(cat, ctx, Codes(cat, ctx), l.rows, asOf, g)
    requires EarliestAmong(cat, l.sources, |l.sources|, Codes(cat, ctx), deadline)
    requires after == Earliest((if deadline.Some? then [deadline.value] else []) + g.boundaries)
    ensures IsRevalidation(cat, ctx, asOf, after)
  {
    var codes := Codes(cat, ctx);
    var ts := (if deadline.Some? then [deadline.value] else []) + g.boundaries;
    assert forall t :: t in ts <==> Some(t) == deadline || t in g.boundaries;
    forall t | IsBound(cat, ctx, asOf, t) ensures after.Some? && after.value <= t {
      if s, r :| s in cat.sources && s.jurisdiction in codes && IsLatest(cat, s, r) && t == Deadline(s, r) {
        assert s in l.sources;
        var i :| 0 <= i < |l.sources| && l.sources[i] == s;
        assert DeadlineAmong(cat, l.sources, |l.sources|, codes, t);
        assert deadline.value in ts;
      } else {
        var row :| row in cat.rows && Boundary(cat, ctx, codes, row, asOf) == Some(t);
        assert row in l.rows;
        assert t in ts;
      }
    }
    if after.Some? {
      if after == deadline {
        var i, r :| 0 <= i < |l.sources| && l.sources[i].jurisdiction in codes && IsLatest(cat, l.sources[i], r)
            && after.value == Deadline(l.sources[i], r);
        assert l.sources[i] in cat.sources;
      } else {
        var row :| row in l.rows && Boundary(cat, ctx, codes, row, asOf) == Some(after.value);
        assert row in cat.rows;
      }
    }
  }

  /** The resolver, for any order in which the database lists its rows. */
  method Resolve(cat: Catalog, ctx: Context, asOf: Instant, know: Instant, l: Listing) returns (res: Resolution)
    requires Lists(cat, l)
    ensures Answers(cat, ctx, asOf, know, res)
  {
    var path, broken := LoadCoveredAncestry(cat.jurisdictions, ctx.jurisdiction);
    if path.None? {
      return Resolution(false, [], broken, None);
    }
    CodesOfPath(cat, ctx, path.value);
    var codes := CodeSet(path.value);
    var deadline, unfresh := ValidateSourceFreshness(cat, l, path.value, know);
    if unfresh != [] {
      return Resolution(false, [], unfresh, None);
    }
    res := ResolveFresh(cat, ctx, codes, asOf, know, l, deadline);
  }

  lemma {:induction false} UsableIffNoReason(
    cat: Catalog, ctx: Context, codes: set<Code>, rows: seq<Row>, asOf: Instant, g: Gathered)
    requires GatheredFrom(cat, ctx, codes, rows, asOf, g) && ListsRows(cat, rows)
    ensures g.reasons == [] <==> RulesUsable(cat, ctx, codes, asOf)
  {
    if g.reasons == [] {
      forall row | row in cat.rows && Matches(ctx, codes, row) && Live(cat, row)
        ensures InstantOf(ctx, row, asOf).Some?
      {
        assert NeedsReceipt(row) !in g.reasons && Unsupported(row) !in g.reasons;
      }
    } else {
      assert g.reasons[0] in g.reasons;
    }
  }

  lemma {:induction false} ReviewAnswers(
    cat: Catalog, ctx: Context, rows: seq<Row>, asOf: Instant, know: Instant, g: Gathered, overlaps: seq<Reason>)
    requires HasAncestry(cat.jurisdictions, ctx.jurisdiction) && SourcesFresh(cat, Codes(cat, ctx), know)
    requires GatheredFrom(cat, ctx, Codes(cat, ctx), rows, asOf, g) && ListsRows(cat, rows)
    requires overlaps == [] <==> NoOverlap(cat, ctx, Codes(cat, ctx), asOf)
    requires Distinct(overlaps) && forall r :: r in overlaps <==> OverlapHolds(cat, ctx, Codes(cat, ctx), asOf, r)
    requires g.reasons + overlaps != []
    ensures Answers(cat, ctx, asOf, know, Resolution(false, [], g.reasons + overlaps, None))
  {
    UsableIffNoReason(cat, ctx, Codes(cat, ctx), rows, asOf, g);
    DistinctJoin(g.reasons, overlaps);
  }

  /** The rest of the resolver, once the ancestry is covered and every source fresh. */
  method ResolveFresh(
    cat: Catalog, ctx: Context, codes: set<Code>, asOf: Instant, know: Instant, l: Listing, deadline: Option<Instant>)
    returns (res: Resolution)
    requires Lists(cat, l) && HasAncestry(cat.jurisdictions, ctx.jurisdiction) && codes == Codes(cat, ctx)
    requires SourcesFresh(cat, codes, know) && EarliestAmong(cat, l.sources, |l.sources|, codes, deadline)
    ensures Answers(cat, ctx, asOf, know, res)
  {
    var g := CollectCandidates(cat, ctx, codes, l.rows, asOf);
    var versions, overlaps := PickFrom(cat, ctx, codes, l.rows, asOf, g);
    UsableIffNoReason(cat, ctx, codes, l.rows, asOf, g);
    if g.reasons + overlaps != [] {
      ReviewAnswers(cat, ctx, l.rows, asOf, know, g, overlaps);
      return Resolution(false, [], g.reasons + overlaps, None);
    }
    PickedIsApplicable(cat, ctx, l.rows, asOf, g, versions);
    var after := Earliest((if deadline.Some? then [deadline.value] else []) + g.boundaries);
    RevalidationFound(cat, ctx, l, asOf, g, deadline, after);
    res := Resolution(true, versions, [], after);
  }

  lemma {:induction false} ClashIsOverlap(
    cat: Catalog, ctx: Context, codes: set<Code>, rows: seq<Row>, asOf: Instant, g: Gathered, r: Reason)
    requires GatheredFrom(cat, ctx, codes, rows, asOf, g) && ListsRows(cat, rows)
    ensures Clash(g, g.order, asOf, r) <==> OverlapHolds(cat, ctx, codes, asOf, r)
  {
    if r.Overlap? {
      BucketMembers(cat, ctx, codes, rows, asOf, r.ruleId);
      var b := Bucket(cat, ctx, codes, rows, asOf, r.ruleId);
      assert AreCandidates(cat, ctx, codes, asOf, r.ruleId, b);
      if OverlapHolds(cat, ctx, codes, asOf, r) {
        var cs: seq<Row> :| |cs| == r.count && AreCandidates(cat, ctx, codes, asOf, r.ruleId, cs);
        CandidatesCount(cat, ctx, codes, asOf, r.ruleId, b, cs);
      }
    }
  }

  method PickFrom(cat: Catalog, ctx: Context, codes: set<Code>, rows: seq<Row>, asOf: Instant, g: Gathered)
    returns (versions: seq<VersionRef>, overlaps: seq<Reason>)
    requires GatheredFrom(cat, ctx, codes, rows, asOf, g) && ListsRows(cat, rows)
    ensures overlaps == [] <==> NoOverlap(cat, ctx, codes, asOf)
    ensures overlaps == [] ==> |versions| == |g.order| && Picked(cat, g, versions) && forall k :: k in g.buckets ==>
        |g.buckets[k]| == 1
    ensures Distinct(overlaps) && forall r :: r in overlaps <==> OverlapHolds(cat, ctx, codes, asOf, r)
  {
    forall k | k in g.buckets ensures AreCandidates(cat, ctx, codes, asOf, k, g.buckets[k]) {
      BucketMembers(cat, ctx, codes, rows, asOf, k);
    }
    versions, overlaps := PickVersions(cat, g, asOf);
    forall r ensures Clash(g, g.order, asOf, r) <==> OverlapHolds(cat, ctx, codes, asOf, r) {
      ClashIsOverlap(cat, ctx, codes, rows, asOf, g, r);
    }
    SinglesMeanNoOverlap(cat, ctx, codes, rows, asOf, g);
  }
}
