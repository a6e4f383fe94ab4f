/** The reasons for a review, stated without any algorithm: which ones are due for a catalog and a context. */
module PolicyReasons {
  import opened Basics
  import opened Sorting
  import opened PolicyCatalog

  datatype Reason =
    | Cycle(code: Code)
    | UnknownCode(code: Code)
    | NotCovered(code: Code)
    | NoSource(code: Code)
    | NoRevision(source: Source)
    | InvalidObjective(source: Source)
    | Stale(source: Source, deadline: Instant)
    | NeedsReceipt(row: Row)
    | Unsupported(row: Row)
    | Overlap(ruleId: string, count: nat, asOf: Instant)

  // ---------------------------------------------------------------------------------------------
  // A broken ancestry

  /** Climbing from `leaf` over `path`, no jurisdiction twice, one comes to where the walk cannot go on. */
  ghost predicate StopsAt(js: map<Code, Jurisdiction>, leaf: Code, path: seq<Code>, r: Reason) {
    && (r.Cycle? || r.UnknownCode? || r.NotCovered?)
    && Climbs(js, Some(leaf), path, r.code) && Distinct(path)
    && match r
       case Cycle(c) => c in path
       case UnknownCode(c) => c !in js
       case NotCovered(c) => c in js && c !in path && !js[c].covered
       case _ => false
  }

  ghost predicate BrokenAt(js: map<Code, Jurisdiction>, leaf: Code, r: Reason) {
    exists path :: StopsAt(js, leaf, path, r)
  }

  /** Two climbs from one start differ only in how far they go. */
  lemma {:induction false} ClimbUnique(
    js: map<Code, Jurisdiction>, start: Option<Code>, p: seq<Code>, c: Code, q: seq<Code>, d: Code)
    requires Climbs(js, start, p, c) && Climbs(js, start, q, d) && |p| <= |q|
    ensures if |p| == |q| then p == q && c == d else p < q && q[|p|] == c && c in js && js[c].covered
    decreases |p|
  {
    if p != [] {
      ClimbUnique(js, js[p[0]].parent, p[1..], c, q[1..], d);
      assert p == [p[0]] + p[1..] && q == [q[0]] + q[1..];
    }
  }

  /** The walk stops for one reason only. */
  lemma {:induction false} BrokenOnce(js: map<Code, Jurisdiction>, leaf: Code, a: Reason, b: Reason)
    requires BrokenAt(js, leaf, a) && BrokenAt(js, leaf, b)
    ensures a == b
  {
    var p :| StopsAt(js, leaf, p, a);
    var q :| StopsAt(js, leaf, q, b);
    if |p| <= |q| { StopsOnce(js, leaf, p, a, q, b); } else { StopsOnce(js, leaf, q, b, p, a); }
  }

  lemma {:induction false} StopsOnce(
    js: map<Code, Jurisdiction>, leaf: Code, p: seq<Code>, a: Reason, q: seq<Code>, b: Reason)
    requires StopsAt(js, leaf, p, a) && StopsAt(js, leaf, q, b) && |p| <= |q|
    ensures a == b
  {
    ClimbUnique(js, Some(leaf), p, a.code, q, b.code);
    if |p| == |q| {
      if a.code in p { ClimbFrom(js, Some(leaf), p, a.code, FirstOf(p, a.code)); }
    }
  }

  ghost function FirstOf(p: seq<Code>, c: Code): (i: nat)
    requires c in p
    ensures i < |p| && p[i] == c
  {
    var i :| 0 <= i < |p| && p[i] == c;
    i
  }

  /** A cycle is named at a jurisdiction that the walk reaches and whose parents lead back to it. */
  lemma {:induction false} CycleIsReal(js: map<Code, Jurisdiction>, leaf: Code, c: Code)
    requires BrokenAt(js, leaf, Cycle(c))
    ensures Reached(js, leaf, c) && OnCycle(js, c)
  {
    var path :| StopsAt(js, leaf, path, Cycle(c));
    ClimbFrom(js, Some(leaf), path, c, FirstOf(path, c));
  }

  // ---------------------------------------------------------------------------------------------
  // Sources, rows, rules

  /** The one defect of a source of the jurisdictions that count. */
  ghost predicate SourceReasonHolds(cat: Catalog, codes: set<Code>, know: Instant, r: Reason) {
    && (r.NoRevision? || r.InvalidObjective? || r.Stale?)
    && r.source in cat.sources && r.source.jurisdiction in codes
    && match r
       case NoRevision(s) => !HasRevision(cat, s)
       case InvalidObjective(s) => HasRevision(cat, s) && s.freshnessHours <= 0
       case Stale(s, d) => s.freshnessHours > 0 && d <= know && exists q :: IsLatest(cat, s, q) && d == Deadline(s, q)
       case _ => false
  }

  ghost predicate HasRevision(cat: Catalog, s: Source) { exists q :: q in cat.revisions && q.source == s.id }

  ghost predicate MissingHolds(cat: Catalog, codes: set<Code>, r: Reason) {
    r.NoSource? && r.code in codes && !HasSource(cat, r.code)
  }

  ghost predicate RowReasonHolds(cat: Catalog, ctx: Context, codes: set<Code>, r: Reason) {
    && (r.NeedsReceipt? || r.Unsupported?)
    && r.row in cat.rows && Matches(ctx, codes, r.row) && Live(cat, r.row)
    && match r
       case NeedsReceipt(row) => row.transition == Some(RECEIVED) && ctx.receivedAt.None?
       case Unsupported(row) => row.transition.Some? && row.transition.value !in {"", AS_OF, RECEIVED}
       case _ => false
  }

  /** `rows` lists the candidates of one rule. */
  ghost predicate AreCandidates(
    cat: Catalog, ctx: Context, codes: set<Code>, asOf: Instant, k: string, rows: seq<Row>) {
    Distinct(rows) && forall row :: row in rows <==>
      row in cat.rows && Candidate(cat, ctx, codes, row, asOf) && cat.versions[row.version].ruleId == k
  }

  /** Exactly `n` different candidate rows carry the rule, and `n` is at least two. */
  ghost predicate OverlapHolds(cat: Catalog, ctx: Context, codes: set<Code>, asOf: Instant, r: Reason) {
    && r.Overlap? && r.asOf == asOf && r.count > 1
    && exists rows: seq<Row> :: |rows| == r.count && AreCandidates(cat, ctx, codes, asOf, r.ruleId, rows)
  }

  lemma {:induction false} CandidatesCount(
    cat: Catalog, ctx: Context, codes: set<Code>, asOf: Instant, k: string, a: seq<Row>, b: seq<Row>)
    requires AreCandidates(cat, ctx, codes, asOf, k, a) && AreCandidates(cat, ctx, codes, asOf, k, b)
    ensures |a| == |b|
  {
    DistinctFits(a, b);
    DistinctFits(b, a);
  }

  // ---------------------------------------------------------------------------------------------
  // All of them

  /** The reasons a review has to name: where the ancestry breaks; if it does not, every jurisdiction without a source
      and every source that is not fresh; if there is none, every row without an instant and every rule with more than
      one candidate. */
  ghost predicate Due(cat: Catalog, ctx: Context, asOf: Instant, know: Instant, r: Reason) {
    var codes := Codes(cat, ctx);
    if !HasAncestry(cat.jurisdictions, ctx.jurisdiction) then BrokenAt(cat.jurisdictions, ctx.jurisdiction, r)
    else if !SourcesFresh(cat, codes, know) then MissingHolds(cat, codes, r) || SourceReasonHolds(cat, codes, know, r)
    else RowReasonHolds(cat, ctx, codes, r) || OverlapHolds(cat, ctx, codes, asOf, r)
  }

}
