/** Why a resolution may be cached until its revalidation instant. */
module PolicyStability {
  import opened Basics
  import opened PolicyCatalog

  /** `after` is absent or still ahead of `t`. */
  predicate Before(t: Instant, after: Option<Instant>) { after.Some? ==> t < after.value }

  lemma {:induction false} RowIsStable(
    cat: Catalog, ctx: Context, row: Row, asOf: Instant, later: Instant, after: Option<Instant>)
    requires row in cat.rows && asOf <= later && Before(later, after) && IsRevalidation(cat, ctx, asOf, after)
    ensures
      var codes := Codes(cat, ctx);
      && (InstantOf(ctx, row, asOf).Some? <==> InstantOf(ctx, row, later).Some?)
      && (Candidate(cat, ctx, codes, row, asOf) <==> Candidate(cat, ctx, codes, row, later))
  {
    var codes := Codes(cat, ctx);
    var b := Boundary(cat, ctx, codes, row, asOf);
    if b.Some? {
      assert IsBound(cat, ctx, asOf, b.value);
    }
  }

  lemma {:induction false} SourceIsStable(
    cat: Catalog, ctx: Context, s: Source, asOf: Instant, know: Instant, later: Instant, after: Option<Instant>)
    requires s in cat.sources && s.jurisdiction in Codes(cat, ctx) && IsFresh(cat, s, know)
    requires Before(later, after) && IsRevalidation(cat, ctx, asOf, after)
    ensures IsFresh(cat, s, later)
  {
    var r := LatestOf(cat, s);
    assert IsBound(cat, ctx, asOf, Deadline(s, r));
  }

  /** A fresh source has a revision recorded last. */
  lemma {:induction false} LatestOf(cat: Catalog, s: Source) returns (latest: Revision)
    requires exists r :: r in cat.revisions && r.source == s.id
    ensures IsLatest(cat, s, latest)
  {
    latest :| latest in cat.revisions && latest.source == s.id;
    var rest := cat.revisions;
    while rest != {}
      invariant rest <= cat.revisions && latest in cat.revisions && latest.source == s.id
      invariant forall q :: q in cat.revisions && q !in rest && q.source == s.id ==> q.recordedAt <= latest.recordedAt
      decreases |rest|
    {
      var q :| q in rest;
      if q.source == s.id && q.recordedAt > latest.recordedAt { latest := q; }
      rest := rest - {q};
    }
  }

  /** On an unchanged catalog, a resolution that succeeded with revalidation instant `after` is repeated, with the
      same versions, at every later instant before `after`, whatever the transition rules; forever if there is none. */
  lemma {:induction false} ResolutionIsStable(
      cat: Catalog, ctx: Context, asOf: Instant, know: Instant, after: Option<Instant>, asOf': Instant, know': Instant)
    requires Resolvable(cat, ctx, asOf, know) && IsRevalidation(cat, ctx, asOf, after)
    requires asOf <= asOf' && Before(asOf', after) && Before(know', after)
    ensures Resolvable(cat, ctx, asOf', know')
    ensures Applicable(cat, ctx, asOf') == Applicable(cat, ctx, asOf)
  {
    var codes := Codes(cat, ctx);
    forall row | row in cat.rows
      ensures InstantOf(ctx, row, asOf).Some? <==> InstantOf(ctx, row, asOf').Some?
      ensures Candidate(cat, ctx, codes, row, asOf) <==> Candidate(cat, ctx, codes, row, asOf')
    {
      RowIsStable(cat, ctx, row, asOf, asOf', after);
    }
    forall s | s in cat.sources && s.jurisdiction in codes ensures IsFresh(cat, s, know') {
      SourceIsStable(cat, ctx, s, asOf, know, know', after);
    }
  }

  /** Recording more source revisions never spoils a resolution. */
  lemma {:induction false} RevisionsKeepResolution(
    cat: Catalog, more: set<Revision>, ctx: Context, asOf: Instant, know: Instant)
    requires cat.revisions <= more && Resolvable(cat, ctx, asOf, know)
    ensures Fresh(cat.(revisions := more), ctx, asOf, know) == Fresh(cat, ctx, asOf, know)
  {
    var cat' := cat.(revisions := more);
    SameRows(cat, cat', ctx);
    forall s | s in cat'.sources && s.jurisdiction in Codes(cat', ctx) ensures IsFresh(cat', s, know) {
      assert IsFresh(cat, s, know);
    }
    var codes := Codes(cat, ctx);
    assert forall row :: Candidate(cat', ctx, codes, row, asOf) <==> Candidate(cat, ctx, codes, row, asOf);
    assert RulesUsable(cat', ctx, codes, asOf) && NoOverlap(cat', ctx, codes, asOf);
    assert SourcesFresh(cat', codes, know) by {
      forall c | c in codes ensures HasSource(cat', c) { assert HasSource(cat, c); }
    }
    assert Applicable(cat', ctx, asOf) == Applicable(cat, ctx, asOf);
  }

  lemma {:induction false} SameRows(cat: Catalog, cat': Catalog, ctx: Context)
    requires cat'.jurisdictions == cat.jurisdictions
    ensures Codes(cat', ctx) == Codes(cat, ctx)
  {
    if HasAncestry(cat.jurisdictions, ctx.jurisdiction) {
      var p :| IsAncestry(cat.jurisdictions, Some(ctx.jurisdiction), p);
      CodesOfPath(cat, ctx, p);
      CodesOfPath(cat', ctx, p);
    }
  }

  /** The second catalog has the same live rows with the same content; whatever else it has is not released. */
  ghost predicate SameLive(cat: Catalog, cat': Catalog) {
    && cat'.jurisdictions == cat.jurisdictions && cat'.sources == cat.sources && cat'.revisions == cat.revisions
    && (forall row :: row in cat.rows && Live(cat, row) <==> row in cat'.rows && Live(cat', row))
    && (forall row :: row in cat.rows && Live(cat, row) ==> cat'.versions[row.version] == cat.versions[row.version])
  }

  /** Catalogs with the same live rows resolve alike. */
  lemma {:induction false} SameLiveSameResolution(
    cat: Catalog, cat': Catalog, ctx: Context, asOf: Instant, know: Instant)
    requires SameLive(cat, cat')
    ensures Fresh(cat', ctx, asOf, know) == Fresh(cat, ctx, asOf, know)
  {
    SameRows(cat, cat', ctx);
    var codes := Codes(cat, ctx);
    assert forall row :: row in cat.rows && Candidate(cat, ctx, codes, row, asOf) <==>
        row in cat'.rows && Candidate(cat', ctx, codes, row, asOf);
    assert SourcesFresh(cat', codes, know) <==> SourcesFresh(cat, codes, know) by {
      assert forall s :: IsFresh(cat', s, know) <==> IsFresh(cat, s, know);
      assert forall c :: HasSource(cat', c) <==> HasSource(cat, c);
    }
    assert RulesUsable(cat', ctx, codes, asOf) <==> RulesUsable(cat, ctx, codes, asOf);
    assert NoOverlap(cat', ctx, codes, asOf) <==> NoOverlap(cat, ctx, codes, asOf);
    assert Applicable(cat', ctx, asOf) == Applicable(cat, ctx, asOf);
  }
}
