/** What an answer of the resolver says in plain terms, and that its digest forgets how it was found. */
module PolicyMeaning {
  import opened Basics
  import opened Sorting
  import opened PolicyCatalog
  import opened PolicyReasons
  import opened PolicyResolver
  import opened PolicyDependency
  import opened PolicyWording
  import opened PolicyEvaluation

  // ---------------------------------------------------------------------------------------------
  // The jurisdictions that count are those the walk over the parents comes to

  lemma {:induction false} ClimbIsOnPath(
    js: map<Code, Jurisdiction>, start: Option<Code>, path: seq<Code>, climb: seq<Code>, c: Code)
    requires IsAncestry(js, start, path) && Climbs(js, start, climb, c)
    ensures c in path
    decreases |climb|
  {
    if climb != [] {
      ClimbIsOnPath(js, js[climb[0]].parent, path[1..], climb[1..], c);
      assert path == [path[0]] + path[1..];
    }
  }

  lemma {:induction false} PathIsClimb(js: map<Code, Jurisdiction>, start: Option<Code>, path: seq<Code>, i: nat)
    requires IsAncestry(js, start, path) && i < |path|
    ensures Climbs(js, start, path[..i], path[i]) && path[i] in js && js[path[i]].covered
    decreases i
  {
    if i > 0 {
      PathIsClimb(js, js[path[0]].parent, path[1..], i - 1);
      assert path[..i][1..] == path[1..][..i - 1];
    }
  }

  lemma {:induction false} CountsIffReached(cat: Catalog, ctx: Context, c: Code)
    requires HasAncestry(cat.jurisdictions, ctx.jurisdiction)
    ensures c in Codes(cat, ctx) <==> Reached(cat.jurisdictions, ctx.jurisdiction, c)
    ensures c in Codes(cat, ctx) ==> c in cat.jurisdictions && cat.jurisdictions[c].covered
  {
    var js := cat.jurisdictions;
    var path :| IsAncestry(js, Some(ctx.jurisdiction), path);
    CodesOfPath(cat, ctx, path);
    if c in path {
      var i :| 0 <= i < |path| && path[i] == c;
      PathIsClimb(js, Some(ctx.jurisdiction), path, i);
    }
    if Reached(js, ctx.jurisdiction, c) {
      var climb :| Climbs(js, Some(ctx.jurisdiction), climb, c);
      ClimbIsOnPath(js, Some(ctx.jurisdiction), path, climb, c);
    }
  }

  // ---------------------------------------------------------------------------------------------
  // What RESOLVED says

  /** The row speaks for this product and event in a jurisdiction above the context's, its version is released, and the
      instant its transition rule asks for lies in the version's effective interval. */
  ghost predicate Speaks(cat: Catalog, ctx: Context, asOf: Instant, row: Row, v: VersionRef) {
    && row in cat.rows && Reached(cat.jurisdictions, ctx.jurisdiction, row.jurisdiction)
    && row.product == ctx.product && row.event == ctx.event
    && row.version == v.id && v.id in cat.versions && cat.versions[v.id].status == Released
    && v == RefOf(v.id, cat.versions[v.id])
    && var t := if row.transition == Some("application_received_on_or_after_effective_date") then ctx.receivedAt
                else Some(asOf);
       t.Some? && v.effectiveFrom <= t.value && (v.effectiveTo.None? || t.value < v.effectiveTo.value)
  }

  /** Every source of the jurisdiction has a revision no older than its objective, and there is a source. */
  ghost predicate Current(cat: Catalog, know: Instant, c: Code) {
    && c in cat.jurisdictions && cat.jurisdictions[c].covered
    && (exists s :: s in cat.sources && s.jurisdiction == c)
    && (forall s :: s in cat.sources && s.jurisdiction == c ==>
          exists r :: r in cat.revisions && r.source == s.id && know < r.recordedAt + s.freshnessHours * 3_600_000)
  }

  lemma {:induction false} SpeaksIffCandidate(cat: Catalog, ctx: Context, asOf: Instant, row: Row, v: VersionRef)
    requires HasAncestry(cat.jurisdictions, ctx.jurisdiction) && RulesUsable(cat, ctx, Codes(cat, ctx), asOf)
    ensures Speaks(cat, ctx, asOf, row, v) <==>
      && row in cat.rows && Candidate(cat, ctx, Codes(cat, ctx), row, asOf)
      && v == RefOf(row.version, cat.versions[row.version])
  {
    CountsIffReached(cat, ctx, row.jurisdiction);
  }

  /** A RESOLVED answer names exactly the versions some row speaks for, no two rows speak for one rule, and every
      jurisdiction the walk comes to is covered with fresh sources. */
  lemma {:induction false} ResolvedMeans(cat: Catalog, ctx: Context, asOf: Instant, know: Instant, res: Resolution)
    requires Answers(cat, ctx, asOf, know, res) && res.resolved
    ensures forall v :: v in res.versions <==> exists row :: Speaks(cat, ctx, asOf, row, v)
    ensures forall v, w, row, row' ::
      Speaks(cat, ctx, asOf, row, v) && Speaks(cat, ctx, asOf, row', w) && v.ruleId == w.ruleId ==> row == row'
    ensures forall c :: Reached(cat.jurisdictions, ctx.jurisdiction, c) ==> Current(cat, know, c)
  {
    var codes := Codes(cat, ctx);
    forall row, v ensures Speaks(cat, ctx, asOf, row, v) <==>
      row in cat.rows && Candidate(cat, ctx, codes, row, asOf) && v == RefOf(row.version, cat.versions[row.version])
    {
      SpeaksIffCandidate(cat, ctx, asOf, row, v);
    }
    forall v ensures v in res.versions <==> exists row :: Speaks(cat, ctx, asOf, row, v) {
      assert v in res.versions <==> v in Members(res.versions);
      assert v in res.versions <==> v in Applicable(cat, ctx, asOf);
      if v in Applicable(cat, ctx, asOf) {
        var row :| row in cat.rows && Candidate(cat, ctx, codes, row, asOf)
            && v == RefOf(row.version, cat.versions[row.version]);
        assert Speaks(cat, ctx, asOf, row, v);
      }
    }
    forall c | Reached(cat.jurisdictions, ctx.jurisdiction, c) ensures Current(cat, know, c) {
      CountsIffReached(cat, ctx, c);
      forall s | s in cat.sources && s.jurisdiction == c
        ensures exists r :: r in cat.revisions && r.source == s.id && know < r.recordedAt + s.freshnessHours * 3_600_000
      {
        assert IsFresh(cat, s, know);
      }
    }
  }

  // ---------------------------------------------------------------------------------------------
  // The digest

  /** Two answers to one question have one digest, whatever order rows, sources and revisions were listed in. */
  lemma {:induction false} DigestForgetsOrder(
    cat: Catalog, ctx: Context, asOf: Instant, know: Instant, a: Resolution, b: Resolution)
    requires Answers(cat, ctx, asOf, know, a) && Answers(cat, ctx, asOf, know, b)
    requires forall id :: id in cat.versions ==> WellFormedRule(cat.versions[id])
    ensures DigestOf(a) == DigestOf(b)
  {
    AnswersAgree(cat, ctx, asOf, know, a, b);
    RulesOk(cat, ctx, asOf, know, a);
    RulesOk(cat, ctx, asOf, know, b);
    SameWords(a.reasons, b.reasons);
    BagMembers(a.versions, b.versions);
    assert CanonicalRefs(a.versions) == CanonicalRefs(b.versions);
    DigestIsExact(a.resolved, Reasons(a.reasons), a.versions, b.resolved, Reasons(b.reasons), b.versions);
  }

  /** And one digest means one status and one and the same content: every reason of either answer is told by the other,
      equally many of them. */
  lemma {:induction false} DigestTellsReasons(
    cat: Catalog, ctx: Context, asOf: Instant, know: Instant, a: Resolution,
    cat': Catalog, ctx': Context, asOf': Instant, know': Instant, b: Resolution, r: Reason)
    requires Answers(cat, ctx, asOf, know, a) && Answers(cat', ctx', asOf', know', b) && DigestOf(a) == DigestOf(b)
    requires forall id :: id in cat.versions ==> WellFormedRule(cat.versions[id])
    requires forall id :: id in cat'.versions ==> WellFormedRule(cat'.versions[id])
    ensures a.resolved == b.resolved && |a.reasons| == |b.reasons|
    ensures r in a.reasons ==> exists q :: q in b.reasons && ToldAlike(r, q)
  {
    RulesOk(cat, ctx, asOf, know, a);
    RulesOk(cat', ctx', asOf', know', b);
    DigestIsExact(a.resolved, Reasons(a.reasons), a.versions, b.resolved, Reasons(b.reasons), b.versions);
    BagMembers(Reasons(a.reasons), Reasons(b.reasons));
    if r in a.reasons { WordIsTold(a.reasons, b.reasons, r); }
  }

  lemma {:induction false} WordIsTold(a: seq<Reason>, b: seq<Reason>, r: Reason)
    requires r in a && forall t :: t in Reasons(a) <==> t in Reasons(b)
    ensures exists q :: q in b && ToldAlike(r, q)
  {
    var i :| 0 <= i < |a| && a[i] == r;
    assert Reasons(a)[i] == Describe(r) && Describe(r) in Reasons(b);
    var j :| 0 <= j < |b| && Reasons(b)[j] == Describe(r);
    WordsAreExact(r, b[j]);
    assert b[j] in b;
  }

  lemma {:induction false} RulesOk(cat: Catalog, ctx: Context, asOf: Instant, know: Instant, res: Resolution)
    requires Answers(cat, ctx, asOf, know, res) && forall id :: id in cat.versions ==> WellFormedRule(cat.versions[id])
    ensures RulesWellFormed(res.versions)
  {
    forall i | 0 <= i < |res.versions| ensures PolicyDigest.WellFormed(res.versions[i].rule) {
      assert res.versions[i] in Members(res.versions);
      assert res.versions[i] in Applicable(cat, ctx, asOf);
      assert WellFormedRule(cat.versions[res.versions[i].id]);
    }
  }

  /** Telling the same bag of reasons gives the same bag of texts. */
  lemma {:induction false} SameWords(a: seq<Reason>, b: seq<Reason>)
    requires multiset(a) == multiset(b)
    ensures multiset(Reasons(a)) == multiset(Reasons(b))
  {
    MappedBags(Describe, a, b);
    assert Reasons(a) == Mapped(Describe, a) && Reasons(b) == Mapped(Describe, b);
  }
}
