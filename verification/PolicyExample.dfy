/** A small catalog: one jurisdiction with a fresh source, and two rules with a version each. */
module PolicyExample {
  import opened Basics
  import opened Sorting
  import opened PolicyCatalog
  import opened PolicyResolver
  import opened PolicyDependency
  import opened PolicyBindings

  const HERE: Context := Context("US", "LOAN", "REVIEW", None)
  const SOURCE: Source := Source(0, "code", "US", 1)
  const REVISION: Revision := Revision(0, 0, 0)
  const OLD_ROW: Row := Row(0, 0, "US", "LOAN", "REVIEW", None)
  const NEW_ROW: Row := Row(1, 1, "US", "LOAN", "REVIEW", None)
  const OLD: VersionRef := VersionRef(0, "old", "1", PolicyDigest.Null, 0, None)
  const NEW: VersionRef := VersionRef(1, "new", "1", PolicyDigest.Null, 0, None)

  function OldVersion(status: ReleaseStatus): Version { Version("old", "1", PolicyDigest.Null, 0, None, status) }

  function NewVersion(status: ReleaseStatus): Version { Version("new", "1", PolicyDigest.Null, 0, None, status) }

  /** The second version may not have been drafted yet. */
  function Shelf(old_: ReleaseStatus, new_: Option<ReleaseStatus>): Catalog {
    Catalog(map["US" := Jurisdiction(None, true)], {SOURCE}, {REVISION},
            if new_.Some? then {OLD_ROW, NEW_ROW} else {OLD_ROW},
            if new_.Some? then map[0 := OldVersion(old_), 1 := NewVersion(new_.value)] else map[0 := OldVersion(old_)])
  }

  ghost function OnShelf(old_: ReleaseStatus, new_: Option<ReleaseStatus>): set<VersionRef> {
    (if old_.Released? then {OLD} else {}) + (if new_ == Some(Released) then {NEW} else {})
  }

  /** The tables of the shelf that do not change. */
  predicate Grounded(cat: Catalog) {
    cat.jurisdictions == map["US" := Jurisdiction(None, true)] && cat.sources == {SOURCE} && cat.revisions == {REVISION}
  }

  lemma {:induction false} GroundCodes(cat: Catalog)
    requires Grounded(cat)
    ensures HasAncestry(cat.jurisdictions, "US") && Codes(cat, HERE) == {"US"}
  {
    assert ["US"][1..] == [];
    assert IsAncestry(cat.jurisdictions, None, []);
    assert IsAncestry(cat.jurisdictions, Some("US"), ["US"]);
    CodesOfPath(cat, HERE, ["US"]);
  }

  lemma {:induction false} GroundFresh(cat: Catalog)
    requires Grounded(cat)
    ensures SourcesFresh(cat, {"US"}, 0)
  {
    assert SOURCE in cat.sources && REVISION in cat.revisions;
    assert HasSource(cat, "US");
    assert IsFresh(cat, SOURCE, 0);
  }

  lemma {:induction false} GroundRevalidates(cat: Catalog)
    requires Grounded(cat) && forall row :: row in cat.rows ==> Boundary(cat, HERE, {"US"}, row, 0).None?
    ensures IsRevalidation(cat, HERE, 0, Some(HOUR))
  {
    GroundCodes(cat);
    assert SOURCE in cat.sources && IsLatest(cat, SOURCE, REVISION) && Deadline(SOURCE, REVISION) == HOUR;
    assert IsBound(cat, HERE, 0, HOUR);
  }

  /** Any part of the shelf resolves, to the released versions on it. */
  lemma {:induction false} ShelfResolves(
    cat: Catalog, old_: ReleaseStatus, new_: Option<ReleaseStatus>, vs: set<VersionRef>)
    requires Grounded(cat) && cat.rows <= Shelf(old_, new_).rows && cat.versions == Shelf(old_, new_).versions
    requires vs == (if OLD_ROW in cat.rows && old_.Released? then {OLD} else {})
        + (if NEW_ROW in cat.rows && new_ == Some(Released) then {NEW} else {})
    ensures Resolvable(cat, HERE, 0, 0) && Applicable(cat, HERE, 0) == vs && IsRevalidation(cat, HERE, 0, Some(HOUR))
  {
    GroundCodes(cat);
    GroundFresh(cat);
    RowsJudged(cat, old_, new_);
    assert RulesUsable(cat, HERE, {"US"}, 0);
    assert NoOverlap(cat, HERE, {"US"}, 0);
    GroundRevalidates(cat);
  }

  lemma {:induction false} RowsJudged(cat: Catalog, old_: ReleaseStatus, new_: Option<ReleaseStatus>)
    requires Grounded(cat) && cat.rows <= Shelf(old_, new_).rows && cat.versions == Shelf(old_, new_).versions
    ensures forall row :: row in cat.rows ==> row == OLD_ROW || row == NEW_ROW
    ensures OLD_ROW in cat.rows ==> (Candidate(cat, HERE, {"US"}, OLD_ROW, 0) <==> old_.Released?)
    ensures NEW_ROW in cat.rows ==> (Candidate(cat, HERE, {"US"}, NEW_ROW, 0) <==> new_ == Some(Released))
    ensures forall row :: row in cat.rows ==> Boundary(cat, HERE, {"US"}, row, 0).None?
    ensures 0 in cat.versions && RefOf(0, cat.versions[0]) == OLD && cat.versions[0].ruleId == "old"
    ensures new_.Some? ==>
      1 in cat.versions && RefOf(1, cat.versions[1]) == NEW && cat.versions[1].ruleId == "new" && "old"[0] != "new"[0]
  {
  }

  lemma {:induction false} ShelfFresh(old_: ReleaseStatus, new_: Option<ReleaseStatus>)
    ensures Fresh(Shelf(old_, new_), HERE, 0, 0) == Some(OnShelf(old_, new_))
  {
    ShelfResolves(Shelf(old_, new_), old_, new_, OnShelf(old_, new_));
  }

  /** The answer that names these versions. */
  function Naming(vs: seq<VersionRef>): Resolution { Resolution(true, vs, [], Some(HOUR)) }

  lemma {:induction false} OldAnswer()
    ensures Answers(Shelf(Released, None), HERE, 0, 0, Naming([OLD])) && OLD in Members(SnapshotVersions([OLD]))
  {
    ShelfResolves(Shelf(Released, None), Released, None, {OLD});
    assert Members([OLD]) == {OLD};
    SnapshotKeeps([OLD]);
    assert OLD in [OLD];
  }

  /** From the rows as they were before the second version was drafted, and the versions as they are after the first was
      withdrawn, the resolver names none. */
  lemma {:induction false} MixedAnswer()
    ensures Answers(Shelf(Withdrawn, Some(Released)).(rows := {OLD_ROW}), HERE, 0, 0, Naming([]))
  {
    ShelfResolves(Shelf(Withdrawn, Some(Released)).(rows := {OLD_ROW}), Withdrawn, Some(Released), {});
  }

  lemma {:induction false} ShelfIsOk(old_: ReleaseStatus, new_: Option<ReleaseStatus>)
    ensures CatalogOk(Shelf(old_, new_))
  {
  }
}
