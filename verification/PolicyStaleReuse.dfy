/** What the fast path returns when the generation moves between the two reads that it compares. */
module PolicyStaleReuse {
  import opened Basics
  import opened Sorting
  import opened PolicyCatalog
  import opened PolicyDependency
  import opened PolicyEvaluation
  import opened PolicyBindings
  import opened PolicyContextKey
  import opened PolicyCache
  import opened PolicyRuns
  import opened PolicyExample

  // ---------------------------------------------------------------------------------------------
  // How far behind an evaluator may be

  /** In a reachable state, with no propose write to a version in use before it, evaluator `e` is about to read a
      binding that it will reuse, `lag` generations after it read the generation. */
  ghost predicate AboutToReuse(s0: State, actions: seq<Action>, s: State, e: nat, i: nat, lag: int) {
    && Initial(s0) && Runs(s0, actions, s) && GentleRun(s0, actions) && e in s.evaluators
    && var v := s.evaluators[e];
       && v.phase.SawGeneration? && s.generation == v.phase.generation + lag && Plain(v.ctx)
       && ActiveBinding(s.bindings, v.caseId) == Some(i)
       && FastPath(s, Found(i, s.bindings[i]), v.ctx, v.phase.generation)
  }

  ghost predicate ReusesFresh(s: State, e: nat, i: nat)
    requires e in s.evaluators && i < |s.bindings| && s.bindings[i].snapshot < |s.snapshots|
  {
    Fresh(s.cat, s.evaluators[e].ctx, s.now, s.now) == Some(Members(s.snapshots[s.bindings[i].snapshot].versions))
  }

  /** With this lag, what is reused is always what a fresh resolution finds when the binding is read. */
  ghost predicate SafeLag(lag: nat) {
    forall s0, actions, s, e, i :: AboutToReuse(s0, actions, s, e, i, lag) ==> ReusesFresh(s, e, i)
  }

  lemma {:induction false} NoLagIsSafe(s0: State, actions: seq<Action>, s: State, e: nat, i: nat)
    requires AboutToReuse(s0, actions, s, e, i, 0)
    ensures ReusesFresh(s, e, i)
  {
    CacheAgreesWithResolver(s0, actions, s);
    assert Agrees(s, s.bindings[i]);
    assert For(s.bindings[i], s.evaluators[e].ctx);
  }

  function Start(): State { State(0, Shelf(Released, None), 0, [], [], map[], map[]) }

  function OnceBound(): State {
    var s, l, res := Start(), Carried(Start(), 3), Naming([OLD]);
    In(Bound(s, 3, HERE, l, res), 1, 3, HERE, BoundPhase(s, 3, HERE, l, res))
  }

  /** The case is bound; a second call has read the generation. */
  function Waiting(): State { In(OnceBound(), 2, 3, HERE, SawGeneration(0)) }

  lemma {:induction false} GetsWaiting() returns (actions: seq<Action>)
    ensures Initial(Start()) && Works(Start(), actions, Waiting())
  {
    ShelfIsOk(Released, None);
    OldAnswer();
    actions := Evaluates(Start(), 1, 3, HERE, Naming([OLD]));
    var more := Calls(OnceBound(), 2, 3, HERE);
    WorksJoin(Start(), actions, OnceBound(), more, Waiting());
    actions := actions + more;
  }

  /** `n` withdrawals, one after the other. */
  lemma {:induction false} Withdrawals(s: State, n: nat) returns (actions: seq<Action>)
    requires s.cat == Shelf(Withdrawn, None)
    ensures Runs(s, actions, s.(generation := s.generation + n)) && forall k :: 0 <= k < |actions| ==>
      actions[k].Withdraw?
    decreases n
  {
    actions := [];
    if n > 0 {
      var m := Apply(s, Withdraw(0));
      assert WithStatus(s.cat, 0, Withdrawn) == s.cat;
      var more := Withdrawals(m, n - 1);
      actions := [Withdraw(0)] + more;
      assert actions[1..] == more;
    }
  }

  function Lagging(lag: nat): State { Waiting().(cat := Shelf(Withdrawn, None), generation := lag) }

  lemma {:induction false} GetsLagging(lag: nat) returns (actions: seq<Action>)
    requires lag > 0
    ensures Runs(Start(), actions, Lagging(lag)) && GentleRun(Start(), actions)
  {
    var before := GetsWaiting();
    var s := Waiting();
    assert WithStatus(Shelf(Released, None), 0, Withdrawn) == Shelf(Withdrawn, None);
    RunsOn(Start(), before, s, Withdraw(0));
    var m := Apply(s, Withdraw(0));
    var more := Withdrawals(m, lag - 1);
    RunsJoin(Start(), before + [Withdraw(0)], m, more, Lagging(lag));
    actions := before + [Withdraw(0)] + more;
    NoProposeIsGentle(Start(), actions);
  }

  lemma {:induction false} LaggingReuses(lag: nat, actions: seq<Action>)
    requires lag > 0 && Initial(Start()) && Runs(Start(), actions, Lagging(lag)) && GentleRun(Start(), actions)
    ensures AboutToReuse(Start(), actions, Lagging(lag), 2, 0, lag)
  {
    var s := Lagging(lag);
    assert s.bindings == [FirstBinding(Start(), 3, HERE, Carried(Start(), 3), Naming([OLD]))];
  }

  lemma {:induction false} LaggingIsStale(lag: nat)
    ensures |Lagging(lag).bindings| == 1 && Lagging(lag).bindings[0].snapshot < |Lagging(lag).snapshots|
    ensures !ReusesFresh(Lagging(lag), 2, 0)
  {
    var s := Lagging(lag);
    OldAnswer();
    ShelfFresh(Withdrawn, None);
    assert s.snapshots == [SnapshotOf(3, Naming([OLD]))];
    assert OLD in Members(s.snapshots[s.bindings[0].snapshot].versions);
  }

  /** The fast path is safe for evaluators that are no generation behind when they read the binding, and for no others.
      */
  lemma {:induction false} SafeLagIff(lag: nat)
    ensures SafeLag(lag) <==> lag == 0
  {
    if lag == 0 {
      forall s0, actions, s, e, i | AboutToReuse(s0, actions, s, e, i, 0) ensures ReusesFresh(s, e, i) {
        NoLagIsSafe(s0, actions, s, e, i);
      }
    } else {
      var before := GetsWaiting();
      var actions := GetsLagging(lag);
      LaggingReuses(lag, actions);
      LaggingIsStale(lag);
    }
  }

  // ---------------------------------------------------------------------------------------------
  // An answer that was never right

  /** A fresh resolution finds something. */
  ghost function NeverEmpty(): (Catalog, Instant) -> bool {
    (cat: Catalog, t: Instant) => Fresh(cat, HERE, t, t) != Some({})
  }

  /** The first call has read the generation. */
  function Early(): State { In(Start(), 1, 3, HERE, SawGeneration(0)) }

  const FOUND_NONE: Locals := Locals(0, None, 0)

  /** The second has read the rows, and the catalog has become `cat` in generation `g`. */
  function Halfway(cat: Catalog, g: int): State {
    In(Early().(cat := cat, generation := g), 2, 3, HERE, SawRows(FOUND_NONE, 0, {REVISION}, {OLD_ROW}))
  }

  lemma {:induction false} GetsHalfway() returns (actions: seq<Action>)
    ensures Works(Start(), actions, Halfway(Shelf(Released, None), 0))
  {
    actions := Calls(Start(), 1, 3, HERE);
    var more := ReadsAll(Early(), 2, 3, HERE);
    assert Early().(cat := Shelf(Released, None), generation := 0) == Early();
    WorksJoin(Start(), actions, Early(), more, Halfway(Shelf(Released, None), 0));
    actions := actions + more;
  }

  lemma {:induction false} CatalogChanges()
    ensures
      var a, b, c, d := Halfway(Shelf(Released, None), 0), Halfway(Shelf(Released, Some(Draft)), 0),
          Halfway(Shelf(Released, Some(Released)), 1), Halfway(Shelf(Withdrawn, Some(Released)), 2);
      && Enabled(a, AddDraft(1, NewVersion(Draft), NEW_ROW)) && Apply(a, AddDraft(1, NewVersion(Draft), NEW_ROW)) == b
      && Enabled(b, Release(1)) && Apply(b, Release(1)) == c
      && Enabled(c, Withdraw(0)) && Apply(c, Withdraw(0)) == d
  {
    assert Shelf(Released, None).rows + {NEW_ROW} == {OLD_ROW, NEW_ROW};
    assert Shelf(Released, None).versions[1 := NewVersion(Draft)] == Shelf(Released, Some(Draft)).versions;
    assert WithStatus(Shelf(Released, Some(Draft)), 1, Released) == Shelf(Released, Some(Released));
    assert WithStatus(Shelf(Released, Some(Released)), 0, Withdrawn) == Shelf(Withdrawn, Some(Released));
  }

  /** A second version is drafted and released, then the first withdrawn: at no moment is there none. */
  const CHANGES: seq<Action> := [AddDraft(1, NewVersion(Draft), NEW_ROW), Release(1), Withdraw(0)]

  lemma {:induction false} ChangesRun()
    ensures Runs(Halfway(Shelf(Released, None), 0), CHANGES, Halfway(Shelf(Withdrawn, Some(Released)), 2))
  {
    var a, b, c := Halfway(Shelf(Released, None), 0), Halfway(Shelf(Released, Some(Draft)), 0),
        Halfway(Shelf(Released, Some(Released)), 1);
    CatalogChanges();
    RunsOn(a, [], a, CHANGES[0]);
    RunsOn(a, [] + [CHANGES[0]], b, CHANGES[1]);
    RunsOn(a, [] + [CHANGES[0]] + [CHANGES[1]], c, CHANGES[2]);
    assert [] + [CHANGES[0]] + [CHANGES[1]] + [CHANGES[2]] == CHANGES;
  }

  lemma {:induction false} NeverEmptyShelf(old_: ReleaseStatus, new_: Option<ReleaseStatus>)
    requires old_.Released? || new_ == Some(Released)
    ensures NeverEmpty()(Shelf(old_, new_), 0)
  {
    ShelfFresh(old_, new_);
    assert OLD in OnShelf(old_, new_) || NEW in OnShelf(old_, new_);
  }

  lemma {:induction false} ChangesNeverEmpty()
    ensures Throughout(Halfway(Shelf(Released, None), 0), CHANGES, NeverEmpty())
  {
    CatalogChanges();
    NeverEmptyShelf(Released, None);
    NeverEmptyShelf(Released, Some(Draft));
    NeverEmptyShelf(Released, Some(Released));
    NeverEmptyShelf(Withdrawn, Some(Released));
    var ok := NeverEmpty();
    assert Throughout(Halfway(Shelf(Withdrawn, Some(Released)), 2), [], ok);
    ThroughoutBefore(Halfway(Shelf(Released, Some(Released)), 1), CHANGES[2], [], ok);
    ThroughoutBefore(Halfway(Shelf(Released, Some(Draft)), 0), CHANGES[1], [CHANGES[2]] + [], ok);
    ThroughoutBefore(Halfway(Shelf(Released, None), 0), CHANGES[0], [CHANGES[1]] + ([CHANGES[2]] + []), ok);
    assert [CHANGES[0]] + ([CHANGES[1]] + ([CHANGES[2]] + [])) == CHANGES;
  }

  function Mixed(): State {
    var s, res := Early().(cat := Shelf(Withdrawn, Some(Released)), generation := 2), Naming([]);
    In(Bound(s, 3, HERE, FOUND_NONE, res), 2, 3, HERE, BoundPhase(s, 3, HERE, FOUND_NONE, res))
  }

  /** Answered from rows read before and versions read after the changes, the second evaluator binds nothing at all. */
  lemma {:induction false} BindsMixture() returns (actions: seq<Action>)
    ensures Works(Halfway(Shelf(Withdrawn, Some(Released)), 2), actions, Mixed())
  {
    var s, res := Early().(cat := Shelf(Withdrawn, Some(Released)), generation := 2), Naming([]);
    MixedAnswer();
    assert SeenBy(s.cat, {OLD_ROW}, {REVISION}) == Shelf(Withdrawn, Some(Released)).(rows := {OLD_ROW});
    AnswerStep(s, 2, 3, HERE, FOUND_NONE, {REVISION}, {OLD_ROW}, res);
    var more := Binds(s, 2, 3, HERE, FOUND_NONE, res);
    WorksJoin(Halfway(s.cat, 2), [Answer(2, res)], In(s, 2, 3, HERE, Answered(FOUND_NONE, res)), more, Mixed());
    actions := [Answer(2, res)] + more;
  }

  /** The first evaluator still takes its old generation for the current one and reuses the binding. */
  lemma {:induction false} ReusesMixture() returns (s: State)
    ensures Works(Mixed(), [Go(1), Go(1)], s) && 1 in s.evaluators
    ensures s.evaluators[1].phase.Returned? && s.evaluators[1].phase.result.Evaluated?
    ensures s.evaluators[1].phase.result.outcome == Reused && s.evaluators[1].phase.result.versions == []
  {
    var m := Mixed();
    var n := FindsMixture();
    s := Advance(n, 1);
    assert Works(m, [], m);
    WorksOn(m, [], m, Go(1));
    WorksOn(m, [] + [Go(1)], n, Go(1));
    assert [] + [Go(1)] + [Go(1)] == [Go(1), Go(1)];
  }

  lemma {:induction false} FindsMixture() returns (n: State)
    ensures 1 in Mixed().evaluators && n == Advance(Mixed(), 1) && 1 in n.evaluators
    ensures
      var v := n.evaluators[1];
      var b := FirstBinding(Early().(cat := n.cat, generation := 2), 3, HERE, FOUND_NONE, Naming([]));
      && v == Evaluator(3, HERE, 0, SawBinding(0, Some(Found(0, b)))) && FastPath(n, Found(0, b), HERE, 0)
      && b.snapshot < |n.snapshots| && n.snapshots[b.snapshot].versions == []
  {
    var m := Mixed();
    n := Advance(m, 1);
    var b := FirstBinding(Early().(cat := m.cat, generation := 2), 3, HERE, FOUND_NONE, Naming([]));
    assert m.bindings == [b] && m.snapshots == [SnapshotOf(3, Naming([]))] && SnapshotVersions([]) == [];
  }

  /** A run without any propose call in which an evaluator reuses versions that no fresh resolution of its context finds
      at any moment of the run. */
  lemma {:induction false} ReusesWhatNeverWas() returns (s0: State, actions: seq<Action>, s: State, e: nat)
    ensures Initial(s0) && Runs(s0, actions, s) && e in s.evaluators && s.evaluators[e].ctx == HERE
    ensures s.evaluators[e].phase.Returned? && s.evaluators[e].phase.result.Evaluated?
    ensures s.evaluators[e].phase.result.outcome == Reused && s.evaluators[e].phase.result.versions == []
    ensures Throughout(s0, actions, NeverEmpty())
  {
    s0, e := Start(), 1;
    ShelfIsOk(Released, None);
    var first := GetsHalfway();
    actions := UpToMixture(first);
    s := ReusesMixture();
    NeverEmptyShelf(Withdrawn, Some(Released));
    WorksThroughout(Mixed(), [Go(1), Go(1)], s, NeverEmpty());
    RunsJoin(s0, actions, Mixed(), [Go(1), Go(1)], s);
    ThroughoutJoin(s0, actions, Mixed(), [Go(1), Go(1)], NeverEmpty());
    actions := actions + [Go(1), Go(1)];
    assert s.evaluators[1].ctx == HERE;
  }

  lemma {:induction false} UpToMixture(first: seq<Action>) returns (actions: seq<Action>)
    requires Works(Start(), first, Halfway(Shelf(Released, None), 0))
    ensures Runs(Start(), actions, Mixed()) && Throughout(Start(), actions, NeverEmpty())
  {
    var a, d := Halfway(Shelf(Released, None), 0), Halfway(Shelf(Withdrawn, Some(Released)), 2);
    NeverEmptyShelf(Released, None);
    NeverEmptyShelf(Withdrawn, Some(Released));
    WorksThroughout(Start(), first, a, NeverEmpty());
    ChangesRun();
    ChangesNeverEmpty();
    RunsJoin(Start(), first, a, CHANGES, d);
    ThroughoutJoin(Start(), first, a, CHANGES, NeverEmpty());
    var last := BindsMixture();
    WorksThroughout(d, last, Mixed(), NeverEmpty());
    RunsJoin(Start(), first + CHANGES, d, last, Mixed());
    ThroughoutJoin(Start(), first + CHANGES, d, last, NeverEmpty());
    actions := first + CHANGES + last;
  }
}
