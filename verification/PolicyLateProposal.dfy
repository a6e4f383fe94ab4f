/** The race the cache does not survive: a propose call that read DRAFT writes after the version was released and bound.
    */
module PolicyLateProposal {
  import opened Basics
  import opened Sorting
  import opened PolicyCatalog
  import opened PolicyEvaluation
  import opened PolicyBindings
  import opened PolicyCache
  import opened PolicyRuns
  import opened PolicyExample

  function Start(): State { State(0, Shelf(Draft, None), 0, [], [], map[], map[]) }

  /** Two propose calls read DRAFT, one of them writes, and the version, approved by then, is released. */
  const RACE: seq<Action> := [ReadDraft(7, 0), ReadDraft(8, 0), WriteProposed(8), Release(0)]

  function Raced(): State { State(0, Shelf(Released, None), 1, [], [], map[], map[7 := 0]) }

  lemma {:induction false} RaceReads()
    ensures Runs(Start(), [ReadDraft(7, 0), ReadDraft(8, 0)], Start().(proposers := map[7 := 0, 8 := 0]))
  {
    var s, a, b := Start(), ReadDraft(7, 0), ReadDraft(8, 0);
    RunsOn(s, [], s, a);
    assert [] + [a] == [a];
    RunsOn(s, [a], Apply(s, a), b);
    assert [a] + [b] == [a, b];
  }

  lemma {:induction false} RaceWrites()
    ensures
      var s, m := Start().(proposers := map[7 := 0, 8 := 0]),
          Start().(cat := Shelf(Proposed, None), proposers := map[7 := 0]);
      Enabled(s, WriteProposed(8)) && Apply(s, WriteProposed(8)) == m && Enabled(m, Release(0))
          && Apply(m, Release(0)) == Raced()
  {
    assert WithStatus(Shelf(Draft, None), 0, Proposed) == Shelf(Proposed, None);
    assert WithStatus(Shelf(Proposed, None), 0, Released) == Shelf(Released, None);
    assert map[7 := 0, 8 := 0] - {8} == map[7 := 0];
  }

  lemma {:induction false} RaceRuns()
    ensures Initial(Start()) && Runs(Start(), RACE, Raced())
  {
    var s := Start().(proposers := map[7 := 0, 8 := 0]);
    var both := [ReadDraft(7, 0), ReadDraft(8, 0)];
    ShelfIsOk(Draft, None);
    RaceReads();
    RaceWrites();
    RunsOn(Start(), both, s, WriteProposed(8));
    RunsOn(Start(), both + [WriteProposed(8)], Apply(s, WriteProposed(8)), Release(0));
    assert both + [WriteProposed(8)] + [Release(0)] == RACE;
  }

  /** The case is bound after the race. */
  lemma {:induction false} CaseIsBound() returns (actions: seq<Action>, m: State)
    ensures Works(Raced(), actions, m) && m.cat == Shelf(Released, None) && m.now == 0 && m.generation == 1
    ensures m.proposers == map[7 := 0]
    ensures m.snapshots == [SnapshotOf(3, Naming([OLD]))]
    ensures m.bindings == [FirstBinding(Raced(), 3, HERE, Carried(Raced(), 3), Naming([OLD]))]
  {
    var s, l, res := Raced(), Carried(Raced(), 3), Naming([OLD]);
    OldAnswer();
    actions := Evaluates(s, 1, 3, HERE, res);
    m := In(Bound(s, 3, HERE, l, res), 1, 3, HERE, BoundPhase(s, 3, HERE, l, res));
  }

  lemma {:induction false} BindingIsReusable(m: State)
    requires m.cat == Shelf(Released, None) && m.now == 0 && m.generation == 1
    requires m.snapshots == [SnapshotOf(3, Naming([OLD]))]
    ensures Touches(m, 0, FirstBinding(Raced(), 3, HERE, Carried(Raced(), 3), Naming([OLD])))
  {
    var b := FirstBinding(Raced(), 3, HERE, Carried(Raced(), 3), Naming([OLD]));
    OldAnswer();
    assert OLD in Members(m.snapshots[b.snapshot].versions) && OLD.id == 0;
    assert For(b, HERE);
  }

  /** A run from an initial state, with the release in the order that approval allows, after which the cache is not
      right. */
  lemma {:induction false} LateProposalSpoilsTheCache() returns (s0: State, actions: seq<Action>, s: State)
    ensures Initial(s0) && Runs(s0, actions, s) && !CacheIsRight(s)
  {
    s0 := Start();
    RaceRuns();
    var more, m := CaseIsBound();
    RunsJoin(s0, RACE, Raced(), more, m);
    InitialIsOk(s0);
    RunKeepsInv(s0, RACE + more, m);
    BindingIsReusable(m);
    LateWriteGoesWrong(m, 7, m.bindings[0]);
    RunsOn(s0, RACE + more, m, WriteProposed(7));
    actions, s := RACE + more + [WriteProposed(7)], Apply(m, WriteProposed(7));
    assert s.bindings[0].active;
  }
}
