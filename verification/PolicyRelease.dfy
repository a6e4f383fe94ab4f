/** Proposing, approving, activating and withdrawing a policy version, with every read and write a step of its own. */
module PolicyRelease {
  import opened Basics
  import opened PolicyCatalog

  /** One proposal; rows are listed in the order they were proposed. */
  datatype Approval = Approval(version: VersionId, proposedBy: string, approvedBy: Option<string>)

  /** Where a caller stands between its reads and writes. */
  datatype Caller =
    | Proposing(version: VersionId, by_: string)
    | SawDraft(version: VersionId, by_: string)
    | MarkedProposed(version: VersionId, by_: string)
    | Approving(version: VersionId, by_: string)
    | SawPending(row: nat, by_: string)
    | Activating(version: VersionId)
    | SawActivatable(version: VersionId)
    | SawApproved(version: VersionId)
    | Withdrawing(version: VersionId)
    | SawReleased(version: VersionId)
    | Finished
    | Threw

  /** `activations` is the audit trail of releases. */
  datatype State = State(
    statuses: map<VersionId, ReleaseStatus>, approvals: seq<Approval>, generation: nat, activations: seq<VersionId>,
    callers: map<nat, Caller>)

  /** The newest proposal of a version, among all or only among the unapproved. */
  function Newest(rows: seq<Approval>, v: VersionId, pendingOnly: bool): (r: Option<nat>)
    ensures r.Some? ==>
      r.value < |rows| && rows[r.value].version == v && (pendingOnly ==> rows[r.value].approvedBy.None?)
    ensures forall j :: (if r.Some? then r.value < j else 0 <= j) && j < |rows| ==>
      !(rows[j].version == v && (pendingOnly ==> rows[j].approvedBy.None?))
  {
    if rows == [] then None
    else
      var n := |rows| - 1;
      if rows[n].version == v && (pendingOnly ==> rows[n].approvedBy.None?) then Some(n)
          else Newest(rows[..n], v, pendingOnly)
  }

  predicate HasApprovedTransition(rows: seq<Approval>, v: VersionId) {
    var i := Newest(rows, v, false);
    i.Some? && rows[i.value].approvedBy.Some?
  }

  function Status(s: State, v: VersionId): Option<ReleaseStatus> {
    if v in s.statuses then Some(s.statuses[v]) else None
  }

  function Put(s: State, c: nat, p: Caller): State { s.(callers := s.callers[c := p]) }

  /** One read or one write of caller `c`. */
  function Advance(s: State, c: nat): State
    requires c in s.callers
  {
    match s.callers[c]
    case Proposing(v, who) => Put(s, c, if Status(s, v) == Some(Draft) then SawDraft(v, who) else Threw)
    case SawDraft(v, who) => Put(s.(statuses := s.statuses[v := Proposed]), c, MarkedProposed(v, who))
    case MarkedProposed(v, who) => Put(s.(approvals := s.approvals + [Approval(v, who, None)]), c, Finished)
    case Approving(v, who) =>
      var i := Newest(s.approvals, v, true);
      Put(s, c, if i.Some? && s.approvals[i.value].proposedBy != who then SawPending(i.value, who) else Threw)
    case SawPending(i, who) =>
      if i < |s.approvals| then Put(s.(approvals := s.approvals[i := s.approvals[i].(approvedBy := Some(who))]), c,
          Finished) else s
    case Activating(v) =>
      Put(s, c, if Status(s, v) == Some(Draft) || Status(s, v) == Some(Proposed) then SawActivatable(v) else Threw)
    case SawActivatable(v) => Put(s, c, if HasApprovedTransition(s.approvals, v) then SawApproved(v) else Threw)
    case SawApproved(v) =>
      Put(s.(statuses := s.statuses[v := Released], generation := s.generation + 1,
          activations := s.activations + [v]), c, Finished)
    case Withdrawing(v) => Put(s, c, if Status(s, v) == Some(Released) then SawReleased(v) else Threw)
    case SawReleased(v) => Put(s.(statuses := s.statuses[v := Withdrawn], generation := s.generation + 1), c, Finished)
    case Finished => s
    case Threw => s
  }

  datatype Action = Call(c: nat, caller: Caller) | Go(c: nat)

  predicate Entry(p: Caller) { p.Proposing? || p.Approving? || p.Activating? || p.Withdrawing? }

  function Apply(s: State, a: Action): State {
    match a
    case Call(c, p) => if c !in s.callers && Entry(p) then Put(s, c, p) else s
    case Go(c) => if c in s.callers then Advance(s, c) else s
  }

  function Run(s: State, actions: seq<Action>): State
    decreases |actions|
  {
    if actions == [] then s else Run(Apply(s, actions[0]), actions[1..])
  }

  predicate Initial(s: State) {
    && (forall v :: v in s.statuses ==> s.statuses[v].Draft?)
    && s.approvals == [] && s.activations == [] && s.callers == map[]
  }

  // ---------------------------------------------------------------------------------------------
  // Two people

  /** Someone other than the proposer approved this version. */
  ghost predicate Independent(rows: seq<Approval>, v: VersionId) {
    exists i :: 0 <= i < |rows| && rows[i].version == v && rows[i].approvedBy.Some?
        && rows[i].approvedBy.value != rows[i].proposedBy
  }

  ghost predicate Inv(s: State) {
    && (forall i :: 0 <= i < |s.approvals| && s.approvals[i].approvedBy.Some? ==>
        s.approvals[i].approvedBy.value != s.approvals[i].proposedBy)
    && (forall v :: v in s.activations ==> Independent(s.approvals, v))
    && (forall v :: v in s.statuses && s.statuses[v].Released? ==> v in s.activations)
    && (forall c :: c in s.callers ==> CallerOk(s, s.callers[c]))
  }

  ghost predicate CallerOk(s: State, p: Caller) {
    match p
    case SawPending(i, who) => i < |s.approvals| && s.approvals[i].proposedBy != who
    case SawApproved(v) => Independent(s.approvals, v)
    case _ => true
  }

  /** Proposals are kept, and an approved one stays approved by someone other than its proposer. */
  ghost predicate Keeps(rows: seq<Approval>, rows': seq<Approval>) {
    && |rows| <= |rows'|
    && forall i :: 0 <= i < |rows| ==>
         && rows'[i].version == rows[i].version && rows'[i].proposedBy == rows[i].proposedBy
         && (rows[i].approvedBy.Some? ==> rows'[i].approvedBy.Some?)
         && (rows'[i].approvedBy.Some? ==> rows'[i].approvedBy.value != rows'[i].proposedBy)
  }

  lemma {:induction false} KeepsIndependence(rows: seq<Approval>, rows': seq<Approval>, v: VersionId)
    requires Keeps(rows, rows') && Independent(rows, v)
    ensures Independent(rows', v)
  {
    var i :| 0 <= i < |rows| && rows[i].version == v && rows[i].approvedBy.Some?
        && rows[i].approvedBy.value != rows[i].proposedBy;
    assert rows'[i].version == v && rows'[i].approvedBy.Some?;
  }

  lemma {:induction false} AdvanceKeepsRows(s: State, c: nat)
    requires Inv(s) && c in s.callers
    ensures Keeps(s.approvals, Advance(s, c).approvals)
  {
    assert CallerOk(s, s.callers[c]);
  }

  lemma {:induction false} AdvanceKeepsInv(s: State, c: nat)
    requires Inv(s) && c in s.callers
    ensures Inv(Advance(s, c))
  {
    var s' := Advance(s, c);
    assert CallerOk(s, s.callers[c]);
    AdvanceKeepsRows(s, c);
    forall v | Independent(s.approvals, v)
      ensures Independent(s'.approvals, v)
    {
      KeepsIndependence(s.approvals, s'.approvals, v);
    }
    forall d | d in s'.callers ensures CallerOk(s', s'.callers[d]) {
      if d != c { assert CallerOk(s, s.callers[d]); }
    }
  }

  lemma {:induction false} RunKeepsInv(s: State, actions: seq<Action>)
    requires Inv(s)
    ensures Inv(Run(s, actions))
    decreases |actions|
  {
    if actions != [] {
      var a := actions[0];
      if a.Go? && a.c in s.callers { AdvanceKeepsInv(s, a.c); }
      RunKeepsInv(Apply(s, a), actions[1..]);
    }
  }

  /** Whatever the interleaving, every version that was ever released, and every one released now, was approved by
      someone other than its proposer, although the gate of activation never compares the two names. */
  lemma {:induction false} ReleasesAreIndependent(s: State, actions: seq<Action>, v: VersionId)
    requires Initial(s)
    ensures
      var s' := Run(s, actions);
      (v in s'.activations || Status(s', v) == Some(Released)) ==> Independent(s'.approvals, v)
  {
    RunKeepsInv(s, actions);
  }

  // ---------------------------------------------------------------------------------------------
  // What interleaving does not give

  /** A propose call has seen DRAFT and not written yet. */
  ghost predicate ProposeInFlight(s: State, v: VersionId) {
    exists c :: c in s.callers && s.callers[c].SawDraft? && s.callers[c].version == v
  }

  ghost predicate Settled(s: State, v: VersionId) {
    !ProposeInFlight(s, v) && v in s.statuses && !s.statuses[v].Draft? && !s.statuses[v].Proposed?
  }

  lemma {:induction false} SettledStays(s: State, actions: seq<Action>, v: VersionId)
    requires Settled(s, v)
    ensures Settled(Run(s, actions), v)
    decreases |actions|
  {
    if actions != [] {
      var s' := Apply(s, actions[0]);
      assert forall c :: c in s'.callers && s'.callers[c].SawDraft? && s'.callers[c].version == v ==>
          c in s.callers && s.callers[c] == s'.callers[c];
      SettledStays(s', actions[1..], v);
    }
  }

  lemma {:induction false} RunCons(s: State, a: Action, rest: seq<Action>)
    ensures Run(s, [a] + rest) == Run(Apply(s, a), rest)
  {
    assert ([a] + rest)[1..] == rest;
  }

  /** A released version can fall back to PROPOSED, without a new generation, exactly when a propose call that saw
      DRAFT is still under way. */
  lemma {:induction false} ReleaseHoldsUnlessProposeInFlight(s: State, v: VersionId)
    requires Status(s, v) == Some(Released)
    ensures (exists actions ::
        Status(Run(s, actions), v) == Some(Proposed) && Run(s, actions).generation == s.generation)
       <==> ProposeInFlight(s, v)
  {
    if ProposeInFlight(s, v) {
      var c :| c in s.callers && s.callers[c].SawDraft? && s.callers[c].version == v;
      RunCons(s, Go(c), []);
      assert [Go(c)] + [] == [Go(c)];
      assert Status(Run(s, [Go(c)]), v) == Some(Proposed) && Run(s, [Go(c)]).generation == s.generation;
    } else {
      forall actions ensures Status(Run(s, actions), v) != Some(Proposed) { SettledStays(s, actions, v); }
    }
  }

  lemma {:induction false} Run2(s: State, a: Action, b: Action)
    ensures Run(s, [a, b]) == Apply(Apply(s, a), b)
  {
    RunCons(s, a, [b]);
    RunCons(Apply(s, a), b, []);
    assert [a] + [b] == [a, b] && [b] + [] == [b];
  }

  lemma {:induction false} RunAppend(s: State, xs: seq<Action>, ys: seq<Action>)
    ensures Run(s, xs + ys) == Run(Run(s, xs), ys)
    decreases |xs|
  {
    if xs == [] {
      assert xs + ys == ys;
    } else {
      assert (xs + ys)[1..] == xs[1..] + ys;
      RunAppend(Apply(s, xs[0]), xs[1..], ys);
    }
  }

  /** Two propose calls read DRAFT; one of them goes on to be approved and activated. */
  function Stage(n: nat): State
    requires n <= 6
  {
    var bob := SawDraft(0, "bob");
    if n == 0 then State(map[0 := Draft], [], 0, [], map[])
    else if n == 1 then State(map[0 := Draft], [], 0, [], map[1 := SawDraft(0, "ann")])
    else if n == 2 then State(map[0 := Draft], [], 0, [], map[1 := SawDraft(0, "ann"), 2 := bob])
    else if n == 3 then State(map[0 := Proposed], [Approval(0, "ann", None)], 0, [], map[1 := Finished, 2 := bob])
    else if n == 4 then State(map[0 := Proposed], [Approval(0, "ann", None)], 0, [],
        map[1 := Finished, 2 := bob, 3 := SawPending(0, "cyd")])
    else if n == 5 then State(map[0 := Proposed], [Approval(0, "ann", Some("cyd"))], 0, [],
        map[1 := Finished, 2 := bob, 3 := Finished, 4 := Activating(0)])
    else State(map[0 := Proposed], [Approval(0, "ann", Some("cyd"))], 0, [],
        map[1 := Finished, 2 := bob, 3 := Finished, 4 := SawApproved(0)])
  }

  function Moves(n: nat): seq<Action>
    requires n < 6
  {
    if n == 0 then [Call(1, Proposing(0, "ann")), Go(1)]
    else if n == 1 then [Call(2, Proposing(0, "bob")), Go(2)]
    else if n == 2 then [Go(1), Go(1)]
    else if n == 3 then [Call(3, Approving(0, "cyd")), Go(3)]
    else if n == 4 then [Go(3), Call(4, Activating(0))]
    else [Go(4), Go(4)]
  }

  lemma {:induction false} Stage0()
    ensures Run(Stage(0), Moves(0)) == Stage(1)
  {
    var moves := Moves(0);
    Run2(Stage(0), moves[0], moves[1]);
    assert moves == [moves[0], moves[1]];
    assert Apply(Apply(Stage(0), moves[0]), moves[1]) == Stage(1);
  }

  lemma {:induction false} Stage1()
    ensures Run(Stage(1), Moves(1)) == Stage(2)
  {
    var moves := Moves(1);
    Run2(Stage(1), moves[0], moves[1]);
    assert moves == [moves[0], moves[1]];
    assert Apply(Apply(Stage(1), moves[0]), moves[1]) == Stage(2);
  }

  lemma {:induction false} Stage2()
    ensures Run(Stage(2), Moves(2)) == Stage(3)
  {
    var moves := Moves(2);
    Run2(Stage(2), moves[0], moves[1]);
    assert moves == [moves[0], moves[1]];
    assert Apply(Apply(Stage(2), moves[0]), moves[1]) == Stage(3);
  }

  lemma {:induction false} Stage3()
    ensures Run(Stage(3), Moves(3)) == Stage(4)
  {
    var moves := Moves(3);
    Run2(Stage(3), moves[0], moves[1]);
    assert moves == [moves[0], moves[1]] && "ann"[0] != "cyd"[0];
    assert Apply(Apply(Stage(3), moves[0]), moves[1]) == Stage(4);
  }

  lemma {:induction false} Stage4()
    ensures Run(Stage(4), Moves(4)) == Stage(5)
  {
    var moves := Moves(4);
    Run2(Stage(4), moves[0], moves[1]);
    assert moves == [moves[0], moves[1]];
    assert Apply(Apply(Stage(4), moves[0]), moves[1]) == Stage(5);
  }

  lemma {:induction false} Stage5()
    ensures Run(Stage(5), Moves(5)) == Stage(6)
  {
    var moves := Moves(5);
    Run2(Stage(5), moves[0], moves[1]);
    assert moves == [moves[0], moves[1]];
    assert Apply(Apply(Stage(5), moves[0]), moves[1]) == Stage(6);
  }

  lemma {:induction false} StageStep(n: nat)
    requires n < 6
    ensures Run(Stage(n), Moves(n)) == Stage(n + 1)
  {
    if n == 0 { Stage0(); }
    else if n == 1 { Stage1(); }
    else if n == 2 { Stage2(); }
    else if n == 3 { Stage3(); }
    else if n == 4 { Stage4(); }
    else { Stage5(); }
  }

  lemma {:induction false} StageReached(n: nat) returns (actions: seq<Action>)
    requires n <= 6
    ensures Run(Stage(0), actions) == Stage(n)
  {
    actions := [];
    if n > 0 {
      var before := StageReached(n - 1);
      StageStep(n - 1);
      RunAppend(Stage(0), before, Moves(n - 1));
      actions := before + Moves(n - 1);
    }
  }

  /** A released version with a propose call in flight is reachable: two calls read DRAFT before either writes. */
  lemma {:induction false} ReleasedWithProposeInFlight() returns (s: State, actions: seq<Action>)
    ensures Initial(s) && Status(Run(s, actions), 0) == Some(Released) && ProposeInFlight(Run(s, actions), 0)
  {
    s := Stage(0);
    var before := StageReached(6);
    RunAppend(s, before, [Go(4)]);
    RunCons(Stage(6), Go(4), []);
    assert [Go(4)] + [] == [Go(4)];
    actions := before + [Go(4)];
    assert Run(s, actions).callers[2] == SawDraft(0, "bob");
  }
}
