/** A released version is not released again, and a withdrawn one stays withdrawn, unless a call that read an earlier
    status is still under way. */
module PolicyWithdrawal {
  import opened Basics
  import opened PolicyCatalog
  import opened PolicyRelease

  // ---------------------------------------------------------------------------------------------
  // The gate

  /** Activation passes its gate exactly when the latest proposal of the version has been approved. */
  lemma {:induction false} GateIff(s: State, c: nat, v: VersionId)
    requires c in s.callers && s.callers[c] == SawActivatable(v)
    ensures Advance(s, c) == Put(s, c, SawApproved(v)) || Advance(s, c) == Put(s, c, Threw)
    ensures Advance(s, c).callers[c] == SawApproved(v) <==> LatestApproved(s.approvals, v)
  {
    var i := Newest(s.approvals, v, false);
    if LatestApproved(s.approvals, v) {
      var k :| 0 <= k < |s.approvals| && s.approvals[k].version == v && s.approvals[k].approvedBy.Some?
          && forall j :: k < j < |s.approvals| ==> s.approvals[j].version != v;
      assert i == Some(k);
    }
  }

  ghost predicate LatestApproved(rows: seq<Approval>, v: VersionId) {
    exists i :: 0 <= i < |rows| && rows[i].version == v && rows[i].approvedBy.Some?
        && forall j :: i < j < |rows| ==> rows[j].version != v
  }

  // ---------------------------------------------------------------------------------------------
  // Only what was released is withdrawn

  /** What is released or withdrawn, and what a withdraw call saw released, is in the trail of activations. */
  ghost predicate Trailed(s: State) {
    && (forall v :: v in s.statuses && (s.statuses[v].Released? || s.statuses[v].Withdrawn?) ==> v in s.activations)
    && (forall c :: c in s.callers && s.callers[c].SawReleased? ==> s.callers[c].version in s.activations)
  }

  ghost predicate WasReleased(s: State) { Inv(s) && Trailed(s) }

  lemma {:induction false} AdvanceKeepsTrail(s: State, c: nat)
    requires Trailed(s) && c in s.callers
    ensures Trailed(Advance(s, c))
  {
    var s' := Advance(s, c);
    assert s.activations <= s'.activations;
    assert forall v :: v in s.activations ==> v in s'.activations;
  }

  lemma {:induction false} RunKeepsReleased(s: State, actions: seq<Action>)
    requires WasReleased(s)
    ensures WasReleased(Run(s, actions))
    decreases |actions|
  {
    RunKeepsInv(s, actions);
    RunKeepsTrail(s, actions);
  }

  lemma {:induction false} RunKeepsTrail(s: State, actions: seq<Action>)
    requires Trailed(s)
    ensures Trailed(Run(s, actions))
    decreases |actions|
  {
    if actions != [] {
      var a := actions[0];
      if a.Go? && a.c in s.callers { AdvanceKeepsTrail(s, a.c); }
      RunKeepsTrail(Apply(s, a), actions[1..]);
    }
  }

  /** In every interleaving a withdrawn version was released before. */
  lemma {:induction false} WithdrawnWasReleased(s: State, actions: seq<Action>, v: VersionId)
    requires Initial(s)
    ensures Status(Run(s, actions), v) == Some(Withdrawn) ==> v in Run(s, actions).activations
  {
    RunKeepsReleased(s, actions);
  }

  // ---------------------------------------------------------------------------------------------
  // The generation

  /** Generations only rise, and while the generation stands the only change of a status is to PROPOSED. */
  lemma {:induction false} OnlyProposingIsSilent(s: State, actions: seq<Action>, v: VersionId)
    ensures s.generation <= Run(s, actions).generation
    ensures Run(s, actions).generation == s.generation ==>
      Status(Run(s, actions), v) == Status(s, v) || Status(Run(s, actions), v) == Some(Proposed)
    decreases |actions|
  {
    if actions != [] { OnlyProposingIsSilent(Apply(s, actions[0]), actions[1..], v); }
  }

  // ---------------------------------------------------------------------------------------------
  // Without a call under way

  /** An activate call past its status read. */
  ghost predicate ActivateInFlight(s: State, v: VersionId) {
    exists c :: c in s.callers && (s.callers[c] == SawActivatable(v) || s.callers[c] == SawApproved(v))
  }

  ghost predicate Quiet(s: State, v: VersionId) {
    && (Status(s, v) == Some(Released) || Status(s, v) == Some(Withdrawn))
    && !ActivateInFlight(s, v) && !ProposeInFlight(s, v)
  }

  function Times(vs: seq<VersionId>, v: VersionId): nat {
    if vs == [] then 0 else Times(vs[..|vs| - 1], v) + if vs[|vs| - 1] == v then 1 else 0
  }

  /** A released or withdrawn version with no such call under way: an activate call that comes now is thrown out at its
      status read and nothing else changes. */
  lemma {:induction false} ActivateIsRefused(s: State, c: nat, v: VersionId)
    requires Quiet(s, v) && c in s.callers && s.callers[c] == Activating(v)
    ensures Advance(s, c) == Put(s, c, Threw)
  {
  }

  lemma {:induction false} QuietStep(s: State, a: Action, v: VersionId)
    requires Quiet(s, v)
    ensures Quiet(Apply(s, a), v)
    ensures Status(s, v) == Some(Withdrawn) ==> Status(Apply(s, a), v) == Some(Withdrawn)
    ensures Times(Apply(s, a).activations, v) == Times(s.activations, v)
  {
    var s' := Apply(s, a);
    forall c | c in s'.callers
      ensures s'.callers[c] != SawActivatable(v) && s'.callers[c] != SawApproved(v)
      ensures !(s'.callers[c].SawDraft? && s'.callers[c].version == v)
    {
      assert c in s.callers ==> s.callers[c] != SawActivatable(v) && s.callers[c] != SawApproved(v);
    }
    if s'.activations != s.activations {
      assert s.callers[a.c].SawApproved? && s.callers[a.c].version != v;
      assert s'.activations[..|s.activations|] == s.activations;
    }
  }

  /** Then no run releases it again, and once withdrawn it stays withdrawn. */
  lemma {:induction false} QuietStays(s: State, actions: seq<Action>, v: VersionId)
    requires Quiet(s, v)
    ensures Quiet(Run(s, actions), v)
    ensures Status(s, v) == Some(Withdrawn) ==> Status(Run(s, actions), v) == Some(Withdrawn)
    ensures Times(Run(s, actions).activations, v) == Times(s.activations, v)
    decreases |actions|
  {
    if actions != [] {
      QuietStep(s, actions[0], v);
      QuietStays(Apply(s, actions[0]), actions[1..], v);
    }
  }

  // ---------------------------------------------------------------------------------------------
  // With one

  /** The state after one more step of caller `c`, and the run that leads there. */
  lemma {:induction false} Then(s: State, before: seq<Action>, m: State, a: Action) returns (actions: seq<Action>)
    requires Run(s, before) == m
    ensures Run(s, actions) == Apply(m, a)
  {
    RunAppend(s, before, [a]);
    RunCons(m, a, []);
    assert [a] + [] == [a];
    actions := before + [a];
  }

  lemma {:induction false} GateOpens(s: State, c: nat, v: VersionId) returns (actions: seq<Action>)
    requires c in s.callers && s.callers[c] == SawActivatable(v) && HasApprovedTransition(s.approvals, v)
    ensures Status(Run(s, actions), v) == Some(Released)
  {
    actions := Then(s, [], s, Go(c));
    var m := Apply(s, Go(c));
    actions := Then(s, actions, m, Go(c));
  }

  /** Another person approves the newest proposal. */
  lemma {:induction false} Approve(s: State, v: VersionId, i: nat) returns (actions: seq<Action>)
    requires Newest(s.approvals, v, false) == Some(i) && s.approvals[i].approvedBy.None?
    ensures HasApprovedTransition(Run(s, actions).approvals, v)
    ensures forall c :: c in s.callers ==> c in Run(s, actions).callers && Run(s, actions).callers[c] == s.callers[c]
  {
    var c := FreshId(s.callers.Keys);
    var who := s.approvals[i].proposedBy + "x";
    assert Newest(s.approvals, v, true) == Some(i);
    assert |who| != |s.approvals[i].proposedBy|;
    actions := Then(s, [], s, Call(c, Approving(v, who)));
    var called := Apply(s, Call(c, Approving(v, who)));
    actions := Then(s, actions, called, Go(c));
    var seen := Apply(called, Go(c));
    assert seen.callers[c] == SawPending(i, who);
    actions := Then(s, actions, seen, Go(c));
    SameNewest(s.approvals, i, who, v);
  }

  lemma {:induction false} SameNewest(rows: seq<Approval>, i: nat, who: string, v: VersionId)
    requires i < |rows|
    ensures Newest(rows[i := rows[i].(approvedBy := Some(who))], v, false) == Newest(rows, v, false)
  {
    var rows' := rows[i := rows[i].(approvedBy := Some(who))];
    assert forall j :: 0 <= j < |rows| ==> rows'[j].version == rows[j].version;
  }

  lemma {:induction false} ActivatesOn(s: State, c: nat, v: VersionId) returns (actions: seq<Action>)
    requires c in s.callers && s.callers[c] == SawActivatable(v) && Newest(s.approvals, v, false).Some?
    ensures Status(Run(s, actions), v) == Some(Released)
  {
    var i := Newest(s.approvals, v, false).value;
    if s.approvals[i].approvedBy.Some? {
      actions := GateOpens(s, c, v);
    } else {
      var first := Approve(s, v, i);
      var second := GateOpens(Run(s, first), c, v);
      RunAppend(s, first, second);
      actions := first + second;
    }
  }

  /** A propose call that saw DRAFT writes PROPOSED whatever the status is by then, and the way is open again. */
  lemma {:induction false} ProposesOn(s: State, c: nat, v: VersionId) returns (actions: seq<Action>)
    requires c in s.callers && s.callers[c].SawDraft? && s.callers[c].version == v
    ensures Status(Run(s, actions), v) == Some(Released)
  {
    var d := FreshId(s.callers.Keys);
    actions := Then(s, [], s, Go(c));
    var marked := Apply(s, Go(c));
    actions := Then(s, actions, marked, Go(c));
    var proposed := Apply(marked, Go(c));
    actions := Then(s, actions, proposed, Call(d, Activating(v)));
    var called := Apply(proposed, Call(d, Activating(v)));
    actions := Then(s, actions, called, Go(d));
    var seen := Apply(called, Go(d));
    assert seen.callers[d] == SawActivatable(v);
    var rest := ActivatesOn(seen, d, v);
    RunAppend(s, actions, rest);
    actions := actions + rest;
  }

  lemma {:induction false} InFlightReleases(s: State, v: VersionId) returns (actions: seq<Action>)
    requires WasReleased(s) && v in s.activations && (ActivateInFlight(s, v) || ProposeInFlight(s, v))
    ensures Status(Run(s, actions), v) == Some(Released)
  {
    if ProposeInFlight(s, v) {
      var c :| c in s.callers && s.callers[c].SawDraft? && s.callers[c].version == v;
      actions := ProposesOn(s, c, v);
    } else {
      var c :| c in s.callers && (s.callers[c] == SawActivatable(v) || s.callers[c] == SawApproved(v));
      if s.callers[c] == SawApproved(v) {
        actions := Then(s, [], s, Go(c));
      } else {
        assert Independent(s.approvals, v);
        actions := ActivatesOn(s, c, v);
      }
    }
  }

  /** In every reachable state: a withdrawn version is released again in some later state if and only if an activate
      call past its status read, or a propose call that saw DRAFT, is under way for it. */
  lemma {:induction false} ReleasedAgainIff(s0: State, before: seq<Action>, v: VersionId)
    requires Initial(s0) && Status(Run(s0, before), v) == Some(Withdrawn)
    ensures
      var s := Run(s0, before);
      (exists actions :: Status(Run(s, actions), v) == Some(Released)) <==>
        ActivateInFlight(s, v) || ProposeInFlight(s, v)
  {
    var s := Run(s0, before);
    RunKeepsReleased(s0, before);
    if ActivateInFlight(s, v) || ProposeInFlight(s, v) {
      var actions := InFlightReleases(s, v);
    } else {
      forall actions ensures Status(Run(s, actions), v) != Some(Released) { QuietStays(s, actions, v); }
    }
  }

  /** Such a run: two propose calls read DRAFT, one goes on to approval and release, the version is withdrawn, and then
      the other propose call writes. */
  lemma {:induction false} WithdrawnComesBack() returns (s0: State, first: seq<Action>, rest: seq<Action>)
    ensures Initial(s0) && Status(Run(s0, first), 0) == Some(Withdrawn)
    ensures Status(Run(s0, first + rest), 0) == Some(Released)
  {
    s0, first := ReleasedWithProposeInFlight();
    var s := Run(s0, first);
    var p :| p in s.callers && s.callers[p].SawDraft? && s.callers[p].version == 0;
    var c := FreshId(s.callers.Keys);
    first := Then(s0, first, s, Call(c, Withdrawing(0)));
    var called := Apply(s, Call(c, Withdrawing(0)));
    first := Then(s0, first, called, Go(c));
    var seen := Apply(called, Go(c));
    first := Then(s0, first, seen, Go(c));
    var withdrawn := Apply(seen, Go(c));
    assert withdrawn.callers[p] == s.callers[p];
    rest := ProposesOn(withdrawn, p, 0);
    RunAppend(s0, first, rest);
  }
}
