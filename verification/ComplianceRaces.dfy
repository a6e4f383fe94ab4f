/** Resolving a review and placing a hold as the services do it: reads first, and later a write that does not look
    again. */
module ComplianceRaces {
  import opened Basics
  import opened Compliance

  /** Where a call stands. A resolve call reads its review, then the holds, and writes in the end; only the provider
      operations are locked and looked at again. */
  datatype Caller =
    | Resolving(tenant: string, task: nat, how: Resolution, retention: int)
    | SawPending(tenant: string, task: nat, how: Resolution, retention: int)
    | SawHolds(tenant: string, task: nat, how: Resolution, retention: int)
    | Placing(case_: Case)
    | SawFree(case_: Case)
    | Over

  datatype Race = Race(desk: State, callers: map<nat, Caller>)

  /** All other calls are written in one step each. */
  datatype Step = Write(action: Action) | Begin(c: nat, caller: Caller) | Go(c: nat, cleared: Instant, now: Instant)

  function Put(r: Race, c: nat, p: Caller): Race { r.(callers := r.callers[c := p]) }

  ghost predicate IsPending(s: State, tenant: string, t: nat) {
    t < |s.tasks| && s.tasks[t].case_.tenant == tenant && s.tasks[t].status == Pending
  }

  ghost predicate AllSettled(s: State, tenant: string, t: Task) {
    forall i :: i in Covered(s, tenant, t) ==> !Unsettled(s.intents[i].state)
  }

  ghost function Advance(r: Race, c: nat, cleared: Instant, now: Instant): Race
    requires c in r.callers
  {
    var s := r.desk;
    match r.callers[c]
    case Resolving(tenant, t, how, retention) =>
      Put(r, c, if IsPending(s, tenant, t) then SawPending(tenant, t, how, retention) else Over)
    case SawPending(tenant, t, how, retention) =>
      Put(r, c, if t < |s.tasks| && (how.Retain? <==> Held(s, s.tasks[t].case_))
          then SawHolds(tenant, t, how, retention) else Over)
    case SawHolds(tenant, t, how, retention) =>
      if t < |s.tasks| && (how.Retain? || AllSettled(s, tenant, s.tasks[t]))
      then Race(Resolved(s, tenant, t, how, cleared, now, retention), r.callers[c := Over]) else Put(r, c, Over)
    case Placing(k) => Put(r, c, if Held(s, k) then Over else SawFree(k))
    case SawFree(k) => Race(s.(holds := s.holds + [Hold(k, true)]), r.callers[c := Over])
    case Over => r
  }

  ghost function Take(r: Race, step: Step): Race {
    match step
    case Write(a) => if a.Resolve? || a.PlaceHold? then r else r.(desk := Apply(r.desk, a))
    case Begin(c, p) => if c !in r.callers && (p.Resolving? || p.Placing?) then Put(r, c, p) else r
    case Go(c, cleared, now) => if c in r.callers then Advance(r, c, cleared, now) else r
  }

  ghost function Play(r: Race, steps: seq<Step>): Race
    decreases |steps|
  {
    if steps == [] then r else Play(Take(r, steps[0]), steps[1..])
  }

  const START: Race := Race(EMPTY, map[])

  lemma {:induction false} PlayOn(r: Race, before: seq<Step>, m: Race, step: Step) returns (steps: seq<Step>)
    requires Play(r, before) == m
    ensures Play(r, steps) == Take(m, step) && steps == before + [step]
    decreases |before|
  {
    steps := before + [step];
    if before == [] {
      assert steps[1..] == [];
    } else {
      assert steps[1..] == before[1..] + [step];
      var rest := PlayOn(Take(r, before[0]), before[1..], m, step);
    }
  }

  // ---------------------------------------------------------------------------------------------
  // A call that nothing interrupts is the single step of it

  lemma {:induction false} ResolveAlone(
    r: Race, c: nat, tenant: string, t: nat, how: Resolution, retention: int, cleared: Instant, now: Instant)
    requires c !in r.callers
    ensures
      var begun := Take(r, Begin(c, Resolving(tenant, t, how, retention)));
      var ended := Advance(Advance(Advance(begun, c, cleared, now), c, cleared, now), c, cleared, now);
      ended.desk == Apply(r.desk, Resolve(tenant, t, how, cleared, now, retention))
  {
    var s := r.desk;
    if IsPending(s, tenant, t) {
      var task := s.tasks[t];
      assert AllSettled(s, tenant, task) <==>
        !exists i :: i in Covered(s, tenant, task) && Unsettled(s.intents[i].state);
    }
  }

  lemma {:induction false} PlaceAlone(r: Race, c: nat, k: Case)
    requires c !in r.callers
    ensures
      var begun := Take(r, Begin(c, Placing(k)));
      Advance(Advance(begun, c, 0, 0), c, 0, 0).desk == Apply(r.desk, PlaceHold(k))
  {
  }

  // ---------------------------------------------------------------------------------------------
  // Reviews name evidence of their own case

  ghost predicate Names(s: State, t: Task) {
    forall e :: e in t.evidence ==> e < s.evidenceIds && (e in s.evidence ==> s.evidence[e].case_ == t.case_)
  }

  ghost predicate Ok(r: Race) {
    && (forall e :: e in r.desk.evidence ==> e < r.desk.evidenceIds)
    && (forall t :: 0 <= t < |r.desk.tasks| ==> Names(r.desk, r.desk.tasks[t]))
    && (forall c :: c in r.callers ==> Knows(r.desk, r.callers[c]))
  }

  /** What a call has read is there. */
  ghost predicate Knows(s: State, p: Caller) { p.SawPending? || p.SawHolds? ==> p.task < |s.tasks| }

  /** Evidence stays in its case, and used ids are not used again. */
  ghost predicate Goes(s: State, s': State) {
    && s.evidenceIds <= s'.evidenceIds && |s.tasks| <= |s'.tasks|
    && (forall e :: e in s'.evidence ==>
          e < s'.evidenceIds && (e < s.evidenceIds ==> e in s.evidence && s'.evidence[e].case_ == s.evidence[e].case_))
    && (forall t :: 0 <= t < |s.tasks| ==>
          s'.tasks[t].evidence == s.tasks[t].evidence && s'.tasks[t].case_ == s.tasks[t].case_)
    && (forall t :: |s.tasks| <= t < |s'.tasks| ==> Names(s', s'.tasks[t]))
  }

  lemma {:induction false} ApplyGoes(s: State, a: Action)
    requires forall e :: e in s.evidence ==> e < s.evidenceIds
    ensures Goes(s, Apply(s, a))
  {
  }

  lemma {:induction false} TakeGoes(r: Race, step: Step)
    requires forall e :: e in r.desk.evidence ==> e < r.desk.evidenceIds
    ensures Goes(r.desk, Take(r, step).desk)
  {
    if step.Write? { ApplyGoes(r.desk, step.action); }
  }

  lemma {:induction false} TakeKeepsOk(r: Race, step: Step)
    requires Ok(r)
    ensures Ok(Take(r, step))
  {
    var s, s' := r.desk, Take(r, step).desk;
    TakeGoes(r, step);
    forall t | 0 <= t < |s'.tasks| ensures Names(s', s'.tasks[t]) {
      if t < |s.tasks| { assert Names(s, s.tasks[t]); }
    }
    forall c | c in Take(r, step).callers ensures Knows(s', Take(r, step).callers[c]) {
      assert c in r.callers ==> Knows(s, r.callers[c]);
    }
  }

  lemma {:induction false} PlayKeepsOk(r: Race, steps: seq<Step>)
    requires Ok(r)
    ensures Ok(Play(r, steps))
    decreases |steps|
  {
    if steps != [] {
      TakeKeepsOk(r, steps[0]);
      PlayKeepsOk(Take(r, steps[0]), steps[1..]);
    }
  }

  // ---------------------------------------------------------------------------------------------
  // Evidence under a hold

  /** The hold is active and protects this evidence. */
  ghost predicate Protects(s: State, h: nat, e: nat) {
    h < |s.holds| && s.holds[h].active && e in s.evidence && s.evidence[e].case_ == s.holds[h].case_
  }

  ghost predicate Leaves(step: Step, h: nat, e: nat) {
    step.Write? ==>
      !(step.action.ReleaseHold? && step.action.hold == h) && !(step.action.WriteEvidence? && step.action.id == e)
  }

  ghost predicate AllLeave(steps: seq<Step>, h: nat, e: nat) {
    forall k :: 0 <= k < |steps| ==> Leaves(steps[k], h, e)
  }

  /** The call has found no hold and is about to clear a review that names the evidence. */
  ghost predicate WillClear(s: State, p: Caller, e: nat) {
    p.SawHolds? && !p.how.Retain? && p.task < |s.tasks| && e in s.tasks[p.task].evidence
  }

  ghost predicate ClearingUnderWay(r: Race, e: nat) {
    exists c :: c in r.callers && WillClear(r.desk, r.callers[c], e)
  }

  lemma {:induction false} WriteSpares(s: State, a: Action, h: nat, e: nat)
    requires e < s.evidenceIds && Protects(s, h, e) && !a.Resolve? && Leaves(Write(a), h, e)
    ensures Protects(Apply(s, a), h, e) && Apply(s, a).evidence[e] == s.evidence[e]
    ensures |s.tasks| <= |Apply(s, a).tasks|
    ensures forall t :: 0 <= t < |s.tasks| ==> Apply(s, a).tasks[t].evidence == s.tasks[t].evidence
  {
  }

  lemma {:induction false} GoSpares(r: Race, c: nat, cleared: Instant, now: Instant, h: nat, e: nat)
    requires Ok(r) && Protects(r.desk, h, e) && !ClearingUnderWay(r, e) && c in r.callers
    ensures
      var r' := Advance(r, c, cleared, now);
      Protects(r'.desk, h, e) && r'.desk.evidence[e] == r.desk.evidence[e] && !ClearingUnderWay(r', e)
  {
    var s, r', p := r.desk, Advance(r, c, cleared, now), r.callers[c];
    assert !WillClear(s, p, e) && Knows(s, p);
    if p.SawPending? { assert Names(s, s.tasks[p.task]); }
    assert s.holds[h] == Hold(s.holds[h].case_, true);
    forall d | d in r'.callers ensures !WillClear(r'.desk, r'.callers[d], e) {
      assert d in r.callers && !WillClear(s, r.callers[d], e);
    }
  }

  lemma {:induction false} TakeSpares(r: Race, step: Step, h: nat, e: nat)
    requires Ok(r) && Protects(r.desk, h, e) && !ClearingUnderWay(r, e) && Leaves(step, h, e)
    ensures
      var r' := Take(r, step);
      Protects(r'.desk, h, e) && r'.desk.evidence[e] == r.desk.evidence[e] && !ClearingUnderWay(r', e)
  {
    match step
    case Go(c, cleared, now) => if c in r.callers { GoSpares(r, c, cleared, now, h, e); }
    case Begin(c, p) =>
      var r' := Take(r, step);
      forall d | d in r'.callers ensures !WillClear(r'.desk, r'.callers[d], e) {
        assert d in r.callers ==> !WillClear(r.desk, r.callers[d], e);
      }
    case Write(a) =>
      if !a.Resolve? && !a.PlaceHold? { WriteSpares(r.desk, a, h, e); }
      var r' := Take(r, step);
      forall d | d in r'.callers ensures !WillClear(r'.desk, r'.callers[d], e) {
        assert !WillClear(r.desk, r.callers[d], e) && Knows(r.desk, r.callers[d]);
        NewReviewsSpare(r, step, h, e, r.callers[d]);
      }
  }

  /** A review opened meanwhile is not the one a call has been looking at. */
  lemma {:induction false} NewReviewsSpare(r: Race, step: Step, h: nat, e: nat, p: Caller)
    requires step.Write? && Knows(r.desk, p) && !WillClear(r.desk, p, e)
    ensures !WillClear(Take(r, step).desk, p, e)
  {
  }

  lemma {:induction false} PlaySpares(r: Race, steps: seq<Step>, h: nat, e: nat)
    requires Ok(r) && Protects(r.desk, h, e) && !ClearingUnderWay(r, e) && AllLeave(steps, h, e)
    ensures Protects(Play(r, steps).desk, h, e) && Play(r, steps).desk.evidence[e] == r.desk.evidence[e]
    decreases |steps|
  {
    if steps != [] {
      assert Leaves(steps[0], h, e);
      TakeSpares(r, steps[0], h, e);
      TakeKeepsOk(r, steps[0]);
      PlaySpares(Take(r, steps[0]), steps[1..], h, e);
    }
  }

  // ---------------------------------------------------------------------------------------------
  // How a clearing that is under way goes through

  /** The rest of the system reports the outcome of every provider operation that is still open. */
  lemma {:induction false} Settle(r: Race, ids: set<nat>, h: nat, e: nat) returns (steps: seq<Step>)
    ensures AllLeave(steps, h, e)
    ensures
      var r' := Play(r, steps);
      && r'.callers == r.callers && r'.desk == r.desk.(intents := r'.desk.intents)
      && r'.desk.intents.Keys == r.desk.intents.Keys
      && forall i :: i in r.desk.intents ==>
           && r'.desk.intents[i].case_ == r.desk.intents[i].case_
           && (i in ids || !Unsettled(r.desk.intents[i].state) ==> !Unsettled(r'.desk.intents[i].state))
    decreases |ids|
  {
    steps := [];
    if ids != {} {
      var i :| i in ids;
      var before := Settle(r, ids - {i}, h, e);
      var m := Play(r, before);
      var step := Write(WriteIntent(i, Succeeded, None, None));
      steps := PlayOn(r, before, m, step);
    }
  }

  lemma {:induction false} ClearsAt(r: Race, c: nat, e: nat)
    requires c in r.callers && WillClear(r.desk, r.callers[c], e) && e in r.desk.evidence
    requires AllSettled(r.desk, r.callers[c].tenant, r.desk.tasks[r.callers[c].task])
    ensures
      var s' := Advance(r, c, 0, 0).desk;
      s'.holds == r.desk.holds && (e !in s'.evidence || s'.evidence[e].value.None?)
  {
  }

  lemma {:induction false} GoesThrough(r: Race, h: nat, e: nat) returns (steps: seq<Step>)
    requires ClearingUnderWay(r, e) && e in r.desk.evidence
    ensures AllLeave(steps, h, e) && Play(r, steps).desk.holds == r.desk.holds
    ensures e !in Play(r, steps).desk.evidence || Play(r, steps).desk.evidence[e].value.None?
  {
    var c :| c in r.callers && WillClear(r.desk, r.callers[c], e);
    var p := r.callers[c];
    var before := Settle(r, Covered(r.desk, p.tenant, r.desk.tasks[p.task]), h, e);
    var m := Play(r, before);
    assert Covered(m.desk, p.tenant, m.desk.tasks[p.task]) == Covered(r.desk, p.tenant, r.desk.tasks[p.task]);
    ClearsAt(m, c, e);
    steps := PlayOn(r, before, m, Go(c, 0, 0));
  }

  /** The evidence was deleted or blanked. */
  ghost predicate Lost(s: State, e: nat) { e !in s.evidence || s.evidence[e].value.None? }

  /** In every reachable state: evidence that an active hold protects can be lost without that hold being released and
      without being written, if and only if a resolve call that looked for holds before is about to clear a review that
      names it. */
  lemma {:induction false} HeldEvidenceLostIff(before: seq<Step>, h: nat, e: nat)
    requires
      var s := Play(START, before).desk;
      Protects(s, h, e) && s.evidence[e].value.Some?
    ensures
      var r := Play(START, before);
      (exists steps :: AllLeave(steps, h, e) && Lost(Play(r, steps).desk, e)) <==> ClearingUnderWay(r, e)
  {
    var r := Play(START, before);
    PlayKeepsOk(START, before);
    if ClearingUnderWay(r, e) {
      var steps := GoesThrough(r, h, e);
      assert AllLeave(steps, h, e) && Lost(Play(r, steps).desk, e);
    } else {
      forall steps | AllLeave(steps, h, e) ensures !Lost(Play(r, steps).desk, e) { PlaySpares(r, steps, h, e); }
    }
  }

  /** One case with one piece of evidence, its consent revoked, its review pending. */
  lemma {:induction false} OnePending(c: Case) returns (steps: seq<Step>)
    ensures
      var r := Play(START, steps);
      && r.callers == map[] && r.desk.holds == [] && r.desk.evidence == map[0 := Evidence(c, Some(""))]
      && |r.desk.tasks| == 1 && r.desk.tasks[0].case_ == c && r.desk.tasks[0].status == Pending
      && r.desk.tasks[0].evidence == {0} && r.desk.intents == map[]
  {
    steps := PlayOn(START, [], START, Write(Grant(c, "", {}, 0)));
    var granted := Take(START, Write(Grant(c, "", {}, 0)));
    steps := PlayOn(START, steps, granted, Write(AddEvidence(c, "")));
    var noted := Take(granted, Write(AddEvidence(c, "")));
    assert noted.desk.consents == [Consent(c, "", {}, 0, None, None)] && Newest(noted.desk.consents, c, true, 0);
    assert EvidenceOf(noted.desk, c) == {0};
    steps := PlayOn(START, steps, noted, Write(Revoke(c, 0, 1)));
  }

  /** Such a run: a resolve call finds no hold, a hold is placed, the call clears the review; the hold is active and the
      evidence gone. */
  lemma {:induction false} HeldEvidenceIsLost(c: Case) returns (steps: seq<Step>)
    ensures Held(Play(START, steps).desk, c) && Play(START, steps).desk.evidence == map[]
    ensures |Play(START, steps).desk.tasks| == 1 && Play(START, steps).desk.tasks[0].outcome == Some(Deleted)
  {
    steps := OnePending(c);
    var r := Play(START, steps);
    steps := PlayOn(START, steps, r, Begin(0, Resolving(c.tenant, 0, Delete, 0)));
    var begun := Take(r, Begin(0, Resolving(c.tenant, 0, Delete, 0)));
    steps := PlayOn(START, steps, begun, Go(0, 0, 0));
    var seen := Take(begun, Go(0, 0, 0));
    steps := PlayOn(START, steps, seen, Go(0, 0, 0));
    var free := Take(seen, Go(0, 0, 0));
    assert free == Race(r.desk, map[0 := SawHolds(c.tenant, 0, Delete, 0)]);
    steps := PlayOn(START, steps, free, Begin(1, Placing(c)));
    var placing := Take(free, Begin(1, Placing(c)));
    steps := PlayOn(START, steps, placing, Go(1, 0, 0));
    var looked := Take(placing, Go(1, 0, 0));
    steps := PlayOn(START, steps, looked, Go(1, 0, 0));
    var held := Take(looked, Go(1, 0, 0));
    assert held.desk == r.desk.(holds := [Hold(c, true)]) && held.callers[0] == SawHolds(c.tenant, 0, Delete, 0);
    steps := PlayOn(START, steps, held, Go(0, 0, 0));
    assert Take(held, Go(0, 0, 0)).desk.holds[0] == Hold(c, true);
  }

  // ---------------------------------------------------------------------------------------------
  // Two holds

  /** Hold `h` is the one active hold of its case. */
  ghost predicate Sole(s: State, h: nat) {
    h < |s.holds| && s.holds[h].active && forall k :: 0 <= k < |s.holds| && s.holds[k] == s.holds[h] ==> k == h
  }

  ghost predicate Keeps(steps: seq<Step>, h: nat) {
    forall k :: 0 <= k < |steps| ==>
      !(steps[k].Write? && steps[k].action.ReleaseHold? && steps[k].action.hold == h)
  }

  ghost predicate PlacingUnderWay(r: Race, c: Case) { exists d :: d in r.callers && r.callers[d] == SawFree(c) }

  lemma {:induction false} StaysSole(r: Race, step: Step, h: nat)
    requires Sole(r.desk, h) && !PlacingUnderWay(r, r.desk.holds[h].case_) && Keeps([step], h)
    ensures
      var r' := Take(r, step);
      Sole(r'.desk, h) && r'.desk.holds[h] == r.desk.holds[h] && !PlacingUnderWay(r', r.desk.holds[h].case_)
  {
    var c, r' := r.desk.holds[h].case_, Take(r, step);
    assert r.desk.holds[h] == Hold(c, true) && Held(r.desk, c);
    assert [step][0] == step;
    forall d | d in r'.callers ensures r'.callers[d] != SawFree(c) {
      assert d in r.callers ==> r.callers[d] != SawFree(c);
    }
  }

  lemma {:induction false} PlaysSole(r: Race, steps: seq<Step>, h: nat)
    requires Sole(r.desk, h) && !PlacingUnderWay(r, r.desk.holds[h].case_) && Keeps(steps, h)
    ensures Sole(Play(r, steps).desk, h)
    decreases |steps|
  {
    if steps != [] {
      assert Keeps([steps[0]], h);
      StaysSole(r, steps[0], h);
      PlaysSole(Take(r, steps[0]), steps[1..], h);
    }
  }

  /** A case with one active hold gets a second one beside it, if and only if a place call that found none is under
      way. */
  lemma {:induction false} SecondHoldIff(r: Race, h: nat)
    requires Sole(r.desk, h)
    ensures (exists steps :: Keeps(steps, h) && !Sole(Play(r, steps).desk, h)) <==>
      PlacingUnderWay(r, r.desk.holds[h].case_)
  {
    var c := r.desk.holds[h].case_;
    if PlacingUnderWay(r, c) {
      var d :| d in r.callers && r.callers[d] == SawFree(c);
      var steps := PlayOn(r, [], r, Go(d, 0, 0));
      var s', k := Take(r, Go(d, 0, 0)).desk, |r.desk.holds|;
      assert s'.holds[k] == s'.holds[h] == Hold(c, true) && k != h;
      assert Keeps(steps, h) && !Sole(Play(r, steps).desk, h);
    } else {
      forall steps | Keeps(steps, h) ensures Sole(Play(r, steps).desk, h) { PlaysSole(r, steps, h); }
    }
  }
}
