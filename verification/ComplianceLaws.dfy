/** What every run of consents, reviews and holds keeps. */
module ComplianceLaws {
  import opened Basics
  import opened Compliance

  // ---------------------------------------------------------------------------------------------
  // A revoked consent and its review come in pairs

  ghost predicate TaskFits(s: State, t: Task) {
    t.consent < |s.consents| && s.consents[t.consent].revokedAt.Some? && s.consents[t.consent].case_ == t.case_
  }

  ghost predicate Reviewed(s: State, i: nat) { exists t :: 0 <= t < |s.tasks| && s.tasks[t].consent == i }

  ghost predicate Paired(s: State) {
    && (forall t :: 0 <= t < |s.tasks| ==> TaskFits(s, s.tasks[t]))
    && (forall t, u :: 0 <= t < u < |s.tasks| ==> s.tasks[t].consent != s.tasks[u].consent)
    && (forall i :: 0 <= i < |s.consents| && s.consents[i].revokedAt.Some? ==> Reviewed(s, i))
  }

  /** A step that opens no review keeps every task's consent, case and coverage. */
  ghost predicate SameCoverage(s: State, s': State) {
    && |s.tasks| <= |s'.tasks|
    && forall t :: 0 <= t < |s.tasks| ==>
         && s'.tasks[t].consent == s.tasks[t].consent && s'.tasks[t].case_ == s.tasks[t].case_
         && s'.tasks[t].evidence == s.tasks[t].evidence && s'.tasks[t].intents == s.tasks[t].intents
  }

  lemma {:induction false} StepKeepsCoverage(s: State, a: Action)
    ensures SameCoverage(s, Apply(s, a))
  {
  }

  lemma {:induction false} StillReviewed(s: State, s': State, i: nat)
    requires SameCoverage(s, s') && Reviewed(s, i)
    ensures Reviewed(s', i)
  {
    var t :| 0 <= t < |s.tasks| && s.tasks[t].consent == i;
    assert s'.tasks[t].consent == i;
  }

  lemma {:induction false} RevokeKeepsPairs(s: State, c: Case, pick: nat, now: Instant)
    requires Paired(s) && Newest(s.consents, c, true, pick)
    ensures Paired(Apply(s, Revoke(c, pick, now)))
  {
    var s' := Apply(s, Revoke(c, pick, now));
    StepKeepsCoverage(s, Revoke(c, pick, now));
    forall t | 0 <= t < |s'.tasks| ensures TaskFits(s', s'.tasks[t]) {
      if t < |s.tasks| { assert TaskFits(s, s.tasks[t]); }
    }
    forall t | 0 <= t < |s.tasks| ensures s.tasks[t].consent != pick { assert TaskFits(s, s.tasks[t]); }
    forall i | 0 <= i < |s'.consents| && s'.consents[i].revokedAt.Some? ensures Reviewed(s', i) {
      if i == pick { assert s'.tasks[|s.tasks|].consent == i; } else { StillReviewed(s, s', i); }
    }
  }

  lemma {:induction false} OthersKeepPairs(s: State, a: Action)
    requires Paired(s) && !a.Revoke?
    ensures Paired(Apply(s, a))
  {
    var s' := Apply(s, a);
    StepKeepsCoverage(s, a);
    assert |s'.tasks| == |s.tasks| && s.consents <= s'.consents;
    forall t | 0 <= t < |s'.tasks| ensures TaskFits(s', s'.tasks[t]) { assert TaskFits(s, s.tasks[t]); }
    forall i | 0 <= i < |s'.consents| && s'.consents[i].revokedAt.Some? ensures Reviewed(s', i) {
      assert i < |s.consents|;
      StillReviewed(s, s', i);
    }
  }

  // ---------------------------------------------------------------------------------------------
  // Coverage stays within the case, and what was deleted stays gone

  ghost predicate Within(s: State, t: Task) {
    && (forall e :: e in t.evidence ==> e < s.evidenceIds && (e in s.evidence ==> s.evidence[e].case_ == t.case_))
    && (forall i :: i in t.intents ==> i < s.intentIds && (i in s.intents ==> s.intents[i].case_ == t.case_))
    && (t.outcome == Some(Deleted) ==> forall e :: e in t.evidence ==> e !in s.evidence)
  }

  ghost predicate Tidy(s: State) {
    && (forall e :: e in s.evidence ==> e < s.evidenceIds)
    && (forall i :: i in s.intents ==> i < s.intentIds)
    && (forall t :: 0 <= t < |s.tasks| ==> Within(s, s.tasks[t]))
  }

  /** Rows never move to another case, and an id once used up never comes back. */
  ghost predicate RowsSettle(s: State, s': State) {
    && s.evidenceIds <= s'.evidenceIds && s.intentIds <= s'.intentIds
    && (forall e :: e in s'.evidence && e < s.evidenceIds ==>
        e in s.evidence && s'.evidence[e].case_ == s.evidence[e].case_)
    && (forall i :: i in s'.intents && i < s.intentIds ==> i in s.intents && s'.intents[i].case_ == s.intents[i].case_)
    && (forall e :: e in s'.evidence ==> e < s'.evidenceIds)
    && (forall i :: i in s'.intents ==> i < s'.intentIds)
  }

  lemma {:induction false} StepSettlesRows(s: State, a: Action)
    requires Tidy(s)
    ensures RowsSettle(s, Apply(s, a))
  {
  }

  lemma {:induction false} StaysWithin(s: State, s': State, t: Task, t': Task)
    requires RowsSettle(s, s') && Within(s, t) && t'.case_ == t.case_ && t'.evidence == t.evidence
    requires t'.intents == t.intents
    requires t'.outcome == Some(Deleted) ==> t.outcome == Some(Deleted) || forall e :: e in t.evidence ==>
        e !in s'.evidence
    ensures Within(s', t')
  {
  }

  /** A task turns DELETED only in the step that removes its evidence. */
  lemma {:induction false} DeletedIsGone(s: State, a: Action, t: nat)
    requires t < |s.tasks|
    ensures SameCoverage(s, Apply(s, a))
    ensures Apply(s, a).tasks[t].outcome == Some(Deleted) ==>
              s.tasks[t].outcome == Some(Deleted) || forall e :: e in s.tasks[t].evidence ==> e !in Apply(s, a).evidence
  {
    StepKeepsCoverage(s, a);
  }

  lemma {:induction false} StepKeepsTidy(s: State, a: Action)
    requires Tidy(s)
    ensures Tidy(Apply(s, a))
  {
    var s' := Apply(s, a);
    StepSettlesRows(s, a);
    StepKeepsCoverage(s, a);
    forall t | 0 <= t < |s'.tasks| ensures Within(s', s'.tasks[t]) {
      if t < |s.tasks| {
        DeletedIsGone(s, a, t);
        StaysWithin(s, s', s.tasks[t], s'.tasks[t]);
      }
    }
  }

  // ---------------------------------------------------------------------------------------------
  // The shape of a task and the single hold

  ghost predicate Shaped(t: Task) {
    match t.status
    case Pending => t.outcome.None? && t.resolvedAt.None? && t.dueAt.None? && t.verifiedAt.None?
    case Completed =>
      (t.outcome == Some(Deleted) || t.outcome == Some(Anonymized)) && t.resolvedAt.Some? && t.dueAt.Some?
          && t.verifiedAt.None?
    case Verified =>
      if t.outcome == Some(RetainedUnderHold) then t.resolvedAt.Some? && t.dueAt.None? && t.verifiedAt.None?
      else
        && (t.outcome == Some(Deleted) || t.outcome == Some(Anonymized)) && t.resolvedAt.Some?
        && t.dueAt.Some? && t.verifiedAt.Some? && t.dueAt.value <= t.verifiedAt.value
        && t.reference.Some? && !Blank(t.reference.value)
  }

  ghost predicate AllShaped(s: State) { forall t :: 0 <= t < |s.tasks| ==> Shaped(s.tasks[t]) }

  lemma {:induction false} StepKeepsShapes(s: State, a: Action)
    requires AllShaped(s)
    ensures AllShaped(Apply(s, a))
  {
    var s' := Apply(s, a);
    forall t | 0 <= t < |s'.tasks| ensures Shaped(s'.tasks[t]) {
      if t < |s.tasks| { assert Shaped(s.tasks[t]); }
    }
  }

  ghost predicate OneHold(s: State) {
    forall h, k :: 0 <= h < k < |s.holds| && s.holds[h].active && s.holds[k].active ==>
        s.holds[h].case_ != s.holds[k].case_
  }

  lemma {:induction false} StepKeepsOneHold(s: State, a: Action)
    requires OneHold(s)
    ensures OneHold(Apply(s, a))
  {
    if a.PlaceHold? && Accepted(s, a) {
      forall h | 0 <= h < |s.holds| && s.holds[h].active ensures s.holds[h].case_ != a.case_ {
        assert s.holds[h] == Hold(s.holds[h].case_, true);
      }
    }
  }

  // ---------------------------------------------------------------------------------------------
  // Every reachable state

  ghost predicate Inv(s: State) { Paired(s) && Tidy(s) && AllShaped(s) && OneHold(s) }

  lemma {:induction false} StepKeepsInv(s: State, a: Action)
    requires Inv(s)
    ensures Inv(Apply(s, a))
  {
    if a.Revoke? && Accepted(s, a) { RevokeKeepsPairs(s, a.case_, a.pick, a.now); }
    if !a.Revoke? { OthersKeepPairs(s, a); }
    StepKeepsTidy(s, a);
    StepKeepsShapes(s, a);
    StepKeepsOneHold(s, a);
  }

  /** In every reachable state revoked consents and reviews correspond one to one, coverage stays within the case, the
      evidence of a DELETED review is gone, every task has the fields its status promises, and a case has at most one
      active hold. */
  lemma {:induction false} RunKeepsInv(actions: seq<Action>)
    ensures Inv(Run(EMPTY, actions))
    decreases |actions|
  {
    if actions != [] {
      var n := |actions| - 1;
      RunKeepsInv(actions[..n]);
      StepKeepsInv(Run(EMPTY, actions[..n]), actions[n]);
    }
  }

  // ---------------------------------------------------------------------------------------------
  // The life of a review

  /** All the evidence it covers is gone or blank; every provider operation it covers is over and empty. */
  ghost predicate Cleared(s: State, t: Task) {
    && (forall e :: e in t.evidence && e in s.evidence ==> s.evidence[e].value.None?)
    && (forall i :: i in t.intents && i in s.intents ==>
         && !s.intents[i].state.Prepared? && !Unsettled(s.intents[i].state)
         && s.intents[i].receipt.None? && s.intents[i].finding.None?)
  }

  ghost predicate Retains(s: State, s': State, t: nat)
    requires t < |s.tasks| && t < |s'.tasks|
  {
    && s.tasks[t].status.Pending? && s'.tasks[t].status.Verified? && s'.tasks[t].outcome == Some(RetainedUnderHold)
    && Held(s, s.tasks[t].case_)
  }

  ghost predicate Clears(s: State, s': State, t: nat)
    requires t < |s.tasks| && t < |s'.tasks|
  {
    && s.tasks[t].status.Pending? && s'.tasks[t].status.Completed? && s'.tasks[t].dueAt.Some?
    && !Held(s, s.tasks[t].case_) && Cleared(s', s'.tasks[t])
  }

  ghost predicate Verifies(s: State, s': State, t: nat)
    requires t < |s.tasks| && t < |s'.tasks|
  {
    && s.tasks[t].status.Completed? && s'.tasks[t].status.Verified?
    && !Held(s, s.tasks[t].case_) && s.tasks[t].outcome == s'.tasks[t].outcome && s.tasks[t].dueAt == s'.tasks[t].dueAt
    && s'.tasks[t].dueAt.Some? && s'.tasks[t].verifiedAt.Some?
    && s'.tasks[t].dueAt.value <= s'.tasks[t].verifiedAt.value
  }

  lemma {:induction false} ClearingClears(
    s: State, tenant: string, t: nat, how: Resolution, cleared: Instant, now: Instant, retention: int)
    requires Tidy(s) && ResolveRefusal(s, tenant, t, how).None? && !how.Retain?
    ensures Clears(s, Resolved(s, tenant, t, how, cleared, now, retention), t)
  {
    var task, s' := s.tasks[t], Resolved(s, tenant, t, how, cleared, now, retention);
    assert Within(s, task);
    forall i | i in task.intents && i in s'.intents
      ensures !s'.intents[i].state.Prepared? && !Unsettled(s'.intents[i].state) && s'.intents[i].receipt.None?
      ensures s'.intents[i].finding.None?
    {
      assert i in Covered(s, tenant, task);
    }
  }

  /** A step leaves a task alone or takes it along one of three edges. */
  lemma {:induction false} TaskEdges(s: State, a: Action, t: nat)
    requires Inv(s) && t < |s.tasks|
    ensures |s.tasks| <= |Apply(s, a).tasks|
    ensures
      var s' := Apply(s, a);
      s'.tasks[t] == s.tasks[t] || Retains(s, s', t) || Clears(s, s', t) || Verifies(s, s', t)
  {
    if a.Resolve? && a.task == t && Accepted(s, a) && !a.how.Retain? {
      ClearingClears(s, a.tenant, t, a.how, a.cleared, a.now, a.retention);
    }
  }

  ghost function At(actions: seq<Action>, i: nat): State
    requires i <= |actions|
  {
    Run(EMPTY, actions[..i])
  }

  datatype Edge = RetainEdge | ClearEdge | VerifyEdge

  /** Step `i` of the run takes task `t` along an edge. */
  ghost predicate Took(actions: seq<Action>, t: nat, i: nat, e: Edge) {
    && i < |actions| && t < |At(actions, i).tasks| && t < |At(actions, i + 1).tasks|
    && match e
       case RetainEdge => Retains(At(actions, i), At(actions, i + 1), t)
       case ClearEdge => Clears(At(actions, i), At(actions, i + 1), t)
       case VerifyEdge => Verifies(At(actions, i), At(actions, i + 1), t)
  }

  ghost predicate TookBoth(actions: seq<Action>, t: nat) {
    exists i: nat, j: nat :: i < j && Took(actions, t, i, ClearEdge) && Took(actions, t, j, VerifyEdge)
  }

  ghost predicate TookOne(actions: seq<Action>, t: nat, e: Edge) { exists i: nat :: Took(actions, t, i, e) }

  /** How a task came to its status. */
  ghost predicate Lived(actions: seq<Action>, t: nat, task: Task) {
    match task.status
    case Pending => true
    case Completed => TookOne(actions, t, ClearEdge)
    case Verified =>
      if task.outcome == Some(RetainedUnderHold) then TookOne(actions, t, RetainEdge) else TookBoth(actions, t)
  }

  lemma {:induction false} TookEarlier(actions: seq<Action>, n: nat, t: nat, i: nat, e: Edge)
    requires n <= |actions| && Took(actions[..n], t, i, e)
    ensures Took(actions, t, i, e)
  {
    assert actions[..n][..i] == actions[..i];
    var k := i + 1;
    assert actions[..n][..k] == actions[..k];
  }

  lemma {:induction false} LivedOn(actions: seq<Action>, n: nat, t: nat, task: Task)
    requires n <= |actions| && Lived(actions[..n], t, task)
    ensures Lived(actions, t, task)
  {
    if TookOne(actions[..n], t, ClearEdge) {
      var i: nat :| Took(actions[..n], t, i, ClearEdge);
      TookEarlier(actions, n, t, i, ClearEdge);
    }
    if TookOne(actions[..n], t, RetainEdge) {
      var i: nat :| Took(actions[..n], t, i, RetainEdge);
      TookEarlier(actions, n, t, i, RetainEdge);
    }
    if TookBoth(actions[..n], t) {
      var i: nat, j: nat :| i < j && Took(actions[..n], t, i, ClearEdge) && Took(actions[..n], t, j, VerifyEdge);
      TookEarlier(actions, n, t, i, ClearEdge);
      TookEarlier(actions, n, t, j, VerifyEdge);
    }
  }

  /** The last step of a run, if it takes an edge, completes the life of a review. */
  lemma {:induction false} LastEdge(actions: seq<Action>, t: nat)
    requires actions != [] && t < |At(actions, |actions| - 1).tasks|
    requires Lived(actions[..|actions| - 1], t, At(actions, |actions| - 1).tasks[t])
    ensures t < |Run(EMPTY, actions).tasks| && Lived(actions, t, Run(EMPTY, actions).tasks[t])
  {
    var n := |actions| - 1;
    var s, a := At(actions, n), actions[n];
    assert actions[..n + 1] == actions;
    assert At(actions, n + 1) == Apply(s, a) == Run(EMPTY, actions);
    RunKeepsInv(actions[..n]);
    TaskEdges(s, a, t);
    LivedOn(actions, n, t, s.tasks[t]);
    EdgeTaken(actions, t, n);
  }

  lemma {:induction false} EdgeTaken(actions: seq<Action>, t: nat, n: nat)
    requires n + 1 == |actions| && t < |At(actions, n).tasks| && t < |At(actions, n + 1).tasks|
    requires Lived(actions, t, At(actions, n).tasks[t]) && Inv(At(actions, n))
    requires
      var s, s' := At(actions, n), At(actions, n + 1);
      s'.tasks[t] == s.tasks[t] || Retains(s, s', t) || Clears(s, s', t) || Verifies(s, s', t)
    ensures Lived(actions, t, At(actions, n + 1).tasks[t])
  {
    var s, s' := At(actions, n), At(actions, n + 1);
    if s'.tasks[t] != s.tasks[t] {
      assert Shaped(s.tasks[t]);
      if Retains(s, s', t) {
        assert Took(actions, t, n, RetainEdge);
      } else if Clears(s, s', t) {
        assert Took(actions, t, n, ClearEdge);
      } else {
        assert Took(actions, t, n, VerifyEdge);
        var i: nat :| Took(actions, t, i, ClearEdge);
        assert i < n;
      }
    }
  }

  /** In every run: a COMPLETED review was cleared in some step, with no hold active then; a VERIFIED one was either
      retained in a step with a hold active, or first cleared and later, not before its due date, verified, with no hold
      active at either step. */
  lemma {:induction false} ReviewsLiveByTheRules(actions: seq<Action>, t: nat)
    requires t < |Run(EMPTY, actions).tasks|
    ensures Lived(actions, t, Run(EMPTY, actions).tasks[t])
    decreases |actions|
  {
    if actions != [] {
      var n := |actions| - 1;
      var s := At(actions, n);
      if t < |s.tasks| {
        ReviewsLiveByTheRules(actions[..n], t);
        LastEdge(actions, t);
      }
    }
  }

  // ---------------------------------------------------------------------------------------------
  // The backup window

  /** Step `i` cleared task `t`, and `due` is the retention of that step after its clock reading behind the deletion. */
  ghost predicate ClearedAt(actions: seq<Action>, t: nat, due: Instant, i: nat) {
    && Took(actions, t, i, ClearEdge) && actions[i].Resolve? && actions[i].task == t
    && due == actions[i].cleared + actions[i].retention
  }

  ghost predicate DueByClearing(actions: seq<Action>, t: nat, due: Instant) {
    exists i: nat :: ClearedAt(actions, t, due, i)
  }

  lemma {:induction false} DueEarlier(actions: seq<Action>, n: nat, t: nat, due: Instant)
    requires n <= |actions| && DueByClearing(actions[..n], t, due)
    ensures DueByClearing(actions, t, due)
  {
    var i: nat :| ClearedAt(actions[..n], t, due, i);
    TookEarlier(actions, n, t, i, ClearEdge);
    assert ClearedAt(actions, t, due, i);
  }

  /** A step that sets a due date is the clearing of that task. */
  lemma {:induction false} DueIsSetByClearing(s: State, a: Action, t: nat)
    requires Inv(s) && t < |s.tasks| && Apply(s, a).tasks[t].dueAt.Some?
    requires Apply(s, a).tasks[t].dueAt != s.tasks[t].dueAt
    ensures t < |Apply(s, a).tasks| && Clears(s, Apply(s, a), t)
    ensures a.Resolve? && a.task == t && Apply(s, a).tasks[t].dueAt == Some(a.cleared + a.retention)
  {
    ClearingClears(s, a.tenant, t, a.how, a.cleared, a.now, a.retention);
  }

  lemma {:induction false} DueLast(actions: seq<Action>, t: nat)
    requires actions != [] && t < |At(actions, |actions| - 1).tasks| && Run(EMPTY, actions).tasks[t].dueAt.Some?
    requires Run(EMPTY, actions).tasks[t].dueAt != At(actions, |actions| - 1).tasks[t].dueAt
    ensures t < |Run(EMPTY, actions).tasks| && DueByClearing(actions, t, Run(EMPTY, actions).tasks[t].dueAt.value)
  {
    var n := |actions| - 1;
    assert actions[..n + 1] == actions;
    RunKeepsInv(actions[..n]);
    DueIsSetByClearing(At(actions, n), actions[n], t);
    assert Took(actions, t, n, ClearEdge);
    assert ClearedAt(actions, t, Run(EMPTY, actions).tasks[t].dueAt.value, n);
  }

  lemma {:induction false} EveryDueDateIsFromClearing(actions: seq<Action>, t: nat)
    requires t < |Run(EMPTY, actions).tasks| && Run(EMPTY, actions).tasks[t].dueAt.Some?
    ensures DueByClearing(actions, t, Run(EMPTY, actions).tasks[t].dueAt.value)
    decreases |actions|
  {
    if actions != [] {
      var n := |actions| - 1;
      var s := At(actions, n);
      if t < |s.tasks| {
        if s.tasks[t].dueAt == Run(EMPTY, actions).tasks[t].dueAt {
          EveryDueDateIsFromClearing(actions[..n], t);
          DueEarlier(actions, n, t, s.tasks[t].dueAt.value);
        } else {
          DueLast(actions, t);
        }
      }
    }
  }

  /** In every run, a cleared review is verified no earlier than the retention in force at its clearing after the clock
      reading taken behind the deletion. */
  lemma {:induction false} BackupWindowIsKept(actions: seq<Action>, t: nat)
    requires t < |Run(EMPTY, actions).tasks| && Run(EMPTY, actions).tasks[t].verifiedAt.Some?
    ensures
      var task := Run(EMPTY, actions).tasks[t];
      task.dueAt.Some? && task.dueAt.value <= task.verifiedAt.value && DueByClearing(actions, t, task.dueAt.value)
  {
    RunKeepsInv(actions);
    assert Shaped(Run(EMPTY, actions).tasks[t]);
    EveryDueDateIsFromClearing(actions, t);
  }
}
