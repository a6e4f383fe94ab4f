/** The three services over their tables: every call does what its step says and nothing else. */
module ComplianceDesk {
  import opened Basics
  import opened Compliance

  class Desk {
    var consents: seq<Consent>
    var tasks: seq<Task>
    var holds: seq<Hold>
    var evidence: map<nat, Evidence>
    var evidenceIds: nat
    var intents: map<nat, Intent>
    var intentIds: nat

    ghost function View(): State
      reads this
    {
      State(consents, tasks, holds, evidence, evidenceIds, intents, intentIds)
    }

    constructor ()
      ensures View() == EMPTY
    {
      consents, tasks, holds, evidence, evidenceIds, intents, intentIds := [], [], [], map[], 0, map[], 0;
    }

    /** The query for the newest consent of a case. */
    method FindNewest(c: Case, unrevokedOnly: bool) returns (r: Option<nat>)
      ensures r.Some? ==> Newest(consents, c, unrevokedOnly, r.value)
      ensures r.None? ==> forall j :: 0 <= j < |consents| ==> !Counts(consents[j], c, unrevokedOnly)
    {
      r := None;
      for i := 0 to |consents|
        invariant r.Some? ==> r.value < i && Newest(consents[..i], c, unrevokedOnly, r.value)
        invariant r.None? ==> forall j :: 0 <= j < i ==> !Counts(consents[j], c, unrevokedOnly)
      {
        ghost var before := r;
        if Counts(consents[i], c, unrevokedOnly) && (r.None? || consents[i].grantedAt > consents[r.value].grantedAt) {
          r := Some(i);
        }
        assert before.Some? ==> forall j :: 0 <= j < i && Counts(consents[j], c, unrevokedOnly) ==>
            Counts(consents[..i][j], c, unrevokedOnly);
      }
      assert consents[..|consents|] == consents;
    }

    method GrantForCase(c: Case, purpose: string, classes: set<string>, now: Instant)
      modifies this
      ensures View() == Apply(old(View()), Grant(c, purpose, classes, now))
    {
      consents := consents + [Consent(c, purpose, classes, now, None, None)];
    }

    /** The consent it revoked, or nothing when the case has no unrevoked one. */
    method RevokeConsent(c: Case, now: Instant) returns (r: Option<nat>)
      modifies this
      ensures r.Some? ==>
        Newest(old(consents), c, true, r.value) && View() == Apply(old(View()), Revoke(c, r.value, now))
      ensures r.None? ==> View() == old(View()) && forall j :: 0 <= j < |consents| ==> !Counts(consents[j], c, true)
    {
      r := FindNewest(c, true);
      if r.Some? {
        var pick := r.value;
        consents := consents[pick := consents[pick].(revokedAt := Some(now))];
        OpenRetentionReview(c, pick);
      }
    }

    method OpenRetentionReview(c: Case, consent: nat)
      modifies this
      ensures View() == old(View()).(tasks := old(tasks) + [Review(old(View()), c, consent)])
    {
      var affectedEvidence := set e | e in evidence && evidence[e].case_ == c;
      var affectedIntents := set i | i in intents && intents[i].case_ == c;
      tasks := tasks + [Task(c, consent, affectedEvidence, affectedIntents, Pending, None, None, None, None, None)];
    }

    method GetStatus(c: Case, now: Instant) returns (r: Standing)
      ensures exists n :: IsNewest(consents, c, n) && r == StandingOf(consents, n, now)
    {
      var found := FindNewest(c, false);
      assert IsNewest(consents, c, found);
      if found.None? { return Missing; }
      var record := consents[found.value];
      if record.revokedAt.Some? { return Revoked; }
      if HasExpired(record, now) { return Expired; }
      return Valid;
    }

    method ActiveRecordForPurpose(c: Case, purpose: string, classes: set<string>, now: Instant) returns (r: Option<nat>)
      ensures exists n :: IsNewest(consents, c, n) && r == ActiveForPurpose(consents, n, now, purpose, classes)
    {
      var found := FindNewest(c, false);
      assert IsNewest(consents, c, found);
      if found.None? || consents[found.value].revokedAt.Some? { return None; }
      var record := consents[found.value];
      if HasExpired(record, now) || record.purpose != purpose || !(classes <= record.classes) { return None; }
      return found;
    }

    method IsRecordValid(id: nat, now: Instant, expected: Option<(Case, string, set<string>)>) returns (ok: bool)
      ensures ok <==>
        && id < |consents| && consents[id].revokedAt.None? && !HasExpired(consents[id], now)
        && (expected.Some? ==>
          consents[id].case_ == expected.value.0 && Authorizes(consents[id], now, expected.value.1, expected.value.2))
    {
      if id >= |consents| { return false; }
      var record := consents[id];
      if record.revokedAt.Some? || HasExpired(record, now) { return false; }
      if expected.Some? {
        var (c, purpose, classes) := expected.value;
        if record.case_ != c || record.purpose != purpose { return false; }
        if !(classes <= record.classes) { return false; }
      }
      return true;
    }

    method HasActiveHold(c: Case) returns (held: bool)
      ensures held <==> Held(View(), c)
    {
      held := false;
      for h := 0 to |holds|
        invariant held <==> exists k :: 0 <= k < h && holds[k] == Hold(c, true)
      {
        if holds[h] == Hold(c, true) { held := true; }
      }
    }

    method PlaceLegalHold(c: Case) returns (r: Option<Refusal>)
      modifies this
      ensures r == if old(Held(View(), c)) then Some(AlreadyHeld) else None
      ensures View() == Apply(old(View()), PlaceHold(c))
    {
      var held := HasActiveHold(c);
      if held { return Some(AlreadyHeld); }
      holds := holds + [Hold(c, true)];
      return None;
    }

    method ReleaseLegalHold(tenant: string, h: nat) returns (r: Option<Refusal>)
      modifies this
      ensures r == if h >= |old(holds)| || old(holds)[h].case_.tenant != tenant then Some(NotFound)
                   else if !old(holds)[h].active then Some(AlreadyReleased) else None
      ensures View() == Apply(old(View()), ReleaseHold(tenant, h))
    {
      if h >= |holds| || holds[h].case_.tenant != tenant { return Some(NotFound); }
      if !holds[h].active { return Some(AlreadyReleased); }
      holds := holds[h := holds[h].(active := false)];
      return None;
    }

    method ResolveTask(
      tenant: string, t: nat, how: Resolution, cleared: Instant, now: Instant, retention: int)
      returns (r: Option<Refusal>)
      modifies this
      ensures r == ResolveRefusal(old(View()), tenant, t, how)
      ensures View() == Apply(old(View()), Resolve(tenant, t, how, cleared, now, retention))
    {
      ghost var s := View();
      if t >= |tasks| || tasks[t].case_.tenant != tenant { return Some(NotFound); }
      var task := tasks[t];
      if task.status != Pending { return Some(AlreadyResolved); }
      var hasHold := HasActiveHold(task.case_);
      if how.Retain? {
        if !hasHold { return Some(NothingToRetainUnder); }
      } else if hasHold {
        return Some(UnderHold);
      }
      var covered := set i | i in task.intents && i in intents && intents[i].case_.tenant == tenant;
      var unsettled := set i | i in covered && Unsettled(intents[i].state);
      if !how.Retain? && unsettled != {} {
        var i :| i in unsettled;
        assert i in Covered(s, tenant, task);
        return Some(OutcomePending);
      }
      assert forall i :: i in covered ==> i !in unsettled || how.Retain?;
      if how.Retain? {
        tasks := tasks[t := task.(status := Verified, outcome := Some(RetainedUnderHold), resolvedAt := Some(now),
            dueAt := None)];
        return None;
      }
      ClearPayloads(covered, task.evidence, how);
      var outcome := if how.Delete? then Deleted else Anonymized;
      tasks := tasks[t := task.(status := Completed, outcome := Some(outcome), resolvedAt := Some(now),
          dueAt := Some(cleared + retention))];
      return None;
    }

    /** Cancels what was never sent, removes or blanks the evidence, then empties the provider rows. */
    method ClearPayloads(covered: set<nat>, affected: set<nat>, how: Resolution)
      requires !how.Retain?
      modifies this
      ensures View() == old(View()).(evidence := ClearEvidence(old(View()), affected, how),
          intents := StripIntents(old(View()), covered))
    {
      var prepared := set i | i in covered && i in intents && intents[i].state.Prepared?;
      intents := map i | i in intents :: if i in prepared then intents[i].(state := Cancelled) else intents[i];
      if how.Delete? {
        evidence := map e | e in evidence && e !in affected :: evidence[e];
      } else {
        evidence := map e | e in evidence :: if e in affected then evidence[e].(value := None) else evidence[e];
      }
      intents := map i | i in intents :: if i in covered then intents[i].(receipt := None, finding := None)
          else intents[i];
      assert intents == StripIntents(old(View()), covered);
    }

    method VerifyExpiry(tenant: string, t: nat, reference: string, now: Instant) returns (r: Option<Refusal>)
      modifies this
      ensures r == VerifyRefusal(old(View()), tenant, t, reference, now)
      ensures View() == Apply(old(View()), VerifyBackupExpiry(tenant, t, reference, now))
    {
      if Blank(reference) { return Some(BlankReference); }
      if t >= |tasks| || tasks[t].case_.tenant != tenant || tasks[t].status != Completed { return Some(NotAwaiting); }
      var task := tasks[t];
      if task.dueAt.None? || task.dueAt.value > now { return Some(NotDue); }
      var held := HasActiveHold(task.case_);
      if held { return Some(UnderHold); }
      tasks := tasks[t := task.(status := Verified, verifiedAt := Some(now), reference := Some(reference))];
      return None;
    }
  }
}
