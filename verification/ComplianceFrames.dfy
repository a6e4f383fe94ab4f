/** What consent, review and hold calls leave alone. */
module ComplianceFrames {
  import opened Basics
  import opened Compliance
  import opened ComplianceLaws

  // ---------------------------------------------------------------------------------------------
  // A clearing keeps to its review

  /** Clearing a review removes or blanks the evidence it names, ends and empties the provider operations it names, and
      leaves every other row of every table as it was. */
  lemma {:induction false} ClearingSpares(
    s: State, tenant: string, t: nat, how: Resolution, cleared: Instant, now: Instant, retention: int)
    requires Tidy(s) && ResolveRefusal(s, tenant, t, how).None? && !how.Retain?
    ensures
      var s', task := Resolved(s, tenant, t, how, cleared, now, retention), s.tasks[t];
      && s'.consents == s.consents && s'.holds == s.holds && s'.tasks == s.tasks[t := s'.tasks[t]]
      && (forall e :: e in s.evidence && e !in task.evidence ==> e in s'.evidence && s'.evidence[e] == s.evidence[e])
      && (forall i :: i in s.intents && i !in task.intents ==> i in s'.intents && s'.intents[i] == s.intents[i])
      && (forall e :: e in s.evidence && e in task.evidence ==>
            if how.Delete? then e !in s'.evidence
            else e in s'.evidence && s'.evidence[e] == Evidence(s.evidence[e].case_, None))
      && (forall i :: i in s.intents && i in task.intents ==>
            && i in s'.intents && s'.intents[i].receipt.None? && s'.intents[i].finding.None?
            && s'.intents[i].case_ == s.intents[i].case_
            && s'.intents[i].state == if s.intents[i].state.Prepared? then Cancelled else s.intents[i].state)
      && s'.evidence.Keys <= s.evidence.Keys && s'.intents.Keys == s.intents.Keys
  {
    var task := s.tasks[t];
    assert Within(s, task);
    assert forall i :: i in task.intents && i in s.intents ==> i in Covered(s, tenant, task);
  }

  // ---------------------------------------------------------------------------------------------
  // Cases are apart

  /** The case a call is about. */
  ghost predicate About(s: State, a: Action, c: Case) {
    match a
    case Grant(d, _, _, _) => d == c
    case Revoke(d, _, _) => d == c
    case Resolve(_, t, _, _, _, _) => t < |s.tasks| && s.tasks[t].case_ == c
    case VerifyBackupExpiry(_, t, _, _) => t < |s.tasks| && s.tasks[t].case_ == c
    case PlaceHold(d) => d == c
    case ReleaseHold(_, h) => h < |s.holds| && s.holds[h].case_ == c
    case AddEvidence(d, _) => d == c
    case WriteEvidence(e, _) => e in s.evidence && s.evidence[e].case_ == c
    case AddIntent(d) => d == c
    case WriteIntent(i, _, _, _) => i in s.intents && s.intents[i].case_ == c
  }

  /** Every row of the case is as it was, and no row was added to it. */
  ghost predicate Untouched(s: State, s': State, c: Case) {
    EvidenceKept(s, s', c) && IntentsKept(s, s', c) && RecordsKept(s, s', c)
  }

  ghost predicate RecordsKept(s: State, s': State, c: Case) {
    && |s.consents| <= |s'.consents| && |s.tasks| <= |s'.tasks| && |s.holds| <= |s'.holds|
    && (forall i :: 0 <= i < |s'.consents| && s'.consents[i].case_ == c ==>
          i < |s.consents| && s'.consents[i] == s.consents[i])
    && (forall t :: 0 <= t < |s'.tasks| && s'.tasks[t].case_ == c ==> t < |s.tasks| && s'.tasks[t] == s.tasks[t])
    && (forall h :: 0 <= h < |s'.holds| && s'.holds[h].case_ == c ==> h < |s.holds| && s'.holds[h] == s.holds[h])
    && (forall i :: 0 <= i < |s.consents| ==> s'.consents[i].case_ == s.consents[i].case_)
    && (forall t :: 0 <= t < |s.tasks| ==> s'.tasks[t].case_ == s.tasks[t].case_)
    && (forall h :: 0 <= h < |s.holds| ==> s'.holds[h].case_ == s.holds[h].case_)
  }

  ghost predicate EvidenceKept(s: State, s': State, c: Case) {
    && (forall e :: e in s.evidence && s.evidence[e].case_ == c ==>
          e in s'.evidence && s'.evidence[e] == s.evidence[e])
    && (forall e :: e in s'.evidence && s'.evidence[e].case_ == c ==>
          e in s.evidence && s.evidence[e] == s'.evidence[e])
  }

  ghost predicate IntentsKept(s: State, s': State, c: Case) {
    && (forall i :: i in s.intents && s.intents[i].case_ == c ==> i in s'.intents && s'.intents[i] == s.intents[i])
    && (forall i :: i in s'.intents && s'.intents[i].case_ == c ==> i in s.intents && s.intents[i] == s'.intents[i])
  }

  lemma {:induction false} StepKeepsEvidence(s: State, a: Action, c: Case)
    requires Tidy(s) && !About(s, a, c)
    ensures EvidenceKept(s, Apply(s, a), c)
  {
    if a.Resolve? && Accepted(s, a) {
      assert Within(s, s.tasks[a.task]);
    }
  }

  lemma {:induction false} StepKeepsIntents(s: State, a: Action, c: Case)
    requires Tidy(s) && !About(s, a, c)
    ensures IntentsKept(s, Apply(s, a), c)
  {
    if a.Resolve? && Accepted(s, a) {
      assert Within(s, s.tasks[a.task]);
    }
  }

  lemma {:induction false} StepKeepsRecords(s: State, a: Action, c: Case)
    requires !About(s, a, c)
    ensures RecordsKept(s, Apply(s, a), c)
  {
  }

  lemma {:induction false} CasesAreApart(s: State, a: Action, c: Case)
    requires Tidy(s) && !About(s, a, c)
    ensures Untouched(s, Apply(s, a), c)
  {
    StepKeepsEvidence(s, a, c);
    StepKeepsIntents(s, a, c);
    StepKeepsRecords(s, a, c);
  }

  /** A call made for one tenant changes nothing of another tenant's case. */
  lemma {:induction false} TenantsAreApart(s: State, a: Action, c: Case)
    requires Tidy(s) && (a.Resolve? || a.VerifyBackupExpiry? || a.ReleaseHold?) && a.tenant != c.tenant
    ensures Untouched(s, Apply(s, a), c)
  {
    if About(s, a, c) {
      assert Apply(s, a) == s;
    } else {
      CasesAreApart(s, a, c);
    }
  }

  // ---------------------------------------------------------------------------------------------
  // What a hold protects

  /** Placing a hold holds the case, releasing its hold frees it, and no other call does either. */
  lemma {:induction false} HoldsComeAndGo(s: State, a: Action, c: Case)
    requires OneHold(s)
    ensures Held(Apply(s, a), c) <==>
      || a == PlaceHold(c)
      || (&& Held(s, c)
          && !(a.ReleaseHold? && a.tenant == c.tenant && a.hold < |s.holds| && s.holds[a.hold] == Hold(c, true)))
  {
    var s' := Apply(s, a);
    if a == PlaceHold(c) && Accepted(s, a) { assert s'.holds[|s.holds|] == Hold(c, true); }
    if Held(s, c) {
      var h :| 0 <= h < |s.holds| && s.holds[h] == Hold(c, true);
      assert s'.holds[h] == Hold(c, true) || (a.ReleaseHold? && a.hold == h);
    }
    if Held(s', c) {
      var h :| 0 <= h < |s'.holds| && s'.holds[h] == Hold(c, true);
      assert h < |s.holds| ==> s.holds[h] == Hold(c, true);
    }
  }

  /** A resolve call that clears a review of the case. */
  ghost predicate ClearsCase(s: State, a: Action, c: Case) {
    a.Resolve? && Accepted(s, a) && !a.how.Retain? && s.tasks[a.task].case_ == c
  }

  /** Evidence changes or goes only by being written, or by the clearing of a pending review of its own case that names
      it, while no hold on the case is active. */
  lemma {:induction false} EvidenceEnds(s: State, a: Action, e: nat)
    requires Tidy(s) && e in s.evidence
    requires e !in Apply(s, a).evidence || Apply(s, a).evidence[e] != s.evidence[e]
    ensures (a.WriteEvidence? && a.id == e) || ClearsCase(s, a, s.evidence[e].case_)
    ensures !a.WriteEvidence? ==>
      && e in s.tasks[a.task].evidence && s.tasks[a.task].status == Pending && !Held(s, s.evidence[e].case_)
      && a.tenant == s.evidence[e].case_.tenant
  {
    if a.Resolve? && Accepted(s, a) { assert Within(s, s.tasks[a.task]); }
  }

  ghost predicate LeavesHold(actions: seq<Action>, h: nat) {
    forall k :: 0 <= k < |actions| ==> !(actions[k].ReleaseHold? && actions[k].hold == h)
  }

  ghost predicate LeavesEvidence(actions: seq<Action>, e: nat) {
    forall k :: 0 <= k < |actions| ==> !(actions[k].WriteEvidence? && actions[k].id == e)
  }

  lemma {:induction false} HoldStays(s: State, a: Action, h: nat)
    requires h < |s.holds| && s.holds[h].active && !(a.ReleaseHold? && a.hold == h)
    ensures h < |Apply(s, a).holds| && Apply(s, a).holds[h] == s.holds[h]
  {
  }

  /** Over every run: as long as a hold on the case is not released, none of the case's evidence is deleted or blanked,
      whatever reviews are resolved. */
  lemma {:induction false} HeldEvidenceStays(s: State, actions: seq<Action>, h: nat, e: nat)
    requires Inv(s) && h < |s.holds| && s.holds[h].active && e in s.evidence
    requires s.evidence[e].case_ == s.holds[h].case_ && LeavesHold(actions, h) && LeavesEvidence(actions, e)
    ensures
      var s' := Run(s, actions);
      && Inv(s') && h < |s'.holds| && s'.holds[h] == s.holds[h]
      && e in s'.evidence && s'.evidence[e] == s.evidence[e]
    decreases |actions|
  {
    if actions != [] {
      var n := |actions| - 1;
      HeldEvidenceStays(s, actions[..n], h, e);
      var m, a := Run(s, actions[..n]), actions[n];
      StepKeepsInv(m, a);
      HoldStays(m, a, h);
      assert m.holds[h] == Hold(m.evidence[e].case_, true);
      if e !in Apply(m, a).evidence || Apply(m, a).evidence[e] != m.evidence[e] { EvidenceEnds(m, a, e); }
    }
  }

  /** Over every run: without a clearing of a review of its own case and without being written, evidence stays. */
  lemma {:induction false} EvidenceStays(s: State, actions: seq<Action>, e: nat)
    requires Inv(s) && e in s.evidence && LeavesEvidence(actions, e)
    requires forall k :: 0 <= k < |actions| ==> !ClearsCase(Run(s, actions[..k]), actions[k], s.evidence[e].case_)
    ensures Inv(Run(s, actions)) && e in Run(s, actions).evidence && Run(s, actions).evidence[e] == s.evidence[e]
    decreases |actions|
  {
    if actions != [] {
      var n := |actions| - 1;
      var before := actions[..n];
      assert forall k :: 0 <= k < n ==> before[..k] == actions[..k] && before[k] == actions[k];
      EvidenceStays(s, before, e);
      var m, a := Run(s, before), actions[n];
      StepKeepsInv(m, a);
      assert !ClearsCase(Run(s, actions[..n]), actions[n], s.evidence[e].case_);
      if e !in Apply(m, a).evidence || Apply(m, a).evidence[e] != m.evidence[e] { EvidenceEnds(m, a, e); }
    }
  }

  // ---------------------------------------------------------------------------------------------
  // What an authorization goes back to

  /** Step `k` of the run granted the case this purpose and all these classes. */
  ghost predicate GrantedAt(actions: seq<Action>, c: Case, purpose: string, classes: set<string>, at: Instant, k: nat) {
    && k < |actions| && actions[k].Grant? && actions[k].case_ == c && actions[k].purpose == purpose
    && actions[k].now == at && forall x :: x in classes ==> x in actions[k].classes
  }

  ghost predicate WasGranted(actions: seq<Action>, r: Consent) {
    exists k: nat :: GrantedAt(actions, r.case_, r.purpose, r.classes, r.grantedAt, k)
  }

  lemma {:induction false} ConsentsWereGranted(actions: seq<Action>, i: nat)
    requires i < |Run(EMPTY, actions).consents|
    ensures WasGranted(actions, Run(EMPTY, actions).consents[i])
    decreases |actions|
  {
    if actions != [] {
      var n := |actions| - 1;
      var m, a, r := Run(EMPTY, actions[..n]), actions[n], Run(EMPTY, actions).consents[i];
      if i < |m.consents| {
        ConsentsWereGranted(actions[..n], i);
        var k: nat :| GrantedAt(actions[..n], r.case_, r.purpose, r.classes, r.grantedAt, k);
        assert GrantedAt(actions, r.case_, r.purpose, r.classes, r.grantedAt, k);
      } else {
        assert GrantedAt(actions, r.case_, r.purpose, r.classes, r.grantedAt, n);
      }
    }
  }

  /** Over every run: if a purpose and some classes are authorized for a case, then a grant of the run gave the case
      that purpose and each of those classes, no consent of the case is newer, and that consent is neither revoked nor
      expired. */
  lemma {:induction false} AuthorizationWasGranted(
    actions: seq<Action>, c: Case, n: Option<nat>, now: Instant, purpose: string, classes: set<string>)
    requires IsNewest(Run(EMPTY, actions).consents, c, n)
    requires ActiveForPurpose(Run(EMPTY, actions).consents, n, now, purpose, classes).Some?
    ensures
      var rs := Run(EMPTY, actions).consents;
      && StandingOf(rs, n, now) == Valid && n.Some?
      && var r := rs[n.value];
      && r.revokedAt.None? && (r.expiresAt.None? || now < r.expiresAt.value)
      && (exists k: nat :: GrantedAt(actions, c, purpose, classes, r.grantedAt, k))
      && forall j :: 0 <= j < |rs| && rs[j].case_ == c ==> rs[j].grantedAt <= r.grantedAt
  {
    var rs := Run(EMPTY, actions).consents;
    var r := rs[n.value];
    ConsentsWereGranted(actions, n.value);
    var k: nat :| GrantedAt(actions, r.case_, r.purpose, r.classes, r.grantedAt, k);
    assert GrantedAt(actions, c, purpose, classes, r.grantedAt, k);
    forall j | 0 <= j < |rs| && rs[j].case_ == c ensures rs[j].grantedAt <= r.grantedAt {
      assert Counts(rs[j], c, false);
    }
  }

  /** After a grant every reader is given the new consent, which is valid and authorizes what was granted, if and only
      if every consent the case had before is older. */
  lemma {:induction false} GrantTakesEffect(
    s: State, c: Case, purpose: string, classes: set<string>, now: Instant, later: Instant)
    ensures
      var rs := Apply(s, Grant(c, purpose, classes, now)).consents;
      var mine := Some(|s.consents|);
      (forall n :: IsNewest(rs, c, n) ==>
          n == mine && StandingOf(rs, n, later) == Valid && ActiveForPurpose(rs, n, later, purpose, classes) == n)
      <==> forall i :: 0 <= i < |s.consents| && s.consents[i].case_ == c ==> s.consents[i].grantedAt < now
  {
    var rs := Apply(s, Grant(c, purpose, classes, now)).consents;
    var k := |s.consents|;
    assert rs[k].case_ == c && Counts(rs[k], c, false);
    if i :| 0 <= i < k && s.consents[i].case_ == c && now <= s.consents[i].grantedAt {
      var j := NewestOf(rs, c, i);
      assert IsNewest(rs, c, Some(j)) && Counts(rs[i], c, false);
      if j == k {
        assert forall m :: 0 <= m < |rs| && Counts(rs[m], c, false) ==> rs[m].grantedAt <= rs[i].grantedAt;
        assert IsNewest(rs, c, Some(i));
      }
    }
  }

  lemma {:induction false} NewestOf(rs: seq<Consent>, c: Case, i: nat) returns (j: nat)
    requires i < |rs| && rs[i].case_ == c
    ensures Newest(rs, c, false, j)
  {
    j := i;
    for n := 0 to |rs|
      invariant j < |rs| && rs[j].case_ == c
      invariant forall m :: 0 <= m < n && Counts(rs[m], c, false) ==> rs[m].grantedAt <= rs[j].grantedAt
    {
      if rs[n].case_ == c && rs[j].grantedAt < rs[n].grantedAt { j := n; }
    }
  }

  /** What each status says about the consent it was read off. */
  lemma {:induction false} StandingMeans(rs: seq<Consent>, c: Case, n: Option<nat>, now: Instant)
    requires IsNewest(rs, c, n)
    ensures
      var standing := StandingOf(rs, n, now);
      && (standing == Missing <==> forall i :: 0 <= i < |rs| ==> rs[i].case_ != c)
      && (n.Some? ==>
            var r := rs[n.value];
            && (standing == Revoked <==> r.revokedAt.Some?)
            && (standing == Expired <==> r.revokedAt.None? && r.expiresAt.Some? && r.expiresAt.value <= now)
            && (standing == Valid <==> r.revokedAt.None? && (r.expiresAt.None? || now < r.expiresAt.value)))
  {
    if n.Some? { assert rs[n.value].case_ == c; }
  }

  /** And conversely: the newest consent, unrevoked and unexpired, authorizes its purpose for any of its classes. */
  lemma {:induction false} ValidConsentAuthorizes(
    rs: seq<Consent>, c: Case, n: nat, now: Instant, classes: set<string>)
    requires Newest(rs, c, false, n) && StandingOf(rs, Some(n), now) == Valid
    ensures ActiveForPurpose(rs, Some(n), now, rs[n].purpose, classes) == Some(n) <==>
      forall x :: x in classes ==> x in rs[n].classes
  {
  }
}
