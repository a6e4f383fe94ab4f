/** Revocation is never lost, and holds until the next grant. */
module ConsentLaws {
  import opened Basics
  import opened Compliance
  import opened ComplianceLaws

  lemma {:induction false} RunAppend(s: State, xs: seq<Action>, ys: seq<Action>)
    ensures Run(s, xs + ys) == Run(Run(s, xs), ys)
    decreases |ys|
  {
    if ys == [] {
      assert xs + ys == xs;
    } else {
      var n := |ys| - 1;
      assert (xs + ys)[..|xs + ys| - 1] == xs + ys[..n];
      RunAppend(s, xs, ys[..n]);
    }
  }

  lemma {:induction false} RunOne(s: State, xs: seq<Action>, a: Action)
    ensures Run(s, xs + [a]) == Apply(Run(s, xs), a)
  {
    assert (xs + [a])[..|xs|] == xs;
  }

  // ---------------------------------------------------------------------------------------------
  // The review keeps what it was revoked for

  lemma {:induction false} RunKeepsCoverage(s: State, actions: seq<Action>)
    ensures SameCoverage(s, Run(s, actions))
    decreases |actions|
  {
    if actions != [] {
      var n := |actions| - 1;
      RunKeepsCoverage(s, actions[..n]);
      StepKeepsCoverage(Run(s, actions[..n]), actions[n]);
    }
  }

  /** A revocation opens a review that names all evidence and all provider operations the case has at that moment, and
      whatever happens later the review still names exactly those. */
  lemma {:induction false} RevocationNamesEverything(
    before: seq<Action>, c: Case, pick: nat, now: Instant, later: seq<Action>)
    requires Accepted(Run(EMPTY, before), Revoke(c, pick, now))
    ensures
      var s := Run(EMPTY, before);
      var s' := Run(EMPTY, before + [Revoke(c, pick, now)] + later);
      var t := |s.tasks|;
      && t < |s'.tasks| && s'.tasks[t].consent == pick && s'.tasks[t].case_ == c
      && s'.tasks[t].evidence == EvidenceOf(s, c) && s'.tasks[t].intents == IntentsOf(s, c)
  {
    var s := Run(EMPTY, before);
    var revoked := Apply(s, Revoke(c, pick, now));
    RunOne(EMPTY, before, Revoke(c, pick, now));
    RunAppend(EMPTY, before + [Revoke(c, pick, now)], later);
    RunKeepsCoverage(revoked, later);
    assert revoked.tasks[|s.tasks|] == Review(s, c, pick);
  }

  // ---------------------------------------------------------------------------------------------
  // Until the next grant

  ghost predicate HasConsent(rs: seq<Consent>, c: Case) { exists i :: 0 <= i < |rs| && rs[i].case_ == c }

  /** Whichever consent the query for the newest one returns, it is a revoked one. */
  ghost predicate RevokedFor(rs: seq<Consent>, c: Case) {
    HasConsent(rs, c) && forall i: nat :: Newest(rs, c, false, i) ==> rs[i].revokedAt.Some?
  }

  /** What that means for the two readers, whichever newest consent they are given. */
  lemma {:induction false} RevokedReads(
    rs: seq<Consent>, c: Case, n: Option<nat>, now: Instant, purpose: string, classes: set<string>)
    requires RevokedFor(rs, c) && IsNewest(rs, c, n)
    ensures StandingOf(rs, n, now) == Revoked && ActiveForPurpose(rs, n, now, purpose, classes) == None
  {
    var i :| 0 <= i < |rs| && rs[i].case_ == c;
    assert n.Some?;
  }

  /** Consents are only added by grants and otherwise only ever revoked. */
  ghost predicate OnlyRevokes(rs: seq<Consent>, rs': seq<Consent>) {
    && |rs'| == |rs|
    && forall i :: 0 <= i < |rs| ==>
         && rs'[i].case_ == rs[i].case_ && rs'[i].grantedAt == rs[i].grantedAt
         && (rs[i].revokedAt.Some? ==> rs'[i].revokedAt.Some?)
  }

  lemma {:induction false} RevokedStaysUnder(rs: seq<Consent>, rs': seq<Consent>, c: Case)
    requires RevokedFor(rs, c) && OnlyRevokes(rs, rs')
    ensures RevokedFor(rs', c)
  {
    var i :| 0 <= i < |rs| && rs[i].case_ == c;
    assert rs'[i].case_ == c;
    forall j: nat | Newest(rs', c, false, j) ensures rs'[j].revokedAt.Some? {
      forall k | 0 <= k < |rs| && Counts(rs[k], c, false)
        ensures rs[k].grantedAt <= rs[j].grantedAt
      {
        assert Counts(rs'[k], c, false);
      }
      assert Newest(rs, c, false, j);
    }
  }

  lemma {:induction false} GrantElsewhere(rs: seq<Consent>, c: Case, r: Consent)
    requires RevokedFor(rs, c) && r.case_ != c
    ensures RevokedFor(rs + [r], c)
  {
    var rs' := rs + [r];
    var i :| 0 <= i < |rs| && rs[i].case_ == c;
    assert rs'[i].case_ == c;
    forall j: nat | Newest(rs', c, false, j) ensures rs'[j].revokedAt.Some? {
      forall k | 0 <= k < |rs| && Counts(rs[k], c, false)
        ensures rs[k].grantedAt <= rs[j].grantedAt
      {
        assert Counts(rs'[k], c, false);
      }
      assert Newest(rs, c, false, j);
    }
  }

  lemma {:induction false} StepKeepsRevoked(s: State, a: Action, c: Case)
    requires RevokedFor(s.consents, c) && !(a.Grant? && a.case_ == c)
    ensures RevokedFor(Apply(s, a).consents, c)
  {
    if a.Grant? {
      GrantElsewhere(s.consents, c, Consent(a.case_, a.purpose, a.classes, a.now, None, None));
    } else {
      RevokedStaysUnder(s.consents, Apply(s, a).consents, c);
    }
  }

  ghost predicate NoGrantFor(actions: seq<Action>, c: Case) {
    forall k :: 0 <= k < |actions| ==> !(actions[k].Grant? && actions[k].case_ == c)
  }

  /** Once revoked, a case stays revoked until its next grant, whatever earlier unrevoked grants it has. */
  lemma {:induction false} RevokedUntilNextGrant(s: State, actions: seq<Action>, c: Case)
    requires RevokedFor(s.consents, c) && NoGrantFor(actions, c)
    ensures RevokedFor(Run(s, actions).consents, c)
    decreases |actions|
  {
    if actions != [] {
      var n := |actions| - 1;
      RevokedUntilNextGrant(s, actions[..n], c);
      StepKeepsRevoked(Run(s, actions[..n]), actions[n], c);
    }
  }

  /** A revoked consent keeps its revocation for ever, so no later check of that record succeeds. */
  lemma {:induction false} RevokedForEver(s: State, actions: seq<Action>, i: nat)
    requires i < |s.consents| && s.consents[i].revokedAt.Some?
    ensures i < |Run(s, actions).consents| && Run(s, actions).consents[i] == s.consents[i]
    decreases |actions|
  {
    if actions != [] { RevokedForEver(s, actions[..|actions| - 1], i); }
  }

  // ---------------------------------------------------------------------------------------------
  // When a revocation takes effect

  /** Another unrevoked consent is as new as any of the case. */
  ghost predicate Rivalled(rs: seq<Consent>, c: Case, pick: nat) {
    exists j: nat :: j != pick && Newest(rs, c, false, j) && rs[j].revokedAt.None?
  }

  function Revoking(rs: seq<Consent>, pick: nat, now: Instant): seq<Consent>
    requires pick < |rs|
  {
    rs[pick := rs[pick].(revokedAt := Some(now))]
  }

  lemma {:induction false} SameNewest(rs: seq<Consent>, pick: nat, now: Instant, c: Case, j: nat)
    requires pick < |rs|
    ensures Newest(Revoking(rs, pick, now), c, false, j) <==> Newest(rs, c, false, j)
  {
    var rs' := Revoking(rs, pick, now);
    if Newest(rs', c, false, j) {
      forall k | 0 <= k < |rs| && Counts(rs[k], c, false)
        ensures rs[k].grantedAt <= rs[j].grantedAt
      {
        assert Counts(rs'[k], c, false);
      }
    }
    if Newest(rs, c, false, j) {
      forall k | 0 <= k < |rs'| && Counts(rs'[k], c, false)
        ensures rs'[k].grantedAt <= rs'[j].grantedAt
      {
        assert Counts(rs[k], c, false);
      }
    }
  }

  /** A revocation takes effect at once exactly when no other unrevoked consent ties with the newest of the case. */
  lemma {:induction false} RevokeTakesEffect(s: State, c: Case, pick: nat, now: Instant)
    requires Newest(s.consents, c, true, pick)
    ensures RevokedFor(Apply(s, Revoke(c, pick, now)).consents, c) <==> !Rivalled(s.consents, c, pick)
  {
    var rs, rs' := s.consents, Revoking(s.consents, pick, now);
    assert Apply(s, Revoke(c, pick, now)).consents == rs';
    assert rs'[pick].case_ == c;
    forall j: nat ensures Newest(rs', c, false, j) <==> Newest(rs, c, false, j) { SameNewest(rs, pick, now, c, j); }
    if Rivalled(rs, c, pick) {
      var j: nat :| j != pick && Newest(rs, c, false, j) && rs[j].revokedAt.None?;
      assert Newest(rs', c, false, j) && rs'[j].revokedAt.None?;
    }
  }

  /** Two grants of one moment: the case still reads as valid after a revocation. */
  lemma {:induction false} TiedGrantsOutliveRevocation(c: Case) returns (actions: seq<Action>, i: nat)
    ensures
      var s := Run(EMPTY, actions);
      |actions| == 3 && actions[2].Revoke? && |s.tasks| == 1 && Newest(s.consents, c, false, i)
          && StandingOf(s.consents, Some(i), 1) == Valid
  {
    var grant, revoke := Grant(c, "", {}, 0), Revoke(c, 0, 1);
    actions, i := [grant, grant, revoke], 1;
    var r := Consent(c, "", {}, 0, None, None);
    RunOne(EMPTY, [], grant);
    RunOne(EMPTY, [grant], grant);
    RunOne(EMPTY, [grant, grant], revoke);
    assert [] + [grant] == [grant] && [grant] + [grant] == [grant, grant] && [grant, grant] + [revoke] == actions;
    assert Run(EMPTY, [grant, grant]).consents == [r, r];
    assert Newest([r, r], c, true, 0);
  }

  // ---------------------------------------------------------------------------------------------
  // Strictly increasing grants

  /** Later consents of a case were granted later. */
  ghost predicate InOrder(rs: seq<Consent>) {
    forall i, j :: 0 <= i < j < |rs| && rs[i].case_ == rs[j].case_ ==> rs[i].grantedAt < rs[j].grantedAt
  }

  /** A grant comes after all grants the case already has. */
  ghost predicate Later(rs: seq<Consent>, a: Action) {
    a.Grant? ==> forall i :: 0 <= i < |rs| && rs[i].case_ == a.case_ ==> rs[i].grantedAt < a.now
  }

  ghost predicate Timely(actions: seq<Action>) {
    forall n :: 0 <= n < |actions| ==> Later(Run(EMPTY, actions[..n]).consents, actions[n])
  }

  lemma {:induction false} TimelyGrantsAreInOrder(actions: seq<Action>)
    requires Timely(actions)
    ensures InOrder(Run(EMPTY, actions).consents)
    decreases |actions|
  {
    if actions != [] {
      var n := |actions| - 1;
      var before := actions[..n];
      forall k | 0 <= k < n
        ensures Later(Run(EMPTY, before[..k]).consents, before[k])
      {
        assert before[..k] == actions[..k];
      }
      TimelyGrantsAreInOrder(before);
      assert Later(Run(EMPTY, actions[..n]).consents, actions[n]);
      StepKeepsOrder(Run(EMPTY, before), actions[n]);
    }
  }

  lemma {:induction false} StepKeepsOrder(s: State, a: Action)
    requires InOrder(s.consents) && Later(s.consents, a)
    ensures InOrder(Apply(s, a).consents)
  {
  }

  lemma {:induction false} InOrderHasNoRival(rs: seq<Consent>, c: Case, pick: nat)
    requires InOrder(rs) && Newest(rs, c, true, pick)
    ensures !Rivalled(rs, c, pick)
  {
    assert Counts(rs[pick], c, false);
    forall j: nat | j != pick && Newest(rs, c, false, j) ensures rs[j].revokedAt.Some? {
      var r := rs[j];
      assert Counts(r, c, true) <==> r.revokedAt.None?;
    }
  }

  /** With strictly increasing grants, every revocation takes effect at once and holds until the next grant of its case.
      */
  lemma {:induction false} RevocationHolds(before: seq<Action>, c: Case, pick: nat, now: Instant, later: seq<Action>)
    requires Timely(before) && Accepted(Run(EMPTY, before), Revoke(c, pick, now)) && NoGrantFor(later, c)
    ensures RevokedFor(Run(EMPTY, before + [Revoke(c, pick, now)] + later).consents, c)
  {
    var s := Run(EMPTY, before);
    TimelyGrantsAreInOrder(before);
    InOrderHasNoRival(s.consents, c, pick);
    RevokeTakesEffect(s, c, pick, now);
    RunOne(EMPTY, before, Revoke(c, pick, now));
    RevokedUntilNextGrant(Apply(s, Revoke(c, pick, now)), later, c);
    RunAppend(EMPTY, before + [Revoke(c, pick, now)], later);
  }
}
