/** Consent, the retention reviews its revocation opens, and the legal holds that stop them: the rows and what each call
    does to them. */
module Compliance {
  import opened Basics

  datatype Case = Case(tenant: string, id: string)

  datatype Consent = Consent(
    case_: Case, purpose: string, classes: set<string>, grantedAt: Instant, expiresAt: Option<Instant>,
        revokedAt: Option<Instant>)

  /** A fact whose value is gone has been blanked. */
  datatype Evidence = Evidence(case_: Case, value: Option<string>)

  datatype IntentState = Prepared | Dispatched | Succeeded | FailedFinal | OutcomeUnknown | Reconciling | Cancelled

  /** A provider operation with the two places where borrower data may rest. */
  datatype Intent = Intent(case_: Case, state: IntentState, receipt: Option<string>, finding: Option<string>)

  datatype Outcome = Deleted | Anonymized | RetainedUnderHold
  datatype TaskStatus = Pending | Completed | Verified

  /** A retention review: the revoked consent, what it covers, and how far it got. */
  datatype Task = Task(
    case_: Case, consent: nat, evidence: set<nat>, intents: set<nat>,
    status: TaskStatus, outcome: Option<Outcome>, resolvedAt: Option<Instant>,
    dueAt: Option<Instant>, verifiedAt: Option<Instant>, reference: Option<string>)

  datatype Hold = Hold(case_: Case, active: bool)

  /** Consents, tasks and holds are never deleted: their ids are their places. Ids of evidence and intents are used
      once. */
  datatype State = State(
    consents: seq<Consent>, tasks: seq<Task>, holds: seq<Hold>,
    evidence: map<nat, Evidence>, evidenceIds: nat, intents: map<nat, Intent>, intentIds: nat)

  const EMPTY: State := State([], [], [], map[], 0, map[], 0)

  // ---------------------------------------------------------------------------------------------
  // Consent

  predicate Counts(r: Consent, c: Case, unrevokedOnly: bool) {
    r.case_ == c && (unrevokedOnly ==> r.revokedAt.None?)
  }

  /** One of the newest consents of a case; the database breaks ties as it likes. */
  predicate Newest(rs: seq<Consent>, c: Case, unrevokedOnly: bool, i: nat) {
    && i < |rs| && Counts(rs[i], c, unrevokedOnly)
    && forall j :: 0 <= j < |rs| && Counts(rs[j], c, unrevokedOnly) ==> rs[j].grantedAt <= rs[i].grantedAt
  }

  /** What the query for the newest consent of a case may return: one of the newest, or none when the case has none. */
  predicate IsNewest(rs: seq<Consent>, c: Case, n: Option<nat>) {
    if n.Some? then Newest(rs, c, false, n.value) else forall j :: 0 <= j < |rs| ==> rs[j].case_ != c
  }

  datatype Standing = Missing | Revoked | Expired | Valid

  predicate HasExpired(r: Consent, now: Instant) { r.expiresAt.Some? && r.expiresAt.value <= now }

  /** The status read off the consent that a query for the newest one returned. */
  function StandingOf(rs: seq<Consent>, newest: Option<nat>, now: Instant): Standing
    requires newest.Some? ==> newest.value < |rs|
  {
    if newest.None? then Missing
    else if rs[newest.value].revokedAt.Some? then Revoked
    else if HasExpired(rs[newest.value], now) then Expired
    else Valid
  }

  predicate Authorizes(r: Consent, now: Instant, purpose: string, classes: set<string>) {
    r.revokedAt.None? && !HasExpired(r, now) && r.purpose == purpose && classes <= r.classes
  }

  function ActiveForPurpose(
    rs: seq<Consent>, newest: Option<nat>, now: Instant, purpose: string, classes: set<string>): Option<nat>
    requires newest.Some? ==> newest.value < |rs|
  {
    if newest.Some? && Authorizes(rs[newest.value], now, purpose, classes) then newest else None
  }

  function EvidenceOf(s: State, c: Case): set<nat> { set e | e in s.evidence && s.evidence[e].case_ == c }

  function IntentsOf(s: State, c: Case): set<nat> { set i | i in s.intents && s.intents[i].case_ == c }

  function Review(s: State, c: Case, consent: nat): Task {
    Task(c, consent, EvidenceOf(s, c), IntentsOf(s, c), Pending, None, None, None, None, None)
  }

  // ---------------------------------------------------------------------------------------------
  // Holds and reviews

  ghost predicate Held(s: State, c: Case) { exists h :: 0 <= h < |s.holds| && s.holds[h] == Hold(c, true) }

  datatype Resolution = Delete | Anonymize | Retain

  predicate Unsettled(i: IntentState) { i.Dispatched? || i.OutcomeUnknown? || i.Reconciling? }

  /** Locked and inspected: the intents a review covers within the caller's tenant. */
  function Covered(s: State, tenant: string, t: Task): set<nat> {
    set i | i in t.intents && i in s.intents && s.intents[i].case_.tenant == tenant
  }

  /** Cancelled if it was never sent, and stripped of its payload. */
  function Stripped(i: Intent): Intent {
    i.(state := if i.state.Prepared? then Cancelled else i.state, receipt := None, finding := None)
  }

  function StripIntents(s: State, ids: set<nat>): map<nat, Intent> {
    map i | i in s.intents :: if i in ids then Stripped(s.intents[i]) else s.intents[i]
  }

  function ClearEvidence(s: State, ids: set<nat>, how: Resolution): map<nat, Evidence> {
    match how
    case Delete => map e | e in s.evidence && e !in ids :: s.evidence[e]
    case Anonymize => map e | e in s.evidence :: if e in ids then s.evidence[e].(value := None) else s.evidence[e]
    case Retain => s.evidence
  }

  datatype Refusal = NotFound | AlreadyResolved | NothingToRetainUnder | UnderHold | OutcomePending
    | BlankReference | NotAwaiting | NotDue | AlreadyHeld | AlreadyReleased

  ghost function ResolveRefusal(s: State, tenant: string, t: nat, how: Resolution): Option<Refusal> {
    if t >= |s.tasks| || s.tasks[t].case_.tenant != tenant then Some(NotFound)
    else if s.tasks[t].status != Pending then Some(AlreadyResolved)
    else if how.Retain? then (if Held(s, s.tasks[t].case_) then None else Some(NothingToRetainUnder))
    else if Held(s, s.tasks[t].case_) then Some(UnderHold)
    else if exists i :: i in Covered(s, tenant, s.tasks[t]) && Unsettled(s.intents[i].state) then Some(OutcomePending)
    else None
  }

  /** The clock is read twice: `cleared` after the payloads are gone, for the due date, and `now` for the record. */
  function Resolved(
    s: State, tenant: string, t: nat, how: Resolution, cleared: Instant, now: Instant, retention: int): State
    requires t < |s.tasks|
  {
    var task := s.tasks[t];
    if how.Retain? then
      s.(tasks := s.tasks[t := task.(status := Verified, outcome := Some(RetainedUnderHold),
          resolvedAt := Some(now), dueAt := None)])
    else
      s.(
        tasks := s.tasks[t := task.(
          status := Completed, outcome := Some(if how.Delete? then Deleted else Anonymized),
              resolvedAt := Some(now), dueAt := Some(cleared + retention))],
        evidence := ClearEvidence(s, task.evidence, how),
        intents := StripIntents(s, Covered(s, tenant, task)))
  }

  ghost function VerifyRefusal(s: State, tenant: string, t: nat, reference: string, now: Instant): Option<Refusal> {
    if Blank(reference) then Some(BlankReference)
    else if t >= |s.tasks| || s.tasks[t].case_.tenant != tenant || s.tasks[t].status != Completed then Some(NotAwaiting)
    else if s.tasks[t].dueAt.None? || s.tasks[t].dueAt.value > now then Some(NotDue)
    else if Held(s, s.tasks[t].case_) then Some(UnderHold)
    else None
  }

  // ---------------------------------------------------------------------------------------------
  // Steps

  /** Each call is one step. `pick` is the consent the query for the newest unrevoked one returned. The last four are
      what the rest of the system does: evidence and provider operations come and change. */
  datatype Action =
    | Grant(case_: Case, purpose: string, classes: set<string>, now: Instant)
    | Revoke(case_: Case, pick: nat, now: Instant)
    | Resolve(tenant: string, task: nat, how: Resolution, cleared: Instant, now: Instant, retention: int)
    | VerifyBackupExpiry(tenant: string, task: nat, reference: string, now: Instant)
    | PlaceHold(case_: Case)
    | ReleaseHold(tenant: string, hold: nat)
    | AddEvidence(case_: Case, value: string)
    | WriteEvidence(id: nat, written: Option<string>)
    | AddIntent(case_: Case)
    | WriteIntent(id: nat, state: IntentState, receipt: Option<string>, finding: Option<string>)

  /** A refused or impossible call changes nothing. */
  ghost predicate Accepted(s: State, a: Action) {
    match a
    case Grant(_, _, _, _) => true
    case Revoke(c, pick, _) => Newest(s.consents, c, true, pick)
    case Resolve(tenant, t, how, _, _, _) => ResolveRefusal(s, tenant, t, how).None?
    case VerifyBackupExpiry(tenant, t, reference, now) => VerifyRefusal(s, tenant, t, reference, now).None?
    case PlaceHold(c) => !Held(s, c)
    case ReleaseHold(tenant, h) => h < |s.holds| && s.holds[h].case_.tenant == tenant && s.holds[h].active
    case AddEvidence(_, _) => true
    case WriteEvidence(e, _) => e in s.evidence
    case AddIntent(_) => true
    case WriteIntent(i, _, _, _) => i in s.intents
  }

  ghost function Apply(s: State, a: Action): State {
    if !Accepted(s, a) then s
    else
      match a
      case Grant(c, purpose, classes, now) =>
        s.(consents := s.consents + [Consent(c, purpose, classes, now, None, None)])
      case Revoke(c, pick, now) =>
        s.(consents := s.consents[pick := s.consents[pick].(revokedAt := Some(now))],
            tasks := s.tasks + [Review(s, c, pick)])
      case Resolve(tenant, t, how, cleared, now, retention) => Resolved(s, tenant, t, how, cleared, now, retention)
      case VerifyBackupExpiry(_, t, reference, now) =>
        s.(tasks := s.tasks[t := s.tasks[t].(status := Verified, verifiedAt := Some(now),
            reference := Some(reference))])
      case PlaceHold(c) => s.(holds := s.holds + [Hold(c, true)])
      case ReleaseHold(_, h) => s.(holds := s.holds[h := s.holds[h].(active := false)])
      case AddEvidence(c, value) =>
        s.(evidence := s.evidence[s.evidenceIds := Evidence(c, Some(value))], evidenceIds := s.evidenceIds + 1)
      case WriteEvidence(e, value) => s.(evidence := s.evidence[e := s.evidence[e].(value := value)])
      case AddIntent(c) =>
        s.(intents := s.intents[s.intentIds := Intent(c, Prepared, None, None)], intentIds := s.intentIds + 1)
      case WriteIntent(i, state, receipt, finding) =>
        s.(intents := s.intents[i := Intent(s.intents[i].case_, state, receipt, finding)])
  }

  ghost function Run(s: State, actions: seq<Action>): State {
    if actions == [] then s else Apply(Run(s, actions[..|actions| - 1]), actions[|actions| - 1])
  }
}
