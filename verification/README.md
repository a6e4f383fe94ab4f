# Lending operations: a verified model

This project models the state-keeping cores of a multi-tenant lending platform in Dafny and proves what they
promise over every input, every run and, where calls interleave, every interleaving.

* **Agent budget.** Each workflow run has a ledger with four unit kinds, each tenant a monthly allowance; work is
  claimed before it is done and settled afterwards. `BudgetBooks.dfy` says what every call means without any counter,
  `BudgetLaws.dfy` proves conservation, limits, idempotency and liveness of that meaning, `BudgetGuards.dfy` what has to
  hold before a call changes anything, `BudgetLedger.dfy` is the service with its counters, updated in place, and proves
  that it computes exactly that meaning.
* **Policy resolution and its cache.** `PolicyCatalog.dfy` states declaratively which policy versions apply and
  `PolicyReasons.dfy` which reasons are due when none can be named, `PolicyResolver.dfy` has the loops that find both,
  `PolicyMeaning.dfy` says in plain terms what an answer means, `PolicyWording.dfy` what the texts of reasons tell,
  `PolicyStability.dfy` how long an answer lasts, `PolicyDigest.dfy` and `PolicyDependency.dfy` have canonical forms and
  digests. `PolicyEvaluation.dfy` is the evaluator as
  a machine of single reads and writes interleaved with releases, withdrawals, the reads and writes of propose calls,
  drafts, source revisions and time. `PolicyBindings.dfy` proves what rows and evaluators keep in every interleaving,
  `PolicyCache.dfy` when the cache agrees with the resolver, `PolicyHarm.dfy` that this condition is exact,
  `PolicyAge.dfy` how old what is reused may be and which answer each snapshot tells.
  `PolicyRuns.dfy` builds runs and `PolicyExample.dfy` is a small catalog for `PolicyLateProposal.dfy`, the run in which
  the cache goes wrong, and `PolicyStaleReuse.dfy`, the runs in which the fast path does. `PolicyImpact.dfy` shows that
  the dry run predicts the evaluation. `PolicyRelease.dfy` is the two-person release with reads and writes as separate
  steps, `PolicyWithdrawal.dfy` what becomes of released and withdrawn versions.
* **Keyset pages.** `Keyset.dfy` is the order, the cursor condition and the query; `AuditExport.dfy` the export loop,
  `CasePaging.dfy` the case list, `TextCoding.dfy` and `Numerals.dfy` what a cursor is made of.
* **Consent, retention review, legal hold.** `Compliance.dfy` has the rows and steps, `ComplianceLaws.dfy` and
  `ConsentLaws.dfy` what every run keeps, `ComplianceFrames.dfy` what calls leave alone and what an authorization goes
  back to, `ComplianceRaces.dfy` what overlapping resolve and place calls can do, `ComplianceDesk.dfy` the three
  services.
* **Messages.** `MessageRendering.dfy` fills templates, `MessageClassifier.dfy` classifies drafts,
  `MessageDelivery.dfy` drafts, approves and delivers call by call, `MessageRaces.dfy` with the read and the write of
  each call as separate steps, `MessageTenants.dfy` keeps tenants apart.

`Basics.dfy` and `Sorting.dfy` are shared vocabulary. A run is a sequence of calls, each with arbitrary arguments; a
refused call changes nothing. Clocks, database row order, tie-breaking and the content other parts of the system write
are parameters.

## What the code does not give

Where a natural expectation is false of the code, the model follows the code, shows the input, and proves exactly when
the expectation holds.

* Database timestamps have microseconds, a `Date` has milliseconds, and every cursor passes through a `Date`: a row
  that shares the millisecond of the last row of a page can be skipped by the next page. The audit export is exact if
  and only if no row hides at a page border or behind the cap (`AuditExport.ListAll`), the case list is complete if and
  only if its borders are clear (`CasePaging.PagesPartitionTheList`); whole-millisecond timestamps suffice. Two rows
  are enough to go wrong (`AuditExport.SharedMillisecondHides`, `CasePaging.SharedMillisecondHides`).
* An audit export with a cap below one fails on a missing row.
* A propose call reads DRAFT and writes PROPOSED in two steps. If the version was released in between, the write lowers
  it without a new generation (`PolicyRelease.ReleaseHoldsUnlessProposeInFlight`), and a binding keeps being reused that
  a fresh resolution would not confirm (`PolicyLateProposal.LateProposalSpoilsTheCache`). Such a write leaves the cache
  right for good if and only if its version is not in use: no active reusable binding holds it, and no resolution that
  an evaluator may still bind (`PolicyHarm.CacheStaysRightIff`). Versions that are not released when they are written
  are not in use (`PolicyCache.UnreleasedIsUnused`).
* A withdrawn version can be released again (`PolicyWithdrawal.WithdrawnComesBack`), if and only if an activate call past
  its status read, or a propose call that saw DRAFT, is still under way for it (`PolicyWithdrawal.ReleasedAgainIff`).
* An evaluator compares the generation it read with the one in a binding it reads later. What it reuses is what a fresh
  resolution finds at that second read if and only if no release or withdrawal came in between
  (`PolicyStaleReuse.SafeLagIff`). Otherwise it may even reuse a mixture of rows read before and versions read after the
  change, which was right at no moment (`PolicyStaleReuse.ReusesWhatNeverWas`).
* The context key joins codes with a bar. It identifies a context among all contexts if and only if none of its codes
  has a bar (`PolicyContextKey.KeyIsExactForPlain`); `PolicyContextKey.BarsCollide` has two contexts with one key.
* A grant takes effect for every reader if and only if it is newer than every consent its case already has
  (`ComplianceFrames.GrantTakesEffect`).
* A resolve call looks for holds before it clears, and nothing locks them: a hold placed in between does not save the
  evidence (`ComplianceRaces.HeldEvidenceIsLost`). Evidence that an active hold protects can still be lost if and only
  if a resolve call that looked before is about to clear a review that names it
  (`ComplianceRaces.HeldEvidenceLostIff`). Nor does anything keep two overlapping place calls from leaving two active
  holds; when that is still possible says `ComplianceRaces.SecondHoldIff`.
* Two grants of one instant: a revocation may leave the case reading as valid
  (`ConsentLaws.TiedGrantsOutliveRevocation`). It takes effect if and only if no unrevoked consent ties with the newest
  one (`ConsentLaws.RevokeTakesEffect`).
* A template placeholder with the name of an inherited object member (`valueOf`, `constructor`) counts as supplied
  (`MessageClassifier.BorrowedNameIsRoutine`, exactly when: `MessageClassifier.RoutineIsFullySupplied`). A flagged value
  under the empty variable name is not noticed (`MessageClassifier.EmptyNameHidesFlag`, exactly when:
  `MessageClassifier.RoutineIsUnflagged`); this needs a template that declares the empty name, which the seeding script
  never writes (`MessageClassifier.NamedVariablesAreChecked`).
* A refusal can carry a code whose condition does not hold (`BudgetLaws.UntruthfulRefusal`), if and only if the database
  clock and the application clock stand on different sides of the deadline of an open ledger with room left
  (`BudgetLaws.RefusalsAreTruthful`).
* A sent message can go out again if and only if it is PROTECTED (`MessageDelivery.GoesOutAgainIff`,
  `MessageDelivery.SentTwice`), although the delivery service's comment says an already sent message is never delivered.
  And since delivery reads without a lock, overlapping calls can send even a ROUTINE message twice: in a given state this
  is still possible if and only if it is unsent or two deliveries are out or under way
  (`MessageRaces.RoutineGoesTwiceIff`); calls that do not overlap keep the discipline
  (`MessageRaces.SerialDeliveriesAreDisciplined`).

## Model

| member | source | states |
|---|---|---|
| BudgetLaws.StepKeepsInv | src/agent-runtime/agent-budget-ledger.service.ts:195-551 | every call, whatever its arguments, keeps: amounts non-negative, held plus spent within each ledger's limit in all four units, keys unique, rows and months well formed |
| BudgetLaws.RunKeepsInv | src/agent-runtime/agent-budget-ledger.service.ts:195-551 | so does every run |
| BudgetLaws.NoRunOverspends | src/agent-runtime/agent-budget-ledger.service.ts:283-308 | from empty books, after any run, no ledger's claims and charges are negative or exceed its limit, and no (ledger, key) has two reservations |
| BudgetLaws.AnsweredChangesNothing | src/agent-runtime/agent-budget-ledger.service.ts:271-281 | a refusal, a miss or a replay leaves the books unchanged |
| BudgetLaws.StepExtends | src/agent-runtime/agent-budget-ledger.service.ts:553-588 | no call removes a reservation, changes what it claimed or reopens a settled one |
| BudgetLaws.RunExtends | src/agent-runtime/agent-budget-ledger.service.ts:553-588 | nor does any run |
| BudgetLaws.RetryNeverChargesTwice | src/agent-runtime/agent-budget-ledger.service.ts:266-352 | after a grant and any further run, a retry of the key leaves the books alone; one that sees the row is answered with that very reservation, or a conflict for other units; one that raced is refused or answered with that very reservation |
| BudgetLedger.VersionCounts | src/agent-runtime/agent-budget-ledger.service.ts:289-292 | in every sound state the stored version of a ledger is one plus its reservations plus the settled ones among them |
| BudgetLaws.SettlementNeverBlocked | src/agent-runtime/agent-budget-ledger.service.ts:371-521 | an open reservation can always be released and always be committed at or below its reserved cost, whatever operators did to allowances and whatever the month |
| BudgetLaws.SettlementStaysInItsMonth | src/agent-runtime/agent-budget-ledger.service.ts:662-733 | a settlement leaves the sums of every month other than the reserved one alone |
| BudgetLaws.CommitChargesItsMonth | src/agent-runtime/agent-budget-ledger.service.ts:663-703 | a commit charges its units at actual cost to its ledger, and to a month exactly when calls or cost were claimed |
| BudgetLaws.NoStepOverdrawsMonth | src/agent-runtime/agent-budget-ledger.service.ts:609-703 | whenever a call raises a tenant month's total, the new total is within the allowance in force at that call |
| BudgetLaws.RefusalsAreTruthful | src/agent-runtime/agent-budget-ledger.service.ts:791-828 | the refusal code names a condition that holds for every refusable request, if and only if the two clocks do not straddle the deadline of an open ledger with room left |
| BudgetLaws.UntruthfulRefusal | src/agent-runtime/agent-budget-ledger.service.ts:812-827 | a run from empty books after which a request that fits is refused as exhausted |
| BudgetGuards.GrantedIff | src/agent-runtime/agent-budget-ledger.service.ts:258-352 | a reserve call is granted, stale lookup or not, if and only if its units and key are valid, its ledger is its tenant's, open and before its deadline, its key is new there, it expects the current version, and ledger and month have room in the ledger's currency |
| BudgetGuards.GrantIsCurrent | src/agent-runtime/agent-budget-ledger.service.ts:283-308 | a reserve call that changes the books expected one plus the reservations plus the settled ones of its ledger, and adds exactly the row it asked for |
| BudgetGuards.OtherVersionConflicts | src/agent-runtime/agent-budget-ledger.service.ts:812-823 | for a new key on an open ledger before its deadline any other expected version is answered with a version conflict |
| BudgetGuards.OneGrantPerVersion | src/agent-runtime/agent-budget-ledger.service.ts:283-308 | over every run, of two granted reserve calls on one ledger the later one expected a higher version |
| BudgetGuards.RefusalNames | src/agent-runtime/agent-budget-ledger.service.ts:791-828 | which code a ledger that does not admit a new key answers with, in each of the four cases and no other |
| BudgetGuards.SnapshotReports | src/agent-runtime/agent-budget-ledger.service.ts:756-789 | a snapshot reports the version to expect next, a remainder that adds up to the limit, and the time left by the process clock |
| BudgetGuards.RunKeepsProper | src/agent-runtime/agent-budget-ledger.service.ts:195-660 | in every run ledgers have a currency and a deadline after their start, rows a bounded key and something claimed, and no month mixes currencies |
| BudgetGuards.CommittedIff | src/agent-runtime/agent-budget-ledger.service.ts:398-431 | an open row can be committed at a cost if and only if what goes beyond the reserved cost fits the ledger and, with a month, the allowance in force |
| BudgetGuards.UnknownHolds | src/agent-runtime/agent-budget-ledger.service.ts:525-551 | marking an open row unknown keeps all it holds |
| BudgetGuards.ReleaseReturns | src/agent-runtime/agent-budget-ledger.service.ts:445-523 | releasing an open row gives back exactly what it held and spends nothing |
| BudgetGuards.OpensOnce | src/agent-runtime/agent-budget-ledger.service.ts:195-235 | after any run, opening a workflow run's ledger again leads to that ledger for the same case, limits and currency and to a conflict otherwise |
| BudgetGuards.ManualSettlementIsSigned | src/agent-runtime/agent-budget-ledger.service.ts:367-391 | a manual settlement touches only a row of unknown outcome and leaves a name and a note on it |
| BudgetGuards.TenantsAreApart | src/agent-runtime/agent-budget-ledger.service.ts:258-551 | a call for one tenant leaves rows, months and allowances of all others as they were |
| BudgetLedger.SnapshotNeverClips | src/agent-runtime/agent-budget-ledger.service.ts:756-789 | the clipping at zero of the reported capacity never takes effect: remaining plus used plus reserved is the limit |
| BudgetLedger.ClaimIsCovered | src/agent-runtime/agent-budget-ledger.service.ts:401-425 | the capacity of an open claim is present in its ledger row and month row, which the unguarded settlement updates rely on |
| BudgetLedger.ClaimRefines | src/agent-runtime/agent-budget-ledger.service.ts:283-331 | moving the counters and storing the claim keeps counters equal to sums and means exactly the granted claim |
| BudgetLedger.SettleRefines | src/agent-runtime/agent-budget-ledger.service.ts:401-438 | moving the counters of a settlement keeps counters equal to sums |
| BudgetLedger.Service.Reserve | src/agent-runtime/agent-budget-ledger.service.ts:251-354 | the stored tables and the answer are those of the counter-free reserve step, for every interleaving of lookup and unique index |
| BudgetLedger.Service.ClaimLedger | src/agent-runtime/agent-budget-ledger.service.ts:283-311 | the conditional counter update succeeds exactly when the sums leave room, and its failure code is the specified one |
| BudgetLedger.Service.ReserveTenantAggregate | src/agent-runtime/agent-budget-ledger.service.ts:609-660 | the month row admits a claim exactly when the allowance in force does, opening the row on first use |
| BudgetLedger.Service.Commit | src/agent-runtime/agent-budget-ledger.service.ts:356-443 | tables and answer of the commit step |
| BudgetLedger.Service.CommitTenantAggregate | src/agent-runtime/agent-budget-ledger.service.ts:663-703 | the guarded month update succeeds exactly when the actual cost fits |
| BudgetLedger.Service.Release | src/agent-runtime/agent-budget-ledger.service.ts:445-523 | tables and answer of the release step |
| BudgetLedger.Service.ReleaseTenantAggregate | src/agent-runtime/agent-budget-ledger.service.ts:706-733 | its guard never fails |
| BudgetLedger.Service.MarkUnknown | src/agent-runtime/agent-budget-ledger.service.ts:525-551 | tables and answer of the mark-unknown step |
| BudgetLedger.Service.CreateOrLoad | src/agent-runtime/agent-budget-ledger.service.ts:195-235 | tables and answer of create-or-load, one ledger per (tenant, workflow run) |
| BudgetLedger.Service.Play | src/agent-runtime/agent-budget-ledger.service.ts:195-551 | any sequence of calls takes the stored tables, counters included, exactly where the counter-free meaning goes |
| PolicyDigest.CanonicalFormIsExact | src/policy/policy-digest.ts:10-25 | two JSON values have equal canonical forms if and only if they differ only in object key order, at any depth |
| PolicyDigest.CanonicalizeIsIdempotent | src/policy/policy-digest.ts:10-25 | canonicalizing twice changes nothing |
| PolicyDependency.DigestIsExact | src/policy/policy-evaluation.service.ts:34-45 | the dependency digest is a function of exactly the status, the bag of reasons and the set of versions |
| PolicyResolver.LoadCoveredAncestry | src/policy/policy-applicability-resolver.service.ts:182-219 | stops on every parent graph; succeeds exactly when the ancestry is acyclic, known and covered; otherwise names the one place where the walk over the parents cannot go on |
| PolicyReasons.BrokenOnce | src/policy/policy-applicability-resolver.service.ts:182-219 | a broken ancestry breaks for one reason only |
| PolicyReasons.CycleIsReal | src/policy/policy-applicability-resolver.service.ts:190-195 | the code a cycle is named at is reached and its parents lead back to it |
| PolicyResolver.ValidateSourceFreshness | src/policy/policy-applicability-resolver.service.ts:221-286 | no reason exactly when every jurisdiction of the path has sources and every source of it is fresh, then with the earliest deadline; otherwise each jurisdiction without a source and each source that is not fresh is named, once and with its one defect |
| PolicyResolver.ResolveApplicabilityInstant | src/policy/policy-applicability-resolver.service.ts:288-316 | the instant of each transition rule, or the truthful reason |
| PolicyResolver.CollectCandidates | src/policy/policy-applicability-resolver.service.ts:99-137 | the buckets and boundaries of exactly the released matching rows, and a reason for exactly those without an instant |
| PolicyResolver.PickFrom | src/policy/policy-applicability-resolver.service.ts:139-160 | one version per rule, and one conflict, with the exact count, for each rule with several candidates |
| PolicyResolver.Resolve | src/policy/policy-applicability-resolver.service.ts:44-180 | for every row order: RESOLVED exactly when the catalog is resolvable, with exactly the applicable versions and the earliest revalidation instant; otherwise all the reasons that are due at the stage that failed, each once, and no other |
| PolicyResolver.AnswersAgree | src/policy/policy-applicability-resolver.service.ts:44-180 | row order does not matter: same status, same revalidation instant, same bag of versions, same bag of reasons |
| PolicyMeaning.CountsIffReached | src/policy/policy-applicability-resolver.service.ts:182-219 | the jurisdictions that count are exactly those the walk over the parents comes to, all of them covered |
| PolicyMeaning.ResolvedMeans | src/policy/policy-applicability-resolver.service.ts:76-179 | RESOLVED names exactly the released versions that a row of a reached jurisdiction speaks for, for this product and event, in force at the instant its transition rule asks for; no two rows speak for one rule; every reached jurisdiction has sources, all within their hours |
| PolicyMeaning.DigestForgetsOrder | src/policy/policy-evaluation.service.ts:203-207 | two answers to one question, RESOLVED or not, have one digest |
| PolicyMeaning.DigestTellsReasons | src/policy/policy-evaluation.service.ts:203-207 | answers with one digest have one status and tell the same reasons |
| PolicyWording.WordsAreExact | src/policy/policy-applicability-resolver.service.ts:192-311 | the texts of two reasons are equal if and only if the reasons are of one kind and about the same code, source name, row and rule |
| PolicyStability.ResolutionIsStable | src/policy/policy-applicability-resolver.service.ts:99-179 | on an unchanged catalog a resolution repeats, with the same versions, at every later instant before its revalidation instant, forever if there is none |
| PolicyStability.RevisionsKeepResolution | src/policy/policy-applicability-resolver.service.ts:245-284 | recording more source revisions never spoils a resolution |
| PolicyStability.SameLiveSameResolution | src/policy/policy-applicability-resolver.service.ts:100-103 | catalogs with the same live rows resolve alike |
| PolicyContextKey.KeyIsExactForPlain | src/policy/policy-evaluation.service.ts:47-49 | the key of a context differs from that of every other context if and only if none of its codes has a bar |
| PolicyContextKey.Rival | src/policy/policy-evaluation.service.ts:47-49 | every context with a bar in a code shares its key with another one |
| PolicyContextKey.BarsCollide | src/policy/policy-evaluation.service.ts:47-49 | two contexts with one key |
| PolicyBindings.StepKeepsInv | src/policy/policy-evaluation.service.ts:151-326 | every single read or write of any evaluator or propose call, and every catalog change, keeps: bindings point to resolved snapshots of their case with their digest, one active per case, what evaluators have read or resolved consistent with the rows |
| PolicyBindings.RunKeepsInv | src/policy/policy-evaluation.service.ts:151-326 | so does every interleaving, late propose writes and codes with bars included |
| PolicyCache.StepKeepsKnowledge | src/policy/policy-evaluation.service.ts:156-326 | a step keeps every active binding, and every resolution that may still be bound, true to a fresh resolution up to its deadline, if and only if it is not a propose write to a version in use |
| PolicyCache.ProposeWriteIff | src/policy/policy-transition-approval.service.ts:31-45 | the write of a propose call keeps all that the cache knows if and only if no active reusable binding, and no resolution that an evaluator may still bind in time, holds its version |
| PolicyHarm.CacheStaysRightIff | src/policy/policy-transition-approval.service.ts:31-45 | while the cache knows, such a write leaves it right in every later state of every run without another write to a version in use, if and only if its version is not in use |
| PolicyHarm.HarmfulWrite | src/policy/policy-transition-approval.service.ts:42-45 | after a write to a version in use, steps of evaluators alone lead to an active reusable binding that a fresh resolution contradicts |
| PolicyCache.BindingsServeIff | src/policy/policy-transition-approval.service.ts:42-45 | lowering a version without a new generation keeps every active binding serving if and only if no active reusable binding holds it |
| PolicyCache.UnreleasedIsUnused | src/policy/policy-transition-approval.service.ts:34-45 | a propose write that finds its version not released harms nothing |
| PolicyCache.OrderlyIsGentle | src/policy/policy-transition-approval.service.ts:31-45 | a run whose propose writes all find their version not released has no write to a version in use |
| PolicyCache.LateWriteGoesWrong | src/policy/policy-transition-approval.service.ts:42-45 | after a propose write to a version that a reusable binding holds, that binding disagrees with the resolver |
| PolicyLateProposal.LateProposalSpoilsTheCache | src/policy/policy-transition-approval.service.ts:31-45 | a run from an initial state, two propose calls reading DRAFT, one writing, the version released in the order that PolicyRelease.ReleasedWithProposeInFlight shows approval to allow, then bound, then the late write, after which an active reusable binding disagrees with the resolver |
| PolicyCache.CacheAgreesWithResolver | src/policy/policy-evaluation.service.ts:156-196 | after any interleaving without a propose write to a version in use, every active binding with the current generation and resolver version and its deadline ahead holds exactly the versions a fresh resolution of its context, without bars, finds now |
| PolicyCache.FastPathIsFresh | src/policy/policy-evaluation.service.ts:179-196 | for a context without bars, from a state in which active bindings serve and the generation is the one read: if no propose write hits the binding and the generation stays, the fast path returns what the resolver would return at the moment of returning |
| PolicyCache.FastPathWasFresh | src/policy/policy-evaluation.service.ts:156-196 | for a context without bars, from a state in which active bindings serve and the generation is the one read: whatever run follows, a fast path with the binding then read returns what the resolver would have returned at that read |
| PolicyStaleReuse.SafeLagIff | src/policy/policy-evaluation.service.ts:156-196 | over all runs without a propose write to a version in use: what is reused is always fresh when the binding is read, if and only if no generation has passed since the generation was read |
| PolicyStaleReuse.ReusesWhatNeverWas | src/policy/policy-evaluation.service.ts:156-196 | a run without propose calls in which the fast path returns versions that no fresh resolution finds at any moment of the run |
| PolicyAge.ReuseIsRecent | src/policy/policy-evaluation.service.ts:51-196 | in every interleaving a fast path returns versions that the resolver named, for that case and context key, in an evaluation of the run that began less than 3,600,000 ms ago and whose own deadline has not passed |
| PolicyAge.BindingsLastAnHour | src/policy/policy-evaluation.service.ts:51-64 | in every interleaving no binding of this resolver release stays reusable for more than 3,600,000 ms from now |
| PolicyAge.SnapshotsTellAnswers | src/policy/policy-evaluation.service.ts:333-358 | in every interleaving each snapshot of this resolver release tells an answer the resolver gave for its case, with its versions, its reasons in words, and their digest |
| PolicyBindings.RunsAreCoherent | src/policy/policy-evaluation.service.ts:186-326 | in every interleaving, at most one active binding per case, and every returned resolution, snapshot and binding describe the same versions |
| PolicyBindings.RunsKeepHistory | src/policy/policy-evaluation.service.ts:333-370 | in every interleaving, snapshots are append-only, binding rows keep their content, an invalidated binding never becomes active again |
| PolicyImpact.VerdictIsBranch | src/policy/policy-change-impact.service.ts:19-47 | for a binding of the same resolver version and context, the dry run's verdict is the branch the slow path takes, in all three cases and both directions |
| PolicyImpact.DryRunPredicts | src/policy/policy-change-impact.service.ts:177-227 | no impact: reuse without a new snapshot; re-evaluation: one new snapshot and a refreshed binding; ambiguous: review and no active binding |
| PolicyRelease.ReleasesAreIndependent | src/policy/policy-activation.service.ts:67-113 | in every interleaving of reads and writes, every version ever released was approved by someone other than its proposer, although the gate compares no names |
| PolicyRelease.RunKeepsInv | src/policy/policy-transition-approval.service.ts:26-93 | approvals are kept and stay by someone else, callers between read and write included |
| PolicyRelease.ReleaseHoldsUnlessProposeInFlight | src/policy/policy-transition-approval.service.ts:26-54 | a released version can fall back to PROPOSED without a new generation if and only if a propose call that saw DRAFT is under way |
| PolicyRelease.ReleasedWithProposeInFlight | src/policy/policy-transition-approval.service.ts:26-54 | such a state is reachable |
| PolicyWithdrawal.GateIff | src/policy/policy-activation.service.ts:82-91 | activation passes its gate if and only if the latest proposal of the version has been approved |
| PolicyWithdrawal.WithdrawnWasReleased | src/policy/policy-activation.service.ts:115-140 | in every interleaving a withdrawn version was released before |
| PolicyWithdrawal.OnlyProposingIsSilent | src/policy/policy-activation.service.ts:93-101 | over every run generations only rise, and while the generation stands a status changes at most to PROPOSED |
| PolicyWithdrawal.ActivateIsRefused | src/policy/policy-activation.service.ts:74-81 | with no earlier activate or propose call under way, activating a released or withdrawn version throws and changes nothing else |
| PolicyWithdrawal.QuietStays | src/policy/policy-activation.service.ts:67-101 | then no run releases the version again, and once withdrawn it stays withdrawn |
| PolicyWithdrawal.ReleasedAgainIff | src/policy/policy-activation.service.ts:67-101 | in every reachable state a withdrawn version is released again in some later state if and only if an activate call past its status read, or a propose call that saw DRAFT, is under way for it |
| PolicyWithdrawal.WithdrawnComesBack | src/policy/policy-transition-approval.service.ts:26-54 | a run in which one does |
| Keyset.FetchIsSlice | src/audit/audit-event.service.ts:105-121 | a keyset query returns the stretch of the sorted listing that starts where its cursor cuts |
| Keyset.GrowthIsInvisible | src/audit/audit-event.service.ts:105-121 | rows added ahead do not change what a cursor into the older rows sees |
| Keyset.CutAfterRow | src/audit/audit-event.service.ts:131-132 | a cursor taken from a row passes that row, and no further one exactly when the next row is visible to it |
| AuditExport.ReadPages | src/audit/audit-event.service.ts:123-137 | after the loop only the probe behind the cap is left to decide |
| AuditExport.ListAll | src/audit/audit-event.service.ts:97-152 | terminates for every cap; fails exactly for caps below one; returns rows in strictly descending order without repetition; equals the first cap rows of the history as first seen, with the right truncation flag, if and only if no row hides at a page border or behind the cap; rows added meanwhile do not matter |
| AuditExport.HistoryIsOwn | src/audit/audit-event.service.ts:105-121 | the history that is exported is the tenant's own events, all of them, newest first |
| AuditExport.WholeMillisecondsHideNothing | src/audit/audit-event.service.ts:97-152 | with whole-millisecond timestamps the export is exact |
| AuditExport.SharedMillisecondHides | src/audit/audit-event.service.ts:148-151 | two rows of one millisecond can be reported as a complete export of one |
| TextCoding.ArmorRoundTrip | src/cases/case-cursor.ts:15-23 | base64 of UTF-8 decodes to the same text, for every text |
| CasePaging.CursorRoundTrip | src/cases/case-cursor.ts:15-33 | decoding undoes encoding if and only if the id is not empty and has no bar |
| CasePaging.ListIsPage | src/cases/case-query.service.ts:43-92 | an answer is the stretch of the filtered sorted list behind its cursor, its flag says truthfully whether more follows, its end cursor is that of its last row |
| CasePaging.ListIsWhatWasAsked | src/cases/case-query.service.ts:51-67 | the list that is paged through holds exactly the tenant's cases with the status and borrower asked for, where given, newest first |
| CasePaging.EdgeIsRow | src/cases/case-query.service.ts:84-87 | each edge carries a row of the page together with the cursor of that very row |
| CasePaging.AnyEdgeLeadsOn | src/cases/case-query.service.ts:68-92 | the cursor of any edge leads on behind its own row, and right behind it if and only if the next row does not hide |
| CasePaging.PagesPartitionTheList | src/cases/case-query.service.ts:43-92 | following end cursors ends, shows matching cases in order and none twice, and shows all of them if and only if no case hides at a page border, even while cases are added ahead |
| CasePaging.WholeBordersAreClear | src/cases/case-query.service.ts:68-74 | with whole-millisecond timestamps none hides |
| CasePaging.SharedMillisecondHides | src/cases/case-query.service.ts:68-82 | two cases of one millisecond in pages of one: no chain of pages shows both |
| ComplianceLaws.StepKeepsInv | src/data-disposition/data-disposition.service.ts:49-338 | every step keeps revoked consents and reviews in one-to-one correspondence, coverage within the case, deleted evidence gone, task fields as their status promises, one active hold per case |
| ComplianceLaws.RunKeepsInv | src/consent/consent.service.ts:99-129 | so does every run |
| ComplianceLaws.TaskEdges | src/data-disposition/data-disposition.service.ts:116-338 | a step leaves a review alone or takes it along one of three edges, each with its hold and clearing conditions |
| ComplianceLaws.ClearingClears | src/data-disposition/data-disposition.service.ts:162-249 | on COMPLETED all covered evidence is gone or blank and every covered provider operation is over and empty |
| ComplianceFrames.ClearingSpares | src/data-disposition/data-disposition.service.ts:190-241 | a clearing removes or blanks the evidence its review names, ends and empties the operations it names, and leaves every other row of every table as it was |
| ComplianceFrames.EvidenceEnds | src/data-disposition/data-disposition.service.ts:162-216 | evidence changes or goes only by being written, or by the clearing of a pending review of its own case and tenant that names it, with no hold active |
| ComplianceFrames.EvidenceStays | src/data-disposition/data-disposition.service.ts:162-216 | over every run without either, it stays |
| ComplianceFrames.HeldEvidenceStays | src/data-disposition/data-disposition.service.ts:146-161 | over every run, while a hold on the case is not released, none of its evidence is deleted or blanked |
| ComplianceFrames.HoldsComeAndGo | src/data-disposition/legal-hold.service.ts:31-98 | a case is held after a call if and only if the call placed a hold on it, or it was held and the call was not the release of that hold by its tenant |
| ComplianceFrames.CasesAreApart | src/data-disposition/data-disposition.service.ts:49-338 | a call about one case leaves consents, reviews, holds, evidence and operations of every other case as they were |
| ComplianceFrames.TenantsAreApart | src/data-disposition/data-disposition.service.ts:116-338 | resolving, verifying and releasing for one tenant touch no case of another |
| ComplianceRaces.ResolveAlone | src/data-disposition/data-disposition.service.ts:116-263 | reads and write of a resolve call that nothing interrupts are the resolve step |
| ComplianceRaces.PlaceAlone | src/data-disposition/legal-hold.service.ts:31-55 | likewise for placing a hold |
| ComplianceRaces.HeldEvidenceLostIff | src/data-disposition/data-disposition.service.ts:140-241 | with reads and writes as separate steps, in every reachable state: evidence under an active hold can be deleted or blanked without the hold being released if and only if a resolve call that found no hold is about to clear a review that names it |
| ComplianceRaces.HeldEvidenceIsLost | src/data-disposition/data-disposition.service.ts:140-241 | a run in which the hold is active and the evidence gone |
| ComplianceRaces.SecondHoldIff | src/data-disposition/legal-hold.service.ts:37-55 | a case with one active hold gets a second one beside it if and only if a place call that found none is under way |
| ComplianceLaws.ReviewsLiveByTheRules | src/data-disposition/data-disposition.service.ts:116-338 | in every run a VERIFIED review was retained in a step with a hold active, or first cleared and later, not before its due date, verified, with no hold at either step |
| ComplianceLaws.BackupWindowIsKept | src/data-disposition/data-disposition.service.ts:242-260 | in every run a cleared review is verified no earlier than the retention of its clearing step after the clock reading that step took behind the deletion |
| ConsentLaws.RevokedForEver | src/consent/consent.service.ts:115-118 | a revoked consent keeps its revocation in every later state |
| ConsentLaws.RevocationNamesEverything | src/data-disposition/data-disposition.service.ts:49-82 | a revocation opens a review naming all evidence and operations of the case at that moment, and every later state still names exactly those |
| ConsentLaws.RevokeTakesEffect | src/consent/consent.service.ts:105-122 | the case reads as revoked at once if and only if no other unrevoked consent ties with the newest |
| ConsentLaws.TiedGrantsOutliveRevocation | src/consent/consent.service.ts:105-122 | a run with two grants of one instant where it does not |
| ConsentLaws.RevokedUntilNextGrant | src/consent/consent.service.ts:140-148 | once revoked, a case stays revoked until its next grant, whatever earlier unrevoked grants it has |
| ConsentLaws.RevokedReads | src/consent/consent.service.ts:140-176 | then the status is REVOKED and no record authorizes any purpose |
| ConsentLaws.RevocationHolds | src/consent/consent.service.ts:99-148 | with strictly increasing grant times every revocation takes effect and holds until the next grant of its case |
| ComplianceFrames.AuthorizationWasGranted | src/consent/consent.service.ts:160-176 | over every run, what is authorized goes back to a grant of the run that gave the case that purpose and each of those classes, unrevoked, unexpired, and none newer |
| ComplianceFrames.ValidConsentAuthorizes | src/consent/consent.service.ts:160-176 | a valid newest consent authorizes its purpose for a set of classes if and only if it grants each of them |
| ComplianceFrames.GrantTakesEffect | src/consent/consent.service.ts:58-87 | after a grant every reader is given the new consent, valid and authorizing what was granted, if and only if every earlier consent of the case is older |
| ComplianceFrames.StandingMeans | src/consent/consent.service.ts:140-148 | what each of the four statuses says about the consent it was read off, and nothing else |
| ComplianceDesk.Desk.FindNewest | src/consent/consent.service.ts:191-201 | a newest matching consent, or none when none matches |
| ComplianceDesk.Desk.RevokeConsent | src/consent/consent.service.ts:99-129 | the new tables are those of the revoke step for the consent found; nothing changes when there is none |
| ComplianceDesk.Desk.OpenRetentionReview | src/data-disposition/data-disposition.service.ts:49-82 | adds one pending review that covers the case, and nothing else |
| ComplianceDesk.Desk.GetStatus | src/consent/consent.service.ts:140-148 | the standing read off a newest consent |
| ComplianceDesk.Desk.ActiveRecordForPurpose | src/consent/consent.service.ts:160-176 | the newest consent when it authorizes the purpose and all classes, else none |
| ComplianceDesk.Desk.IsRecordValid | src/consent/consent.service.ts:215-246 | true exactly for an unrevoked, unexpired record that matches what is expected |
| ComplianceDesk.Desk.ResolveTask | src/data-disposition/data-disposition.service.ts:116-263 | refuses for exactly the specified reason, in order, and otherwise takes the resolve step |
| ComplianceDesk.Desk.ClearPayloads | src/data-disposition/data-disposition.service.ts:190-241 | cancelling, deleting or blanking, and stripping in three updates is the specified clearing |
| ComplianceDesk.Desk.VerifyExpiry | src/data-disposition/data-disposition.service.ts:283-327 | refuses for exactly the specified reason and otherwise takes the verify step |
| ComplianceDesk.Desk.HasActiveHold | src/data-disposition/legal-hold.service.ts:113-125 | true exactly when the case has an active hold |
| ComplianceDesk.Desk.PlaceLegalHold | src/data-disposition/legal-hold.service.ts:31-55 | refuses exactly when one is active, otherwise adds one |
| ComplianceDesk.Desk.ReleaseLegalHold | src/data-disposition/legal-hold.service.ts:68-98 | refuses unknown, foreign and released holds, otherwise releases |
| MessageRendering.KeyAtIsExact | src/communications/communication-render.ts:1 | the pattern matches at a place exactly where a placeholder stands |
| MessageRendering.EveryPlaceholderIsFilled | src/communications/communication-render.ts:27-37 | whatever surrounds it, every occurrence is replaced by its value, or left in place without one, and values are never scanned again |
| MessageRendering.PlainTextStays | src/communications/communication-render.ts:27-37 | text without placeholders is unchanged |
| MessageRendering.LacksAreMissing | src/communications/communication-render.ts:27-34 | the missing variables are exactly the occurring keys without a value |
| MessageRendering.RenderTemplate | src/communications/communication-render.ts:18-39 | the left-to-right scan computes that content, those missing and those unknown variables |
| MessageClassifier.FindNegativeImplication | src/communications/communication-classifier.ts:55-67 | the first flagged variable in enumeration order, or none |
| MessageClassifier.FlagIgnoresCase | src/communications/communication-classifier.ts:40-67 | a value is flagged if and only if one of the keywords stands in it somewhere, in whatever capitalization |
| MessageClassifier.Classify | src/communications/communication-classifier.ts:79-165 | outcome, reasons in order, content and template of every branch, the throwing one included |
| MessageClassifier.ReasonsAreExact | src/communications/communication-classifier.ts:108-165 | a draft from a template is given exactly the reasons for what is wrong with it |
| MessageClassifier.RoutineIff | src/communications/communication-classifier.ts:79-165 | ROUTINE if and only if the template is approved and suits the draft, all placeholders are answered, all variables declared, and no finding has a name |
| MessageClassifier.RoutineIsFullySupplied | src/communications/communication-classifier.ts:139-148 | a ROUTINE draft's placeholders are within its supplied and declared variables if and only if none borrows an inherited name |
| MessageClassifier.RoutineContent | src/communications/communication-render.ts:27-37 | then every occurrence is replaced by the supplied value |
| MessageClassifier.RoutineIsUnflagged | src/communications/communication-classifier.ts:149-154 | a ROUTINE draft has no flagged value if and only if its empty-named variable has none |
| MessageClassifier.NamedVariablesAreChecked | src/seed-communication-template.ts:69-73 | with no empty declared name, as seeded templates have it, a ROUTINE draft carries no flagged value |
| MessageClassifier.EmptyNameHidesFlag | src/communications/communication-classifier.ts:149-154 | a ROUTINE draft with a flagged value under the empty name |
| MessageClassifier.BorrowedNameIsRoutine | src/communications/communication-render.ts:31 | a template asking for an inherited name is ROUTINE with nothing supplied |
| MessageDelivery.RunKeepsInv | src/communications/communication-delivery.service.ts:48-111 | every run keeps approvals equal to deliveries plus one if approved, for each PROTECTED message, and every hash that of its content |
| MessageDelivery.DeliveryDiscipline | src/communications/communication-delivery.service.ts:48-111 | in every run a ROUTINE message goes out at most once, a PROTECTED one no more often than it was approved, each approval and delivery bound to the hash of its content |
| MessageDelivery.ContentNeverChanges | src/communications/communication-message.service.ts:35-73 | content, hash and classification of a message never change |
| MessageDelivery.HashTellsContent | src/communications/communication-message.service.ts:58-66 | equal hashes mean equal content |
| MessageTenants.CallsOfItsTenant | src/communications/communication-delivery.service.ts:52-60 | over every run a message is delivered and approved no more often than its own tenant asked |
| MessageTenants.OthersChangeNothing | src/communications/communication-approval.service.ts:48-60 | what other tenants do leaves a message exactly as it is |
| MessageTenants.RoutineUsesOwnTemplate | src/communications/communication-message.service.ts:41-70 | over every run a ROUTINE message is filled in from a template that its own tenant had put, approved, before it was drafted |
| MessageDelivery.RoutineComesFromApprovedTemplate | src/communications/communication-message.service.ts:41-70 | in every run, whatever stands as a ROUTINE message is the filled-in text of a template that was approved and suited the draft at drafting time |
| MessageDelivery.GoesOutAgainIff | src/communications/communication-approval.service.ts:74-78 | a sent message can be delivered again in some run if and only if it is PROTECTED |
| MessageDelivery.ProtectedCanGoOutAgain | src/communications/communication-approval.service.ts:74-78 | approving and delivering a sent PROTECTED message sends it once more |
| MessageDelivery.SentTwice | src/communications/communication-approval.service.ts:74-78 | a run of five calls that sends one PROTECTED message twice |
| MessageRaces.PlayKeepsInv | src/communications/communication-delivery.service.ts:52-111 | with reads and writes as separate steps, every interleaving keeps ROUTINE messages drafted or sent, unsent ones undelivered, and pending approvals on PROTECTED ones |
| MessageRaces.RoutineGoesTwiceIff | src/communications/communication-delivery.service.ts:52-91 | with reads and writes as separate steps, a ROUTINE message can still be delivered twice if and only if it is unsent or two deliveries of it are out or under way |
| MessageRaces.SerialDeliveriesAreDisciplined | src/communications/communication-delivery.service.ts:52-91 | if deliver calls of one message do not overlap, then however approvals interleave, ROUTINE goes out at most once and PROTECTED no more often than approved |
| MessageDelivery.Desk.DraftFor | src/communications/communication-message.service.ts:35-73 | the new tables are those of the draft step; nothing when classification throws |
| MessageDelivery.Desk.ApproveMessage | src/communications/communication-approval.service.ts:48-94 | which of the four answers, and the tables of the approve step |
| MessageDelivery.Desk.DeliverMessage | src/communications/communication-delivery.service.ts:48-111 | which of the three answers, and the tables of the deliver step |

## Left out

- Integer columns: amounts are unbounded integers; the error a 32-bit column would raise on overflow is not modelled, only the 32-bit check of ledger limits.
- Currency text: three-letter codes are compared as stored; the padding that the database trims is not modelled.
- `observe`, `listUnknown`, aggregate reporting, telemetry: reads that add nothing to the ledger's laws.
- Closing a ledger: no code in the modelled service closes one, so the model has the flag but no call that sets it.
- Policy rule language: rules are opaque JSON documents; a document that fails to parse is not modelled.
- SHA-256 is taken to be injective on canonical forms, so a digest stands for the form it hashes.
- ISO timestamps inside keys, cursors and the texts of reasons are decimal milliseconds, and row ids in texts are numbers; `Date` parsing of other texts is not modelled.
- Object keys that look like integers, which JavaScript enumerates first, and text with lone surrogates.
- Lower-casing beyond ASCII: the lower case of no other character puts a keyword together, so only ASCII letters are lowered.
- `policyResearchService`: the request for research after an unresolved resolution has no effect on the model's rows.
- `assessImpact`: the search for candidate cases, which matches only the exact jurisdiction, is not modelled; only the verdict for a given case is.
- PolicyCache.CacheAgreesWithResolver: names a context without bars in its codes; for others the key says nothing, by PolicyContextKey.KeyIsExactForPlain.
- Jurisdictions and policy sources do not change while evaluators run; the model has no step for it.
- PolicyBindings.RunsAreCoherent: says nothing about freshness of what the loser of a race returns; it is the winner's snapshot.
- Row-level security and SQL text: tables are sequences and maps, a transaction is one step, a unique index is a guard on insertion.
- ComplianceFrames.HeldEvidenceStays: is about calls that are single steps; overlapping resolve and place calls are the subject of ComplianceRaces. Grant, revoke, verify and release calls are single steps everywhere.
- ComplianceLaws.StepKeepsInv: is about calls that are single steps, one hold per case included; see ComplianceRaces.SecondHoldIff.
- MessageDelivery.DeliveryDiscipline: is about calls that are single steps; overlapping calls are the subject of MessageRaces. A delivery whose transaction fails after the message was handed over is not modelled.
- Consent scope text: a consent's data classes are given as a set, not parsed from comma-separated text.
- Retention hours that are not a number, and audit events written after a change: not modelled.
- Case ids are compared as text; an id in a cursor that is not a UUID makes the database fail, which is not modelled.
- Controllers, resolvers, command-line scripts, sessions, ciphers, workflows, provider dispatch, underwriting thresholds, tenant purge: wiring, easy members or code outside these cores.
