# Verification of the licence and identity protocols

A Dafny model of the protocol core of the voting client, and proofs about it. Two
protocols are modelled as they run, over every sequence of host operations, every answer of
their ports and every suspension at which a lock may fire:

- the **licence entitlement coordinator**: query-first reconciliation, seal before submit, exact
  retry, confirmed upgrades, competing activations and lock invalidation;
- the **identity convergence coordinator** over its sealed two-slot store: lookup first, seal,
  submit the same bytes.

Beside them stand the journals and the exact codecs they depend on: the native two-slot journal
under failing, torn and interrupted storage operations, the web journal, the pending record in two
languages, JSON texts that are signed, DER signatures, UTC instants, BIP-39 checksums and the
deduplication of identity candidates.

## How it is built

| file | what it holds |
|---|---|
| `Wrappers`, `TextFormats`, `LicenceContracts` | options, fixed text formats, the frozen vocabulary |
| `LicenceProjection`, `LicenceQueryParser`, `LicencePending` | the pure parts: projection, parser, staged records |
| `LicenceShown` | which licences are shown, and that each is shown member by member |
| `LicenceSession` | the licence coordinator as a transition system with a log of what it did |
| `LicenceCoordinator` | the coordinator as a class; every method is proved to be its operation of `LicenceSession` |
| `LicenceTrace`, `LicenceSessionSafety`, `LicenceGuarantees` | what a log says, the invariant of every run, and what may never happen |
| `LicenceClock`, `LicenceLeaves` | what the log says about time and restrictions, what queries leave alone |
| `LicenceDeeds`, `LicenceTicks`, `LicenceExpiry`, `LicenceOutcomes`, `LicenceSubmissions` | what does happen: which operation asks or hands over, what a tick, an answer and an admission decide |
| `LicenceAnswers`, `LicenceIntent`, `LicenceRuns` | refused answers in a run, the purpose declared by the exact bytes, runs that reach the corners |
| `IdentityPending`, `IdentityConvergence`, `IdentityCoordinator`, `IdentitySafety` | the same layers for identities |
| `IdentityDeeds`, `IdentityWindow` | what a confirmation, a resumption and a poll do, and the window read from the log |
| `NativeJournal`, `WebLicenceJournal` | the two journals, each as specification, class and whole runs |
| `JsonText`, `LicenceCanonicalText`, `PendingCodec`, `NativePendingRecord` | texts and records, with readers that undo the writers |
| `SignedTexts`, `SignedWriters` | the signed texts under their literal member names, and when the two writers agree |
| `SignatureEncoding`, `UtcInstants`, `Mnemonics`, `MnemonicNumbers`, `MnemonicTexts`, `Candidates` | codecs and algorithms |

An operation of a coordinator is a function from state to state (`Spec…`), so that lemmas can speak
about it; the class in the source's own form is proved equal to it, field by field, and `RunHost`
shows that a driver of the class reaches exactly the states of `Run`. Properties over runs are
stated on the ghost log: `EntryOk` says when each kind of entry may follow a log, the invariant says
that every entry of a run was allowed, and the theorems read off what that means. What must happen is
stated the other way round: from every reachable state, the first port call of an operation, and the
entries that follow an answer or an admission, are determined exactly, again from the log and the
fields a surface shows, with names and bounds written out.

Modelling decisions:

- An asynchronous port answers from a tape: before an answer arrives `lock()` may fire, and the port
  may reject; an exhausted tape rejects. This also bounds the recursion from "already exists" to
  "no active licence", which nothing in the source bounds.
- Host operations are serialised, except `lock()`: `retryExact` reaches `submitPending` without
  testing `inFlight` (`coordinator.ts:327`, `:803`), so overlapping calls are not excluded by the
  source itself.
- The journal that the licence coordinator drives returns, for an id, any record saved under it and
  not deleted since, the same one until the next write, and saves may fail. `WebLicenceJournal`
  shows that the web journal is one of these.
- Transaction identities are minted fresh (`MintsFresh`). SHA-256, `Date.parse`, `toISOString`,
  `toLowerCase`, the reader of a payload's intent and the signer are functions about which nothing is
  assumed, except where a lemma says so in its `requires`.
- A JavaScript text is a sequence of Unicode scalar values; where a bound matters, UTF-16 and UTF-8
  lengths are computed from it (`Utf16Length`, `Utf8Length`).

Results that correct or sharpen what the source says of itself:

- `coordinator.ts:1115-1116` calls a refusal of the upgrade builder unreachable. For what a session
  offers, the builder refuses exactly if the licence reference is no UUID, the plan is Direct Free,
  or the minted identity is malformed or that of the licence (`BuilderRefusesExactly`); two runs
  reach it by the first two routes (`BuilderRefusalIsReachable`). The model follows the code.
- A ready session may show a licence although the latest answer refused its authentication, when the
  second attempt is cut off (`RefusedQueryKeepsLicence`). What is shown is the latest answer exactly
  if no consecutive refusals are counted (`ReadyShowsLatestAnswer`).
- The 30 s window counts from the eligible tick before a submission, not from the submission itself
  (`FirstTickAfterSubmission`); a run shows it (`DelayCountsFromTickBefore`). `coordinator.ts:292-294`
  says that an outage restarts it, but the mark of the window stays where it was, so the delay is due
  only after the time counted before the mark has been counted again (`OutageLengthensWindow`).
- The purpose guard of a submission never refuses a record that this session sealed
  (`PurposeGuardPasses`).
- The query text of the web writer is not escaped. It still determines actor and time, whatever the
  actor, because an instant holds no quotation mark (`WebQueryEnvelopeIsInjective`); without that
  proviso it is shared exactly if the fixed text between the two occurs elsewhere in it
  (`WebQueryEnvelopeIsShared`). The two writers agree exactly on texts that need no escape
  (`QueryWritersAgree`).
- `resume` never restores the sealed reference, so the poll loop stays idle after a restart
  (`ResumeNeverArms`); a corrected review after an editable rejection sends the rejected bytes again
  (`SignsExactlyWhenNothingBound`).
- The web journal loads the first record saved under an id, never a later one
  (`SecondSaveIsNotSeen`). `journal-adapter.ts:81` says that corruption rolls back to the other
  slot; after a second save both slots are committed, and a load rolls back exactly if a refused save
  came after it (`DamageRollsBackExactly`).
- A disturbed write of the native journal is atomic exactly if the committed slot is intact or nothing
  is committed (`SeeingWriteIsAtomicExactly`), and with an unreadable pointer exactly if slot B is not
  the committed one (`BlindWriteIsAtomicExactly`). A read falls back from a missing, empty or
  unreadable committed slot, not from a damaged one (`LossShowsPrevious`), and an interrupted clear
  can show the record before the last (`InterruptedClear`).
- The native validator of pending records and the web parser accept the same records, except that the
  one asks for texts that fit in bytes and the other for a UUID, a lower-case digest and well-formed
  instants (`ValidatorsAgreeExactly`).
- A recovery phrase that P-01 accepts with 24 words is accepted by P-02 exactly if its white space is
  spaces, tabs, newlines and carriage returns (`ProducersAgreeExactly`).
- Deduplicating candidates preserves every lookup exactly if the joined keys tell the address pairs
  apart (`LookupIsKeptExactly`); addresses without a bar always do.

## Model

| member | source | states |
|---|---|---|
| LicenceGuarantees.SealedBeforeSubmit | src/lib/licensing/coordinator.ts:630-869 | in every run, whenever a record is submitted, loading its id from the journal at that call gives a record with the same bytes and digest, those first sealed under the id; never while locked, never after its success |
| LicenceGuarantees.RetriesAreExact | src/lib/licensing/coordinator.ts:790-935 | any two submissions of one id in a run, across retries, locks and restarts, carry identical bytes |
| LicenceGuarantees.TickNeverResubmits | src/lib/licensing/coordinator.ts:237-279 | from every reachable state with a record in the journal, a tick seals and submits nothing, whatever the ports answer |
| LicenceGuarantees.QueryIssuesNothing | src/lib/licensing/coordinator.ts:510-690 | a query after an authoritative rejection, with an upgrade held, or for a poll with any record held, seals and submits nothing |
| LicenceGuarantees.RejectionIssuesNothing | src/lib/licensing/coordinator.ts:353-360 | revalidating after an authoritative rejection only observes |
| LicenceDeeds.RetrySubmitsExactly | src/lib/licensing/coordinator.ts:327-336 | from every reachable state, the first port call of an exact retry hands over the pending record, with what the journal shows under its id, if there is one, and is a question if there is none |
| LicenceDeeds.RecoverySubmitsExactly | src/lib/licensing/coordinator.ts:339-347 | the same for a recovery, which does nothing only when locked with nothing pending |
| LicenceDeeds.OperationsAskExactly | src/lib/licensing/coordinator.ts:212-444 | from every reachable state, a start, a revalidation, a reconnection and a confirmation ask first if and only if their conditions hold, and no other operation calls a port at once |
| LicenceOutcomes.HeldIsHandedOverExactly | src/lib/licensing/coordinator.ts:630-690 | after a no-active answer a held upgrade, and any record at a poll, only waits; outside a poll a held baseline is handed over right after the answer, as the journal shows it |
| LicenceOutcomes.TemplateIsSealedExactly | src/lib/licensing/coordinator.ts:662-698 | with nothing held, the template is sealed under the next identity and handed over right after the answer if and only if its catalogue is bounded and the journal takes it; otherwise the session needs repair |
| LicenceOutcomes.RestrictedOnlyObserves | src/lib/licensing/coordinator.ts:630-645 | after an authoritative rejection a no-active answer leads to no further call |
| LicenceOutcomes.LicenceOpens | src/lib/licensing/coordinator.ts:560-580 | an active licence is shown, lifts the restriction, and resolves a held baseline as confirmed if it is its own and as superseded otherwise |
| LicenceOutcomes.RefusalsClose | src/lib/licensing/coordinator.ts:581-628 | every other answer shows nothing, names its phase and code, and leads to no further call |
| LicenceSubmissions.AdmissionsDecide | src/lib/licensing/coordinator.ts:803-869 | each of the five admissions: the evidence noted and saved, the phase and code, and the query that follows at once for an existing transaction or a rejected upgrade |
| LicenceSubmissions.UnansweredSubmission | src/lib/licensing/coordinator.ts:803-811 | a submission whose answer never comes keeps its record, its phase and the licence shown |
| LicenceSubmissions.RejectedUpgradeRetires | src/lib/licensing/coordinator.ts:880-905 | a rejected upgrade over an unchanged licence is noted as retired, deleted and reviewed as stale |
| LicenceSubmissions.RefusalAsksOnce | src/lib/licensing/coordinator.ts:510-552 | a refused authentication asks exactly once more, a second one locks the session out, and a query for the reason 'retry' is not asked again |
| LicenceSubmissions.ConfirmationSealsExactly | src/lib/licensing/coordinator.ts:382-444 | answered with a licence, a confirmation seals and hands over its upgrade right after the answer if and only if that licence is the one displayed, still offers another plan, the builder accepts and the journal saves; each other case names its cause and seals nothing |
| LicenceDeeds.PausesAndOutages | src/lib/licensing/coordinator.ts:282-312 | what a pause and an outage show and what they keep |
| LicenceDeeds.UnansweredStart | src/lib/licensing/coordinator.ts:212-229 | before its question is answered a start has forgotten every notice, count and wake-up, and asks once |
| LicenceDeeds.LockForgets | src/lib/licensing/coordinator.ts:460-475 | a lock forgets everything but the journal |
| LicenceGuarantees.OneOperationPerAuthority | src/lib/licensing/coordinator.ts:382-475 | between operations of any run, pending id and record agree and are in the journal, which holds at most one transaction of this actor and network; a ready session with nothing pending has an empty journal |
| LicenceGuarantees.UpgradesComeFromFreshTruth | src/lib/licensing/coordinator.ts:404-443 | an upgrade is sealed only inside its confirmation, from the active licence returned by a query of that call, equal to the displayed one and still offering the plan, with the binding copied from it, under an unused id and with nothing else held |
| LicenceGuarantees.BaselinesComeFromTheServer | src/lib/licensing/coordinator.ts:662-698 | a baseline is sealed only from the template of a no-active answer of the same operation |
| LicenceRuns.BuilderRefusesExactly | src/lib/licensing/upgrade.ts:103-160 | for the projection of an active licence and any bounded plan other than its own, the builder refuses if and only if the licence reference is no UUID, the plan is Direct Free, or the minted identity is malformed or the licence's own |
| LicencePending.UpgradeRefusedExactly | src/lib/licensing/upgrade.ts:103-136 | the builder accepts exactly the inputs that meet seven conditions, and otherwise names the first that fails |
| LicenceRuns.ConfirmationRefusedExactly | src/lib/licensing/coordinator.ts:1107-1119 | the run that shows a licence and confirms one of its offers ends in the builder's repair if and only if that condition holds, with nothing sealed |
| LicenceRuns.BuilderRefusalIsReachable | src/lib/licensing/coordinator.ts:1107-1119 | two concrete runs end there: with a reference that is no UUID, and with Direct Free on offer |
| LicenceGuarantees.RefusalSealsNothing | src/lib/licensing/coordinator.ts:1107-1119 | whatever the builder refuses, nothing is sealed or stored and the repair names the refusal |
| LicenceGuarantees.PurposeGuardPasses | src/lib/licensing/coordinator.ts:790-800 | in the middle of every operation, whatever is pending or in the journal declares its own purpose in its exact bytes, so the guard of a submission never refuses it |
| LicenceGuarantees.PendingIsCoherent | src/lib/licensing/upgrade.ts:175-208 | nor does any run leave a pending or journalled record that a later submission would refuse for its purpose |
| SignedTexts.TransactionIsRead | src/lib/licensing/canonical.ts:21-63 | the web's canonical transaction parses to exactly its members under their literal names and in their frozen order, and PayloadSize is the byte length of the payload's text |
| SignedTexts.UpgradeNamesItsPreconditions | src/lib/licensing/canonical.ts:21-40 | in an upgrade, the expected transaction, the expected plan, the requested plan and the catalogue are found under their own literal names |
| SignedWriters.TransactionWritersAgree | src-tauri/src/licence_vault.rs:49-123 | the native writer signs the same bytes if and only if no text of the transaction holds U+2028 or U+2029 |
| SignedWriters.NativeTransactionIsRead | src-tauri/src/licence_vault.rs:60-123 | so the native transaction has the same members under the same names |
| SignedTexts.QueryIsRead | src-tauri/src/licence_vault.rs:37-46 | the query envelope parses to exactly its four literal members |
| LicenceIntent.UnsignedTransactionDeclares | src/lib/licensing/upgrade.ts:175-208 | it parses, and the intent read from it is that of its payload |
| LicenceGuarantees.SuccessIsTruthful | src/lib/licensing/coordinator.ts:743-788 | local success is recorded only for a sealed upgrade whose own id is the reference of the active licence last reported |
| LicenceGuarantees.SuccessAtMostOnce | src/lib/licensing/coordinator.ts:756-777 | each sealed id succeeds at most once in a run |
| LicenceGuarantees.NotificationMeansSuccess | src/lib/licensing/coordinator.ts:756-777 | notification eligibility implies a retained and recorded success, with no upgrade live in memory or journal |
| LicenceGuarantees.ReconciliationTable | src/lib/licensing/coordinator.ts:719-788 | an active licence decides a held upgrade three ways and no other: old licence keeps it pending; own id notes it confirmed, empties the journal and reports the operation member by member; any other notes it superseded, empties the journal and claims nothing |
| LicenceGuarantees.ReadyMeansActiveLicence | src/lib/licensing/coordinator.ts:554-628 | a ready session shows, member by member and for this actor and network, the licence of the latest answer that was not a refused authentication, and that licence is presentable |
| LicenceShown.PresentedExactly | src/lib/licensing/projection.ts:262-350 | a licence is shown if and only if every member is present, within its bound and known; otherwise the reason is that of the first group that fails |
| LicenceShown.BuiltShows | src/lib/licensing/projection.ts:350-377 | each of the seventeen members shown is the member of the same name of the licence, with the two bindings, and the options are copies of the first offers in order |
| LicenceShown.AnswersAreClassified | src/lib/licensing/parser.ts:80-143 | which answer establishes which outcome, in both directions, with the templates and codes accepted written out |
| LicenceAnswers.ReadyShowsLatestAnswer | src/lib/licensing/coordinator.ts:510-552 | a ready session shows the licence of the latest answer of all if and only if no consecutive refusals are counted; otherwise the latest answer was a refused authentication |
| LicenceRuns.RefusedQueryKeepsLicence | src/lib/licensing/coordinator.ts:510-552 | a run with the second case: ready, refused once, no second answer, still ready with the old licence |
| LicenceGuarantees.GatesNeedFreshTruth | src/lib/licensing/coordinator.ts:212-360 | from every reachable state, after a start, revalidation, outage, lock or restart a projection is shown only if a query of that operation established it; after an outage, lock or restart none is |
| LicenceExpiry.ExpiryNeedsFreshTruth | src/lib/licensing/coordinator.ts:247-259 | an eligible tick at or past the expiry of the licence shown, not asked about within the last minute, leaves a licence shown only if its own query reported it, and asks again after 60 000 ms |
| LicenceExpiry.ExpiryAsksAgainExactly | src/lib/licensing/coordinator.ts:247-259 | if the same licence is still shown at the next tick, it is due again if and only if a minute has passed |
| LicenceSessionSafety.AdmissionKeeps | src/lib/licensing/coordinator.ts:812-857 | no admission result changes the projection or turns a session without one into ready |
| LicenceGuarantees.LockIsQuiet | src/lib/licensing/coordinator.ts:460-552 | once locked, at rest or at any suspension, no query, submission, journal write or used answer happens until a start or a restart |
| LicenceGuarantees.LockedShowsNothing | src/lib/licensing/coordinator.ts:460-475 | a locked session has no projection, is not ready and remembers no pending record |
| LicenceGuarantees.LockLasts | src/lib/licensing/coordinator.ts:460-475 | every operation other than start, retry and restart leaves a locked session locked and its journal unchanged |
| LicenceGuarantees.DelayNeverEarly | src/lib/licensing/coordinator.ts:477-507 | the timer fires only when at least 30 000 ms were credited since the latest submission or retry mark |
| LicenceGuarantees.OnlyForwardReachableTimeCounts | src/lib/licensing/coordinator.ts:477-507 | ineligible ticks and clocks that stand or run back credit nothing, and what is credited is what elapses |
| LicenceGuarantees.FirstTickAfterSubmission | src/lib/licensing/coordinator.ts:477-507 | on the first eligible tick after a submission or retry, whatever is awaited, the timer fires exactly if 30 000 ms passed since the eligible tick before, and what it then shows |
| LicenceTicks.TicksExactly | src/lib/licensing/coordinator.ts:237-279 | after any run, a tick counts the forward time since the eligible tick before, fires the timer if and only if 30 000 ms have been counted since the window restarted, and asks if and only if the licence shown is due for its expiry or a wait is due for its poll, 3 000 ms after the latest answer |
| LicenceTicks.OutageLengthensWindow | src/lib/licensing/coordinator.ts:282-302 | after an outage the delay of the same submission is due if and only if the time counted before its mark and 30 000 ms more have been counted since |
| LicenceClock.RunTells | src/lib/licensing/coordinator.ts:477-507 | after every run the reachable time, the mark of the window, the latest answer and the restriction are those of the log |
| LicenceRuns.DelayCountsFromTickBefore | src/lib/licensing/coordinator.ts:477-507 | a run with a submission between two ticks reports a delay if and only if the ticks are 30 000 ms apart, however late the submission came |
| LicenceSessionSafety.RunKeeps | src/lib/licensing/coordinator.ts:157-1144 | the invariant behind all of these holds after every run from an empty journal |
| LicenceSessionSafety.PerformKeeps | src/lib/licensing/coordinator.ts:212-475 | every public operation keeps that invariant, whatever the ports answer and wherever a lock fires |
| LicenceSessionSafety.HandleNoActiveKeeps | src/lib/licensing/coordinator.ts:630-698 | so does the no-active branch: exact resubmission, query-only waiting or one new baseline |
| LicenceSessionSafety.ReadyKeeps | src/lib/licensing/coordinator.ts:560-580 | so does the ready branch: attach, reconcile, show |
| LicenceTrace.SealedForever | src/lib/licensing/coordinator.ts:907-955 | in an allowed log the bytes sealed under an id never change |
| LicenceTrace.HeldWasSealed | src/lib/licensing/coordinator.ts:700-731 | what the journal holds was sealed, byte for byte, under its own id and has not succeeded |
| LicenceCoordinator.RunHost | src/lib/licensing/coordinator.ts:157-1144 | driving the class through any host operations and restarts reaches exactly the states of the transition system |
| LicenceCoordinator.LicenceEntitlementCoordinator.constructor | src/lib/licensing/coordinator.ts:159-199 | a new coordinator over the ports of an earlier process |
| LicenceCoordinator.LicenceEntitlementCoordinator.Start | src/lib/licensing/coordinator.ts:212-229 | the class method is the operation `SpecStart` on all fields |
| LicenceCoordinator.LicenceEntitlementCoordinator.Tick | src/lib/licensing/coordinator.ts:237-279 | the class method is `SpecTick` |
| LicenceCoordinator.LicenceEntitlementCoordinator.OnConnectivity | src/lib/licensing/coordinator.ts:282-324 | the class method is `SpecOnConnectivity` |
| LicenceCoordinator.LicenceEntitlementCoordinator.RetryExact | src/lib/licensing/coordinator.ts:327-336 | the class method is `SpecRetryExact` |
| LicenceCoordinator.LicenceEntitlementCoordinator.RecoverFromError | src/lib/licensing/coordinator.ts:339-347 | the class method is `SpecRecoverFromError` |
| LicenceCoordinator.LicenceEntitlementCoordinator.Revalidate | src/lib/licensing/coordinator.ts:353-360 | the class method is `SpecRevalidate` |
| LicenceCoordinator.LicenceEntitlementCoordinator.ConfirmUpgrade | src/lib/licensing/coordinator.ts:382-444 | the class method is `SpecConfirmUpgrade` |
| LicenceCoordinator.LicenceEntitlementCoordinator.AcknowledgeUpgradeOutcome | src/lib/licensing/coordinator.ts:452-457 | the class method is `SpecAcknowledge` |
| LicenceCoordinator.LicenceEntitlementCoordinator.Lock | src/lib/licensing/coordinator.ts:460-475 | the class method is `SpecLock` |
| LicenceCoordinator.LicenceEntitlementCoordinator.AdvanceReachable | src/lib/licensing/coordinator.ts:477-507 | the class method is `SpecAdvanceReachable` |
| LicenceCoordinator.LicenceEntitlementCoordinator.RunFreshQuery | src/lib/licensing/coordinator.ts:510-552 | the loop with its single retry is `SpecRunFreshQuery`, also when interrupted by a lock or a rejection |
| LicenceCoordinator.LicenceEntitlementCoordinator.ApplyQueryOutcome | src/lib/licensing/coordinator.ts:554-628 | the class method is `SpecApplyOutcome` |
| LicenceCoordinator.LicenceEntitlementCoordinator.HandleNoActive | src/lib/licensing/coordinator.ts:630-698 | the class method is `SpecHandleNoActive` |
| LicenceCoordinator.LicenceEntitlementCoordinator.ReconcilePendingAgainstActive | src/lib/licensing/coordinator.ts:719-731 | the class method is `SpecReconcile` |
| LicenceCoordinator.LicenceEntitlementCoordinator.ReconcilePendingUpgrade | src/lib/licensing/coordinator.ts:743-788 | the class method is `SpecReconcileUpgrade` |
| LicenceCoordinator.LicenceEntitlementCoordinator.SubmitPending | src/lib/licensing/coordinator.ts:790-869 | the class method is `SpecSubmitPending`, including the queries it triggers |
| LicenceCoordinator.LicenceEntitlementCoordinator.ReconcileRejectedUpgrade | src/lib/licensing/coordinator.ts:880-905 | the class method is `SpecReconcileRejected` |
| LicenceCoordinator.LicenceEntitlementCoordinator.RecordAttempt | src/lib/licensing/coordinator.ts:907-935 | the class method is `SpecRecordAttempt` |
| LicenceCoordinator.LicenceEntitlementCoordinator.RetirePending | src/lib/licensing/coordinator.ts:937-954 | the class method is `SpecRetire` |
| LicenceCoordinator.LicenceEntitlementCoordinator.SealAndSubmitConfirmedUpgrade | src/lib/licensing/coordinator.ts:1094-1143 | the class method stages the upgrade, saves it, and submits only what was saved |
| LicenceProjection.ProjectSafeHigherOptions | src/lib/licensing/projection.ts:184-230 | the pass with its seen set keeps the first offerable entry of each plan |
| LicenceProjection.KeptOptionsAreFirstOccurrences | src/lib/licensing/projection.ts:184-230 | the kept options are a strictly ordered subsequence of the server's list: all first occurrences, copied unchanged, nothing else |
| LicenceProjection.OfferedPlansAreDistinct | src/lib/licensing/projection.ts:184-230 | no plan is offered twice |
| LicenceProjection.OfferedPlansExactly | src/lib/licensing/projection.ts:184-230 | a plan is offered exactly if some entry of it is offerable: well-formed, not the current plan, not Enterprise |
| LicenceCanonicalText.EscapeJson | src-tauri/src/licence_vault.rs:221-238 | the pushing loop computes the escaped text |
| LicenceCanonicalText.EscapedTextIsReadBack | src-tauri/src/licence_vault.rs:221-238 | escaping has a left inverse that stops at the closing quote, so no bare quote is emitted (section 7 of RFC 8259) |
| LicenceCanonicalText.EscapesAreStandard | src-tauri/src/licence_vault.rs:221-238 | the seven short escapes and the numeric ones are those of section 7 of RFC 8259 |
| LicenceCanonicalText.WritersAgreeExactly | src-tauri/src/licence_vault.rs:221-238 | native and web escaping agree on a text exactly if it holds neither U+2028 nor U+2029 |
| LicenceCanonicalText.QueryEnvelopeIsReadBack | src-tauri/src/licence_vault.rs:39-46 | the actor and the time are read back from the query envelope |
| LicenceCanonicalText.QueryEnvelopeIsInjective | src-tauri/src/licence_vault.rs:39-46 | equal envelopes have equal actor and time |
| LicenceCanonicalText.QueryWritersAgree | src/lib/licensing/contracts.ts:121-124 | the unescaped web envelope is the native one if and only if neither text needs an escape |
| LicenceCanonicalText.WebQueryEnvelopeIsInjective | src/lib/licensing/policy.ts:39-54 | for times without a quotation mark, as every instant is, the web envelope determines actor and time, whatever the actor |
| LicenceCanonicalText.WebQueryEnvelopeIsShared | src/lib/licensing/contracts.ts:121-124 | in general, another pair has the same envelope if and only if the fixed text between the two also occurs elsewhere in it |
| LicenceCanonicalText.UnsignedTransactionIsReadBack | src-tauri/src/licence_vault.rs:83-123 | id, timestamp and payload are read back from the unsigned transaction, whose PayloadSize is the byte length of the payload |
| LicenceCanonicalText.UnsignedTransactionIsInjective | src-tauri/src/licence_vault.rs:49-123 | equal unsigned transactions have equal id, timestamp, purpose and catalogue |
| IdentitySafety.SubmitsFollowLookup | src/lib/identity-convergence/coordinator.ts:118-253 | in every run a submission directly follows a not-found lookup of its call, sends the record the store then holds, is the only one of the call, and never happens in reconcile |
| IdentitySafety.SameBytesUntilCleared | src/lib/identity-convergence/coordinator.ts:130-141 | until the store is cleared or damaged or the epoch changes, all submissions carry the same record, if the signer answers for the binding asked |
| IdentitySafety.UnboundSignatureIsReplaced | src/lib/identity-convergence/coordinator.ts:136-139 | without that proviso two confirmations can submit different records |
| IdentitySafety.SignsExactlyWhenNothingBound | src/lib/identity-convergence/coordinator.ts:135-141 | a confirmation signs exactly if no record bound to this epoch and network is held |
| IdentitySafety.ClearedOnlyWhenResolved | src/lib/identity-convergence/coordinator.ts:143-260 | the store is cleared only after an exact profile, a terminal rejection or another device's confirmation |
| IdentitySafety.ConfirmedMeansProved | src/lib/identity-convergence/coordinator.ts:118-260 | an operation answers confirmed exactly if its own lookup, or the other device, supplied that proof; nothing was submitted and nothing stays sealed |
| IdentityWindow.DelayedExactly | src/lib/identity-convergence/coordinator.ts:179-195 | after any run, reconcile answers delayed, without a lookup, exactly if it is eligible and armed and 180 000 ms have passed since the reading of the clock at the latest accepted or pending admission |
| IdentityWindow.PollsLookUp | src/lib/identity-convergence/coordinator.ts:179-209 | an armed and eligible reconcile within its window does look up, and the lookup decides its answer; one that is not armed or eligible waits |
| IdentityWindow.RunTells | src/lib/identity-convergence/coordinator.ts:152-260 | after every run the window and the sealed reference that the coordinator remembers are those of the log |
| IdentityDeeds.DeedsAreExact | src/lib/identity-convergence/coordinator.ts:118-253 | a confirmation and a resumption look up exactly if they have a record of this epoch and network to look up for, submit exactly that record exactly if the lookup found nothing, and answer what lookup and admission decide |
| IdentitySafety.ResumeNeverArms | src/lib/identity-convergence/coordinator.ts:179-253 | without a sealed reference, whatever is done short of a confirmation, reconcile waits without a lookup |
| IdentitySafety.RunKeeps | src/lib/identity-convergence/coordinator.ts:86-261 | the invariant behind these holds after every run |
| IdentityCoordinator.RunHost | src/lib/identity-convergence/coordinator.ts:86-261 | driving the class through any operations reaches exactly the states of the transition system |
| IdentityCoordinator.IdentityConvergenceCoordinator.EnterReview | src/lib/identity-convergence/coordinator.ts:108-111 | entering the review changes the review and nothing else |
| IdentityCoordinator.IdentityConvergenceCoordinator.ConfirmMissingProfile | src/lib/identity-convergence/coordinator.ts:118-172 | the class method is `SpecConfirm`, result included |
| IdentityCoordinator.IdentityConvergenceCoordinator.Reconcile | src/lib/identity-convergence/coordinator.ts:179-209 | the class method is `SpecReconcile`, result included |
| IdentityCoordinator.IdentityConvergenceCoordinator.Resume | src/lib/identity-convergence/coordinator.ts:212-253 | the class method is `SpecResume`, result included |
| IdentityCoordinator.IdentityConvergenceCoordinator.SynchronizeOtherDevice | src/lib/identity-convergence/coordinator.ts:256-260 | clears the store and confirms with the given proof |
| IdentityPending.ValidatePendingTransaction | src/lib/identity-convergence/pending-transaction.ts:114-163 | the validating loop decides exactly the valid records |
| IdentityPending.ValidExactly | src/lib/identity-convergence/pending-transaction.ts:114-163 | what a valid registration is, with every bound written out |
| IdentityPending.InMemorySealedPendingStore.Write | src/lib/identity-convergence/sealed-pending-store.ts:43-63 | a write succeeds exactly for valid records and then commits the other slot; a refused one changes nothing |
| IdentityPending.InMemorySealedPendingStore.ReadRecord | src/lib/identity-convergence/sealed-pending-store.ts:65-72 | a read gives the committed record if it is valid, and never falls back |
| IdentityPending.WriteIsReadBack | src/lib/identity-convergence/sealed-pending-store.ts:43-72 | what is written is read back, the record before it stays in the other slot, and damage to a slot that is not committed is never seen |
| IdentityPending.SpoiledCommitIsAbsent | src/lib/identity-convergence/sealed-pending-store.ts:90-95 | damage to the committed slot reads as no record exactly unless the text is below its bound and its digest collides |
| NativeJournal.WriteIsAtomic | src-tauri/src/licence_vault.rs:400-452 | whatever storage operation of a write fails, tears or is cut off, a read finds the old record, or the new one once the pointer switched; success means switched |
| NativeJournal.CommittedSlotUntouched | src-tauri/src/licence_vault.rs:400-412 | a write that can read the pointer never touches the committed slot |
| NativeJournal.AcknowledgedIsRead | src-tauri/src/licence_vault.rs:400-424 | a write that reports success, blind or not, is what is read |
| NativeJournal.AnswersExactly | src-tauri/src/licence_vault.rs:400-424 | what a write answers, from the faults of its four operations: success, not read back, or unavailable |
| NativeJournal.LossShowsPrevious | src-tauri/src/licence_vault.rs:428-452 | after two acknowledged writes, a committed slot that is missing, empty or unreadable shows exactly the record of the first; other content is returned as it is |
| NativeJournal.SeeingWriteIsAtomicExactly | src-tauri/src/licence_vault.rs:400-424 | with a readable pointer, a write is atomic under all disturbances if and only if nothing is committed or the committed slot is intact |
| NativeJournal.BlindWriteIsAtomicExactly | src-tauri/src/licence_vault.rs:401-407 | with an unreadable pointer, a write is atomic under all further disturbances if and only if slot B is not committed |
| NativeJournal.ReadFindsASlot | src-tauri/src/licence_vault.rs:428-452 | under any failures a read finds one of the two slots; it finds nothing exactly if the pointer is unset or unreadable |
| NativeJournal.InterruptedClear | src-tauri/src/licence_vault.rs:454-462 | exactly what a clear leaves readable after each of its deletions |
| NativeJournal.ReadFindsLatest | src-tauri/src/licence_vault.rs:400-462 | after any run of writes and clears, each disturbed in any way, a read finds the record of the latest write that committed, or nothing after a clear; undetermined only from a write that aimed at the committed slot, a clear stopped halfway or an empty record, until the next commit |
| NativeJournal.TwoSlotLicenceJournal.Write | src-tauri/src/licence_vault.rs:400-424 | the method is `SpecWrite` over the storage and its faults |
| NativeJournal.TwoSlotLicenceJournal.Read | src-tauri/src/licence_vault.rs:428-452 | the method is `SpecRead` and changes no entry |
| NativeJournal.TwoSlotLicenceJournal.Clear | src-tauri/src/licence_vault.rs:454-462 | the loop is `SpecClear` and stops at the first failing deletion |
| WebLicenceJournal.LoadIsFirstSaved | src/lib/licensing/journal-adapter.ts:52-115 | after any saves and deletions, loading an id gives the first record saved under it since its last deletion, or not found |
| WebLicenceJournal.FirstSavedWasSaved | src/lib/licensing/journal-adapter.ts:52-115 | that record was accepted by a save of this id which no deletion followed |
| WebLicenceJournal.SecondSaveIsNotSeen | src/lib/licensing/journal-adapter.ts:62-108 | a second save under the same id is accepted and never loaded |
| WebLicenceJournal.DamageRollsBackExactly | src/lib/licensing/journal-adapter.ts:81-109 | after any run, with another text in the committed slot: its own record or a mismatch if the text is a record; otherwise the second record if and only if a refused save came after it, and 'corrupt' if not |
| WebLicenceJournal.SavesExactly | src/lib/licensing/journal-adapter.ts:52-79 | a save succeeds exactly for valid records of the journal's identity, whatever is stored |
| WebLicenceJournal.SaveAgrees | src/lib/licensing/journal-adapter.ts:52-79 | a save does to this journal what the coordinator's model of a journal does when it shows the oldest version |
| WebLicenceJournal.DeleteAgrees | src/lib/licensing/journal-adapter.ts:112-115 | so does a deletion |
| WebLicenceJournal.StoredDetermines | src/lib/licensing/pending-transaction.ts:108-140 | the stored record determines the coordinator's record |
| WebLicenceJournal.InMemoryTwoSlotLicenceJournal.Save | src/lib/licensing/journal-adapter.ts:52-79 | the method is `SpecSave`, including what a refused save leaves in the slots |
| WebLicenceJournal.InMemoryTwoSlotLicenceJournal.Load | src/lib/licensing/journal-adapter.ts:82-109 | the method is `SpecLoad`, including the fall back to the other slot |
| WebLicenceJournal.InMemoryTwoSlotLicenceJournal.Delete | src/lib/licensing/journal-adapter.ts:112-115 | only the given id is removed |
| JsonText.StringifiedIsParsed | src/lib/licensing/pending-transaction.ts:358-406 | every JSON value is read back from its text |
| PendingCodec.Serialize | src/lib/licensing/pending-transaction.ts:371-406 | the text of the members in their frozen order, optional ones absent rather than null |
| PendingCodec.ParsePendingRecord | src/lib/licensing/pending-transaction.ts:256-352 | the validating loop computes `Parse` |
| PendingCodec.TextIsParsedBack | src/lib/licensing/pending-transaction.ts:256-406 | parsing the serialised text gives the record back exactly if it is valid, and null otherwise |
| PendingCodec.TextIsFrozen | src/lib/licensing/pending-transaction.ts:371-406 | the text parses to exactly the members of the record under their literal names and in their frozen order |
| PendingCodec.ValidExactly | src/lib/licensing/pending-transaction.ts:256-352 | what a valid record is, with every bound and every name written out |
| PendingCodec.ParsedIsValid | src/lib/licensing/pending-transaction.ts:256-352 | whatever is accepted yields a valid record |
| PendingCodec.BindingIsParsed | src/lib/licensing/pending-transaction.ts:173-212 | an upgrade binding is parsed back exactly if it is valid |
| NativePendingRecord.NativeAcceptsExactly | src-tauri/src/licensing_record.rs:161-219 | of the records the web accepts, the native validator accepts exactly those whose free texts keep the bounds in bytes |
| NativePendingRecord.WebAcceptsExactly | src/lib/licensing/pending-transaction.ts:256-352 | of the records the native validator accepts, the web accepts exactly those with a UUID as id, a lower-case digest and well-formed instants |
| NativePendingRecord.ValidatorsAgreeExactly | src-tauri/src/licensing_record.rs:160-219 | the two validators differ by exactly these two conditions, one on each side |
| NativePendingRecord.AsciiRecordsFit | src-tauri/src/licensing_record.rs:161-249 | in particular all records with ASCII texts |
| NativePendingRecord.WebTextIsNative | src-tauri/src/licensing_record.rs:280-288 | the native reader recovers from the web's text the same record, and accepts it exactly if the native checks pass |
| NativePendingRecord.InstantIsNative | src-tauri/src/licensing_record.rs:118-139 | every instant of the web's format passes the native check |
| NativePendingRecord.NativeInstantExactly | src-tauri/src/licensing_record.rs:118-139 | what the native check of an instant accepts, byte by byte |
| NativePendingRecord.NativeInstantIsWeaker | src-tauri/src/licensing_record.rs:118-139 | an instance: the native check also passes an instant that lost its first digit |
| NativePendingRecord.NativeIsWeaker | src-tauri/src/licensing_record.rs:174-176 | an instance: a native record stays accepted with an id that the web refuses |
| NativePendingRecord.IsUuid | src-tauri/src/licensing_record.rs:253-277 | the nested loops decide the web's UUID format |
| SignatureEncoding.EncodedIsDecoded | src/lib/identity-compatibility/crypto.ts:100-144 | for 32-byte r and s, decoding the encoding gives r followed by s |
| SignatureEncoding.DecodedIsEncoded | src/lib/identity-compatibility/crypto.ts:100-144 | every accepted byte string is the encoding of what it decodes to |
| SignatureEncoding.OneEncodingPerSignature | src/lib/identity-compatibility/crypto.ts:131-144 | exactly one byte string is accepted for each signature, so every other form is refused |
| SignatureEncoding.EncodingIsDer | src/lib/identity-compatibility/crypto.ts:100-111 | the encoding is a SEQUENCE of two INTEGERs in their shortest form with one-byte lengths, byte by byte |
| SignatureEncoding.IntegerIsMinimal | src/lib/identity-compatibility/crypto.ts:101-107 | the INTEGER contents denote the number with a clear top bit, and every other such form only adds leading zeros (section 8.3 of X.690) |
| SignatureEncoding.PadTo32 | src/lib/identity-compatibility/crypto.ts:113-125 | the buffer is the unsigned number right-aligned in zeros, for exactly the minimal non-negative integers of at most 32 significant bytes |
| UtcInstants.AcceptedExactly | src/lib/licensing/local-instant.ts:43-76 | a text is accepted exactly if it matches the format and names a real Gregorian date and clock time of year 100 or later |
| UtcInstants.AcceptedIsWrittenBack | src/lib/licensing/local-instant.ts:43-76 | the epoch time of an accepted text decodes to its fields and is written as the text completed to milliseconds |
| UtcInstants.EpochOrderIsFieldOrder | src/lib/licensing/local-instant.ts:61-76 | on accepted texts the order of epoch times is the lexicographic order of all seven fields, from the year to the millisecond, and equality likewise |
| UtcInstants.DecodedIsReal | src/lib/licensing/local-instant.ts:65-73 | every epoch time decodes to a real date and time (section 21.4.1 of ECMA-262) |
| UtcInstants.EpochIsCalendar | src/lib/licensing/local-instant.ts:61-73 | the epoch is midnight of 1 January 1970, each day is 86 400 000 ms after the one before, and the time of day is added to its midnight |
| UtcInstants.RealExactly | src/lib/licensing/local-instant.ts:61-73 | real dates are those of the Gregorian calendar, month by month |
| UtcInstants.FieldsAreDigits | src/lib/licensing/local-instant.ts:43-60 | which digits of the text are which field, and that a short fraction is completed on the right |
| UtcInstants.EarlyYearIsNotDecoded | src/lib/licensing/local-instant.ts:61-73 | a year from 0 to 99 lands in the twentieth century and is refused (section 21.4.3.4 of ECMA-262) |
| Mnemonics.ChecksumMatches | src/lib/identity-compatibility/mnemonic.ts:24-42 | the two loops compute the regrouped bits, the entropy and the checksum comparison |
| Mnemonics.MatchesExactlyEncodings | src/lib/identity-compatibility/mnemonic.ts:24-42 | a phrase with at most eight checksum bits matches exactly if it is the BIP-39 encoding of some entropy |
| Mnemonics.EntropyIsUnique | src/lib/identity-compatibility/mnemonic.ts:24-42 | that entropy is unique |
| MnemonicNumbers.MatchesExactlyNumbers | src/lib/identity-compatibility/mnemonic.ts:24-42 | a phrase matches if and only if its words are listed and, as a number to the base 2048, it is some entropy followed by the top bits of the first byte of its hash |
| MnemonicNumbers.PhraseIsNumber | src/lib/identity-compatibility/mnemonic.ts:24-42 | that number, for the phrase of an entropy |
| MnemonicNumbers.ChecksumIsTop | src/lib/identity-compatibility/mnemonic.ts:39-41 | the checksum of n bits is the hash byte divided by 2^(8-n) |
| MnemonicNumbers.LastOfTwelve | src/lib/identity-compatibility/mnemonic.ts:24-42 | the index of the last word of twelve, from the last byte of entropy and the hash |
| MnemonicNumbers.LastOfTwentyFour | src/lib/identity-compatibility/mnemonic.ts:24-42 | the same for twenty-four words |
| Mnemonics.ValidExactly | src/lib/identity-compatibility/mnemonic.ts:45-66 | the valid phrases are exactly the encodings of 32 bytes, and for P-01 also those of 16 |
| MnemonicTexts.ValidateMnemonicForProducer | src/lib/identity-compatibility/mnemonic.ts:45-66 | the verdict on a typed text: trimmed and split, or normalised and split, the words are the runs between delimiters, and the first failing check decides |
| MnemonicTexts.AcceptedExactly | src/lib/identity-compatibility/mnemonic.ts:45-66 | a text is accepted if and only if its words, with single spaces, are the canonical text of an entropy of an admitted length; for P-02 and P-03 that is the normalised text |
| MnemonicTexts.RefusedExactly | src/lib/identity-compatibility/mnemonic.ts:45-66 | each refusal, in both directions, by the first check that fails |
| MnemonicTexts.CanonicalIsAccepted | src/lib/identity-compatibility/producers.ts:52-58 | canonical texts are accepted as they are |
| MnemonicTexts.ProducersAgreeExactly | src/lib/identity-compatibility/mnemonic.ts:45-66 | a 24-word text that P-01 accepts is accepted by P-02 if and only if it holds no white space other than the four delimiters |
| MnemonicTexts.NoBreakSpaceIsOnlyTrimmed | src/lib/identity-compatibility/mnemonic.ts:45-66 | such a text exists for every entropy |
| Candidates.DedupeCandidates | src/lib/identity-compatibility/candidates.ts:66-87 | the map and the order of keys compute the deduplicated list |
| Candidates.KeysAreUnique | src/lib/identity-compatibility/candidates.ts:66-87 | one candidate for each joined key, in the order in which keys first occur |
| Candidates.PairsAreKept | src/lib/identity-compatibility/candidates.ts:66-87 | if the keys tell address pairs apart, one candidate for each pair, in first-occurrence order |
| Candidates.KeptIsMostPreferred | src/lib/identity-compatibility/candidates.ts:73-79 | a kept candidate has the minimum precedence of those it merged, and the producer of the first that has it |
| Candidates.EncodingIsTheFirst | src/lib/identity-compatibility/candidates.ts:66-87 | a kept candidate has the key encoding of the first one with its key |
| Candidates.IdsAreKept | src/lib/identity-compatibility/candidates.ts:73-80 | the producer ids found for a pair, in order and without repetition, are the same before and after |
| Candidates.LookupIsKeptExactly | src/lib/identity-compatibility/candidates.ts:66-108 | every lookup has the same matches, ambiguity flag and producer ids before and after, if and only if the keys tell the pairs apart |
| Candidates.BarlessAddressesDistinguish | src/lib/identity-compatibility/candidates.ts:70 | addresses without a bar are always told apart |
| Candidates.ResolveLookup | src/lib/identity-compatibility/candidates.ts:94-108 | the loop over the registry computes the matches in order |
| Candidates.MatchesExactly | src/lib/identity-compatibility/candidates.ts:94-103 | the matches are exactly the registry entries that some candidate has both addresses of, in order, each under its number and with every producer of its candidates once |
| Candidates.AmbiguousExactly | src/lib/identity-compatibility/candidates.ts:104-108 | a lookup is ambiguous if and only if two entries are found |
| Candidates.RegistryIdIs | src/lib/identity-compatibility/candidates.ts:100 | the number of an entry is written with three digits |

## Left out

- Snapshots and presentation builders (`buildUpgradeOperationSnapshot`, copy, local time rendering): read-only views with no hard property.
- The transports, the browser and Tauri bridges, the encrypted stores and the React surfaces: only their closed results appear, as answers of ports.
- Cryptographic primitives: SHA-256, ECDSA, key derivation and encryption are abstract functions.
- The host's signing of the exact bytes and its mirror of the journal: outside the coordinator.
- Overlapping public operations of the licence coordinator, and of the identity coordinator: serialised by assumption, except `lock()`.
- `loadPendingForIdentity` of the web journal: not part of the adapter; the coordinator's model searches its abstract journal for it.
- The read-back branches of the two in-memory stores that compare what was just assigned: they cannot be taken.
- JsonText.StringifiedIsParsed: numbers are naturals, the only ones in these texts; white space and the optional escapes of foreign JSON are not read, only the canonical form that both languages write.
- IdentityPending.ValidatePendingTransaction: a record is a typed value here, so the checks that refuse extra keys, missing keys and values of another type are not modelled.
- Case folding of a typed recovery phrase: `toLowerCase` is a function known only to leave letters a to z and white space alone.
- `MemoryJournalStorage` as such: the storage of the native journal is the general faulty one.
- Torn writes of the native journal's pointer: its pointer is switched in one step.
- The base64 text of a compact signature and the sealed member order of a signed transaction: one is a library format, the other is decided by a library map.
- NativeJournal.WriteIsAtomic: an empty record is excluded; the journal never stores one, and reading treats an empty slot as absent.
- Mnemonics.MatchesExactlyEncodings: phrases of word counts whose remainder leaves more than eight checksum bits are excluded; neither producer admits them.
