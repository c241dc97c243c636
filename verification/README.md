# Ambit verifier: a Dafny model and its proofs

The verifier checks retained evidence offline: a hash-chained ledger, the heads that were signed over
it, the delegation chains behind each decision, and the whole life of every operation that the ledger
records. This project models that logic and proves what acceptance means.

## What is modelled

**The replay of a ledger prefix.** `Evidence` holds the record types and, as one datatype of functions,
everything the replay calls but does not decide itself: signature checks, hashes, parsers, timestamps.
`Lifecycle` says what a record has to show, `Books` keeps reservations and charged totals, `OneTime` the
consumed identifiers, `ForeignPoints` the foreign operations. `Replay` puts them together into the step
`Next` and the run `Run`; `Machine` is the object with the dictionaries of the replay, one field each,
whose methods are proved to compute that step. The theorems over all accepted runs are in `Conservation`,
`Capacity`, `Budget`, `Overspending`, `Automaton`, `Exclusion`, `FrozenTransport`, `EvidenceChain` and
`Releases`. `Acceptance` says exactly when each kind of record is accepted and what it changes, in terms of
the record, its evidence and what earlier records left, and `AcceptedRuns` has two whole runs that are
accepted for all evidence that verifies. `Prefixes` and `Bundles` are about ledger prefixes and the pinned
head; `SpellingExample` and `LifecycleExample` are runs written out.

**Delegation.** `ClaimShapes` is the claim grammar and `ClaimGrammar` the same grammar as a relation, `Claims`
the parsed delegation and its well-formedness. `Attenuation` is the fifteen-axis comparison and `Containment`
what each axis means; `DelegationChain` is the walk. `Accounts` and `RequiredAccounts` are about the budget
accounts that a chain requires, `Matching` about their periods and the greedy pairing, `Debits` about what an
accepted decision debits. `Ratification` and `RatifierContainment` are about the two ratifier-reach rules, and
`SignedChains` is the end-to-end statement.

**Ledger, heads, witness, receipts, texts.** `Ledger`, `Heads` and `Witness` are about what a head says
of the history before it; `ReceiptLinks` and `ReceiptIssues` about the links between decisions, intents and outcomes;
`JsonText`, `Amounts`, `Base64` and `WireSignature` about canonical text. `Prelude` and `Values` are shared.

Hashes are uninterpreted, with collision-freedom as a stated hypothesis where it is needed. Instants are
integers in microseconds, amounts natural numbers; `Amounts` justifies comparing amounts instead of their
texts. An exception of the original is an absent result, and aborts the run it occurs in.

## What the proofs found

- The accounts of the replay are keyed by the text of the period start. Two spellings of one instant, such as
  a final `Z` and `+00:00`, open two accounts, each with the whole ceiling.
  `Budget.PeriodStaysWithinBound` is the budget for the runs that spell the start once,
  `Overspending.BudgetNeedsOneSpelling` the exact condition on the texts that are let in, and
  `SpellingExample.TwoPushesUnderALimitOfOne` an accepted run that spends twice the signed amount.
- The replay says that fenced capacity is released only on a retained not-executed receipt. That holds of
  every operation with a reservation; a fenced operation without one may be released on
  `durable_no_dispatch` (`Conservation.FencedReleaseNeedsReceipt`, and as a run
  `Releases.EmptyHandedRelease`).
- The greedy matching of accounts needs no assumption that the jtis of a chain differ: at one instant each
  bound has one period start, so bounds that one account matches are interchangeable
  (`Matching.MatchingIsComplete`).

## Model

| member | source | states |
|---|---|---|
| Machine.Replayer.Step | src/ambit_verify/execution_evidence.py:796-1514 | One record changes the dictionaries as the replay does, or aborts; after an accepted record they hold the state of the whole run, and that state is conserved, in step, at a stage of the lifecycle, exclusive and frozen |
| Machine.ReplayPrefix | src/ambit_verify/execution_evidence.py:752-1514 | Replaying a prefix accepts exactly when it holds no unsupported legacy decision and every record in turn is accepted; intents count wherever they stand in the prefix |
| Machine.RunKeepsInvariant | src/ambit_verify/execution_evidence.py:796-1514 | Every accepted run ends in a state that satisfies all invariants at once |
| Conservation.CapacityIsConserved | src/ambit_verify/execution_evidence.py:901-925 | After every accepted run each account's charged total is the sum of its reservations that were not released, and lies between zero and the ceiling |
| Conservation.CeilingNeverChanges | src/ambit_verify/execution_evidence.py:915-921 | The ceiling of an account is the same after every extension of a run |
| Conservation.ReservationsFollowTheirOperation | src/ambit_verify/execution_evidence.py:1218-1227 | The status of each reservation is that of the phase of the operation that owns it, after every accepted run |
| Conservation.FenceMovesReservations | src/ambit_verify/execution_evidence.py:1213-1227 | A fence fails for no reason of its reservations: in a reachable state they are all authorized, so the fence is accepted exactly when its joins hold, and all of them move together |
| Conservation.SettleMovesReservations | src/ambit_verify/execution_evidence.py:1479-1514 | A settlement of a live operation ends all of its reservations together and keeps every total; it is refused by the books exactly when fenced capacity would go back without a receipt |
| Conservation.FencedReleaseNeedsReceipt | src/ambit_verify/execution_evidence.py:1370-1498 | A fenced or pending operation is released exactly on a receipt, or without one if it holds no reservation; and if it holds one, the signed outcome says not executed |
| Books.ChargeAllConserves | src/ambit_verify/execution_evidence.py:901-925 | Charging the accounts of a decision keeps totals equal to live reservations and within unchanged ceilings |
| Books.ReleaseAllMoves | src/ambit_verify/execution_evidence.py:1479-1498 | Releasing gives back each open reservation once and moves nothing else |
| Books.CommitAllMoves | src/ambit_verify/execution_evidence.py:1500-1513 | Committing marks every fenced reservation and changes no total |
| Books.ChargeAccounts | src/ambit_verify/execution_evidence.py:901-925 | The charging loop computes the charged books, or fails where the first account does |
| Books.FenceReservations | src/ambit_verify/execution_evidence.py:1219-1225 | The loop over the reservations of a fence moves each from authorized to fenced, or fails |
| Books.ReleaseReservations | src/ambit_verify/execution_evidence.py:1493-1497 | The loop of a release gives each reservation back to its account |
| Books.CommitReservations | src/ambit_verify/execution_evidence.py:1511-1513 | The loop of a commitment marks each reservation |
| Capacity.ChargeAcceptedExactly | src/ambit_verify/execution_evidence.py:901-925 | Accounts are charged exactly when their reservations are new and distinct, accounts of one key agree with each other and with the record on its ceiling, and all that is asked of a key fits into what is left of it |
| Capacity.AuthorizationAcceptedExactly | src/ambit_verify/execution_evidence.py:795-925 | An authorization is accepted exactly when it is well formed, backed by its evidence, and neither its operation, identifiers, foreign operation, reservations nor capacity are taken |
| Acceptance.AuthorizationIsAcceptedExactly | src/ambit_verify/execution_evidence.py:795-925 | An authorization is accepted exactly when it is well formed and first on its operation, the authority check and its adapter's admission hold, its identifiers are the facts of its evidence and free, the dispatch it serves is signed by one admitted point and not cancelled, its accounts pay for what its chain requires, and there is room; and it changes only its operation, identifiers, dispatch and new reservations |
| Acceptance.RefusalIsAcceptedExactly | src/ambit_verify/execution_evidence.py:806-814 | A refusal is accepted exactly when it is well formed, consumes and charges nothing, and is the first decision on its operation |
| Acceptance.FenceIsAcceptedExactly | src/ambit_verify/execution_evidence.py:1179-1227 | A fence, signed or not, is accepted exactly when it names the decision of an authorized operation and an earlier intent of it, repeats the payload, for a token also the operation field by field with its interval, and the foreign operation is not cancelled; it moves the operation and all of its reservations |
| Acceptance.SuspensionIsAcceptedExactly | src/ambit_verify/execution_evidence.py:1228-1366 | A fenced operation is suspended exactly on a transport of its fenced dispatch with the hashes of what it carries, acknowledged under the admitted outcome key as awaiting review |
| Acceptance.ResumeIsAcceptedExactly | src/ambit_verify/execution_evidence.py:1228-1368 | A suspended operation is resumed exactly on its suspended transport, an earlier unspent authentication whose request asks for this resume with the hashed context and an approval, and an acknowledgment that states context, request and escalation |
| Acceptance.RecoveryIsAcceptedExactly | src/ambit_verify/execution_evidence.py:1082-1178 | A fenced or suspended dispatch of this point is recovered exactly once, on an unspent authentication of its operation, a query or cancel request that the point signed and that is active, and an outcome under the admitted key |
| Acceptance.SettlementIsAcceptedExactly | src/ambit_verify/execution_evidence.py:1370-1514 | An operation ends in exactly three ways: released before its fence, released after it without a receipt when it holds no reservation and was not recovered, or committed or released on a receipt that verifies, joins, lies in the interval and says so, being the recovered one if there is one; all of its reservations move with it |
| Acceptance.AuthenticationIsAcceptedExactly | src/ambit_verify/execution_evidence.py:949-1075 | An authentication is accepted exactly when the holder of the context's key proved its request, under the admission of the issuance or of the decided operation it names, and its one identifier is that proof's nonce and free; it is kept by record hash for its one use |
| Acceptance.CancellationIsAcceptedExactly | src/ambit_verify/execution_evidence.py:931-948 | A cancellation is accepted exactly when its admission holds, one admitted point signed the dispatch, that point signed an active cancel request for it, and the operation is neither cancelled nor fenced |
| Acceptance.PrefixIsAcceptedExactly | src/ambit_verify/execution_evidence.py:775-806 | A prefix is accepted exactly when its records run, and every legacy decision in it is a dry run, or neither allows nor has an intent |
| Acceptance.IntentsAreTheLast | src/ambit_verify/execution_evidence.py:775-779 | The intent found under a hash is the last one of the prefix with that digest as its record hash |
| AcceptedRuns.DispatchIsSettled | src/ambit_verify/execution_evidence.py:795-1514 | For all evidence that verifies, an authorization, its intent, its signed fence and a receipt for it are accepted in a row, and commit or release the operation and every one of its reservations |
| AcceptedRuns.DetourIsSettled | src/ambit_verify/execution_evidence.py:949-1514 | For all evidence that verifies, a signed dispatch may be suspended, resumed on an authentication, suspended again, recovered on another authentication, and settled on the recovered outcome, ten records in a row |
| LifecycleExample.TenRecordsAreAccepted | src/ambit_verify/execution_evidence.py:949-1514 | One such run in full, with a configuration and ten records written out: it commits the one push that its publication reserved |
| Budget.PeriodStaysWithinBound | src/ambit_verify/execution_evidence.py:336-369 | When all charges of an accepted run against a signed windowed bound in one period spell its start alike, the quantities that the decisions of that period spend on the bound, released ones apart, add up to no more than its amount; sibling grants that share the bound count too |
| Budget.SpendingIsHeld | src/ambit_verify/execution_evidence.py:901-925 | However the starts are spelled, the decisions of a period spend no more than is held against the bound in that period: each unreleased decision has a reservation of its own |
| Budget.ReservationHasRecord | src/ambit_verify/execution_evidence.py:924-925 | Every reservation was made by one authorization of the run for one of its accounts |
| Budget.DecisionChargesItsPeriod | src/ambit_verify/execution_evidence.py:336-369 | Every authorization with a signed effect reserves exactly its quantity for each account that its chain requires, in the one period that holds its instant, under the signed ceiling; and the reservation stays on the books |
| Budget.SamePeriod | src/ambit_verify/execution_evidence.py:186-205 | Two instants are charged to one period exactly when that period holds both |
| Overspending.TwoSpellingsDoubleTheBudget | src/ambit_verify/execution_evidence.py:906-925 | Two separate authorizations that the replay accepts one by one, each spending the whole ceiling of one signed account in one period, are accepted in one run when they spell the start of the period differently, and together spend and hold twice the ceiling |
| SpellingExample.TwoPushesUnderALimitOfOne | src/ambit_verify/execution_evidence.py:901-925 | A concrete accepted run of two Git publications with well-formed operations, calls, scopes and digests: they write the start of the period with Z and with +00:00, and make two pushes under a signed limit of one |
| Overspending.BudgetNeedsOneSpelling | src/ambit_verify/execution_evidence.py:906-924 | Over a set of texts, the signed amount is a budget of the period in every accepted run if and only if at most one of the texts spells the start of the period, as long as there are authorizations that spend the amount under each |
| Budget.RunKeepsReservations | src/ambit_verify/execution_evidence.py:924-925 | No later record changes the account, amount or owner of a reservation |
| Automaton.RunFollowsAutomaton | src/ambit_verify/execution_evidence.py:1218-1514 | In every accepted run the records of each operation follow the lifecycle automaton, and the dictionaries hold the stage it has reached |
| Automaton.NothingHappensTwice | src/ambit_verify/execution_evidence.py:811-1514 | No operation is decided, fenced, recovered or settled twice |
| Automaton.EndsAreFinal | src/ambit_verify/execution_evidence.py:1370-1409 | After a refusal or a settlement no lifecycle record of the operation is accepted |
| Automaton.WaitingEndsAfterRecovery | src/ambit_verify/execution_evidence.py:1388-1411 | A pending operation is settled only after a recovery record, and only on a receipt |
| Automaton.MarksMakeProgress | src/ambit_verify/execution_evidence.py:1218-1514 | The automaton never goes back: each decision, fence, recovery and settlement is a step forward, each from one place only |
| Exclusion.NoReuseOfTimelyNames | src/ambit_verify/execution_evidence.py:893-900 | If two records of an accepted run consume one identifier of any namespace, the later instant exceeds the earlier expiry, as long as the records between them use it no later than it expires; instants need not grow |
| Exclusion.NoLiveReuse | src/ambit_verify/execution_evidence.py:893-900 | Actor nonces and foreign dispatches are always used in time, so over all pairs no accepted run reuses one before it expires |
| Exclusion.NoLiveApprovalReuse | src/ambit_verify/credential_evidence.py:372-388 | When the authority check compares the expiry of an approval with the decision that retains it, no accepted run reuses that approval before it expires |
| OneTime.LateUseForgets | src/ambit_verify/execution_evidence.py:893-900 | Without that the memory forgets: a use after its own expiry lowers it, and an earlier use that is still live no longer bars a new one |
| Exclusion.RunRemembers | src/ambit_verify/execution_evidence.py:949-958 | Although only the last expiry of an identifier is kept, it is never earlier than that of a use before, when the uses since then were in time |
| Exclusion.StepConsumes | src/ambit_verify/execution_evidence.py:1039-1059 | Every accepted record consumes its identifiers through the memory, and its guarded ones no later than their expiry |
| OneTime.ConsumeAllChecks | src/ambit_verify/execution_evidence.py:893-900 | Consuming succeeds exactly when the last expiry of every identifier has passed, and then stores the new expiries and nothing else |
| OneTime.DecisionUsesInTime | src/ambit_verify/actor_proof.py:239-264 | A nonce or foreign dispatch that a decision has to declare is used no later than it expires, by the freshness bound and the dispatch interval |
| OneTime.ExpectedFactsExactly | src/ambit_verify/execution_evidence.py:617-701 | A decision has to declare exactly one fact of its own: its holder's nonce, from a proof within the admitted age, until the issue plus that age, or its foreign dispatch until the end of its interval; and the jti of each retained approval, which has to verify and bind the request, until it expires |
| OneTime.HolderFactIsExact | src/ambit_verify/execution_evidence.py:662-674 | A holder proof contributes its nonce, filed under ledger and key, until its issue plus the maximum age, exactly when it verifies within that age before or after its issue |
| OneTime.ProofPassesUntilItsExpiry | src/ambit_verify/actor_proof.py:239-264 | Where the holder check verifies at both instants, a proof that passed once passes later if and only if that is no later than its recorded expiry, and then with the same fact: a nonce is remembered exactly as long as its proof can pass |
| OneTime.DispatchPassesUntilItsExpiry | src/ambit_verify/execution_evidence.py:630-645 | A foreign dispatch that served one decision can serve a later one if and only if that is no later than its recorded expiry, and with the same fact |
| OneTime.ExpectedConsumedFacts | src/ambit_verify/execution_evidence.py:617-701 | The facts a decision has to declare: one from the foreign dispatch or the holder proof, and one from each retained approval |
| OneTime.Consume | src/ambit_verify/execution_evidence.py:893-900 | The loop over the identifiers of a record |
| ForeignPoints.CounterpartyForeignDispatchIdentity | src/ambit_verify/counterparty_recovery.py:140-158 | The loop over the admitted points returns the only point that verifies the raw dispatch with its claims, and nothing when none or several do |
| ForeignPoints.ForeignIdentityIsExact | src/ambit_verify/counterparty_recovery.py:104-158 | A raw dispatch selects a point exactly when that is the one admitted point that is complete, signed the dispatch, and is the one whose domain, ledger, resource, binding, profile and consent the claims state |
| ForeignPoints.BothSidesNameOneOperation | src/ambit_verify/counterparty_recovery.py:119-158 | An authorization and a cancellation that rest on one raw dispatch derive one foreign identity, although each has its own admission with its own points: what a token claims does not depend on the key that confirms it |
| EvidenceChain.NoDispatchIsFencedAndCancelled | src/ambit_verify/execution_evidence.py:1213-1217 | No accepted run both fences an operation that a raw foreign dispatch authorized and cancels that dispatch, in either order |
| Exclusion.DispatchIsCancelledOnce | src/ambit_verify/execution_evidence.py:931-947 | A raw dispatch is cancelled at most once |
| Exclusion.CancelledDispatchIsNotAuthorized | src/ambit_verify/execution_evidence.py:853-875 | No operation is authorized on a raw dispatch that was cancelled before |
| ForeignPoints.CancellationIsExact | src/ambit_verify/counterparty_recovery.py:161-257 | A record cancels a foreign operation exactly when its admission holds, the named point is the only admitted one that verifies the dispatch, the dispatch names the operation, and that point signed an active cancel request for it |
| ForeignPoints.VerifyCancellation | src/ambit_verify/counterparty_recovery.py:210-257 | The foreign operation that a verified cancellation record closes |
| Exclusion.FencedIsNeverCancelled | src/ambit_verify/execution_evidence.py:931-947 | The foreign operation behind a fenced dispatch is never cancelled, before or after the fence |
| Exclusion.CancellationIsFinal | src/ambit_verify/execution_evidence.py:853-875 | A foreign operation is cancelled at most once and never authorized after its cancellation |
| Exclusion.FencedAndCancelledAreDisjoint | src/ambit_verify/execution_evidence.py:1213-1217 | After every accepted run no foreign operation is both fenced and cancelled |
| FrozenTransport.TransportIsFrozen | src/ambit_verify/execution_evidence.py:1228-1305 | Over any number of rounds, all pending and resume records of an operation agree on operation, decision hash, intent hash, token, claims, dispatch hash, descriptor hash and operation hash |
| FrozenTransport.TransportStatesItsFence | src/ambit_verify/consumption.py:304-334 | Each of them states the dispatch of an earlier fence record, with the hashes that its content determines |
| FrozenTransport.ResumeRepeatsItsSuspension | src/ambit_verify/execution_evidence.py:1249-1257 | A resume closes the last suspension of its operation, names its hash and repeats its transport, the request body included |
| FrozenTransport.AuthenticationIsSpentOnce | src/ambit_verify/execution_evidence.py:1258-1362 | No two resumes and no two recoveries spend one authentication |
| FrozenTransport.SpentAuthenticationHasRecord | src/ambit_verify/execution_evidence.py:1258-1298 | Each resume and recovery rests on an earlier authentication record of the right kind and the same operation, and a resume's request names its acknowledgment and context |
| FrozenTransport.AuthenticationLicensesOne | src/ambit_verify/execution_evidence.py:1059-1177 | When record hashes differ, an authentication record licenses at most one resume or recovery |
| EvidenceChain.FenceHasItsDecision | src/ambit_verify/execution_evidence.py:1068-1212 | Behind every fence stands an earlier authorization of exactly its operation, and an intent that joins both |
| EvidenceChain.CommitHasItsEvidence | src/ambit_verify/execution_evidence.py:1370-1514 | Behind every committed settlement stand, in order, the one authorization, a signed fence that joins it, and an outcome that proves exactly that dispatch: committed, in time, and on exactly its records |
| Releases.ReleaseHasItsEvidence | src/ambit_verify/execution_evidence.py:1370-1498 | Behind every release of a fenced operation whose authorization charged an account stand, in order, that authorization, its fence, and a signed outcome that joins the fence's claims and says not executed |
| Releases.EmptyHandedRelease | src/ambit_verify/execution_evidence.py:1484-1498 | An authorization that charges no account can be fenced and then released on durable_no_dispatch: the replay accepts the whole prefix without a receipt |
| EvidenceChain.RecoveryAnswersItsFence | src/ambit_verify/execution_evidence.py:1082-1177 | A recovery's request and outcome are signed, active and join the claims of the one fence of its operation |
| EvidenceChain.RecoveredOutcomeIsFinal | src/ambit_verify/execution_evidence.py:1390-1409 | Once recovered, an operation is settled only with the recovered outcome |
| EvidenceChain.AuthenticationIsByTheActor | src/ambit_verify/execution_evidence.py:966-1059 | Every authentication for an operation comes after its decision, under its admission, and is freshly signed by the holder of the operation's own actor key, whose nonce is the one fact it consumes |
| EvidenceChain.TransportIsAcknowledged | src/ambit_verify/execution_evidence.py:1299-1358 | Every suspension and resume carries the counterparty's acknowledgment of the fenced dispatch under the outcome key admitted with the decision |
| Bundles.VerifyPrefix | src/ambit_verify/execution_evidence.py:1682-1708 | A bundle passes exactly when its records form a linked prefix that ends at the pinned head and the replay accepts them |
| Bundles.BundleAuthenticationLicensesOne | src/ambit_verify/execution_evidence.py:1359-1362 | In an accepted bundle, with a collision-free hash, each authentication record licenses at most one resume or recovery |
| Bundles.PinnedHeadFixesReplay | src/ambit_verify/execution_evidence.py:113-151 | Two bundles accepted at one pinned head hold the same records |
| Bundles.EveryPrefixReplays | src/ambit_verify/execution_evidence.py:113-151 | With a collision-free hash, an accepted bundle cut off after any record is an accepted bundle at the head that this record makes |
| Prefixes.PrefixIsAccepted | src/ambit_verify/execution_evidence.py:778-795 | Every prefix of an accepted ledger prefix is accepted and goes through the same states, although the replay collects the intents of the whole of it first |
| Matching.PeriodStartIsUnique | src/ambit_verify/execution_evidence.py:186-205 | An instant has at most one accepted period start under a window, the one computed by whole periods from the epoch |
| Matching.PeriodStartExists | src/ambit_verify/execution_evidence.py:186-205 | A repeating window has a period for exactly the instants from its epoch on, a fixed one for exactly its own, while the period's end is representable |
| Matching.MatchAccounts | src/ambit_verify/execution_evidence.py:336-369 | The greedy loop that gives each account the first unmatched bound |
| Matching.MatchingIsSound | src/ambit_verify/execution_evidence.py:336-369 | Acceptance yields a one-to-one pairing that agrees on every compared field, on a valid period start and on the exact quantity |
| Matching.MatchingIsComplete | src/ambit_verify/execution_evidence.py:336-369 | Every account list that has such a pairing is accepted, in any order, even when the jtis of the chain repeat |
| Matching.AccountingIsExact | src/ambit_verify/execution_evidence.py:208-369 | The accounting of a decision is accepted exactly when the call is one that its resource admits, every delegation's scope covers it, and its accounts pair with the required ones; a generic call may require none |
| Matching.LeafScopeCoversAncestors | src/ambit_verify/execution_evidence.py:372-394 | In an accepted chain whose leaf grants the action then, the scope check of the ancestors comes down to their paths: action, domain and capability descend from the leaf's |
| Matching.Accounting | src/ambit_verify/execution_evidence.py:208-369 | The accounting check as it runs |
| Debits.DecisionDebitsExactly | src/ambit_verify/execution_evidence.py:208-369 | The accounts of a decision are accepted exactly when the call has no effect and none is required, or every delegation covers the signed call and each required account is charged once, in a period that its window allows, with exactly the records sent, the payload bytes, or one push, and nothing else |
| Debits.SpentIsExact | src/ambit_verify/execution_evidence.py:297-337 | What each profile spends: a record egress its records and payload bytes, a deletion its payload bytes, a publication one push; no other kind or unit is derived |
| Debits.SignedCallIsExact | src/ambit_verify/execution_evidence.py:208-334 | The checks of a profile come down to one condition on call, binding and chain, written out for each profile |
| Debits.MatchesIsExact | src/ambit_verify/execution_evidence.py:186-205 | An account matches a required one exactly when it repeats it and states a period that lies whole periods after the signed epoch, or at it, and holds the instant |
| Debits.BranchIsExact | src/ambit_verify/resource_protocol.py:397-424 | A branch reference by its components: each nonempty, without a leading dot or a final .lock, over the allowed characters, with no two dots together and no dot at the end |
| Attenuation.NarrowsMeans | src/ambit_verify/attenuation.py:81-270 | No axis is reported exactly when all fifteen comparisons hold, the per-kind one for every kind |
| Attenuation.NarrowsReflexive | src/ambit_verify/attenuation.py:81-270 | Every delegation narrows itself |
| Attenuation.NarrowsTransitive | src/ambit_verify/attenuation.py:81-270 | Narrowing composes over all fifteen axes |
| Attenuation.NarrowingIsContainment | src/ambit_verify/attenuation.py:53-142 | Every use (action, instant, path, domain, tool, point) that the narrower grant allows, the wider one allows |
| Containment.WideningAxisIsExact | src/ambit_verify/attenuation.py:81-270 | A child widens no axis exactly when on each of the fifteen what it admits is admitted by the parent: uses, domains, paths, times, amounts, consumers of a shared entry, signer sets, revocation answers, lineage, depth; and the axis reported is one on which something escapes, with none before it |
| Containment.AncestorsContainLeaf | src/ambit_verify/tokens.py:152-235 | In an accepted chain everything that the leaf admits on any axis every ancestor admits: each set of signers that satisfies the leaf satisfies every ancestor's quorum, each revocation answer young enough for the leaf is so for every ancestor, and the named set and lineage are the same |
| DelegationChain.WalkDelegationChain | src/ambit_verify/tokens.py:111-235 | The walk with its refusals, the depths they report, and the parents verified so far |
| DelegationChain.WalkStopsWhereItFails | src/ambit_verify/tokens.py:152-235 | The walk climbs as long as each parent continues the chain and stops at the first that does not: under the current rule a structured parent needs a capability that names delegate and holds now, a flat one names it in its scope; under the legacy rule the scope decides; and the refusal given is the one of the first check that fails |
| DelegationChain.WalkAsksForWholeAncestry | src/ambit_verify/tokens.py:111-235 | Outside the climb the walk refuses a leaf or a list beyond the depth limit, a missing or wrong number of tokens, and a climb that does not end at a root, each with its own reason, depth and verified parents |
| DelegationChain.DelegateRightIsExact | src/ambit_verify/tokens.py:67-74 | The right to delegate, said of scope and capabilities under either rule |
| DelegationChain.WalkIsExact | src/ambit_verify/tokens.py:181-235 | The walk accepts exactly the chains in which each delegation continues the one below it up to a root, and returns the parents in order |
| DelegationChain.NarrowsEveryAncestor | src/ambit_verify/tokens.py:181-235 | In an accepted chain every delegation narrows every one above it, not only its parent |
| DelegationChain.LeafGrantsAreAncestorGrants | src/ambit_verify/tokens.py:181-235 | What the leaf of an accepted chain grants, every ancestor grants |
| DelegationChain.LeafDepthIsAllowedByAncestors | src/ambit_verify/tokens.py:226-235 | Unless the depth is exceeded, the leaf is no deeper than any ancestor allows |
| DelegationChain.LegacyAcceptsCurrentChains | src/ambit_verify/tokens.py:263-319 | A chain that replays under the current rule replays under every supported recorded version, or none, with the same result; under an unknown version no chain is valid |
| ClaimShapes.ValidateBounds | src/ambit_verify/claim_shapes.py:471-515 | The loop over the bound entries with its set of seen kinds |
| ClaimShapes.BoundsAcceptedExactly | src/ambit_verify/claim_shapes.py:471-515 | Bounds are accepted exactly when each entry is valid by itself and no kind occurs twice in one scope |
| ClaimShapes.CleanList | src/ambit_verify/claim_shapes.py:318-331 | The loop that strips a list of texts and refuses repetitions |
| ClaimShapes.CleanedExactly | src/ambit_verify/claim_shapes.py:318-331 | A list is accepted exactly when its items are nonblank and differ once stripped, and each comes out stripped |
| ClaimShapes.ParseCapabilities | src/ambit_verify/claim_shapes.py:597-650 | The loop over the capabilities of a slip |
| ClaimShapes.CapabilitiesAreWellFormed | src/ambit_verify/claim_shapes.py:597-650 | Parsed capabilities name scoped actions only and lie within the slip's window |
| ClaimShapes.ParsedIsWellFormed | src/ambit_verify/claim_shapes.py:726-779 | Every parsed delegation is well formed: bounds, capabilities, lineage pair, and lineage wherever a ceiling is shared |
| ClaimGrammar.ParsedExactly | src/ambit_verify/claim_shapes.py:33-779 | A claim set parses to a delegation exactly when it states that delegation, claim by claim: texts, instants, stripped and distinct lists, defaults, bounds with their windows and sides, capabilities inside the slip's window, sets, quorum, lineage pair, audience and ages, and no privilege tier or unknown key |
| ClaimGrammar.BoundIsExact | src/ambit_verify/claim_shapes.py:270-468 | One bound entry states a bound exactly when kind and unit strip to its own, the amount is its canonical text, window, repetition and sharing are stated together, and named actions are in scope and no privilege tiers |
| Accounts.RequiredAccountBounds | src/ambit_verify/consumption.py:173-226 | The nested loops that collect the accounts of a chain, with every refusal |
| RequiredAccounts.RequiredRowsAreExact | src/ambit_verify/consumption.py:173-226 | For any chain, accepted or not: accounts are required exactly when action, boundary and chain are given, every charged shared bound has an entry and those on one ceiling agree on its amount; then there is one row for each charged ordinary bound, in order, and one for each shared ceiling, that of its first bound |
| Accounts.AcceptedChainAccounts | src/ambit_verify/consumption.py:173-226 | For an accepted chain the accounts never contradict each other, and are one row per applicable windowed ordinary bound of each claim and one per applicable shared bound of the leaf |
| Accounts.AggregatesAreShared | src/ambit_verify/attenuation.py:200-244 | Narrowing keeps every shared bound and the authority entry it belongs to |
| Accounts.SpendingIsSound | src/ambit_verify/attenuation.py:144-191 | In an accepted chain, quantities that the leaf's ordinary bounds admit are admitted by every ancestor's |
| Accounts.AncestorBoundReappearsOnLeaf | src/ambit_verify/consumption.py:128-144 | Every applicable windowed ordinary bound of an ancestor reappears on the leaf with the same unit and window and no larger ceiling |
| SignedChains.AcceptedSlips | src/ambit_verify/tokens.py:111-235 | For slips parsed by the claim grammar, consistent accounts, containment of uses and containment of spending hold of every accepted chain without further hypotheses |
| Ratification.RatifierReach | src/ambit_verify/ratification.py:384-426 | The ratifier-reach comparison under each rule version, with its loop over shared bounds |
| Ratification.PresentExtendsHistorical | src/ambit_verify/ratification.py:384-426 | The second rule accepts whatever the first accepts; they agree unless the candidate shares a ceiling and the ratifier none; an unknown version runs no rule |
| Ratification.NewCaseIsExact | src/ambit_verify/ratification.py:398-426 | In that case the second rule accepts exactly when the ratifier has no lineage, the candidate narrows it with its own bounds, and each shared ceiling lies within an ordinary one |
| Ratification.SharedCeilingIsWithinRatifier | src/ambit_verify/ratification.py:409-425 | Each shared ceiling it admits has an ordinary bound of the ratifier of the same kind and unit that is at least as large, has an equal window if any, and covers no more |
| RatifierContainment.ReachIsExact | src/ambit_verify/ratification.py:384-426 | Where no sharing is introduced a candidate is within reach exactly when everything it admits its ratifier admits; where it is, exactly when the ratifier has no lineage, everything else is contained, and each shared ceiling is no more than an ordinary one that the ratifier holds and checked wherever that one is |
| Ledger.Lines | src/ambit_verify/verify.py:230-275 | The lines of the segments in order |
| Ledger.WalkChain | src/ambit_verify/verify.py:278-323 | The walk over the segments: count, head hash, hash at a wanted number, and the records shown to the visitor |
| Ledger.WalkAcceptsLinkedRecords | src/ambit_verify/verify.py:278-357 | The walk accepts exactly the ledgers whose lines are numbered, linked and self-hashed records, within the record limit |
| Ledger.FailureIsExact | src/ambit_verify/verify.py:278-357 | The walk fails exactly at the first line that cannot follow the linked records before it, and with that line's reason: encoding, record limit, JSON, number, predecessor, digest, in that order |
| Ledger.HeadPinsHistory | src/ambit_verify/verify.py:278-357 | With a collision-free hash, two accepted ledgers of one length and head are equal record for record |
| Heads.AttestationIsExact | src/ambit_verify/head_attestation_checks.py:155-236 | A ledger is attested exactly when it verifies and a well-formed, authentic attestation names its count and head |
| Heads.HeadRefusalIsExact | src/ambit_verify/head_attestation_checks.py:155-236 | Each refusal of a head attestation, exactly when its check is the first to fail: presence, form, signature, number, head |
| Heads.AttestationPinsHistory | src/ambit_verify/head_attestation_checks.py:155-190 | Two ledgers accepted under one attestation hold the same records, however each is split into segments |
| Heads.CheckpointIsExact | src/ambit_verify/checkpoint.py:244-261 | A checkpoint passes exactly when its signatures hold and the ledger verifies, reaches its number, and carries its record there |
| Heads.CheckpointRefusalIsExact | src/ambit_verify/checkpoint.py:185-261 | Each refusal of a checkpoint, exactly when its check is the first to fail: one ledger, both heads, the three signatures, the ledger, its length, the record at the number |
| Heads.CheckpointPinsPrefix | src/ambit_verify/checkpoint.py:244-261 | Two ledgers that pass one checkpoint agree on every record up to it |
| Heads.CheckpointSurvivesAppend | src/ambit_verify/checkpoint.py:185-261 | No accepted extension of a ledger breaks a checkpoint |
| Heads.Records | src/ambit_verify/execution_evidence.py:113-151 | The records of a bundle, exactly when they form a linked prefix that ends at the pinned head |
| Heads.BundleIsLedgerPrefix | src/ambit_verify/execution_evidence.py:113-151 | A bundle at the head of a ledger holds the records of that ledger |
| Witness.Inspector.Inspect | src/ambit_verify/witness.py:33-56 | The visitor that keeps the best attestation and the equivocation flag |
| Witness.WalkWitnessLedger | src/ambit_verify/witness.py:25-59 | The walk over a witness ledger with its visitor |
| Witness.AuthenticIsExact | src/ambit_verify/witness.py:33-48 | A record of the witness ledger contributes an attestation exactly when it is a head witness that names the witnessed ledger, its block parses, the attestation names that ledger too, and the witness key verifies it |
| Witness.FoldSettles | src/ambit_verify/witness.py:30-59 | The fold ends with the greatest authenticated number, and flags exactly a contradiction at that number |
| Witness.FlagMeansEquivocation | src/ambit_verify/witness.py:50-56 | The flag is set exactly when two authenticated records at the greatest number carry different hashes |
| Witness.FoldIgnoresOrder | src/ambit_verify/witness.py:30-59 | Permuting the records changes neither the number, nor the flag, nor an unflagged hash |
| Witness.WitnessedHeadIsExact | src/ambit_verify/witness.py:62-164 | A ledger is accepted exactly when its id is given, the witness ledger is attested, the ledger verifies, no authenticated witness record is ahead of it, and those at its number all name its head |
| Witness.WitnessRefusalIsExact | src/ambit_verify/witness.py:62-164 | Each refusal against a witness ledger, exactly: the witness ledger itself, two heads at its greatest number, no head, the ledger, and a count below, above or at that number with another head |
| Witness.WitnessPinsHistory | src/ambit_verify/witness.py:95-164 | Two ledgers accepted against the same witness records in any order are the same |
| ReceiptLinks.VerifyReceiptRecords | src/ambit_verify/receipt_links.py:213-574 | All passes over the dictionaries: the issues in the order in which they are found, and the counts |
| ReceiptLinks.NoIssuesMeansLinksHold | src/ambit_verify/receipt_links.py:227-504 | The issue list is empty exactly when the declarative link relation holds |
| ReceiptIssues.ReportIsExact | src/ambit_verify/receipt_links.py:213-504 | Which issues are reported, for every code: exactly those for a missing or repeated number, and for what is wrong with the first record of its number, by itself or against the decision, the intent and the outcomes that name it or that it names |
| ReceiptIssues.BlockedIsExact | src/ambit_verify/receipt_links.py:163-198 | A refusal was enforced exactly when it was no dry run and its mode enforces, or is decision mode with complete reasons and a delegation rule among them that matched |
| ReceiptLinks.OutcomesPairWithIntents | src/ambit_verify/receipt_links.py:358-477 | Then outcomes and intents pair off one to one |
| ReceiptLinks.IntentsInjectIntoDecisions | src/ambit_verify/receipt_links.py:307-357 | Every intent follows a decision of its own |
| ReceiptLinks.OutcomeOrder | src/ambit_verify/receipt_links.py:358-460 | An outcome comes after its intent, which comes after their decision, with one actor, adapter, fingerprint and verdict |
| ReceiptLinks.AllowedDecisionHasItsConsequence | src/ambit_verify/receipt_links.py:478-504 | An ALLOW that was no dry run has exactly one intent and one outcome |
| ReceiptLinks.BlockedDecisionHasNoConsequence | src/ambit_verify/receipt_links.py:478-504 | Nothing follows a dry run or an enforced refusal |
| ReceiptLinks.CleanReport | src/ambit_verify/receipt_links.py:559-574 | In a clean report outcomes are as many as intents and no more than decisions |
| ReceiptLinks.DecisionWasBlocked | src/ambit_verify/receipt_links.py:181-198 | Whether a refusal was enforced, by mode |
| ReceiptLinks.DecisionModeHasHardDelegation | src/ambit_verify/receipt_links.py:163-178 | Whether a decision-mode refusal rests on a hard delegation failure |
| JsonText.CheckJsonNesting | src/ambit_verify/hashing.py:37-57 | The scanner's loop over depth, string and escape state |
| JsonText.ScannerIsExact | src/ambit_verify/hashing.py:37-57 | On canonical text the scanner accepts exactly the values nested no deeper than the maximum, and ends at depth zero outside any string |
| Amounts.ParseInvertsPrint | src/ambit_verify/hashing.py:128-141 | An amount text is accepted exactly when it is the printed form of its value and fits the digit limit |
| Amounts.AcceptedTextsAgreeWithAmounts | src/ambit_verify/hashing.py:128-141 | Two accepted amount texts are equal exactly when their amounts are |
| Base64.DecodeInvertsEncode | src/ambit_verify/tokens_p256.py:63-99 | Base64 as in sections 3.5 and 4 of RFC 4648: decoding inverts encoding |
| WireSignature.DecodeOfEncode | src/ambit_verify/tokens_p256.py:53-99 | Decoding the encoding of an in-range (r, s) gives (r, min(s, n - s)) |
| WireSignature.WireFormIsExact | src/ambit_verify/tokens_p256.py:53-71 | The wire form is the prefix p256: and the base64 of 64 bytes, r and the smaller of s and n - s, each big-endian |
| Base64.BytesAreBigEndian | src/ambit_verify/tokens_p256.py:53-99 | The first byte of an integer counts most |
| WireSignature.SameWireForm | src/ambit_verify/tokens_p256.py:53-71 | Two in-range signatures have one wire form exactly when they are equal up to negating s |
| WireSignature.EncodeOfDecode | src/ambit_verify/tokens_p256.py:74-99 | Every accepted string is what its content encodes to |
| WireSignature.OneWireFormPerSignature | src/ambit_verify/tokens_p256.py:74-99 | Distinct accepted strings decode to distinct signatures |

## Left out

- Cryptography (Ed25519, ECDSA, SHA-256, DER, point decoding): uninterpreted functions and predicates.
- Ledger.Lines: the byte, line and count limits of the reader, which stop the walk with an error of their own.
- ReceiptLinks.VerifyReceiptRecords: the rows of consequences and refusals in the report, copies of fields beside the counts.
- Files, descriptors, directory scans, byte and line limits, the command line: input and output only; `Ledger` starts from the stripped lines of the segments.
- JSON parsing, ISO-8601 parsing, `strip`, `normpath`, URL handling: library behaviour, kept as functions. A parsed JSON value is compared structurally, while Python's `==` also equates `True` with `1`.
- Closed field sets of the wire records: a consumption record or decision outside them is the one record body `Malformed`, which aborts the run.
- `verify_execution_authority`, `verify_foreign_dispatch` beyond its interval, the retained escalation behind an approval, and the holder proof beyond its freshness bound: oracles of the configuration.
- Matching.Accounting: takes the chain as parsed delegations, with None in the decision when one does not parse, and the sizes of records and payload as numbers; the hash of a publication plan is an uninterpreted function.
- Matching.AccountingIsExact: the same parsed chain, sizes and plan hash.
- The payload that a dispatch states for a call (`_action_and_payload`): an oracle.
- The joins of a reconciliation or an outcome with the dispatch claims, field by field: two oracles; the claims carry the fields the replay itself compares and one opaque rest.
- The freshness bound of a holder proof is compared in exact microseconds; the original compares seconds as floating point, which differs only for bounds of centuries.
- `ratification_bundle.py`, `paired_bundles.py`, `credential_evidence.py`, `behavioural.py`, `foreign_revocation.py`, `revocation_fence.py`: straight-line joins of signed fields.
- The checks of `verify_execution_bundle` after the replay, and `_decision_for_operation`: one operation's evidence, joined field by field.
- The wording of issues and errors.
- The claim `iss` of a delegation: validated as text and not read by any rule modelled here.
- Revocation statuses that the chain walk collects: one refusal predicate of the caller.
- Budget.PeriodStaysWithinBound: supposes that the charges of the run against the bound spell the start of the period alike, because without it the statement is false; Overspending.BudgetNeedsOneSpelling is the exact condition.
- Exclusion.NoLiveApprovalReuse: supposes the time check of the authority oracle, which the original makes for the approval of a decision and not for the further approvals of a quorum.
