# Verified model of the governance layer

A Dafny model of the deterministic code around the repair agents: how a WorkOrder is frozen,
approved and authorised once; how an experiment is run, resumed and judged; what an empty list of
contract violations implies; and the small stateful pieces (rate limiter, task acceptance, page
data, gate) whose promises must survive crashes, retries and interleavings.

Verify with `dafny verify dfyconfig.toml`.

| files | subject |
|---|---|
| Json, KeyOrder, Jcs, JcsBytes, JcsReader, JcsRoundTrip, JcsCanonical, WorkorderHash | the hand-written canonical serialiser, the grammar of its bytes, a reader that undoes it, and the WorkOrder hash |
| WorkOrder, FreezeProtocol, FreezeFields | the WorkOrder row and the two-phase freeze as a state machine with crashes, lost and repeated messages; what the frozen payload says |
| Approval, ApprovalRuns, ApprovalOrigins | one-shot approvals over any sequence of calls, and the human decision behind each |
| Stats, Wilson, Newcombe | the interval statistics in exact reals |
| Protocol, Experiment, ExperimentResume, ExperimentReceipts, ExperimentVersions, ExperimentVerdict, EvalRunner | the five-arm runner, its resume path from receipts, the verdict it leads to, the thread registry around it |
| Adjudication, AdjudicationProofs, VerdictMeaning, AttributionCounts | rules R1 to R5, what a verdict says of the runs, and an attribution on the counts behind it |
| RevisionChain, GateReport, ScopeChain, GateChain, Authority, AuthorityMeaning, Permissions | the v4 contract validators |
| RateLimiter, Acceptance, AcceptanceMeaning, PageData, ProbeJudge, Gate | the stateful pieces |

Conventions. Code that changes objects step by step is a class whose methods are proved equal to a
specification function; the theorems are about that function, over every run. Where a check is a
predicate that a method and its contract share, a lemma named `...Exactly` restates it in plain
terms, as an if-and-only-if. Exceptions are `Result` values. SHA-256 is a parameter `sha`, assumed
injective only in the theorems that say so. The square root is a parameter `sqrt` with `IsSqrt`. A
string is a sequence of code points, lone surrogates included. The network is a set of messages that
may be lost, repeated or delayed. The registrar behind `POST /v1/workorders` is not part of this
model; it is assumed to keep the first valid registration of an id and to answer truthfully.

## What turned out false, and exactly when it holds

- The serialiser is not injective on all strings: an astral character and the pair of surrogate
  code points that encodes it give the same bytes (`SurrogatePairCollision`). A text is the only
  pair-free text with its bytes exactly when it holds no such pair (`StringInjectiveExactly`), and on
  pair-free values equal bytes mean equal values (`CanonicalAndInjective`). The source's comments
  speak of RFC 8785; the code escapes all non-ASCII and sorts by code point, and the model follows it.
- ATTRIBUTED does not mean that only the blamed arm is ahead in raw recovery rate
  (`RawRateNotExclusive`); it does exactly when no single-factor arm's count lies between the raw
  threshold and the least count that is significant (`RawRateExclusiveExactly`). Among arms with as many
  trials the blamed one always has strictly more recoveries (`BlamedArmRecoversMost`).
- `consume_nonce` does not look at the expiry (`ConsumedAfterExpiry`). A consume succeeds exactly on an
  approved, unconsumed grant whose expiry no validation has reported in a transaction that was committed
  (`ConsumeExactly`). Under `session_scope` the report raises and its mark is rolled back, so there a
  consume succeeds however late (`ConsumeInSessionScope`). One-shot use is of committed consumes: of two
  calls that succeed on one nonce the earlier was rolled back (`NonceConsumedOnce`).
- A task acceptance that crashes between the pending receipt and the plan can never be retried
  (`PendingReceiptSticks`): a retry goes through exactly when no receipt is on disk
  (`RetryProceedsExactly`).
- A WorkOrder's own gate reference stays mutable after the freeze (`GateReferenceStaysMutable`); the
  frozen payload and hash do not.
- A gate report with no required track at all is accepted as PASS (`EmptyReportPasses`), by a caller that
  has not validated it against its JSON schema, which asks for at least one track.
- A registrar that already holds another hash under the id blocks the freeze for good
  (`ForeignRegistrationBlocks`); in every other case one undisturbed retry finishes it (`RetryCompletes`).

## Model

| member | source | states |
|---|---|---|
| JcsRoundTrip.ReadsBackAscending | mcp-servers/common/jcs.py:14-35 | round trip: a reader of the bytes recovers the value, strings as UTF-16 units and the keys of every dict in ascending code point order, whatever follows |
| JcsBytes.BytesSpelled | mcp-servers/common/jcs.py:14-35 | which bytes: no white space, ascending keys, decimal integers without leading zeros, two-character escapes, printable ASCII as it is, lower-case four-digit escapes of UTF-16 units for the rest |
| JcsCanonical.SerialisesIffFloatFree | mcp-servers/common/jcs.py:21-24 | serialisation succeeds exactly on the values with no float at any depth |
| JcsCanonical.BytesEqualIffWireEqual | mcp-servers/common/jcs.py:14-35 | float-free values give the same bytes exactly when they denote the same wire value |
| JcsCanonical.StringInjectiveExactly | mcp-servers/common/jcs.py:25-29 | a string's bytes are its own among pair-free strings exactly when it holds no surrogate pair |
| JcsCanonical.SurrogatePairCollision | mcp-servers/common/jcs.py:25-29 | two different strings with the same bytes |
| JcsCanonical.CanonicalAndInjective | mcp-servers/common/jcs.py:14-35 | key order never changes the bytes; on pair-free values equal bytes mean equal typed values up to key order |
| KeyOrder.BeforeExactly | mcp-servers/common/jcs.py:33 | the sort order: a proper prefix first, else the smaller code point at the first difference |
| WorkorderHash.HashBindsEveryOtherField | mcp-servers/common/jcs.py:42-45 | two payloads that hash do so alike exactly when they agree on every field but `hash` |
| WorkorderHash.HashesIffFloatFree | mcp-servers/common/jcs.py:23-45 | a payload hashes exactly when no field but `hash` holds a float |
| WorkorderHash.HashFieldIsFree | mcp-servers/common/jcs.py:42-45 | storing the hash in the payload does not change it |
| WorkOrder.WorkOrderDraft.constructor | mcp-servers/servers/release_admin.py:173-237 | a new row is DRAFT with no gate, payload or hash |
| WorkOrder.WorkOrderDraft.SubmitGate | mcp-servers/servers/release_admin.py:240-303 | attaches the reference in any status, exactly when report, target, tracks and controller copy all hold; otherwise nothing changes |
| WorkOrder.WorkOrderDraft.BeginFreeze | mcp-servers/servers/release_admin.py:315-368 | a bad token changes nothing; else the first locked block: what it stores and whether it registers, refuses or reports FROZEN |
| WorkOrder.WorkOrderDraft.FinishFreeze | mcp-servers/servers/release_admin.py:398-420 | the second locked block freezes exactly an unchanged intent |
| FreezeProtocol.InvInductive | mcp-servers/servers/release_admin.py:312-434 | every step of every caller, message or crash keeps the protocol invariant |
| FreezeProtocol.RunsForward | mcp-servers/servers/release_admin.py:340-345 | status never moves backwards; payload and hash are fixed once set; nothing sent is forgotten |
| FreezeProtocol.OnePayloadEver | mcp-servers/servers/release_admin.py:340-345 | all registrations ever sent for an id carry one identical payload, whatever was lost or retried |
| FreezeProtocol.StoredHashIsRecomputed | mcp-servers/servers/release_admin.py:357-364 | past DRAFT the stored hash is the recomputed hash of the stored payload and the one inside it |
| FreezeFields.FrozenSays | mcp-servers/servers/release_admin.py:336-639 | past DRAFT every field of the frozen payload has the value of the row, its draft or the freezing call's stamp, and the gate reference attached then, of a report that had passed for this WorkOrder |
| FreezeFields.RegisteredSays | mcp-servers/servers/release_admin.py:367-639 | the same of every registration ever sent, which also names the row's creator as worker and a positive token |
| FreezeProtocol.NoCorruption | mcp-servers/servers/release_admin.py:357-411 | no reachable call meets a corrupt or changed intent |
| FreezeProtocol.FrozenIsRegistered | mcp-servers/servers/release_admin.py:386-420 | FROZEN means the registrar holds that hash, and with an injective digest the same value under every other field |
| FreezeFields.FrozenIsAcknowledged | mcp-servers/servers/release_admin.py:386-420 | over any run, a FROZEN row was acknowledged by a receipt naming exactly this WorkOrder and hash, with its duplicate flag |
| FreezeProtocol.OneApprovalSubject | mcp-servers/servers/release_admin.py:473-509 | every approval ever asked for names one hash, nonce and expiry, those of the registered payload |
| FreezeFields.AskExactly | mcp-servers/servers/release_admin.py:473-485 | an approval can be asked for exactly on a frozen payload with gate, hash, nonce and expiry, and for those |
| FreezeProtocol.GateReferenceStaysMutable | mcp-servers/servers/release_admin.py:240-295 | in every status a passed report replaces the gate reference, and payload, hash and status stay |
| FreezeProtocol.RetryCompletes | mcp-servers/servers/release_admin.py:340-345 | from any pending state one undisturbed retry freezes the same intent, unless the registrar holds another hash |
| FreezeProtocol.ForeignRegistrationBlocks | mcp-servers/servers/release_admin.py:390-396 | a different hash at the registrar keeps the row pending for good |
| Approval.ApprovalService.GrantApproval | mcp-servers/common/approval.py:55-135 | stores a grant or raises the first failed requirement, table untouched |
| Approval.ApprovalService.ValidateForRelease | mcp-servers/common/approval.py:139-195 | inside its transaction: accepts or raises the first failed requirement; only a reported expiry changes the table |
| Approval.ApprovalService.InSessionScope | mcp-servers/common/db.py:46-58 | a call that raises, or whose commit fails, leaves the table as it was |
| Approval.ApprovalService.MarkExpired | mcp-servers/common/approval.py:244-247 | only a pending grant expires |
| Approval.ApprovalService.ConsumeNonce | mcp-servers/common/approval.py:198-213 | true exactly when it moved one pending row to consumed |
| ApprovalRuns.NonceConsumedOnce | mcp-servers/common/approval.py:198-213 | over any sequence of committed and rolled-back calls, of two successful consumes of one nonce the earlier was rolled back |
| ApprovalRuns.SecondConsumeFails | mcp-servers/common/approval.py:198-213 | after a committed consume every later consume of the nonce fails, under any approval id |
| ApprovalRuns.ConsumedMeansApproved | mcp-servers/common/approval.py:55-213 | a consumed nonce belongs to an approved, still pending grant |
| ApprovalOrigins.GrantedExactly | mcp-servers/common/approval.py:55-135 | exactly when a grant is accepted, and what each field of the new row holds: approved and pending exactly for the decision `approved` |
| ApprovalOrigins.AcceptedExactly | mcp-servers/common/approval.py:139-195 | exactly when a validation is accepted, in terms of row, presented WorkOrder and clock |
| ApprovalOrigins.RefusedExactly | mcp-servers/common/approval.py:139-195 | which refused validations are replays and which expiries, and that only a reported expiry of a pending row changes the table |
| ApprovalOrigins.GrantRefusedExactly | mcp-servers/common/approval.py:55-110 | which refused grants are expiries and which replays, table untouched |
| ApprovalOrigins.ConsumeHasApproval | mcp-servers/common/approval.py:55-213 | over any run, behind a successful consume is an earlier committed grant of that id and nonce in which a human decided `approved`, on the row's hash |
| ApprovalOrigins.UnapprovedNeverConsumed | mcp-servers/common/approval.py:55-213 | a nonce granted only with other decisions is never consumed |
| ApprovalOrigins.AcceptanceHasApproval | mcp-servers/common/approval.py:55-195 | behind every acceptance is such a grant, of the presented WorkOrder's own hash and nonce, not yet expired |
| ApprovalRuns.NothingAfterConsume | mcp-servers/common/approval.py:139-195 | after a committed consume every validation is refused as a replay |
| ApprovalRuns.AcceptedWithinTtl | mcp-servers/common/approval.py:55-195 | every acceptance is strictly before grant time plus time to live |
| ApprovalRuns.OneWorkOrderPerApproval | mcp-servers/common/approval.py:139-195 | WorkOrders accepted under one approval agree on every field but `hash` |
| ApprovalRuns.ExpiredStaysExpired | mcp-servers/common/approval.py:139-247 | after a reported expiry only an earlier clock can accept again |
| ApprovalRuns.NoConsumeAfterExpiryReport | mcp-servers/common/approval.py:198-247 | after a committed expiry report the nonce is never consumed |
| ApprovalRuns.ConsumedAfterExpiry | mcp-servers/common/approval.py:198-247 | a run in session scopes in which an expiry is reported and the nonce consumed after it |
| ApprovalRuns.ConsumeExactly | mcp-servers/common/approval.py:198-247 | a consume succeeds exactly on a matching, approved, unconsumed grant with no committed expiry report before |
| ApprovalRuns.ConsumeInSessionScope | mcp-servers/common/db.py:46-58 | where every raising call is rolled back, a consume succeeds exactly on a matching, approved, unconsumed grant, whatever was reported |
| Wilson.IntervalEncloses | eval-harness/eval_harness/stats.py:20-31 | 0 ≤ lower ≤ p ≤ upper ≤ 1 and neither clamp bites |
| Wilson.IntervalIsScoreTest | eval-harness/eval_harness/stats.py:20-31 | an interval exists exactly for possible counts; it is all of [0, 1] without trials, else exactly the rates x with n(x - p)² ≤ z²x(1 - x) |
| Wilson.IntervalMonotone | eval-harness/eval_harness/stats.py:20-31 | more successes never lower either bound |
| Wilson.IntervalComplement | eval-harness/eval_harness/stats.py:20-31 | counting failures instead reflects the interval about one half |
| Wilson.AllSuccesses | eval-harness/eval_harness/stats.py:20-31 | with every trial a success the lower bound is n/(n+z²) |
| Wilson.ThirtyFiveTrials | eval-harness/eval_harness/stats.py:16-31 | some record of n trials exceeds 0.9 exactly when n is at least 35 |
| Newcombe.HoldsDifference | eval-harness/eval_harness/stats.py:34-55 | -1 ≤ lower ≤ difference ≤ upper ≤ 1 for all accepted inputs |
| Newcombe.BoundsAreReaches | eval-harness/eval_harness/stats.py:34-55 | from the difference to a bound it is the root of the two squared half-widths that face each other, unless the bound is cut off at -1 or 1 |
| Newcombe.RoundExactly | eval-harness/eval_harness/stats.py:50-51 | counts are recovered by rounding to the nearest integer, halves to the even one |
| Newcombe.Antisymmetric | eval-harness/eval_harness/stats.py:34-55 | swapping the arms negates and swaps the bounds |
| Newcombe.DifferenceUnclamped | eval-harness/eval_harness/stats.py:50-55 | on counts the closed form lies in [-1, 1], so the clamps never bite |
| Newcombe.LowerBoundMonotone | eval-harness/eval_harness/stats.py:50-55 | more recoveries in the arm or fewer in the control never lower the lower bound |
| Newcombe.SignificanceKept | eval-harness/eval_harness/stats.py:34-60 | extra recovery never makes a significant arm insignificant |
| Experiment.ImmutableVersionSetDriver.Create | eval-harness/eval_harness/experiment.py:51-60 | a driver exactly for C, RP, RK, RM and G, each bound to an id that starts with vs_ or vset_ |
| Experiment.ImmutableVersionSetDriver.Setup | eval-harness/eval_harness/experiment.py:62-63 | points the driver at the arm's VersionSet |
| Experiment.ImmutableVersionSetDriver.Evaluate | eval-harness/eval_harness/experiment.py:68-71 | asks the provider for the selected VersionSet, or fails if none is selected |
| Experiment.RunRound | eval-harness/eval_harness/experiment.py:223-351 | the nested loops compute the specified round, and reject any prior trial that is not of the five arms, the plan's probes and its repetitions |
| Experiment.ExecuteArms | eval-harness/eval_harness/experiment.py:260-349 | cells in arm order, the first error ending the round |
| Experiment.ExecuteCell | eval-harness/eval_harness/experiment.py:262-349 | the cell of one arm with its expected component digests |
| Experiment.ExecuteProbe | eval-harness/eval_harness/experiment.py:284-348 | one probe's repetitions, each reused, run or failing as specified |
| ExperimentResume.RoundCovers | eval-harness/eval_harness/experiment.py:260-349 | a finished round holds each arm's frozen trials in order, each with the checkpointed or the judged bit |
| ExperimentResume.ExactlyOnce | eval-harness/eval_harness/experiment.py:247-252 | with no probe listed twice every (arm, probe, repetition) of the protocol occurs once |
| ExperimentResume.CallsConserved | eval-harness/eval_harness/experiment.py:285-348 | provider calls plus reused trials are 5 · probes · repetitions |
| ExperimentResume.CheckpointsNotRepaid | eval-harness/eval_harness/experiment.py:286-300 | every checkpointed trial is reused, none is paid for again |
| ExperimentResume.ResumeEqualsUninterrupted | eval-harness/eval_harness/experiment.py:223-351 | resuming from any checkpointed subset finishes with the trials and bits of the uninterrupted run |
| ExperimentResume.RecordedTrialIsCheckpoint | eval-harness/eval_harness/experiment.py:301-348 | a trial the runner records is a valid checkpoint for a later resume |
| ExperimentVersions.ArmReplacesItsLayer | eval-harness/eval_harness/experiment.py:262-278 | the layer a verdict names for an arm is the one layer in which that arm differs from the control |
| ExperimentVersions.ArmsShow | eval-harness/eval_harness/experiment.py:264-283 | which three digests each arm must show, and that a missing one means none is expected |
| ExperimentVersions.TrialExactly | eval-harness/eval_harness/experiment.py:284-348 | exactly when a checkpoint is reused and when a fresh answer is kept, and the run each adds |
| ExperimentVersions.OneVersionSetPerArm | eval-harness/eval_harness/experiment.py:301-319 | in a finished cell every provider answer is from the frozen VersionSet and shows the expected components |
| EvalRunner.OneBodyPerExperiment | mcp-servers/servers/eval_runner.py:298-321 | under any interleaving at most one body per experiment is running |
| EvalRunner.StartsWhenIdle | mcp-servers/servers/eval_runner.py:298-321 | a call starts a body exactly when no thread of the experiment is between start and clean-up |
| EvalRunner.ExecutionThreads.ExperimentExecute | mcp-servers/servers/eval_runner.py:300-320 | registers a new thread unless a live one is registered |
| EvalRunner.ExecutionThreads.Release | mcp-servers/servers/eval_runner.py:308-312 | a finishing thread removes its own entry and no other |
| EvalRunner.PriorTrialMap | mcp-servers/servers/eval_runner.py:612-645 | every receipt is in the map under its cell, probe and repetition with its own bit, reference and digest, and nothing else is; an error names a malformed receipt or a repeated trial |
| ExperimentReceipts.ReceiptsAreCheckpoints | mcp-servers/servers/eval_runner.py:502-645 | receipts of trials the runner recorded are read back as valid checkpoints |
| ExperimentReceipts.ResumeFromReceipts | mcp-servers/servers/eval_runner.py:502-645 | a round resumed from such receipts finishes with the trials and bits of the uninterrupted one |
| EvalRunner.ArmOrderFromBundle | mcp-servers/servers/eval_runner.py:694-701 | the arms in order of first appearance |
| EvalRunner.ArmOrderRoundTrip | mcp-servers/servers/eval_runner.py:694-701 | reading back the recorded probe order gives the order the arms ran in |
| AdjudicationProofs.ShareIsOne | eval-harness/eval_harness/experiment.py:353-368 | a pass rate of at least one means some run and every run passed |
| AdjudicationProofs.AttributedExactly | eval-harness/eval_harness/adjudicate.py:108-193 | a layer is blamed exactly when controls hold, G recovers and that arm alone is significant and reproduced |
| AdjudicationProofs.VerdictClassified | eval-harness/eval_harness/adjudicate.py:108-193 | exactly when each other decision and reason is given, the mismatch by the hidden result of the one significant arm, and that only CONFOUNDED asks for the full factorial |
| AdjudicationProofs.AttributedSound | eval-harness/eval_harness/adjudicate.py:79-193 | what the runs show behind an attribution: controls, G, the blamed arm and the hidden probes |
| VerdictMeaning.CellSays | eval-harness/eval_harness/experiment.py:353-368 | the statistics of an arm are the numbers of its affected and hidden trials and the shares of affected, control and hidden trials that recovered |
| VerdictMeaning.VerdictExactly | eval-harness/eval_harness/adjudicate.py:79-193 | the whole verdict, significance being a lower Newcombe bound at z = 1.959964 above δ_min and reproduction a hidden lead with its bound above 0 |
| VerdictMeaning.AttributedOnRuns | eval-harness/eval_harness/adjudicate.py:79-193 | behind an attribution all controls ran and recovered in every arm, and G and the blamed arm lead the control on the trials themselves |
| VerdictMeaning.AdjudicatedExactly | eval-harness/eval_harness/adjudicate.py:79-193 | runs are adjudicated exactly when each of the five arms has an affected trial |
| AdjudicationProofs.RawRateNotExclusive | eval-harness/eval_harness/adjudicate.py:152-182 | an attribution with a second arm ahead in raw rate |
| AttributionCounts.SignificantFromLeastOn | eval-harness/eval_harness/stats.py:34-60 | significance is a threshold on the recovered count |
| AttributionCounts.BlamedArmRecoversMost | eval-harness/eval_harness/adjudicate.py:152-182 | among single-factor arms with as many trials the blamed arm has strictly more recoveries |
| AttributionCounts.RawRateExclusiveExactly | eval-harness/eval_harness/adjudicate.py:152-182 | the blamed arm is alone ahead in raw rate exactly when no arm's count lies between the raw threshold and the least significant count |
| AttributionCounts.ExampleAttributed | eval-harness/eval_harness/adjudicate.py:167-182 | runs that are attributed |
| AdjudicationProofs.OrderFree | eval-harness/eval_harness/experiment.py:353-368 | the same probes, repetitions and bits in any order, whatever the answers and where they are stored, give the same statistics |
| ExperimentVerdict.OneVerdict | eval-harness/eval_harness/experiment.py:223-368 | any two finished rounds, for any seeds and any checkpointed subsets, are adjudicated alike |
| AdjudicationProofs.RelabellingEquivariant | eval-harness/eval_harness/adjudicate.py:108-193 | exchanging two arms' data exchanges their layers and nothing else |
| RevisionChain.RevisionsCount | contracts/conformance/v4_integrity.py:425-486 | a valid history counts its revisions 1, 2, ..., n |
| RevisionChain.OneIdentity | contracts/conformance/v4_integrity.py:425-486 | any two of its records carry the same identity |
| RevisionChain.GenesisExactly | contracts/conformance/v4_integrity.py:425-450 | a record without a predecessor is accepted exactly as revision 1 with no previous snapshot |
| RevisionChain.LinkExactly | contracts/conformance/v4_integrity.py:451-486 | a record with a predecessor is accepted exactly one revision later, with its identity and a snapshot of exactly its kind, id, revision and digest |
| RevisionChain.HistoryExactly | contracts/conformance/v4_integrity.py:425-523 | a history is accepted exactly when it starts with a genesis record, each later one follows the one before, and each declares its hash rule and the digest of its other fields |
| RevisionChain.ExampleHistory | contracts/conformance/v4_integrity.py:425-523 | an accepted history of two records |
| RevisionChain.SameDigestSameDocument | contracts/conformance/v4_integrity.py:489-523 | intact records with one declared digest have one content |
| RevisionChain.NoForkBehindHead | contracts/conformance/v4_integrity.py:425-523 | two valid histories whose heads declare one digest are equal element by element |
| GateReport.GateReportViolations | contracts/conformance/v4_integrity.py:708-890 | no violation exactly for an accepted report; missing receipts and repeated tracks are named |
| GateReport.ReceiptViolations | contracts/conformance/v4_integrity.py:753-830 | no violation exactly when ids are unique and every binding resolves to a fitting receipt; which receipts resolve |
| GateReport.IndexById | contracts/conformance/v4_integrity.py:753-765 | the dictionary holds every receipt under its id |
| GateReport.TracksBijectReceipts | contracts/conformance/v4_integrity.py:708-890 | required tracks are in bijection with distinct sound receipts of the same execution inside the window; facets are their union; PASS exactly when all are PASS and COMPLETE |
| GateReport.AcceptedExactly | contracts/conformance/v4_integrity.py:708-890 | what an accepted report is, in terms of its bindings and the receipts that stand behind them |
| GateReport.EmptyReportPasses | contracts/conformance/v4_integrity.py:708-890 | with no required track, which the schema forbids, a COMPLETE report is accepted exactly as PASS |
| ScopeChain.CandidateScopeViolations | contracts/conformance/v4_integrity.py:545-661 | no violation exactly when the Candidate is accepted; a forbidden path is reported exactly when a file is an entry or lies below a directory entry |
| ScopeChain.CandidateAcceptedExactly | contracts/conformance/v4_integrity.py:538-661 | an accepted Candidate in plain terms: no file is a forbidden entry or below one, kind allowed, items within the Resolution's, forbidden categories unused, budget kept |
| ScopeChain.PathExactly | contracts/conformance/v4_integrity.py:538-542 | a path is forbidden exactly when it is an entry or has as prefix an entry that ends in a slash |
| ScopeChain.RiskExactly | contracts/conformance/v4_integrity.py:1141-1156 | the risk order: known, and no lower than the Resolution's |
| GateChain.PlanViolations | contracts/conformance/v4_integrity.py:675-705 | no violation exactly when the plan binds the required criteria and keeps every required verifier as a track |
| GateChain.ReceiptsViolations | contracts/conformance/v4_integrity.py:378-422 | no violation exactly when every referenced receipt is about exactly these records, with a possible timeline |
| GateChain.GateChainViolations | contracts/conformance/v4_integrity.py:893-1021 | no violation exactly when scope, plan, report, receipts, bindings and build all hold |
| GateChain.WorkorderChainViolations | contracts/conformance/v4_integrity.py:1048-1230 | no violation exactly when the whole chain, the Gate's part included, is accepted |
| ScopeChain.SubsetViolations | contracts/conformance/v4_integrity.py:1048-1230 | exactly the surfaces on which the inner scope exceeds the outer |
| ScopeChain.CategoryViolations | contracts/conformance/v4_integrity.py:545-661 | no violation exactly when every forbidden category's surface is empty and no forbidden action is asked |
| GateChain.ContainedEndToEnd | contracts/conformance/v4_integrity.py:538-1230 | every WorkOrder item is allowed by Candidate and Resolution, no forbidden category is used, no file of WorkOrder or Candidate is a forbidden entry or below one, the risk is kept, a high-risk Resolution means human approval |
| GateChain.TermsAcceptedExactly | contracts/conformance/v4_integrity.py:1100-1230 | a WorkOrder's own terms in plain terms: paths, risk, authorisation, times and PASS |
| GateChain.ReceiptsFitExactly | contracts/conformance/v4_integrity.py:378-422 | every receipt a binding names by id is about exactly these records and does not end before it starts |
| GateChain.RequiredExactly | contracts/conformance/v4_integrity.py:675-705 | the criteria the plan's digest is over are the required ones |
| GateChain.EveryCriterionBacked | contracts/conformance/v4_integrity.py:675-1230 | behind an accepted WorkOrder every required criterion has its own sound PASS, COMPLETE receipt of the same Gate execution, about exactly these records, inside the window and before the WorkOrder |
| GateChain.OneSubject | contracts/conformance/v4_integrity.py:926-1221 | a chain is accepted exactly when all records share workspace and Case, name each other alike, the WorkOrder builds what the Gate judged after it was built, and scope, plan, report, receipts and terms are accepted |
| GateChain.NoForbiddenRepositoryAction | contracts/conformance/v4_integrity.py:545-1230 | no repository action the Resolution forbids reaches the WorkOrder, where one canonical form means one item |
| ScopeChain.DirectoryForbids | contracts/conformance/v4_integrity.py:538-542 | a directory entry forbids everything below it |
| Authority.AuthorityContextViolations | contracts/conformance/v4_semantics.py:272-655 | no violation exactly for an accepted authority bundle |
| Authority.RepeatedIdentities | contracts/conformance/v4_semantics.py:272-655 | exactly the positions whose identity occurred before |
| Authority.SubjectHasTriple | contracts/conformance/v4_semantics.py:272-655 | every snapshot has a receipt, event and audit row agreeing on transaction, principal and subject |
| AuthorityMeaning.AcceptedExactly | contracts/conformance/v4_semantics.py:272-655 | an accepted bundle in terms of its lists: nothing repeated, and every snapshot has its receipt, version 4 event and audit row, a catalogued command, an ACTIVE registration of this workspace, owner and principal that allows it and was valid then, and names its actor |
| Authority.RevisionFollowsDecision | contracts/conformance/v4_semantics.py:579-606 | beside its decision a candidate revision is recorded by the event the decision announced, another than the decision's own |
| Authority.ExampleAccepted | contracts/conformance/v4_semantics.py:272-655 | a decision and its revision, accepted together |
| Authority.TriplesInjective | contracts/conformance/v4_semantics.py:272-655 | no two snapshots share a receipt, an event or an audit row |
| Authority.IndexDistinct | contracts/conformance/v4_semantics.py:272-655 | a dictionary is as long as its list exactly when no key repeats |
| Permissions.PermissionViolations | contracts/conformance/v4_semantics.py:1523-1551 | names exactly the surfaces where the lease grants something other than what all four sources grant |
| Permissions.CanonicalMembership | contracts/conformance/v4_semantics.py:1517-1520 | membership of the canonical string is granting the permission, key order aside |
| Permissions.WithinManifest | contracts/conformance/v4_semantics.py:1523-1551 | no accepted lease exceeds the frozen AgentManifest ceiling |
| Permissions.MethodOrderMatters | contracts/conformance/v4_semantics.py:1517-1534 | two sources listing the same HTTP methods in another order share nothing |
| RateLimiter.RateLimiter.Create | eval-harness/eval_harness/rate_limit.py:22-27 | a limiter exactly for rates of at least one |
| RateLimiter.RateLimiter.TryAcquire | eval-harness/eval_harness/rate_limit.py:33-39 | the deque decides as a count over the full history would |
| RateLimiter.RateLimiter.Evict | eval-harness/eval_harness/rate_limit.py:35-36 | drops old grants from the front and nothing younger than the window, until the front is young |
| RateLimiter.RateLimiter.TryAll | eval-harness/eval_harness/rate_limit.py:29-42 | the locked blocks of any threads grant what the run over the full history grants |
| RateLimiter.RateLimiter.Acquire | eval-harness/eval_harness/rate_limit.py:29-42 | with other threads between the attempts: ends at the first attempt that finds room or the first past the deadline, and the history is that of the run |
| RateLimiter.CountSuffix | eval-harness/eval_harness/rate_limit.py:35-36 | in an ordered history the young grants are a suffix |
| RateLimiter.WindowBound | eval-harness/eval_harness/rate_limit.py:29-42 | over any run no half-open 60 s window holds more than rpm grants |
| RateLimiter.RefusedOnlyWhenFull | eval-harness/eval_harness/rate_limit.py:35-39 | a block is refused exactly when granting it would put rpm + 1 grants into some 60 s window |
| RateLimiter.GrantedExactly | eval-harness/eval_harness/rate_limit.py:33-39 | a block grants exactly when fewer than rpm grants were made or the rpm-th last is 60 seconds old or older |
| RateLimiter.GrantsSpaced | eval-harness/eval_harness/rate_limit.py:29-42 | over any run the grant rpm places after another comes at least 60 seconds later |
| Acceptance.ReplaceStatus | deploy/sandbox-image/agent_station_projectflow.py:152-175 | the plan with one awaiting node updated, or which error |
| Acceptance.HashTaskFiles | deploy/sandbox-image/agent_station_projectflow.py:105-134 | the hashes of result and deliverables, or the first fault |
| Acceptance.ProjectStore.AcceptTaskResult | deploy/sandbox-image/agent_station_projectflow.py:178-284 | what is on disk after a crash following any number of writes, and the decision or the first error the caller sees |
| Acceptance.CompletedNeedsSuccess | deploy/sandbox-image/agent_station_projectflow.py:57-68 | `completed` exactly for an accepted success |
| AcceptanceMeaning.DecidesExactly | deploy/sandbox-image/agent_station_projectflow.py:57-68 | which status and answer give `completed`, `revision` and `blocked` |
| AcceptanceMeaning.ProceedsExactly | deploy/sandbox-image/agent_station_projectflow.py:71-246 | a call goes through exactly when the leader makes it on a submitted task of the active project, with its files under shared/, a decision, a delegated node and no receipt yet |
| AcceptanceMeaning.RefusedExactly | deploy/sandbox-image/agent_station_projectflow.py:71-200 | the refusals on caller, project and task, in order |
| AcceptanceMeaning.WritesExactly | deploy/sandbox-image/agent_station_projectflow.py:247-269 | what each number of writes leaves on disk, field by field |
| AcceptanceMeaning.ReceiptFromCall | deploy/sandbox-image/agent_station_projectflow.py:178-269 | over any run, behind every new receipt stands the one leader's call that wrote it, on a submitted and delegated task, with that request's run, decision, reason and file hashes |
| Acceptance.RunsKeepInv | deploy/sandbox-image/agent_station_projectflow.py:178-284 | in every reachable state a committed receipt's decision is what the plan shows, and `completed` rests on a success with a deliverable |
| Acceptance.LeavesDelegatedUnderReceipt | deploy/sandbox-image/agent_station_projectflow.py:152-269 | over any run, a node that has changed did so under a receipt recording the status it has |
| Acceptance.PlanNeverAheadOfReceipt | deploy/sandbox-image/agent_station_projectflow.py:265-269 | at every moment of a call a changed plan is covered by a receipt on disk |
| Acceptance.OtherNodesUntouched | deploy/sandbox-image/agent_station_projectflow.py:152-175 | nodes of other tasks never change |
| Acceptance.ReceiptsNeverOverwritten | deploy/sandbox-image/agent_station_projectflow.py:245-246 | a receipt is the same after any later calls |
| Acceptance.PendingReceiptSticks | deploy/sandbox-image/agent_station_projectflow.py:245-269 | a crash after the pending receipt leaves the node delegated for good |
| Acceptance.RetryProceedsExactly | deploy/sandbox-image/agent_station_projectflow.py:245-269 | after a crash the same call goes through exactly when no receipt is on disk |
| PageData.UsePageData.constructor | console/src/hooks/usePageData.ts:27-38 | the state after the first effect |
| PageData.UsePageData.BeginLoad | console/src/hooks/usePageData.ts:40-45 | a new request becomes the latest |
| PageData.UsePageData.EndLoad | console/src/hooks/usePageData.ts:46-65 | a settled request changes the display only if it is the latest |
| PageData.UsePageData.Reset | console/src/hooks/usePageData.ts:68-77 | a key change clears the display and starts a request |
| PageData.AlwaysConsistent | console/src/hooks/usePageData.ts:40-85 | after any events: data belong to the current key, `error` excludes data, `refreshError` needs them, busy exactly while the latest request is outstanding |
| PageData.LaterDataFromLaterRequest | console/src/hooks/usePageData.ts:40-85 | displayed data are only ever replaced by those of a strictly later request |
| PageData.ShownIsSourced | console/src/hooks/usePageData.ts:40-85 | over any events, data shown are a success of the request they are said to come from and errors a failure, each settled while latest |
| PageData.ShownExactly | console/src/hooks/usePageData.ts:40-77 | what each event does to the display |
| ProbeJudge.IsSubsequence | eval-harness/eval_harness/probe_judge.py:33-36 | the greedy scan succeeds exactly when an increasing embedding exists |
| ProbeJudge.ContainsPhrase | eval-harness/eval_harness/probe_judge.py:39-45 | its three tests together are the embedding test |
| ProbeJudge.SubstringEmbeds | eval-harness/eval_harness/probe_judge.py:39-45 | the substring test is only a shortcut |
| ProbeJudge.JudgeProbe | eval-harness/eval_harness/probe_judge.py:74-99 | passes exactly the answers meeting the declarative probe spec, with reasons exactly for the others |
| Gate.Run | eval-harness/eval_harness/gate.py:73-348 | passed exactly in plain terms, for the live and the isolated profile: digests, another judge model, every probe met and scored, both suites, artifacts, and for live the official endpoint; unknown profiles raise |
| Gate.RuleTrack | eval-harness/eval_harness/gate.py:351-424 | passed, failed or error by coverage, probes, bindings and live availability |
| Gate.JudgeTrack | eval-harness/eval_harness/gate.py:426-517 | passed exactly with an independent judge that scores something and everything well |
| Gate.DeterministicTests | eval-harness/eval_harness/gate.py:519-543 | passed exactly when both suites are valid and passed, error exactly when one is invalid or errs |
| Gate.EvidenceTrack | eval-harness/eval_harness/gate.py:633-651 | deterministic evidence stands exactly with both suites and the artifact bindings |
| Gate.LiveTrack | eval-harness/eval_harness/gate.py:545-613 | skipped, error, failed or passed by profile, origin and answers |
| Gate.OverallFailsClosed | eval-harness/eval_harness/gate.py:615-631 | passed exactly when every counted track is passed; an error or a skipped live run is an error |

## Left out

- SHA-256, RFC 8785 bytes of the `rfc8785` package, NFKC and JSON parsing of model output: parameters, with injectivity assumed only where a theorem says so.
- IEEE rounding and `round(..., 4)` in reports: the statistics are in exact reals; a negative z is not modelled.
- Python's limit on the digits of an `int` turned into a string.
- The float fallbacks of `params_digest` and `_gate_report_hash`, and audit rows, HTTP, id generation and leases.
- The registrar's own code: assumed to keep the first valid registration of an id and to give truthful receipts.
- WorkOrder.WorkOrderDraft.BeginFreeze: the base and target digests are fields of the draft, declared or derived before the call; a row that is not found is not modelled.
- FreezeFields.AskExactly: the controller call that attaches the row's current gate reference to the changeset before the approval request is not modelled.
- WorkOrder.WorkOrderDraft.SubmitGate: which of its errors is raised is not stated, only that one is.
- Experiment.RunRound: the shuffles are given permutations and the callbacks are functions; a heartbeat or callback that raises is not modelled.
- Report and bundle building, `_capture_version_digests`, the full factorial matrix.
- GateReport.GateReportViolations: the digest of a receipt's content is a parameter; `model_call_receipt_violations` is not part of the chain and not modelled.
- GateChain.PlanViolations: the digest of a list of criteria is a parameter.
- Authority.AuthorityContextViolations: the record integrity of single records, the command catalogue and the digests of the catalogue files are parameters; a bundle that lacks a whole collection is not modelled.
- Permissions.PermissionViolations: the shape of a lease that its JSON schema enforces (all six surfaces, items without numbers) is assumed.
- The remaining field-by-field comparisons of v4_semantics.py (identity, dispatch, evaluation plan): long but shallow.
- Acceptance.ProjectStore.AcceptTaskResult: loop plans and DAG plans are one list of nodes; what a path resolves to, and the content hash, are parameters.
- PageData.UsePageData.Reset: `lastUpdatedAt`, the render between a key change and its effect, and unmounting, are not modelled.
- ProbeJudge.JudgeProbe: `strip`, normalisation and the keys of a JSON answer are parameters.
- JSON schema validation of the gate report.
