# Verified governance core of the price oracle API

A Dafny model of the parts of the oracle's API that decide what the feed catalog is, who may change it, and what is
kept as evidence, with proofs about every run of them. `dafny verify dfyconfig.toml` checks the whole project.

| modules | system |
|---|---|
| `CanonicalJson`, `FeedEncoding` | the canonical JSON encoding that all digests and comparisons rest on |
| `FeedPolicies`, `CatalogDiffs`, `CatalogValidation`, `OnChainPlans` | feed policies, the diff, the validator and risk classifier, the plan of contract actions |
| `FeedForms`, `CatalogFindings`, `PlanForms` | what normalising, validating and planning yield, in the fields of the input |
| `CatalogGovernance`, `CatalogRuns`, `CatalogTheorems`, `CatalogProgress`, `CatalogRollback` | the proposal engine as a class over a step machine, its invariant, what holds of every run, and that no accepted proposal is stuck |
| `CatalogOperations` | when each catalog operation is accepted and what it then changes, in the stored fields |
| `ContractMirror`, `ImpactSimulator` | the contract that executes the plans; the impact report |
| `EmergencyActions`, `EmergencyRuns`, `EmergencyEffects` | bounded emergency actions, their runs, and what is frozen because of which opening |
| `CoiRegister`, `CoiEffects` | the conflict-of-interest register, and who is recused because of which declaration |
| `GovernanceSystem`, `GovernanceEffects` | the three engines wired together as the router does, and what they promise each other |
| `GraphqlCost`, `GraphqlTheorems` | the GraphQL cost and depth walks |
| `AuditChain`, `AuditWriters`, `AuditRetention`, `AuditRetentionRuns` | the multi-writer audit chain; its retention sweep beside writers and crashes |
| `ReleaseTrain`, `Archival`, `CircuitBreaker` | the release gate; the cold archive of prices; the database circuit breaker |
| `Wrappers`, `Text`, `Ordering` | options, results and the smaller number; strings; sorting |

Each engine whose methods update fields is a class. Its methods are proved equal to step functions on values, and the
theorems quantify over all runs of those step functions: every sequence of calls, accepted and refused, at any times.

## How the original is read

- Time is an integer number of milliseconds (seconds in `Archival`), read once per call and passed in.
- A thrown error is a result value. Changes made before the throw are kept. Message texts are dropped, codes are not.
- SHA-256 and HMAC-SHA256 are free constructors: equal digests mean equal inputs (and equal keys).
- `localeCompare` is lexicographic order of code points. Case mapping covers ASCII letters.
- Feed numbers are integers and profiles, currencies and rounding modes are enumerations, as the route schema demands
  before the engine is called. Branches for other values cannot be reached and are not modelled.
- JavaScript maps are visited in insertion order, which for numbered records is the order of their numbers.
- Deep copies handed to callers are values.

## Where code and documentation differ

The model follows the code. Each difference has the exact condition under which the promise holds, and inputs or a run
on which it fails.

- A rollback upserts the whole target version, not the difference to it. It is therefore refused when target and removals
  together exceed 100 feeds (`RollbackAcceptedExactly`), even if one feed differs: `WideRollbackRefused` is a run that
  ends there.
- The conflict register applies expiry when it is read, but `withdraw` and `declare` do not apply it first. A mere listing
  can change their answer (`WithdrawSeesSweep`, `DeclareSeesSweep`, `ListingBlocksWithdrawal`, `ListingAdmitsRepeat`). The
  emergency registry has no such effect (`ReadsUnobservable`).
- `docs/audit-log-retention.md` says a retention of 0 days disables retention. The code then archives every line dated
  before now (`ZeroDaysDisableExactly`, `ZeroDaysArchive`).
- Initialising the audit logger twice in one process, or an append that fails to reach the disk, leaves a log whose next
  entry does not verify (`InitializeAgainExact`, `LostAppendExact`, and the runs of `InitializeAgainFails` and
  `LostAppendFails`).
- Initialisation verifies the active file alone. After retention this fails, and the log is forked, unless every writer's
  first remaining entry opens the file, starts a chain or is anchored at a remaining entry (`SuffixVerifiedExactly`,
  `PrunedWriterFails`, and the run of `PrunedTurnsFork`).
- Retention of prices assumes rows were archived first. A pass deletes rows it did not archive when retention is shorter
  than the archive age, or when the batch size is 0 (`PurgedExactly`, `PurgesNothingExactly`, `UnarchivedRowPurged`). A
  dry run counts as purged rows the pass would archive first (`DryRunPurgeExactly`, `DryRunOvercounts`).
- A GraphQL `limit` literal too large for a finite double costs 1, not the capped limit (`FieldCostExact`,
  `HugeLimitCostsOne`). The depth falls short of the written-out depth, and depends on the order of selections, when a
  fragment is skipped where it lies deeper (`InliningExactly`, `DepthIgnoresOrder`, `DepthDependsOnOrder`).
- Operations started before the circuit opened still count when they complete while it is half-open: a late success can
  close it and a late failure reopen it with the probe running (`ClosedByProbesExactly`, `ReopenedByProbeExactly`,
  `StragglerCloses`, `StragglerReopens`).

## Model

| member | source | states |
|---|---|---|
| `CanonicalJson.EscapedInjective` | api/src/governance/catalog-policy.ts:92-100 | a quoted string, escaped as in section 7 of RFC 8259, can be read back whatever text follows it |
| `CanonicalJson.CanonicalPrintsNormal` | api/src/governance/catalog-policy.ts:92-100 | the recursive encoder prints exactly the value with keys sorted and undefined-valued keys dropped |
| `CanonicalJson.PrintInjective` | api/src/governance/catalog-policy.ts:92-100 | the printed text determines the value and where it ends, even inside longer text |
| `CanonicalJson.CanonicalExact` | api/src/governance/catalog-policy.ts:92-100 | two JSON values have the same canonical encoding if and only if they are the same logical value |
| `CanonicalJson.ObjectsAsMaps` | api/src/governance/catalog-policy.ts:92-100 | two objects have the same encoding if and only if they hold the same under every key: key order and undefined-valued keys do not matter, everything else does |
| `FeedEncoding.FeedEncodingExact` | api/src/governance/catalog-policy.ts:92-104 | two feed policies have equal encodings if and only if they are equal |
| `Text.NormalizeIdempotent` | api/src/governance/catalog-policy.ts:117-119 | trimming and case-mapping a ticker or provider name twice is doing it once |
| `Text.CaseMeans` | api/src/governance/catalog-policy.ts:117-119 | case mapping moves a to z onto A to Z in order, and back, and leaves every other character |
| `Text.TrimMeans` | api/src/governance/catalog-policy.ts:117-119 | trimming drops exactly the white space before the first and after the last other character |
| `FeedForms.NamesMean` | api/src/governance/catalog-policy.ts:117-119 | a ticker is the trimmed text with each letter made upper case, a provider name the trimmed text with each letter made lower case |
| `FeedForms.NormalizeFeedMeans` | api/src/governance/catalog-policy.ts:121-135 | each field of a normalised feed in terms of the given one: canonical names, each provider once in order, and the defaults that fill the gaps |
| `FeedForms.NormalizeChangeMeans` | api/src/governance/catalog-policy.ts:137-144 | a normalised change keeps base and kind, holds the normalised upserts in the order of their assets with repetitions, and each removal once in order |
| `FeedPolicies.NormalizeFeedNormal` | api/src/governance/catalog-policy.ts:121-135 | a normalised feed has an upper-case trimmed ticker and a sorted, duplicate-free, lower-case provider list |
| `FeedPolicies.NormalizeChangeIdempotent` | api/src/governance/catalog-policy.ts:137-144 | a change normalised at creation is not altered when normalised again at validation and activation |
| `FeedPolicies.ProjectFeeds` | api/src/governance/catalog-policy.ts:201-206 | the loop over removals and upserts computes the projected feed list: removals first, upserts win, ordered by asset |
| `FeedPolicies.ProjectMembers` | api/src/governance/catalog-policy.ts:201-206 | the projection holds only feeds of the old list and of the change |
| `FeedPolicies.ProjectNormal` | api/src/governance/catalog-policy.ts:201-206 | projecting a normalised change onto an ordered normalised list gives one again |
| `FeedForms.ProjectMeans` | api/src/governance/catalog-policy.ts:201-206 | a feed is in the projection if and only if it is the last upsert of its asset, or the last listed feed of an asset that is neither upserted nor removed |
| `CatalogDiffs.DiffPolicies` | api/src/governance/catalog-policy.ts:174-198 | comparing encodings loop by loop gives exactly the structural comparison of the two lists |
| `CatalogDiffs.DiffPartition` | api/src/governance/catalog-policy.ts:174-198 | added, removed, modified and unchanged partition the union of assets without repetition, and modified/unchanged is feed inequality/equality |
| `CatalogDiffs.DiffEmptyExactly` | api/src/governance/catalog-policy.ts:174-198 | the diff touches no asset if and only if the two ordered lists are equal |
| `CatalogValidation.ValidateFeed` | api/src/governance/catalog-policy.ts:345-408 | the checks of one feed collect exactly the specified findings, in order |
| `CatalogValidation.FeedFindingsExact` | api/src/governance/catalog-policy.ts:345-408 | a feed draws no finding if and only if it meets every guard rail |
| `CatalogValidation.ValidateCatalogChange` | api/src/governance/catalog-policy.ts:208-343 | the whole validator computes the specified errors, warnings, diff, projection and risk lane |
| `CatalogValidation.AcceptedExactly` | api/src/governance/catalog-policy.ts:208-343 | validation passes if and only if base version, size, distinctness, guard rails, removals, an enabled feed and a non-empty diff all hold |
| `CatalogValidation.RiskExact` | api/src/governance/catalog-policy.ts:274-333 | a modified feed raises a risk flag if and only if, compared field by field, it became looser in some respect, and a flag is never an error |
| `CatalogValidation.LowImpactExact` | api/src/governance/catalog-policy.ts:269-333 | a change escapes the high-impact lane if and only if it is no rollback, keeps the assets and, compared field by field, makes no feed looser: quorum, providers, bounds, switch, currency, denomination and scale |
| `CatalogFindings.FeedFindingMeans` | api/src/governance/catalog-policy.ts:345-408 | a feed draws a code if and only if the field that the code stands for is out of its bounds, each bound a number |
| `CatalogFindings.RiskMeans` | api/src/governance/catalog-policy.ts:274-333 | modifying a feed draws a risk code if and only if the field that the code stands for became looser, currency, denomination and scale included |
| `CatalogFindings.FindingsMean` | api/src/governance/catalog-policy.ts:208-343 | the findings of a validation are exactly those that the base version, the size, the upserts, the removals, the outcome and the modified feeds call for |
| `CatalogFindings.ErrorsMean` | api/src/governance/catalog-policy.ts:335-342 | the errors are exactly the findings that are not mere risk flags |
| `OnChainPlans.BuildOnChainPlan` | api/src/governance/catalog-policy.ts:454-523 | the loops over kept, gone and new feeds and providers build the specified plan |
| `OnChainPlans.PlanExact` | api/src/governance/catalog-policy.ts:454-523 | an action is in the plan if and only if the old and new feed lists call for it |
| `OnChainPlans.NoMissingExact` | api/src/governance/catalog-policy.ts:454-523 | no provider address is reported missing if and only if each provider that comes or goes has one |
| `OnChainPlans.SharedExact` | api/src/governance/catalog-policy.ts:454-523 | the common deviation threshold exists if and only if there is an enabled feed and all enabled feeds agree |
| `PlanForms.PlanMeans` | api/src/governance/catalog-policy.ts:454-523 | which actions a plan holds, in the fields of the two feed lists: trust moves when an asset starts or stops being published, a provider when it starts or stops being used, the threshold when all enabled feeds come to share one |
| `PlanForms.MissingMeans` | api/src/governance/catalog-policy.ts:454-523 | a provider is reported missing if and only if it starts or stops being used and has no address |
| `PlanForms.OffChainMeans` | api/src/governance/catalog-policy.ts:506-519 | which parameters are left to the services: the threshold when enabled feeds disagree, the minimum and the staleness bound when some feed is new or changes its own |
| `PlanForms.DigestExact` | api/src/governance/catalog-policy.ts:521-521 | two plans have the same digest if and only if they hold the same actions and the same off-chain parameters |
| `CatalogGovernance.Governance.constructor` | api/src/governance/catalog-policy.ts:634-648 | the engine starts at version 1 with the normalised, ordered genesis feeds and no proposals |
| `CatalogGovernance.Governance.SubmitProposal` | api/src/governance/catalog-policy.ts:673-734 | creating a proposal changes the state as the step function says, every refusal included |
| `CatalogGovernance.Governance.SubmitRollback` | api/src/governance/catalog-policy.ts:948-982 | a rollback proposal is the proposal of the target's feeds and the removal of what it lacks |
| `CatalogGovernance.Governance.RecordImpact` | api/src/governance/catalog-policy.ts:752-766 | an impact report is stored on a proposal in review and refused otherwise; nothing else changes |
| `CatalogGovernance.Governance.SubmitReview` | api/src/governance/catalog-policy.ts:768-867 | a review changes the state exactly as the step function says, whose acceptance and effect `ReviewAcceptedExactly`, `ReviewRecorded` and `ReviewRefused` state in the stored fields |
| `CatalogGovernance.Governance.AssertExecutionsComplete` | api/src/governance/catalog-policy.ts:1008-1047 | the executions loop refuses for exactly the specified reason |
| `CatalogGovernance.Governance.CheckFrozen` | api/src/governance/catalog-policy.ts:919-928 | the loop over touched assets returns the first frozen one, and none if and only if none is frozen |
| `CatalogGovernance.Governance.ActivateProposal` | api/src/governance/catalog-policy.ts:876-945 | activation refuses or appends one version exactly as the step function says |
| `CatalogGovernance.Governance.Sweep` | api/src/governance/catalog-policy.ts:985-995 | the sweep expires exactly the lapsed proposals in review and returns how many there were |
| `CatalogOperations.GenesisMeans` | api/src/governance/catalog-policy.ts:634-648 | the engine starts with version 1: the given feeds, normalised and in the order of their assets, made by no proposal |
| `CatalogOperations.CreateAcceptedExactly` | api/src/governance/catalog-policy.ts:673-708 | a proposal is accepted if and only if author and description are given and within bounds, the normalised change may be applied to the live policy and no address is missing |
| `CatalogOperations.CreatedMeans` | api/src/governance/catalog-policy.ts:710-734 | an accepted proposal is stored under the next number, in review for 48 hours, two approvals required or three in the high-impact lane; nothing else changes, and a refusal changes nothing |
| `CatalogOperations.RollbackMeans` | api/src/governance/catalog-policy.ts:948-982 | a rollback names another version and proposes that version's feeds and the removal of every live asset it lacks |
| `CatalogOperations.AttachMeans` | api/src/governance/catalog-policy.ts:752-766 | an impact report is taken if and only if the proposal is in review, and changes nothing but the report |
| `CatalogOperations.ReviewAcceptedExactly` | api/src/governance/catalog-policy.ts:768-850 | a review is accepted if and only if its author is named, attested, not the proposer, new to the proposal and not recused, the proposal is in review and in time, and the completing approval finds an unblocked report |
| `CatalogOperations.ReviewRecorded` | api/src/governance/catalog-policy.ts:852-867 | an accepted review is appended with author, decision and time; a rejection leaves the proposal Rejected, the completing approval Approved with 24 or 48 hours of timelock, any other approval in review; nothing else changes |
| `CatalogOperations.ReviewRefused` | api/src/governance/catalog-policy.ts:768-826 | a refused review changes nothing, except that one past the deadline marks the proposal expired |
| `CatalogOperations.ExecutionsMean` | api/src/governance/catalog-policy.ts:1008-1047 | the executions are complete if and only if every action of the plan is executed once under an on-chain proposal, and nothing else is |
| `CatalogOperations.ActivateAcceptedExactly` | api/src/governance/catalog-policy.ts:876-931 | an activation is accepted if and only if the caller is named, the proposal approved, its timelock over, its base still live, no asset it changes frozen and its plan executed |
| `CatalogOperations.ActivateMeans` | api/src/governance/catalog-policy.ts:932-945 | it appends one version with the next number, the time, the proposal's number and its change, and marks the proposal activated; a refusal changes nothing |
| `CatalogOperations.SweepMeans` | api/src/governance/catalog-policy.ts:985-995 | a sweep expires exactly the proposals in review whose 48 hours have passed |
| `CatalogOperations.FinalIsFinal` | api/src/governance/catalog-policy.ts:768-995 | a rejected, activated or expired proposal is never changed again, in any continuation |
| `CatalogOperations.RejectionStops` | api/src/governance/catalog-policy.ts:852-867 | one accepted rejection, at any moment of any run, leaves the proposal Rejected with that review in every continuation: it is never approved or activated |
| `CatalogRuns.StepKeeps` | api/src/governance/catalog-policy.ts:673-995 | every operation keeps the joint invariant of versions and proposals |
| `CatalogRuns.RunKeeps` | api/src/governance/catalog-policy.ts:673-995 | the invariant holds after every run of operations, accepted and refused |
| `CatalogTheorems.HistoryAppendOnly` | api/src/governance/catalog-policy.ts:411-422 | a stored version is never rewritten or dropped in any continuation of any run |
| `CatalogTheorems.VersionsTraceToProposals` | api/src/governance/catalog-policy.ts:882-945 | versions are numbered 1..n; each later one comes from exactly one activated proposal, based on the version before it and activated at least 24h (48h high-impact) after its last approval |
| `CatalogTheorems.ActivatedUnique` | api/src/governance/catalog-policy.ts:221-226 | two proposals with the same base are never both activated |
| `CatalogTheorems.DriftIsVersionChange` | api/src/governance/catalog-policy.ts:899-908 | in every reachable state re-validation of a proposal fails if and only if the live version is not its base |
| `CatalogTheorems.PlanNeverDrifts` | api/src/governance/catalog-policy.ts:909-917 | the plan-drift refusal is unreachable |
| `CatalogTheorems.ApprovalsSound` | api/src/governance/catalog-policy.ts:768-867 | approved and activated proposals hold exactly the required reviews, all timely approvals by distinct non-proposers, with an unblocked impact; those in review hold fewer |
| `CatalogTheorems.ReviewLimitUnreachable` | api/src/governance/catalog-policy.ts:768-867 | the review-limit refusal is unreachable |
| `CatalogTheorems.EveryVersionSound` | api/src/governance/catalog-policy.ts:208-267 | from a sound genesis every reachable version has an enabled feed, unique assets and only feeds that meet all guard rails |
| `CatalogTheorems.StretchTightens` | api/src/governance/catalog-policy.ts:269-333 | over versions produced outside the high-impact lane assets and switches stay, bounds never widen, minimum sources never drop, enabled feeds lose no provider |
| `CatalogTheorems.LooseningWasReviewed` | api/src/governance/catalog-policy.ts:725-727 | a version looser than the one before it took three approvals and at least 48h after the last of them |
| `CatalogTheorems.StretchKeepsScale` | api/src/governance/catalog-policy.ts:325-330 | no stretch of versions outside the high-impact lane changes the currency, denomination or scale of a feed |
| `CatalogTheorems.ScaleChangeWasReviewed` | api/src/governance/catalog-policy.ts:725-727 | a version that changes one of them took three approvals and at least 48 hours after the last |
| `CatalogProgress.EveryProposalCanBeActivated` | api/src/governance/catalog-policy.ts:673-945 | from any state, a proposal the engine accepts becomes the next version by the approvals it requires, the execution of its plan and its timelock |
| `CatalogRollback.RollbackProjects` | api/src/governance/catalog-policy.ts:948-982 | the change a rollback proposes turns the live list into the target's, exactly |
| `CatalogRollback.ActivationPublishes` | api/src/governance/catalog-policy.ts:876-945 | an accepted activation publishes the projection of the proposal's base, whatever happened in between |
| `CatalogRollback.RollbackTargetOrdered` | api/src/governance/catalog-policy.ts:948-982 | a version that lists an asset twice is refused as a rollback target |
| `CatalogRollback.RollbackRestores` | api/src/governance/catalog-policy.ts:948-982 | activating a rollback to version v, after any run in between, publishes exactly the feed list of v |
| `CatalogRollback.RollbackUndone` | api/src/governance/catalog-policy.ts:948-982 | a rollback to the version a rollback replaced, after any run in between, restores its feed list exactly |
| `CatalogRollback.RollbackAcceptedExactly` | api/src/governance/catalog-policy.ts:228-236 | a rollback between sound policies is accepted if and only if the lists differ and target plus removals count at most 100 |
| `CatalogRollback.WideRollbackRefused` | api/src/governance/catalog-policy.ts:228-236 | a run of the engine from a genesis of 101 feeds in which one bound of one feed is tightened, after which the rollback to version 1 is refused |
| `ContractMirror.PlanMirrors` | api/src/governance/catalog-policy.ts:454-523 | executing a plan in any order moves the contract from mirroring the old list to mirroring the new one |
| `ContractMirror.ExecutionsCover` | api/src/governance/catalog-policy.ts:1008-1047 | executions that activation accepts name every action of the plan, each once |
| `ContractMirror.ContractMirrorsPolicy` | api/src/governance/catalog-policy.ts:876-945 | after every event of every run the contract mirrors the live policy: trusted assets and registered providers always, the threshold whenever enabled feeds share one |
| `ImpactSimulator.BlockedExactly` | api/src/governance/impact-simulator.ts:341-352 | approval is blocked if and only if some enabled feed could not reach its own quorum |
| `ImpactSimulator.UnreachableMeans` | api/src/governance/impact-simulator.ts:341-352 | the report names exactly the assets of the enabled feeds whose minimum is below 2 or above their number of providers |
| `ImpactSimulator.SnapshotMeans` | api/src/governance/impact-simulator.ts:310-326 | each safety margin is the least over the enabled feeds of the minimum, the providers beyond 2, and the room below 2000 basis points and 3600 seconds |
| `ImpactSimulator.ReducedMeans` | api/src/governance/impact-simulator.ts:328-338 | the names listed as reduced are, in order, exactly those of the margins that shrink |
| `ImpactSimulator.AcceptedNeverBlocked` | api/src/governance/impact-simulator.ts:182-183 | no proposal accepted in a run from a sound genesis is ever blocked, against any version of the run |
| `ImpactSimulator.TighteningReducesNoMargin` | api/src/governance/impact-simulator.ts:310-326 | a change the classifier finds no looser reduces no safety margin |
| `ImpactSimulator.ReducedMargins` | api/src/governance/impact-simulator.ts:328-338 | the loop over the four margins collects the sorted names of those that shrink |
| `ImpactSimulator.ReducedExactly` | api/src/governance/impact-simulator.ts:328-338 | a margin is listed as reduced if and only if both policies have margins and it shrinks |
| `ImpactSimulator.StretchReducesNoMargin` | api/src/governance/impact-simulator.ts:310-338 | no stretch of versions outside the high-impact lane reduces a margin |
| `EmergencyActions.EmergencyActionRegistry.SweepAll` | api/src/governance/emergency-actions.ts:426-446 | the sweep loop expires and flags exactly the actions the specification says, and returns how many open ones ran out |
| `EmergencyActions.EmergencyActionRegistry.OpenAction` | api/src/governance/emergency-actions.ts:126-210 | opening changes the registry exactly as the step function says, whose acceptance and effect `OpenAcceptedExactly` and `OpenMeans` state in the input strings |
| `EmergencyActions.EmergencyActionRegistry.Review` | api/src/governance/emergency-actions.ts:229-297 | reviewing changes the registry exactly as specified, with what happened before a refusal kept |
| `EmergencyActions.EmergencyActionRegistry.Renew` | api/src/governance/emergency-actions.ts:303-361 | renewing changes the registry exactly as specified |
| `EmergencyActions.EmergencyActionRegistry.Revoke` | api/src/governance/emergency-actions.ts:363-383 | revoking changes the registry exactly as specified |
| `EmergencyActions.EmergencyActionRegistry.Disclose` | api/src/governance/emergency-actions.ts:389-423 | publishing a disclosure changes the registry exactly as specified |
| `EmergencyActions.EmergencyActionRegistry.ActiveOverlays` | api/src/governance/emergency-actions.ts:449-461 | the overlay loop collects exactly the halts, pauses and suspensions in force |
| `EmergencyActions.EmergencyActionRegistry.IsFrozen` | api/src/governance/emergency-actions.ts:463-466 | an asset is frozen if and only if an Active or Reviewed action that has not run out halts everything or pauses that asset |
| `EmergencyActions.EmergencyActionRegistry.IsSourceFrozen` | api/src/governance/emergency-actions.ts:468-471 | the same for a provider, halted or frozen |
| `EmergencyEffects.SweepMeans` | api/src/governance/emergency-actions.ts:426-446 | what a sweep makes of each action, field by field |
| `EmergencyEffects.OpenAcceptedExactly` | api/src/governance/emergency-actions.ts:126-190 | an opening is accepted if and only if actor and reason are given, the kind is one of the three, the end lies within 72 hours, the scope fits the kind and no action with the same scope is in force |
| `EmergencyEffects.OpenMeans` | api/src/governance/emergency-actions.ts:192-211 | what an accepted opening stores, from the input strings: kind, asset, source, end, a review deadline of 24 hours or the end; other actions are as the sweep leaves them |
| `EmergencyEffects.ReviewAcceptedExactly` | api/src/governance/emergency-actions.ts:229-281 | a review is accepted if and only if it is signed, the action is Active, in force and in time, and the reviewer is independent, attested and not recused |
| `EmergencyEffects.ReviewMeans` | api/src/governance/emergency-actions.ts:283-297 | an accepted review records reviewer, time and decision; an overturn revokes the action, a confirmation keeps it in force |
| `EmergencyEffects.RenewAcceptedExactly` | api/src/governance/emergency-actions.ts:303-346 | a renewal is accepted if and only if the action is confirmed and in force, renewed less than twice, and the new end is later and within 72 hours of the old one and of the cumulative cap |
| `EmergencyEffects.RenewMeans` | api/src/governance/emergency-actions.ts:348-361 | a renewal moves the end, counts itself and asks for a new review within 24 hours; scope and author stay |
| `EmergencyEffects.RevokeAcceptedExactly` | api/src/governance/emergency-actions.ts:363-376 | a revocation is accepted if and only if it is signed, the action is in force and the reason is at most 500 characters |
| `EmergencyEffects.RevokeMeans` | api/src/governance/emergency-actions.ts:378-383 | a revocation closes the action, recording who, when and why, and changes nothing else of it |
| `EmergencyEffects.DiscloseAcceptedExactly` | api/src/governance/emergency-actions.ts:389-412 | a disclosure is accepted if and only if it is signed, not empty, at most 2000 characters, the action is closed and none was published |
| `EmergencyEffects.DiscloseMeans` | api/src/governance/emergency-actions.ts:414-423 | it is stored with author, time and whether it came more than 24 hours after the end |
| `EmergencyEffects.OpeningHolds` | api/src/governance/emergency-actions.ts:126-471 | in every run: after an accepted pause-feed its asset, after a freeze-source its provider, after a halt-publishing everything is frozen at every moment before the end answered, unless that action was revoked or overturned |
| `EmergencyEffects.FrozenExactly` | api/src/governance/emergency-actions.ts:126-471 | at any time of any run an asset or provider is frozen if and only if some accepted opening named it, or halted everything, and was neither revoked nor overturned nor has run out |
| `EmergencyEffects.LiftingEnds` | api/src/governance/emergency-actions.ts:229-383 | an accepted revocation or overturn ends the action's restriction at every later time of every continuation |
| `EmergencyRuns.SweepTwice` | api/src/governance/emergency-actions.ts:426-446 | sweeping at t1 and then at t2 >= t1 equals sweeping at t2 alone |
| `EmergencyRuns.ReadsUnobservable` | api/src/governance/emergency-actions.ts:426-466 | leaving a read out of any run changes no answer and no view of any later call |
| `EmergencyRuns.RunKeeps` | api/src/governance/emergency-actions.ts:171-206 | in every run no two open actions share kind, asset and source, and each stays within 72h per window with at most two renewals |
| `EmergencyRuns.TotalCapUnreachable` | api/src/governance/emergency-actions.ts:312-361 | no renewal is ever refused for the cumulative cap |
| `EmergencyRuns.RestrictionsEnd` | api/src/governance/emergency-actions.ts:495-533 | no action restricts anything more than 216h after it was opened |
| `EmergencyRuns.ReviewsAlternateWithRenewals` | api/src/governance/emergency-actions.ts:249-361 | in every run confirmations and renewals of an action strictly alternate |
| `EmergencyRuns.MissedReviewIsFinal` | api/src/governance/emergency-actions.ts:249-297 | once a review deadline passes unconfirmed no later call confirms the action or moves its expiry |
| `CoiRegister.ConflictRegister.DeclareConflict` | api/src/governance/coi-register.ts:107-191 | declaring refuses or stores exactly as specified, the duplicate search included |
| `CoiRegister.ConflictRegister.WithdrawDisclosure` | api/src/governance/coi-register.ts:193-213 | withdrawing refuses or changes one declaration exactly as specified |
| `CoiRegister.ConflictRegister.SweepAll` | api/src/governance/coi-register.ts:225-235 | the sweep marks exactly the active declarations that ran out, and returns how many |
| `CoiRegister.ConflictRegister.AttestActor` | api/src/governance/coi-register.ts:237-254 | an attestation is recorded exactly as specified |
| `CoiRegister.ConflictRegister.RecusalReasons` | api/src/governance/coi-register.ts:273-296 | exactly one reason for each declaration that recuses the actor, marked expired exactly for the expired ones, and none besides; which ones recuse is `DeclarationRecusesExactly` |
| `CoiRegister.ConflictRegister.CheckEligibility` | api/src/governance/coi-register.ts:298-314 | without a valid attestation the actor is refused for that; otherwise eligible if and only if not recused, and a conflict names every declaration in the way |
| `CoiEffects.DeclareAcceptedExactly` | api/src/governance/coi-register.ts:107-174 | a declaration is accepted if and only if it is signed, attested, of a known relationship and scope, described, ends within 365 days, and no active one says the same |
| `CoiEffects.DeclareMeans` | api/src/governance/coi-register.ts:176-191 | what an accepted declaration stores, from the input strings; nothing else changes |
| `CoiEffects.WithdrawAcceptedExactly` | api/src/governance/coi-register.ts:193-208 | a withdrawal is accepted if and only if it is by the author and the declaration is active |
| `CoiEffects.WithdrawMeans` | api/src/governance/coi-register.ts:209-213 | it closes that declaration and changes nothing else |
| `CoiEffects.SweepMeans` | api/src/governance/coi-register.ts:225-235 | a sweep marks exactly the active declarations that have run out |
| `CoiEffects.DeclarationRecusesExactly` | api/src/governance/coi-register.ts:273-296 | in every run a declaration recuses exactly its author, until it is withdrawn, from a request that lists its counterparty among the assets (scope asset) or the providers (scope source), up to case and space, or from any request (scope protocol) |
| `CoiEffects.RecusedExactly` | api/src/governance/coi-register.ts:273-296 | in every run an actor is recused from a request if and only if some accepted declaration of theirs concerns it and was not withdrawn |
| `CoiEffects.AttestedExactly` | api/src/governance/coi-register.ts:237-271 | in every run an attestation is valid if and only if less than 90 days passed since the actor's latest accepted one |
| `CoiRegister.RecusalEndsOnlyByWithdrawal` | api/src/governance/coi-register.ts:193-235 | a recusal, once in force, ends only by its author's withdrawal of that declaration |
| `CoiRegister.ExpiredRecusesForever` | api/src/governance/coi-register.ts:273-296 | a declaration marked expired recuses its author in every continuation |
| `CoiRegister.SweepKeepsRecusal` | api/src/governance/coi-register.ts:225-235 | applying expiry never changes who is recused |
| `CoiRegister.WithdrawSeesSweep` | api/src/governance/coi-register.ts:193-213 | an earlier read changes a withdrawal's answer if and only if the declaration had run out by then and was still marked active |
| `CoiRegister.DeclareSeesSweep` | api/src/governance/coi-register.ts:107-191 | an earlier read changes a declaration's answer if and only if every active duplicate had run out by then, and there is one |
| `CoiRegister.ListingBlocksWithdrawal` | api/src/governance/coi-register.ts:193-213 | for every declaration a new register accepts: once it ran out, its withdrawal is accepted if nobody looked and refused after a listing |
| `CoiRegister.ListingAdmitsRepeat` | api/src/governance/coi-register.ts:107-191 | a declaration repeated after the first ran out is refused as a duplicate if nobody looked and accepted after a listing |
| `CoiRegister.DeclarationAccepted` | api/src/governance/coi-register.ts:107-191 | such a declaration exists at every time |
| `GovernanceSystem.ActivationRespectsEmergencies` | api/src/governance/catalog-governance-routes.ts:344-359 | in every run of the three engines together, an accepted activation happens with no halt in force and no pause on any asset it adds, removes or modifies |
| `GovernanceSystem.ReviewersNotRecused` | api/src/governance/catalog-governance-routes.ts:344-359 | in every run every recorded review was given by someone the register did not recuse from that proposal at that moment |
| `GovernanceEffects.RequestMeans` | api/src/governance/catalog-policy.ts:997-1006 | a reviewer is asked about exactly the assets the change upserts or removes and the providers it upserts |
| `GovernanceEffects.ReviewerRecusedExactly` | api/src/governance/catalog-policy.ts:817-826 | in every run someone is recused from reviewing a change if and only if they declared, and have not withdrawn, a conflict on the protocol, on an asset it upserts or removes, or on a provider it upserts |
| `GovernanceEffects.ReviewsUnconflicted` | api/src/governance/catalog-policy.ts:768-867 | in every run every review a proposal holds was given while no standing declaration of its author concerned the change |
| `GovernanceEffects.EmergencyReviewerRecusedExactly` | api/src/governance/emergency-actions.ts:273-281 | the same for reviewing an emergency action, by its asset and its source |
| `GovernanceEffects.FrozenAgree` | api/src/governance/catalog-policy.ts:919-928 | what an activation is told to be frozen is what the emergency registry answers for that asset |
| `GovernanceEffects.OpeningStopsActivation` | api/src/governance/catalog-policy.ts:876-945 | in every run, before the end answered to an emergency opening that was not lifted: after halt-publishing no activation is accepted, after pause-feed none that adds, removes or modifies the asset named |
| `GovernanceEffects.LiftedForGood` | api/src/governance/emergency-actions.ts:229-383 | an emergency that was revoked or overturned is never in force again in any continuation |
| `GraphqlCost.FieldCostExact` | api/src/graphql/validation.ts:12-18 | the cost is one plus the limit, cut at the maximum and never below one, if and only if the literal is finite in double precision or cuts to zero |
| `GraphqlCost.FieldCostMeans` | api/src/graphql/validation.ts:12-18 | by comparisons only: a field costs 1 + v for 0 <= v <= max, 1 + max for 0 <= max < v, 1 when either is negative, and 1 without an integer limit |
| `GraphqlCost.FiniteMeans` | api/src/graphql/validation.ts:12-18 | a literal is finite if and only if its absolute value is below 2^1024 - 2^970 |
| `GraphqlCost.HugeLimitCostsOne` | api/src/graphql/validation.ts:12-18 | a limit literal too large to be finite costs one, although it clamps to the maximum |
| `GraphqlCost.SelectionSetCost` | api/src/graphql/validation.ts:20-45 | the loop with its shared visited set terminates on every document, cyclic ones included, and computes the walk |
| `GraphqlCost.SelectionSetDepth` | api/src/graphql/validation.ts:47-73 | the same for the depth walk |
| `GraphqlCost.WalkAccounts` | api/src/graphql/validation.ts:20-73 | each fragment visited is paid for once, and each spread is a first visit or a skip: an exact balance per fragment name |
| `GraphqlCost.VisitedIsReachable` | api/src/graphql/validation.ts:20-45 | the visited set is exactly the set of fragments reachable through spreads |
| `GraphqlCost.CostExact` | api/src/graphql/validation.ts:20-45 | the cost is that of the operation's own fields plus that of each reachable fragment, counted once |
| `GraphqlTheorems.CostIgnoresOrder` | api/src/graphql/validation.ts:20-45 | reordering selections at any depth of the operation or its fragments leaves the cost as it is |
| `GraphqlTheorems.WalkNeverExceeds` | api/src/graphql/validation.ts:20-73 | cost and depth never exceed those of the operation with its fragments written out |
| `GraphqlTheorems.SkipsNothingExactly` | api/src/graphql/validation.ts:20-73 | a walk skips nothing if and only if every fragment is spread at most once in the reachable text |
| `GraphqlTheorems.SpreadOnceIsInlining` | api/src/graphql/validation.ts:20-73 | when no reachable fragment is spread twice, cost and depth equal those of the written-out operation |
| `GraphqlTheorems.InliningExactly` | api/src/graphql/validation.ts:20-73 | the written-out cost is the cost found plus that of the spreads skipped, and the written-out depth the larger of the two; so cost and depth are those of the written-out operation if and only if what is skipped costs nothing, and lies no deeper than what is found |
| `GraphqlTheorems.ExpandIgnoresOrder` | api/src/graphql/validation.ts:20-73 | the written-out cost and depth do not depend on the order of selections at any level |
| `GraphqlTheorems.SameDepthWhenNoneDeeper` | api/src/graphql/validation.ts:47-73 | two orders of the same selections have the same depth when neither skips anything deeper than what it finds |
| `GraphqlTheorems.DepthIgnoresOrder` | api/src/graphql/validation.ts:47-73 | when no reachable fragment is spread twice, the depth is the same for every order of the selections of the operation and its fragments |
| `GraphqlTheorems.DepthDependsOnOrder` | api/src/graphql/validation.ts:47-73 | a fragment spread twice: the depth is 1 or 2 depending on the order of two selections |
| `AuditChain.IndexEntries` | api/src/governance/audit-logger.ts:319-329 | one pass builds the last index of each HMAC and the entries of each writer in file order |
| `AuditChain.CheckEntry` | api/src/governance/audit-logger.ts:334-357 | one entry passes the tests in order if and only if it is in order for its predecessor, key, HMAC and anchor |
| `AuditChain.VerifyAuditLogChain` | api/src/governance/audit-logger.ts:315-365 | the verifier accepts if and only if every entry is in order, and otherwise names an entry that is not, the first of its writer |
| `AuditChain.DigestsGrow` | api/src/governance/audit-logger.ts:315-365 | in a verified log the HMACs of one writer grow along the file |
| `AuditChain.SharedDigestPinsHistory` | api/src/governance/audit-logger.ts:315-365 | two verified logs that share one HMAC agree on every earlier entry of that writer as far back as both go |
| `AuditChain.OnlyCopiesVerify` | api/src/governance/audit-logger.ts:315-365 | a verified log whose HMACs were written without the keys holds only copies of entries of the log they were taken from |
| `AuditChain.ChangeRejected` | api/src/governance/audit-logger.ts:315-365 | changing any signed field of an entry, with any HMAC that can be had without the keys, is rejected |
| `AuditChain.VerifiedExactly` | api/src/governance/audit-logger.ts:315-365 | a log verifies if and only if every entry's HMAC is that of its own fields under its key, and it continues its writer's latest earlier entry with the next number or, having none, opens a chain |
| `AuditChain.SwapRejected` | api/src/governance/audit-logger.ts:315-365 | swapping two entries of one writer is rejected |
| `AuditChain.DropRejected` | api/src/governance/audit-logger.ts:315-365 | dropping an entry between two others of its writer is rejected |
| `AuditChain.SuffixVerifiedExactly` | api/src/governance/audit-logger.ts:315-365 | what remains of a verified log after pruning verifies if and only if the first remaining entry of each writer opens the file, starts a chain or is anchored at a remaining entry |
| `AuditChain.PrunedWriterFails` | api/src/governance/audit-logger.ts:374-405 | a pruned log does not verify once a writer with a pruned entry has its next one below the top of the file |
| `AuditWriters.AuditLogger.InitializeAuditIntegrity` | api/src/governance/audit-logger.ts:374-405 | initialisation validates the log, forks on a broken one, and otherwise continues after its last entry |
| `AuditWriters.AuditLogger.AuditLog` | api/src/governance/audit-logger.ts:706-765 | an append signs the next entry of the writer's chain and advances the chain state even when the write fails |
| `AuditWriters.HonestRunsVerify` | api/src/governance/audit-logger.ts:374-405 | every interleaving of any number of writers that keep the append discipline verifies under every current key, and no writer is ever forked |
| `AuditWriters.LogHoldsAppended` | api/src/governance/audit-logger.ts:706-765 | in every disciplined run the log holds, in order, exactly what the started writers appended, under the writer's name and numbered from 1 by each |
| `AuditWriters.InitializeAgainExact` | api/src/governance/audit-logger.ts:374-405 | initialising a process again keeps the log verifiable if and only if it had appended nothing |
| `AuditWriters.LostAppendExact` | api/src/governance/audit-logger.ts:706-765 | after an append that did not reach the disk, the writer's next entry verifies if and only if it is the first of the file |
| `AuditWriters.InitializeAgainFails` | api/src/governance/audit-logger.ts:374-405 | the run of one process that starts, appends, initialises again and appends: the log does not verify |
| `AuditWriters.LostAppendFails` | api/src/governance/audit-logger.ts:706-765 | the run of one process that starts, appends, loses an append and appends: the log does not verify |
| `AuditWriters.PrunedTurnsFork` | api/src/governance/audit-logger.ts:374-405 | the run of two processes that take turns: the log verifies, and a process that initialises on it without its first two entries forks it |
| `AuditRetention.BuildPlan` | api/src/governance/audit-logger.ts:512-539 | the loop splits the lines into those kept and the aged ones grouped by day, in order of appearance |
| `AuditRetention.PlanSplits` | api/src/governance/audit-logger.ts:512-539 | a line is archived if and only if it is dated before the cutoff, and kept otherwise |
| `AuditRetention.NothingToArchiveExactly` | api/src/governance/audit-logger.ts:512-539 | a sweep has nothing to archive if and only if no line is dated before now minus the retention days |
| `AuditRetention.ZeroDaysDisableExactly` | api/src/governance/audit-logger.ts:512-539 | with zero days a sweep leaves the log alone if and only if no line is dated before now |
| `AuditRetention.ZeroDaysArchive` | api/src/governance/audit-logger.ts:512-539 | with zero days a log of one earlier line is emptied into the archive |
| `AuditRetention.ArchiveDated` | api/src/governance/audit-logger.ts:484-503 | the loop appends to each day's file the lines it lacks, and counts them |
| `AuditRetention.AuditFiles.EnforceAuditRetention` | api/src/governance/audit-logger.ts:556-670 | a sweep with its up to three attempts is a run of the step machine without crashes that writes exactly the lines arriving during the attempts made, and is not reported skipped if and only if its last step completes a sweep |
| `AuditRetention.NothingLost` | api/src/governance/audit-logger.ts:484-612 | in every run of writers, sweep steps and crashes the lines in the archive or the active log are exactly those ever written |
| `AuditRetentionRuns.SweepRestoresExactly` | api/src/governance/audit-logger.ts:286-306 | with distinct dated lines in time order and any cutoffs, a completed sweep leaves archive plus active log equal to everything written if and only if each line that was in both is older than its cutoff |
| `AuditRetentionRuns.CompletedSweepRestores` | api/src/governance/audit-logger.ts:286-306 | so each completed sweep restores the whole sequence when cutoffs follow the clock, as one retention period gives them |
| `AuditRetentionRuns.ArchiveFiledByDay` | api/src/governance/audit-logger.ts:484-539 | in every run, crashes included, the archive is one file per day in ascending order and each file holds only lines dated within that day |
| `AuditRetentionRuns.SweepRestores` | api/src/governance/audit-logger.ts:588-612 | the same for a whole sweep of the program after any run, crashes included |
| `ReleaseTrain.SortByOrder` | scripts/slo-release-gate.ts:391-391 | the regions sorted by order |
| `ReleaseTrain.ContiguousExactly` | scripts/slo-release-gate.ts:336-341 | sorted distinct orders run 0, 1, 2, ... if and only if none reaches the number of regions |
| `ReleaseTrain.ValidateReleaseTrainManifest` | scripts/slo-release-gate.ts:299-350 | a manifest passes if and only if it is well formed, and a reported problem is one it has |
| `ReleaseTrain.OrdersArePermutation` | scripts/slo-release-gate.ts:299-350 | in an accepted manifest each position 0..n-1 has exactly one region, which is where sorting puts it |
| `ReleaseTrain.EvaluateRegion` | scripts/slo-release-gate.ts:399-508 | one region halts the train or is eligible if and only if its limits and criteria say so |
| `ReleaseTrain.EvaluateReleaseTrain` | scripts/slo-release-gate.ts:376-579 | HALT if and only if a region halts the train, naming the first; else PROMOTE if and only if one is ready, naming it; else HOLD |
| `ReleaseTrain.PromotionSound` | scripts/slo-release-gate.ts:376-579 | a PROMOTE names the lowest-order unpromoted region, all earlier ones promoted, its criteria met, and no promoted region tripping a halt condition |
| `ReleaseTrain.GateMeans` | scripts/slo-release-gate.ts:355-500 | a region is judged by its last report against its own limits, the manifest's where it sets none, and 14.4, 6, 3, 25 and 2, or 14.4, 6, 0 and unavailability, where neither does |
| `ReleaseTrain.DrivenPrefix` | scripts/slo-release-gate.ts:376-579 | a run that promotes only what is returned always has an order-prefix of the regions promoted |
| `ReleaseTrain.ListingOrderIrrelevant` | scripts/slo-release-gate.ts:376-579 | the evaluation does not depend on the listing order of regions or of uniquely named health records |
| `Archival.SelectBatch` | api/src/infrastructure/archival.ts:114-123 | the batch is the oldest rows before the cutoff, at most the batch size, in time order |
| `Archival.DeleteConserves` | api/src/infrastructure/archival.ts:131-139 | deleting by id and timestamp takes out exactly the batch |
| `Archival.ArchivalService.ArchiveOlderThan` | api/src/infrastructure/archival.ts:106-146 | the batch loop terminates, keeps exactly the newer rows in place, and table plus files hold the same rows as before |
| `Archival.ArchivalService.PurgeOlderThan` | api/src/infrastructure/archival.ts:148-154 | the purge keeps exactly the newer rows and counts the others |
| `Archival.ArchivalService.RunOnce` | api/src/infrastructure/archival.ts:48-92 | a pass archives, then purges; a dry run changes nothing |
| `Archival.PurgedExactly` | api/src/infrastructure/archival.ts:79-85 | a row is purged without having been archived if and only if retention is on, the row is older than it, and the archive pass left it, being too young or moving nothing |
| `Archival.PurgesNothingExactly` | api/src/infrastructure/archival.ts:48-92 | a pass purges nothing from any table if and only if retention is off, or the batch size is positive and retention is at least the archive age |
| `Archival.UnarchivedRowPurged` | api/src/infrastructure/archival.ts:48-92 | outside that condition, a table of one row that the pass deletes without archiving it |
| `Archival.DryRunPurgeExactly` | api/src/infrastructure/archival.ts:62-85 | a dry run announces the number of rows a pass purges if and only if retention is off, the batch size is zero, or no row is older than both ages |
| `Archival.DryRunOvercounts` | api/src/infrastructure/archival.ts:62-85 | a table of one row older than both ages: announced as purged, in fact archived |
| `Archival.ArchivalService.RestoreFile` | api/src/infrastructure/archival.ts:187-206 | a file is re-inserted row by row, skipping keys the table has |
| `Archival.ArchivalService.Restore` | api/src/infrastructure/archival.ts:166-185 | the given files, one or all in any order, are re-inserted one after the other |
| `Archival.RestoredPrice` | api/src/infrastructure/archival.ts:166-206 | restoring adds what the table lacks and changes nothing it has |
| `Archival.RestoreReturnsAll` | api/src/infrastructure/archival.ts:106-206 | after any run of inserts, batches and crashes between write and delete, restoring all files in any order prices exactly the keys ever taken in, each with a price it had, hence with its price if it had only one |
| `CircuitBreaker.DbCircuitBreaker.Begin` | api/src/infrastructure/db-circuit-breaker.ts:49-61 | an operation is started unless the breaker is open and its period has not passed |
| `CircuitBreaker.DbCircuitBreaker.OnSuccess` | api/src/infrastructure/db-circuit-breaker.ts:72-81 | a success counts as a probe or clears the failures |
| `CircuitBreaker.DbCircuitBreaker.OnFailure` | api/src/infrastructure/db-circuit-breaker.ts:83-93 | a failure reopens, counts, or opens |
| `CircuitBreaker.DbCircuitBreaker.TransitionTo` | api/src/infrastructure/db-circuit-breaker.ts:95-108 | a transition to another state clears the counts; one to the same state does nothing |
| `CircuitBreaker.OpensOnlyAfterFailures` | api/src/infrastructure/db-circuit-breaker.ts:83-93 | the breaker leaves closed only at a failure that completes a threshold of failures without a success while closed |
| `CircuitBreaker.ClosedCounts` | api/src/infrastructure/db-circuit-breaker.ts:72-93 | while closed, the failures since the last success stay below the threshold |
| `CircuitBreaker.OpenSince` | api/src/infrastructure/db-circuit-breaker.ts:83-108 | an open breaker remembers the time of the failure that opened it: no later completion moves it |
| `CircuitBreaker.AdmissionExact` | api/src/infrastructure/db-circuit-breaker.ts:49-61 | while open an operation is started if and only if at least openMs passed since that failure |
| `CircuitBreaker.NothingStartsWhileOpen` | api/src/infrastructure/db-circuit-breaker.ts:49-61 | for openMs after opening the breaker stays open and no operation is started, whatever completes |
| `CircuitBreaker.ClosesOnlyAfterSuccesses` | api/src/infrastructure/db-circuit-breaker.ts:72-93 | a half-open breaker reopens exactly at a failure, and closes only when the operations completed since it turned half-open, none of which failed, reach the threshold |
| `CircuitBreaker.ProbingCounts` | api/src/infrastructure/db-circuit-breaker.ts:72-81 | while half-open the success count is exactly the number of completed probes plus the number of completed operations that were in flight before, none failed, and it is below the threshold |
| `CircuitBreaker.ClosedByProbesExactly` | api/src/infrastructure/db-circuit-breaker.ts:72-93 | the breaker closes on a full threshold of successful probes if and only if every operation in flight when it turned half-open still is; in particular when there was none |
| `CircuitBreaker.ReopenedByProbeExactly` | api/src/infrastructure/db-circuit-breaker.ts:83-93 | the failure that reopens it is a probe's if and only if the operation was not in flight when it turned half-open |
| `CircuitBreaker.StragglerCloses` | api/src/infrastructure/db-circuit-breaker.ts:72-81 | for all numbers and times: an operation started before opening succeeds late and closes the breaker while the probe is running |
| `CircuitBreaker.StragglerReopens` | api/src/infrastructure/db-circuit-breaker.ts:83-93 | the same operation failing late opens it for another period while the probe is running |

## Left out

- Express routes, request schemas, authentication, and the route-level checks of eligibility and of on-chain execution.
- Digest texts, reasons, messages, reports and Markdown summaries; the cost figures of the impact report.
- Numbers that are not integers and unknown enumeration values in feed policies, which the route schema rejects.
- Non-ASCII case mapping and locale-dependent collation.
- Winston logging, metrics, stdout, timers and the retention lock file of the audit logger; two sweeps at once.
- Archive file names for years outside 0000 to 9999, where name order is not date order.
- Torn writes: an append, a temporary file and a gzip file are written whole, except that a crash may cut an archive append between lines.
- The override path of the release train, the SLO gate for one region, Prometheus fetching and the command line.
- SQL errors and a negative batch size; the names of archive files, whose sorted order is any order here.
- The order in which recusal reasons are listed, which is that of their texts.
- The price-oracle contract beyond the three settings a plan touches.
- API key stores, feed lifecycle and aliases, source breakers, streaming, encryption and user interface: these would only add easier members.
- EnforceAuditRetention: other writers append only between the temporary write and the comparison of an attempt; the step machine behind `NothingLost` and `SweepRestoresExactly` lets them append at any step.
- HonestRunsVerify: claimed for the whole log; when the pruned active file on its own verifies is `SuffixVerifiedExactly`.
- ContractMirrorsPolicy: the threshold is mirrored only while all enabled feeds share one, since the contract has a single threshold.
- RestoreReturnsAll: covers asset, source, timestamp, price and decimals; ids and creation times are new after a restore. Of a key taken in again with another price after it was archived, it says only that one of the prices comes back.
