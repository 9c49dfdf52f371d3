# devpi-guardian in Dafny

devpi-guardian stands between a devpi index and its users: an uploaded or mirrored release file is published
to a content-addressed quarantine, discovered into a verdict store, analysed by leased workers, judged by a
policy, and only served when an automated ALLOW has passed its cooldown or an administrator says so.  This
project models that system and proves the properties its parts rely on.

| area | files | what is proved |
|---|---|---|
| verdict store | `History`, `PersistedState`, `VerdictTables`, `VerdictStore`, `ArtifactStore`, `VerdictInvariants`, `VerdictRuns`, `StoreEffects`, `StateRules`, `DiscoveryExample`, `StoreEvents` | what every transaction writes, column by column, and exactly when it is done; they keep the persisted-state rule over every run, conserve claims, only extend history, and log the decisions in force; what they log the audit writer accepts |
| gates | `Gates`, `GatesOnStore`, `StateRules`, `ReleaseListing` | reader, download gate, index filter and the sorted release listing agree, and what they say of any database, corrupt rows and all |
| worker cycle | `Pipeline`, `PipelineEffects`, `CooldownRuns` | exactly when a cycle completes, fails or raises; a claimed artifact ends judged or failed; in no run is anything served before the end of its first cooldown without an override |
| quarantine | `Quarantine`, `QuarantineSafety`, `QuarantineRuns`, `QuarantineJobs`, `QuarantineLeftovers` | publishers, readers, whole discovery jobs and crashes at every system call; what a verification hands out, who can fail and exactly when, and that nothing is left behind |
| taint analysis | `TaintModel`, `TaintPaths`, `TaintAnalyzer`, `TaintSemantics`, `TaintAgreement`, `TaintScopes`, `TaintSummaries` | the joining analyzer reports exactly what single runs of a plain interpreter pass and leave; helper summaries equal inlining |
| audit log | `TextOrder`, `Calendar`, `CanonicalJson`, `HashChain`, `AuditChain`, `AuditFormat`, `AuditWriter`, `AuditRuns` | what the hashed text says, tamper evidence, growth, and the cached verifier against the full scan |
| discovery | `DiscoveryQueue`, `QueueProgress`, `QueueEffects`, `Consumer`, `ConsumerRuns`, `ConsumerRace`, `HandOver` | what every call does to each row and how often a job is tried, progress despite corrupt rows, every lasting row is validated, completed jobs are in the store, when a good job can be lost, artifacts are backed by quarantined bytes |
| policy | `Policy`, `PolicyVerdict` | decision, score, reasons and acceptance exactly, from the findings and the configuration; order plays no part, nothing lowers a decision |
| wheel RECORD | `Base64Url`, `Paths`, `WheelRecord`, `RecordTrust` | exactly the faults are reported, and what a RECORD without faults vouches for |
| archives | `Paths`, `ArchivePaths`, `Preflight`, `ArchiveClearance`, `Extraction` | exactly the faults are reported; no findings exactly when headers are safe, bounded and form a tree; then extraction stays inside its directory, never obstructs itself, and leaves exactly the members |
| raw targets | `PercentCoding`, `Paths`, `RawTarget`, `RawForms` | which paths are protected and how each may be spelt; an accepted raw target decodes to one canonical path |
| baseline | `Baseline` | the tiered search finds the best comparable release of all; the choice ignores order and repetition |

Objects the program updates in place are classes with fields (`ArtifactStore.Store`, `DiscoveryQueue.Queue`,
`AuditWriter.Writer`, `TaintAnalyzer.Analyzer`), and its loops are loops; each method is proved against a
specification function or predicate, and the theorems are about those.  A SQLite write transaction is one step.
Times and digests are integers; `Calendar.TextIsInteger` and `TextOrder.DigestOrder` show that the text comparisons
of the SQL are comparisons of these numbers.  SHA-256 is an arbitrary function of the payload: instead of assuming that it
never collides, the theorems exhibit the two rows that would collide.

Four things one would expect hold only under a condition; each is proved with its exact condition and a
concrete case.

- The `artifact.discovered` event always says DENY to DENY.  That is the truth exactly when the artifact is not
  in force as ALLOW (`VerdictRuns.DiscoveryTruthExactly`; `DiscoveryExample.DiscoveryCanMislead` gives the run).
- With nobody publishing, `get_verified` of a bound digest succeeds when it runs alone; since another reader may
  come along, it can fail in some run exactly when the file has two links as it begins
  (`QuarantineRuns.ReaderCanFailExactly`; `QuarantineRuns.ConcurrentReaderCanFail` gives the run).
- A discovery job whose bytes are the right ones can be failed for good by what others do to the quarantine,
  because the consumer takes a `QuarantineError` as final.  That can happen exactly when the digest does not have
  exactly one link as the job begins, or as it has its bytes checked: two links can be recovered by someone else
  between its two looks, and with none another publisher can come first and crash
  (`QuarantineJobs.JobCanFailExactly`, `ConsumerRace.GoodJobCanBeLostExactly`; by `QuarantineJobs.FirstJobCanFail`
  the very first job of an empty quarantine can fail).
- The writer's cached verification equals a full rescan of any log whose prefix up to the cached row is intact,
  which all its own runs keep.  Its answer differs from a full rescan exactly when the cache was made by this
  connection under the present schema, the cached row is still there and valid, the rows after it continue the
  chain, and the rows up to it are not an accepted chain (`AuditWriter.CacheMissesExactly`).

The order of an archive's members never matters for the directory tree, nor for anything in a tar; in a zip it can
matter for the size bounds, because they are checked at every prefix (`Preflight.ZipOrderMatters`).

## Model

| member | source | states |
|---|---|---|
| `History.AtMostOne` | src/devpi_guardian/verdicts/store.py:840-845 | an artifact for which no two rows are current has at most one current row |
| `History.ReplaceCurrents` | src/devpi_guardian/verdicts/store.py:840-872 | retiring the current row and inserting another leaves exactly the new row current for this artifact and every other mark as it was |
| `PersistedState.Validate` | src/devpi_guardian/verdicts/invariants.py:353-410 | a state is accepted only with a two-valued decision, and ALLOW comes only from an unexpired override or from an ALLOW state with an ALLOW verdict |
| `StateRules.StorableExactly` | src/devpi_guardian/verdicts/invariants.py:86-104 | stored text is any text that is not all white space, has no NUL and at most 4096 characters |
| `StateRules.AuditTextExactly` | src/devpi_guardian/audit/writer.py:71-87 | audit text is not blank, has no control characters and at most so many octets of UTF-8 |
| `StateRules.ValidateExactly` | src/devpi_guardian/verdicts/invariants.py:178-410 | rows are refused exactly for one of the listed defects of artifact, verdict or override; otherwise every field of the context says what the rows mean |
| `ArtifactStore.FirstRow` | src/devpi_guardian/verdicts/store.py:614-622 | ORDER BY time, digest LIMIT 1 finds the one earliest row |
| `ArtifactStore.Store.Commit` | src/devpi_guardian/verdicts/store.py:304-363 | the event is appended and the transaction kept, or every table is as it was before the transaction |
| `ArtifactStore.Store.DiscoverArtifact` | src/devpi_guardian/verdicts/store.py:457-563 | the tables after the statements are those of the transaction, or untouched with its error |
| `ArtifactStore.Store.ClaimNextArtifact` | src/devpi_guardian/verdicts/store.py:596-670 | leases the earliest discovered artifact, or none, or refuses and changes nothing |
| `ArtifactStore.Store.RecoverExpiredClaims` | src/devpi_guardian/verdicts/store.py:680-727 | the loop frees every lapsed lease in order, and counts them |
| `ArtifactStore.Store.RecordVerdict` | src/devpi_guardian/verdicts/store.py:729-998 | verdict, evidence, state and write-once cooldown are all written, or nothing is |
| `ArtifactStore.Store.MarkAnalysisError` | src/devpi_guardian/verdicts/store.py:1000-1091 | only the holder of the live lease can fail the artifact |
| `ArtifactStore.Store.SetManualOverride` | src/devpi_guardian/verdicts/store.py:1281-1378 | replaces the current override of a terminal artifact |
| `ArtifactStore.Store.RevokeManualOverride` | src/devpi_guardian/verdicts/store.py:1380-1431 | retires the current override of a terminal artifact, or refuses |
| `ArtifactStore.Store.RequestRescan` | src/devpi_guardian/verdicts/store.py:1433-1510 | back to DISCOVERED, its override retired, its verdict and cooldown kept |
| `ArtifactStore.Store.SetBaselineEligibility` | src/devpi_guardian/verdicts/store.py:366-455 | enabling needs a finished ALLOW in force; an unchanged mark writes nothing |
| `VerdictInvariants.SoundAlways` | src/devpi_guardian/verdicts/invariants.py:353-410 | under the invariant the executable rule accepts every artifact at every evaluation time |
| `VerdictInvariants.DiscoverTransacts` | src/devpi_guardian/verdicts/store.py:457-563 | a discovery keeps the invariant and touches one artifact; it logs one event exactly when it adds something |
| `StoreEffects.DiscoverDone` | src/devpi_guardian/verdicts/store.py:457-563 | a discovery goes through exactly for well-formed input that contradicts no stored size or origin, and with which error otherwise |
| `StoreEffects.DiscoverWrites` | src/devpi_guardian/verdicts/store.py:457-563 | it adds the mapping, a fresh artifact row if there was none, one event, and nothing else |
| `VerdictInvariants.ClaimTransacts` | src/devpi_guardian/verdicts/store.py:596-670 | a claim keeps the invariant, touches one artifact and logs one truthful event |
| `StoreEffects.ClaimDone` | src/devpi_guardian/verdicts/store.py:596-670 | a claim goes through exactly for a nameable worker, a future expiry and a loggable event if anything waits |
| `StoreEffects.ClaimWrites` | src/devpi_guardian/verdicts/store.py:596-670 | the row claimed was discovered first; every lease column of it and of the claim, and nothing else, is as written |
| `VerdictInvariants.RecoverOneTransacts` | src/devpi_guardian/verdicts/store.py:695-725 | a freed lease keeps the invariant and logs one truthful event |
| `StoreEffects.RecoverWrites` | src/devpi_guardian/verdicts/store.py:680-727 | a lease is freed exactly when it has run out, column by column; every other row stays |
| `VerdictInvariants.RecordTransacts` | src/devpi_guardian/verdicts/store.py:793-998 | a recorded verdict keeps the invariant and histories and logs the decision in force after it |
| `StoreEffects.RecordDone` | src/devpi_guardian/verdicts/store.py:793-998 | a result is taken exactly when it is fit, its lease is in force in every column and its baseline is known |
| `StoreEffects.RecordWrites` | src/devpi_guardian/verdicts/store.py:832-998 | one new verdict row, current from then on; the evidence rows are the items in order with the id of that row; the artifact row is judged, its lease ended and its cooldown set at most once; one event |
| `StoreEffects.EvidenceIsRecorded` | src/devpi_guardian/verdicts/store.py:880-892 | in every later state of any run the evidence linked to a verdict is exactly the list recorded with it |
| `StoreEffects.EvidenceStays` | src/devpi_guardian/verdicts/store.py:880-892 | no run adds evidence to a verdict, takes any away or hands it to another |
| `VerdictInvariants.MarkErrorTransacts` | src/devpi_guardian/verdicts/store.py:1015-1091 | a recorded failure keeps the invariant and logs a truthful event |
| `StoreEffects.MarkErrorDone` | src/devpi_guardian/verdicts/store.py:1015-1091 | marking goes through exactly while the lease is in force and the log is up |
| `StoreEffects.MarkErrorWrites` | src/devpi_guardian/verdicts/store.py:1015-1091 | the artifact row is failed with the message, its lease ended, one event, nothing else |
| `VerdictInvariants.SetOverrideTransacts` | src/devpi_guardian/verdicts/store.py:1292-1378 | an override keeps the invariant and logs the decisions in force before and after |
| `StoreEffects.OverrideDone` | src/devpi_guardian/verdicts/store.py:1292-1378 | an override is set exactly for a finished artifact with a signed two-valued decision that has not expired, and with which error otherwise |
| `StoreEffects.OverrideWrites` | src/devpi_guardian/verdicts/store.py:1292-1378 | one new override row, current from then on, and an event with the decisions in force before and after |
| `VerdictInvariants.RevokeTransacts` | src/devpi_guardian/verdicts/store.py:1392-1431 | a revocation keeps the invariant and logs one event with the decisions in force before and after |
| `StoreEffects.RevokeDone` | src/devpi_guardian/verdicts/store.py:1392-1431 | an override is revoked exactly when a finished artifact has a current one |
| `StoreEffects.RevokeWrites` | src/devpi_guardian/verdicts/store.py:1392-1431 | its mark is taken away, one event names the fallback decision, nothing else changes |
| `VerdictInvariants.RevokeRestores` | src/devpi_guardian/verdicts/store.py:1392-1431 | after it the decision in force is the one without an override, at every time |
| `VerdictInvariants.RescanTransacts` | src/devpi_guardian/verdicts/store.py:1445-1510 | a rescan keeps the invariant and logs one event with the decisions in force before and after |
| `StoreEffects.RescanDone` | src/devpi_guardian/verdicts/store.py:1445-1510 | a rescan is granted exactly for a finished artifact |
| `StoreEffects.RescanWrites` | src/devpi_guardian/verdicts/store.py:1445-1510 | the artifact row waits again without lease, error or override; cooldown, verdicts and evidence stay |
| `VerdictInvariants.RescanResets` | src/devpi_guardian/verdicts/store.py:1445-1510 | after it DENY is in force, and verdict history and cooldown are as before |
| `VerdictInvariants.SetBaselineTransacts` | src/devpi_guardian/verdicts/store.py:382-455 | a changed baseline mark keeps the invariant and logs one truthful event |
| `StoreEffects.BaselineDone` | src/devpi_guardian/verdicts/store.py:366-455 | a mark is turned on exactly while the artifact is served, turned off at any time |
| `StoreEffects.BaselineWrites` | src/devpi_guardian/verdicts/store.py:382-455 | a changed mark is one new current row and one event; an unchanged one writes nothing |
| `VerdictInvariants.BaselineDecidesNothing` | src/devpi_guardian/verdicts/store.py:382-455 | and no decision of any artifact changes, at any time |
| `VerdictRuns.RecoverTransacts` | src/devpi_guardian/verdicts/store.py:680-727 | recovering all lapsed leases at once keeps the invariant, logs one truthful event for each, and frees exactly those |
| `VerdictRuns.StepKeeps` | src/devpi_guardian/verdicts/store.py:366-1510 | every operation, accepted or refused, keeps the invariant and only extends histories; all but discovery log only decisions that were in force before and after |
| `VerdictRuns.DiscoveryTruthExactly` | src/devpi_guardian/verdicts/store.py:555-563 | the discovery event tells the truth if and only if the artifact was not in force as ALLOW |
| `DiscoveryExample.DiscoveryCanMislead` | src/devpi_guardian/verdicts/store.py:337-363 | a run of three transactions from the empty store after which discovering a second release of the allowed artifact logs DENY to DENY |
| `VerdictRuns.RunKeeps` | src/devpi_guardian/verdicts/store.py:366-1510 | any interleaving by any workers and administrators with any clocks keeps the invariant, history and token rules |
| `VerdictRuns.ReachableSound` | src/devpi_guardian/verdicts/invariants.py:178-410 | in every reachable state every artifact passes the persisted-state rule, with at most one current verdict and override |
| `VerdictRuns.ReachableConserved` | src/devpi_guardian/verdicts/store.py:596-1091 | in every reachable state claims equal verdicts plus errors plus expiries, plus one while scanning; discoveries equal release mappings |
| `VerdictRuns.ResultEndsLease` | src/devpi_guardian/verdicts/store.py:793-998 | an accepted result spends its token |
| `VerdictRuns.RecoveryEndsLeases` | src/devpi_guardian/verdicts/store.py:680-727 | recovery spends the tokens of the leases it frees |
| `VerdictRuns.SpentClaimIsInert` | src/devpi_guardian/verdicts/store.py:798-819 | once spent, a claim can never change any row again, whatever runs in between |
| `VerdictRuns.DiscoverIdempotent` | src/devpi_guardian/verdicts/store.py:492-563 | discovering again, at whatever time, changes nothing |
| `Gates.GatesAgree` | src/devpi_guardian/enforcement/tween.py:124-151 | the download gate says yes exactly when the reader says allowed |
| `StateRules.GateExactly` | src/devpi_guardian/enforcement/tween.py:103-132 | what the gate insists on in any record: identity, ALLOW, a source and a state that go together, a named policy |
| `StateRules.DecidedExactly` | src/devpi_guardian/verdicts/reader.py:246-326 | over any database a lookup fails exactly for corrupt or ambiguous rows, and otherwise every field of the decision says what the rows mean |
| `StateRules.ListedExactly` | src/devpi_guardian/verdicts/reader.py:328-400 | a mapping can be listed exactly with a readable artifact and at most one mark, and is shown exactly when allowed and not withdrawn |
| `Gates.ReadEffectiveDecisions` | src/devpi_guardian/verdicts/reader.py:246-326 | reading in chunks of 400 equals looking up digest by digest, duplicates included |
| `Gates.GetEffectiveDecisions` | src/devpi_guardian/verdicts/reader.py:48-75 | dropping repeated digests first makes no difference |
| `Gates.FilterLinks` | src/devpi_guardian/plugin.py:62-119 | keeps exactly the allowed links in order, and puts exactly the unknown ones up for discovery, and none of them for a page without a project name; the page fails exactly for a corrupt row or a discovery queue that refuses |
| `Gates.ListAllowedReleases` | src/devpi_guardian/verdicts/reader.py:347-389 | over the mappings of a project: the chunked filter is the one-by-one filter, or fails as a whole on any corrupt or orphaned mapping |
| `Gates.ListingConcat` | src/devpi_guardian/verdicts/reader.py:347-389 | filtering distributes over splitting the list of mappings |
| `GatesOnStore.AllowedExactly` | src/devpi_guardian/verdicts/reader.py:513-535 | in every sound store the reader allows exactly an active ALLOW override, or without one an ALLOW state whose cooldown is over |
| `GatesOnStore.ListingNeverFails` | src/devpi_guardian/verdicts/reader.py:347-389 | in every sound store the listing does not fail, and shows exactly the mapped releases that are allowed and whose current baseline mark, if any, is on |
| `ReleaseListing.AllowedReleases` | src/devpi_guardian/verdicts/reader.py:328-400 | the public listing: sorted, exactly the allowed mappings of the project with their multiplicities, or nothing when one of its mappings is corrupt |
| `ReleaseListing.Sort` | src/devpi_guardian/verdicts/reader.py:391-400 | a sorted permutation by stage, version, filename, digest and origin |
| `ReleaseListing.BeforeExactly` | src/devpi_guardian/verdicts/reader.py:391-400 | the order is by stage, then version, file name, digest and origin |
| `ReleaseListing.SortedUnique` | src/devpi_guardian/verdicts/reader.py:391-400 | with distinct keys there is only one sorted permutation |
| `ReleaseListing.ListedKeysDistinct` | src/devpi_guardian/verdicts/reader.py:391-400 | in a sound store with digests of 64 digits, no two listed releases of a project have the same sort key |
| `ReleaseListing.DiscoveryOrderHidden` | src/devpi_guardian/verdicts/reader.py:328-400 | for any two orders in which the mappings of a sound store were discovered, a project has one and the same listing |
| `Pipeline.RunOnce` | src/devpi_guardian/worker/pipeline.py:87-168 | one cycle is claim, consistency checks, cooldown stamp, and record or mark, each with its own clock reading; an error that escapes is the first one |
| `PipelineEffects.CycleExactly` | src/devpi_guardian/worker/pipeline.py:87-93 | idle exactly without anything to claim; a refused claim raises its error; the lease counts from the start of the cycle |
| `PipelineEffects.CompletesExactly` | src/devpi_guardian/worker/pipeline.py:95-133 | a cycle completes exactly when prepared file, verdict and report agree with the claim and the store can take the result |
| `PipelineEffects.OtherwiseExactly` | src/devpi_guardian/worker/pipeline.py:134-160 | otherwise the error is marked; only if that fails, too, the first error is raised and the store is as it was |
| `Pipeline.Resolve` | src/devpi_guardian/worker/pipeline.py:96-166 | after a claim the verdict is recorded or, on any refusal, the error is marked |
| `Pipeline.NotServedInCooldown` | src/devpi_guardian/worker/pipeline.py:112-118 | right after a completed cycle the artifact is not allowed before the end of its cooldown, the first one that was ever set |
| `CooldownRuns.CycleStamps` | src/devpi_guardian/worker/pipeline.py:112-118 | an ALLOW that a cycle records carries the cooldown counted from its completion |
| `CooldownRuns.CycleIsRun` | src/devpi_guardian/worker/pipeline.py:87-168 | a worker cycle does to the store what a run of its calls does, claim, then record or mark, and every verdict it records is stamped from a consistent analysis |
| `CooldownRuns.ServedAfterCooldown` | src/devpi_guardian/verdicts/reader.py:513-535 | when every recorded ALLOW is stamped so, in every reachable state whatever is served without an override has waited for the whole cooldown since its first ALLOW |
| `CooldownRuns.WorkersServeAfterCooldown` | src/devpi_guardian/worker/pipeline.py:87-168 | so it is when verdicts are recorded by worker cycles, however their calls interleave with all others |
| `CooldownRuns.FirstCooldownHolds` | src/devpi_guardian/verdicts/reader.py:513-535 | a cooldown once set holds in every later state of every run, whatever is judged anew, unless overridden |
| `Pipeline.ClaimIsResolved` | src/devpi_guardian/worker/pipeline.py:87-168 | a claim held to the end leaves the artifact in a terminal state |
| `QuarantineSafety.StepKeeps` | src/devpi_guardian/worker/quarantine.py:193-321 | every system call of every process, crashes included, keeps link counts exact and content addressed, and never rebinds a digest |
| `QuarantineRuns.RunKeeps` | src/devpi_guardian/worker/quarantine.py:193-364 | so does any interleaving |
| `QuarantineRuns.PublishedForever` | src/devpi_guardian/worker/quarantine.py:255-274 | a bound digest hashes to its bytes, has one or two links, and no later run changes name or bytes |
| `QuarantineRuns.DoneIsVerified` | src/devpi_guardian/worker/quarantine.py:615-705 | in any interleaving a verification that is done holds the published file of its digest: right bytes, the expected size, no second name |
| `QuarantineLeftovers.NothingLeft` | src/devpi_guardian/worker/quarantine.py:193-322 | as long as nobody is killed, refused uploads and lost races leave no staging name behind |
| `QuarantineRuns.LoserFindsItsFile` | src/devpi_guardian/worker/quarantine.py:269-273 | the unguarded unlink of a losing publisher finds its own file |
| `QuarantineRuns.RecoveryRemovesSecondNames` | src/devpi_guardian/worker/quarantine.py:379-466 | recovery removes only the second name of the published file it was asked about |
| `QuarantineRuns.FailsExactlyWhenBeaten` | src/devpi_guardian/worker/quarantine.py:614-705 | a step of verifying a file of the expected size fails exactly when someone else recovered it in between |
| `QuarantineRuns.AssuredRun` | src/devpi_guardian/worker/quarantine.py:323-364 | verifying a file that has one link never fails, whatever everyone else does |
| `QuarantineRuns.AloneSucceeds` | src/devpi_guardian/worker/quarantine.py:323-364 | alone, from any reachable state, verification ends with the published file, repairing a crash if need be |
| `QuarantineRuns.NeverStuck` | src/devpi_guardian/worker/quarantine.py:323-364 | and every state of it has a next step |
| `QuarantineRuns.ReaderCanFailExactly` | src/devpi_guardian/worker/quarantine.py:333-345 | a reader can fail in some run that does not kill it if and only if the file has two links when it begins |
| `QuarantineRuns.ConcurrentReaderCanFail` | src/devpi_guardian/worker/quarantine.py:379-401 | a run from the empty quarantine, with a crash, after which one of two readers can fail |
| `QuarantineJobs.PublisherCanFailExactly` | src/devpi_guardian/worker/quarantine.py:255-321 | a publisher with checked bytes can fail in some run that does not kill it if and only if the digest does not have exactly one link |
| `QuarantineJobs.JobCanFailExactly` | src/devpi_guardian/worker/discovery_consumer.py:140-144 | a whole job for the right bytes, published already or still to be fetched, can fail in some run in which it lives on and is sent these bytes if and only if the digest does not have exactly one link when it begins, or has its bytes checked |
| `QuarantineJobs.FirstJobCanFail` | src/devpi_guardian/worker/discovery_consumer.py:140-144 | so the first job of an empty quarantine can fail, whatever its bytes are |
| `TaintPaths.AnalysisIsUnionOfRuns` | src/devpi_guardian/analyzers/astutil.py:1632-1638 | for every body, the joined result has a fact exactly when some run along one choice of branches has it |
| `TaintPaths.EvalAdditive` | src/devpi_guardian/analyzers/astutil.py:1701-1789 | evaluating from a union of states gives the union of the results |
| `TaintPaths.ExecAdditive` | src/devpi_guardian/analyzers/astutil.py:1791-1897 | so does executing a statement |
| `TaintPaths.ChainIsUnion` | src/devpi_guardian/analyzers/astutil.py:1753-1784 | and/or and comparisons: runs may stop before each operand |
| `TaintAgreement.AnalysisIsInterpretation` | src/devpi_guardian/analyzers/astutil.py:1655-1901 | the analysis knows a fact at the end of a scope exactly when some single run of the plain interpreter ends with it |
| `TaintSemantics.OccursExactly` | src/devpi_guardian/analyzers/astutil.py:1641-1646 | the names of a target are exactly those that some path of positions through tuples leads to |
| `TaintSemantics.AssignExactly` | src/devpi_guardian/analyzers/astutil.py:1674-1680 | after an assignment every name that occurs in the targets has exactly the origins of the value, every other what it had, unless := rebinds it |
| `TaintSummaries.SubstBlock` | src/devpi_guardian/analyzers/astutil.py:1682-1689 | renaming origins commutes with analysing a block |
| `TaintSummaries.OnlyParameters` | src/devpi_guardian/analyzers/astutil.py:1918-1923 | a helper summary mentions only the parameters of the helper |
| `TaintSummaries.SummaryIsInlining` | src/devpi_guardian/analyzers/astutil.py:1904-1936 | substituting the origins of the arguments into the summary of a call equals analysing the body with them |
| `TaintSummaries.HelperFlows` | src/devpi_guardian/analyzers/astutil.py:2028-2059 | the reported origins are exactly the credentials that some single run of the helper passes to the sink, each parameter holding what the call passes for it |
| `TaintSummaries.PassedExactly` | src/devpi_guardian/analyzers/astutil.py:2031-2049 | a parameter gets the first keyword argument of its name, without one the positional argument at its position |
| `TaintSummaries.PositionalArrives` | src/devpi_guardian/analyzers/astutil.py:2031-2049 | the i-th positional argument reaches the i-th parameter unless a keyword names it |
| `TaintSummaries.KeywordArrives` | src/devpi_guardian/analyzers/astutil.py:2031-2049 | a keyword argument reaches the parameter of its name |
| `TaintAnalyzer.Join` | src/devpi_guardian/analyzers/astutil.py:1632-1638 | joining dictionaries is the union of their facts |
| `TaintAnalyzer.Analyzer.Assign` | src/devpi_guardian/analyzers/astutil.py:1674-1680 | strong update: each name gets exactly the origins of the value, none when it has none |
| `TaintAnalyzer.Analyzer.Expression` | src/devpi_guardian/analyzers/astutil.py:1701-1789 | the dictionaries after evaluating hold exactly the facts of the specification |
| `TaintAnalyzer.Analyzer.CallExpression` | src/devpi_guardian/analyzers/astutil.py:1709-1724 | evaluates function and arguments in order and records argument and sink origins |
| `TaintAnalyzer.Analyzer.Operands` | src/devpi_guardian/analyzers/astutil.py:1753-1784 | the states after each operand are joined |
| `TaintAnalyzer.Analyzer.ConditionalExpression` | src/devpi_guardian/analyzers/astutil.py:1766-1772 | both arms start from the state after the test and are joined |
| `TaintAnalyzer.Analyzer.Statement` | src/devpi_guardian/analyzers/astutil.py:1791-1897 | the same for statements |
| `TaintAnalyzer.Analyzer.IfStatement` | src/devpi_guardian/analyzers/astutil.py:1828-1834 | both branches start from the state after the test and are joined |
| `TaintAnalyzer.Analyzer.RunBlock` | src/devpi_guardian/analyzers/astutil.py:1682-1689 | runs a block from another state and leaves the current one alone |
| `TaintAnalyzer.Analyzer.Run` | src/devpi_guardian/analyzers/astutil.py:1899-1901 | runs a scope |
| `TaintScopes.AnalyzeScope` | src/devpi_guardian/analyzers/astutil.py:1655-1901 | a network call is reported with an origin exactly when some single run of the plain interpreter passes it there, and a name ends with an origin exactly when it does in some such run |
| `TextOrder.IsoOrder` | src/devpi_guardian/verdicts/store.py:67-69 | comparing canonical UTC text is comparing time |
| `Calendar.TextIsInteger` | src/devpi_guardian/verdicts/store.py:67-69 | comparing canonical UTC text is comparing microseconds since year one |
| `Calendar.YearsExactly` | src/devpi_guardian/audit/writer.py:96-106 | the days before a year are those of the Gregorian calendar, in closed form |
| `TextOrder.DigestOrder` | src/devpi_guardian/verdicts/store.py:614-622 | comparing 64 hexadecimal digits is comparing numbers |
| `TextOrder.IsoRecognised` | src/devpi_guardian/verdicts/invariants.py:107-122 | every canonical timestamp is recognised as one |
| `CanonicalJson.ObjectInjective` | src/devpi_guardian/audit/writer.py:129-155 | canonical JSON objects with the same keys and text have the same values |
| `AuditChain.PayloadInjective` | src/devpi_guardian/audit/writer.py:129-155 | the canonical payload determines id, previous hash and every field of the event |
| `AuditFormat.ObjectReads` | src/devpi_guardian/audit/writer.py:149-155 | a reader of JSON gets the members back, in order, from the canonical text |
| `AuditFormat.PayloadReads` | src/devpi_guardian/audit/writer.py:129-155 | the hashed text is a JSON object with these thirteen members, each key with its own field |
| `AuditChain.PayloadFits` | src/devpi_guardian/audit/writer.py:158-164 | the payload of a valid event never exceeds its limit |
| `AuditChain.SameHeadSameLog` | src/devpi_guardian/audit/verifier.py:40-107 | two accepted logs with one head are identical, or two of their rows collide under the hash |
| `AuditChain.AppendAccepted` | src/devpi_guardian/audit/writer.py:434-507 | appending a valid event to an accepted log gives an accepted log |
| `HashChain.VerifyAuditChain` | src/devpi_guardian/audit/verifier.py:40-111 | valid exactly for accepted chains of the counted length with the expected head; otherwise count, head so far, position and finding of the first thing wrong |
| `AuditFormat.FindingExactly` | src/devpi_guardian/audit/verifier.py:79-110 | what is found wrong with a row is the first thing that does not fit: id, columns, previous hash, event hash |
| `HashChain.HeadDeterminesLog` | src/devpi_guardian/audit/verifier.py:66-100 | the head determines length and content of a chain, or two rows clash |
| `AuditWriter.VerifyRows` | src/devpi_guardian/audit/writer.py:324-352 | the loop is the walk of the chain with its final count |
| `AuditWriter.Writer.VerifiedPrefix` | src/devpi_guardian/audit/writer.py:362-432 | the answer from the cache, which belongs to one connection and one schema, and the new cache |
| `AuditWriter.CachedEqualsFull` | src/devpi_guardian/audit/writer.py:362-432 | on an accepted log the answer is that of a cold scan, whatever the cache holds |
| `AuditWriter.CacheMissesExactly` | src/devpi_guardian/audit/writer.py:384-419 | on any table the answer differs from the cold one if and only if the cache is usable, its own row is valid, the rows after it continue the chain, and the rows up to it are not accepted |
| `AuditWriter.OtherSchemaIsCold` | src/devpi_guardian/audit/writer.py:384-390 | after any change of the schema, or on another connection, every alteration is seen |
| `AuditWriter.AlteredFirstRowGoesUnnoticed` | src/devpi_guardian/audit/writer.py:384-419 | for every log of two rows or more: an altered first row, the schema left as it was, passes the cached verification and fails a cold one |
| `AuditRuns.AppendsExactly` | src/devpi_guardian/audit/writer.py:434-507 | an append of a valid event, whose hash no row has yet, extends the log by exactly the row that follows it |
| `AuditRuns.TakenHashCollides` | src/devpi_guardian/verdicts/sql/005_audit_events.sql:48-54 | a row is refused for a repeated hash only when it collides under the hash function with the row that has it |
| `AuditRuns.RunKeeps` | src/devpi_guardian/audit/writer.py:362-507 | any appends, commits, rollbacks and schema changes keep an accepted log that only grows |
| `AuditRuns.AlwaysAgree` | src/devpi_guardian/audit/writer.py:362-432 | in all of them the cached verification equals a full rescan |
| `StoreEvents.AcceptedIsValid` | src/devpi_guardian/audit/writer.py:71-126 | what the store counts as an acceptable event is exactly what the audit writer accepts once it is written out |
| `AuditFormat.RenderedExactly` | src/devpi_guardian/verdicts/store.py:304-363 | the stored record names the action, both decisions, the artifact, the time, and who and why when given |
| `StoreEvents.StoreAppends` | src/devpi_guardian/verdicts/store.py:337-363 | whatever connections did before, a transaction of the store goes through exactly when the writer appends the row of its event, and while the log can take that row only unfit text is refused |
| `DiscoveryQueue.SelectFirst` | src/devpi_guardian/worker/discovery.py:523-543 | ORDER BY ... LIMIT gives the first rows in order |
| `DiscoveryQueue.Queue.DiscoverMany` | src/devpi_guardian/worker/discovery.py:490-519 | all new candidates are queued, or none exactly when there is no room for them |
| `DiscoveryQueue.QueuedActive` | src/devpi_guardian/worker/discovery.py:497-519 | the counter of active jobs stays right |
| `QueueEffects.CapacityHolds` | src/devpi_guardian/worker/discovery.py:490-519 | what is queued never takes the queue over its capacity |
| `QueueEffects.QueuedExactly` | src/devpi_guardian/worker/discovery.py:490-519 | a job never seen is pending, untried and available at once; a known one is as it was |
| `DiscoveryQueue.Queue.Scrub` | src/devpi_guardian/worker/discovery.py:521-565 | fails the corrupt rows among the next 32 after the cursor and moves the cursor |
| `DiscoveryQueue.Queue.ClaimNext` | src/devpi_guardian/worker/discovery.py:613-683 | one scrub batch from the cursor, then the claim loop over the first ready rows, or a refusal that changes nothing |
| `QueueEffects.ClaimExactly` | src/devpi_guardian/worker/discovery.py:613-683 | the claimed row was the first of all that wait, and has one more attempt and the lease; nothing else of it changes, and other rows only fail as corrupt |
| `QueueEffects.TriedExactly` | src/devpi_guardian/worker/discovery.py:613-769 | over a run, the k-th claim of a job that is always retried counts k attempts, and the job fails at the maximum and is available again after the delay before that |
| `DiscoveryQueue.Queue.RecoverExpiredClaims` | src/devpi_guardian/worker/discovery.py:567-611 | corrupt leased rows fail, expired ones are queued again, and the changed ones are counted |
| `QueueEffects.RecoveredExactly` | src/devpi_guardian/worker/discovery.py:567-611 | a corrupt leased row fails, one whose lease has run out waits again at once, no other row changes |
| `QueueEffects.HoldsExactly` | src/devpi_guardian/worker/discovery.py:691-710 | a claim can be answered exactly while its row holds that very lease and it has not run out |
| `DiscoveryQueue.Queue.Finish` | src/devpi_guardian/worker/discovery.py:691-723 | only the holder of the live lease settles a job |
| `DiscoveryQueue.Queue.Retry` | src/devpi_guardian/worker/discovery.py:725-769 | queued again after the delay, or failed once the attempts are used up |
| `QueueProgress.ClaimIsSound` | src/devpi_guardian/worker/discovery.py:636-683 | a claim is on a ready intact row, and no other intact row changes |
| `QueueProgress.ClaimProgress` | src/devpi_guardian/worker/discovery.py:636-683 | while a valid job is ready, a call claims or fails at least 32 corrupt rows |
| `QueueProgress.ClaimComesThrough` | src/devpi_guardian/worker/discovery.py:613-683 | so with k corrupt rows a claim comes after at most k / 32 empty calls |
| `QueueProgress.CallScrubs` | src/devpi_guardian/worker/discovery.py:521-565 | each call reads the next batch above the cursor |
| `QueueProgress.ScrubberReachesAll` | src/devpi_guardian/worker/discovery.py:521-565 | of the batches a moving cursor selects, twice their number plus one include every row that stays pending, from any cursor |
| `QueueProgress.CallValidates` | src/devpi_guardian/worker/discovery.py:545-561 | a row that was read and is still pending is intact |
| `QueueProgress.ScrubberValidatesAll` | src/devpi_guardian/worker/discovery.py:521-565 | with n rows pending, every row that stays pending is read by some call and found intact within 2 * ceiling(n / 32) + 1 successive calls, while no row is added |
| `Consumer.RunOnce` | src/devpi_guardian/worker/discovery_consumer.py:123-174 | one cycle is the claim of the queue, one attempt to discover, and the settlement its outcome calls for |
| `Consumer.Deliver` | src/devpi_guardian/worker/discovery_consumer.py:128-158 | which exceptions fail a job and which retry it |
| `Consumer.Finish` | src/devpi_guardian/worker/discovery_consumer.py:158-174 | completes, fails or retries, and leaves a job whose lease was lost alone |
| `ConsumerRuns.AttemptExactly` | src/devpi_guardian/worker/discovery_consumer.py:123-174 | an attempt succeeds exactly for an acceptable release that the store can take now, and is given up exactly for a malformed link, a refusal by the quarantine or a release the store will not have |
| `ConsumerRuns.CycleSettles` | src/devpi_guardian/worker/discovery_consumer.py:123-174 | what a whole cycle makes of its job, column by column: a job survives a store that is unavailable until its last attempt |
| `ConsumerRuns.CompletedIsMapped` | src/devpi_guardian/worker/discovery_consumer.py:123-174 | after any run a completed job has its artifact and release mapping in the store, for good |
| `ConsumerRuns.LostLeaseIsHarmless` | src/devpi_guardian/worker/discovery_consumer.py:144-174 | a job that runs again after its discovery adds nothing, whatever happened since |
| `ConsumerRuns.RunKeeps` | src/devpi_guardian/worker/discovery_consumer.py:123-174 | no job vanishes, finished jobs stay finished, the store stays sound |
| `ConsumerRace.GoodJobCanBeLostExactly` | src/devpi_guardian/worker/discovery_consumer.py:123-174 | a job for good bytes, its lease held to the end, can be failed in some run of the quarantine if and only if its digest does not have exactly one link when it begins, or has its bytes checked |
| `ConsumerRace.LostForGood` | src/devpi_guardian/worker/discovery_consumer.py:156-159 | and a failed job stays failed in every later run |
| `HandOver.OnlyDiscoveryAdds` | src/devpi_guardian/verdicts/store.py:492-510 | no other operation adds an artifact |
| `HandOver.RunKeeps` | src/devpi_guardian/worker/discovery_consumer.py:128-157 | publishers, readers, crashes and store operations keep every artifact backed by its bytes |
| `HandOver.ArtifactsAreBacked` | src/devpi_guardian/worker/upload.py:69-99 | in every reachable state each artifact row has its digest bound to bytes of that hash and size, and its discovery events equal its release mappings |
| `Policy.Assess` | src/devpi_guardian/policy/engine.py:286-345 | accepts exactly the valid reports and returns the decision, score and reasons of the order-free definition |
| `Policy.OrderAndRepetitionIrrelevant` | src/devpi_guardian/policy/engine.py:286-345 | permuting or repeating evidence and steps changes nothing |
| `Policy.ValidityIgnoresOrder` | src/devpi_guardian/policy/engine.py:381-608 | and neither does it change validity, within the size limits |
| `Policy.EvidenceNeverLowers` | src/devpi_guardian/policy/engine.py:286-345 | more evidence never lowers decision or score |
| `Policy.EscalationNeverLowers` | src/devpi_guardian/policy/engine.py:364-372 | a further rule escalation never lowers decision or score |
| `Policy.AllowExactly` | src/devpi_guardian/policy/engine.py:286-345 | ALLOW exactly without evidence, error steps and coverage gaps; DENY exactly with denying evidence; DENY scores 100, REVIEW at least 50 |
| `PolicyVerdict.DecisionExactly` | src/devpi_guardian/policy/engine.py:286-372 | DENY exactly when some finding denies by itself or its rule is escalated to DENY, ALLOW exactly without any finding or gap |
| `PolicyVerdict.ScoreExactly` | src/devpi_guardian/policy/engine.py:286-345 | the score is the greatest of the configured scores that apply, each tier with its own |
| `PolicyVerdict.ReasonsExactly` | src/devpi_guardian/policy/engine.py:286-345 | the reasons are exactly those of the findings, the failed steps and the gaps |
| `PolicyVerdict.TakenExactly` | src/devpi_guardian/policy/engine.py:381-608 | a report is taken exactly when its steps, baseline and evidence are consistent |
| `Base64Url.RoundTrip` | src/devpi_guardian/analyzers/install_surface.py:764-786 | decoding an encoding gives the bytes back (section 5 of RFC 4648) |
| `Base64Url.CanonicalExactly` | src/devpi_guardian/analyzers/install_surface.py:764-786 | a spelling re-encodes to itself exactly when it is the encoding of some bytes |
| `Base64Url.EncodeExactly` | src/devpi_guardian/analyzers/install_surface.py:780-786 | an encoding spells the bits of the bytes six at a time, with zero bits at the end |
| `Base64Url.LeftoverBitsRefused` | src/devpi_guardian/analyzers/install_surface.py:764-786 | the decoder ignores leftover bits; only the spelling without them is canonical |
| `WheelRecord.HashSpecExactly` | src/devpi_guardian/analyzers/install_surface.py:764-786 | a hash is accepted exactly as the canonical encoding of a digest of the right length |
| `WheelRecord.OneSpelling` | src/devpi_guardian/analyzers/install_surface.py:764-786 | two accepted spellings of one digest are equal |
| `WheelRecord.RecordPathIdempotent` | src/devpi_guardian/analyzers/install_surface.py:737-753 | a normalised path is normal |
| `WheelRecord.ReadRows` | src/devpi_guardian/analyzers/install_surface.py:818-861 | exactly the rows with wrong columns, unsafe paths or repeated paths are reported, and the first good row of each path counts |
| `WheelRecord.WheelRecordFindings` | src/devpi_guardian/analyzers/install_surface.py:797-921 | exactly the faults are reported: no RECORD, several, one that cannot be parsed, or every fault of its rows, of the files and of its word about them |
| `WheelRecord.SoundExactly` | src/devpi_guardian/analyzers/install_surface.py:797-921 | there is no fault exactly when the RECORD describes the extracted wheel |
| `RecordTrust.SoundExactly` | src/devpi_guardian/analyzers/install_surface.py:846-921 | a RECORD without faults vouches for every extracted file but its signatures: a row with the digest of its bytes, and its size if given |
| `RecordTrust.SameRecordSameFiles` | src/devpi_guardian/analyzers/install_surface.py:846-921 | two wheels accepted with the same RECORD have the same files with the same digests and the same given sizes |
| `RecordTrust.ColumnExactly` | src/devpi_guardian/analyzers/install_surface.py:764-786 | a digest column is accepted exactly as name, equals sign and the encoding of a digest of the right length |
| `RecordTrust.RecordExactly` | src/devpi_guardian/analyzers/install_surface.py:800-805 | the RECORD is the file of that name in a directory that ends in .dist-info |
| `ArchivePaths.SafeExactly` | src/devpi_guardian/analyzers/archive.py:99-143 | a member name is accepted exactly when it is relative, names something, never goes up and has only portable components; and then it means these components |
| `ArchiveClearance.AcceptedExactly` | src/devpi_guardian/analyzers/archive.py:99-143 | a member name is accepted exactly when it is relative, names something, and every piece between its slashes is portable, character by character |
| `ArchiveClearance.WhyExactly` | src/devpi_guardian/analyzers/archive.py:99-143 | a refused name is refused for a reason that is true of it |
| `ArchivePaths.StaysInside` | src/devpi_guardian/analyzers/archive.py:137-143 | following an accepted name from any directory leads below it, so the final check of the destination never fails |
| `ArchivePaths.Idempotent` | src/devpi_guardian/analyzers/archive.py:99-143 | the stored path of an accepted name is accepted as itself |
| `Preflight.PathTypeConflict` | src/devpi_guardian/analyzers/archive.py:155-172 | finds exactly the repeated paths and the files above or below another path |
| `Preflight.Preflight` | src/devpi_guardian/analyzers/archive.py:186-343 | no findings exactly when the archive is cleared, and then its members are kept in order; otherwise exactly the members that are unsafe or clash with one kept before, up to the first broken bound |
| `ArchiveClearance.ClearedExactly` | src/devpi_guardian/analyzers/archive.py:175-343 | an archive is cleared exactly when every member is a plain file or folder under a portable name, the bounds hold after every member and no two members meet |
| `ArchiveClearance.DefectNamed` | src/devpi_guardian/analyzers/archive.py:206-237 | what is said to be wrong with a member is what is wrong with it |
| `Preflight.TreeIgnoresOrder` | src/devpi_guardian/analyzers/archive.py:155-172 | the tree condition does not depend on the order of the members |
| `Preflight.TarBoundsAtEnd` | src/devpi_guardian/analyzers/archive.py:267-343 | for a tar the bounds at the end are the bounds at every prefix |
| `Preflight.TarIgnoresOrder` | src/devpi_guardian/analyzers/archive.py:267-343 | for a tar the whole verdict does not depend on order |
| `Preflight.ZipOrderMatters` | src/devpi_guardian/analyzers/archive.py:186-264 | for a zip it does |
| `Extraction.CopyLimited` | src/devpi_guardian/analyzers/archive.py:346-357 | never writes more than the header promised, and succeeds exactly when the data has that size |
| `Extraction.ExtractAll` | src/devpi_guardian/analyzers/archive.py:360-388 | the loop over the members succeeds exactly when none obstructs another and all data has its promised size, leaves exactly the members and their folders, and never writes more than was promised |
| `Extraction.PutAllExactly` | src/devpi_guardian/analyzers/archive.py:360-388 | members can be put in place in their order exactly when no two of them obstruct each other, and every file then is its own |
| `Extraction.ClearedIsPlaceable` | src/devpi_guardian/analyzers/archive.py:146-172 | members with cleared headers never obstruct each other, on any file system that tells apart at least what the collision keys tell apart |
| `Extraction.TreeExactly` | src/devpi_guardian/analyzers/archive.py:146-172 | on the file system that tells apart exactly that, the collision test refuses exactly what could not be extracted, and folders named twice |
| `Extraction.Unpack` | src/devpi_guardian/analyzers/archive.py:400-463 | nothing is written unless every header is cleared; then at most 10^9 bytes are, and extraction succeeds exactly for data of the promised sizes |
| `PercentCoding.Utf8Injective` | src/devpi_guardian/enforcement/resolve.py:168-177 | UTF-8 is injective |
| `PercentCoding.Utf8Octets` | src/devpi_guardian/enforcement/resolve.py:168-177 | the encoding has as many octets as the character widths add up to |
| `PercentCoding.UnquoteQuote` | src/devpi_guardian/enforcement/resolve.py:168-177 | percent-decoding undoes quoting (section 2.1 of RFC 3986) |
| `RawForms.QuoteCharExactly` | src/devpi_guardian/enforcement/resolve.py:168-189 | quoting leaves the path characters of RFC 3986 alone and writes every octet of the shortest UTF-8 of others as two hexadecimal digits |
| `RawTarget.GuardedIsCanonical` | src/devpi_guardian/enforcement/resolve.py:192-232 | a protected path is its own canonical form with valid segments |
| `RawForms.OpenExactly` | src/devpi_guardian/enforcement/resolve.py:192-207 | a path is let through unchecked exactly when it carries no marker, not even behind empty components |
| `RawForms.GuardedExactly` | src/devpi_guardian/enforcement/resolve.py:192-220 | a path is protected as a file exactly when it is the one spelling of that file with valid names |
| `RawForms.AcceptedExactly` | src/devpi_guardian/enforcement/resolve.py:117-189 | exactly three spellings of a protected path are accepted |
| `RawForms.ScriptNameExactly` | src/devpi_guardian/enforcement/resolve.py:101-114 | a script name is empty or a slash and a valid path |
| `RawTarget.RawPathsAreUnambiguous` | src/devpi_guardian/enforcement/resolve.py:117-165 | accepts exactly when a raw form is present and each one present is an accepted form |
| `RawTarget.MarkerReplaced` | src/devpi_guardian/enforcement/resolve.py:180-189 | the single replacement hits the route marker |
| `RawTarget.AcceptedDecodes` | src/devpi_guardian/enforcement/resolve.py:117-189 | every accepted raw target decodes to script name plus canonical path |
| `RawTarget.OneRawOnePath` | src/devpi_guardian/enforcement/resolve.py:117-189 | one raw target is accepted for at most one path |
| `Baseline.EligibleCandidates` | src/devpi_guardian/baseline/selection.py:204-233 | exactly the eligible releases |
| `Baseline.SelectBaseline` | src/devpi_guardian/baseline/selection.py:258-281 | the best of the first tier that has any |
| `Baseline.SelectsExactly` | src/devpi_guardian/baseline/selection.py:160-281 | the tiered search finds the best comparable release of all: same tag before universal wheel before source distribution, then the newest, then by name; nothing only when nothing is comparable |
| `Baseline.OrderIrrelevant` | src/devpi_guardian/baseline/selection.py:204-281 | digest, tier and version do not depend on order or repetition |
| `Baseline.ChoiceIsSound` | src/devpi_guardian/baseline/selection.py:160-281 | strictly older, same project, no eligible candidate in an earlier tier, none newer in its own |

## Left out

- SQLite itself: connections, locking, migrations, triggers, schema checks and the re-reads after each write; a
  transaction is one step, an id never overflows, and columns hold values of their types.
- Typed inputs: wrong Python types, naive datetimes and the normalisation of project names and origin URLs before
  they reach the store; `AuditChain` keeps the text rules that can fail later.
- Redaction of diagnostics: an arbitrary function with bounded, control-free output.
- `Calendar.TextIsInteger`: times elsewhere are integers; the lemma is the bridge, applied once and not at every comparison.
- `AuditChain.SameHeadSameLog`: SHA-256 is an arbitrary function, so the statement names the collision instead of excluding it.
- `AuditWriter.Writer.VerifiedPrefix`: whether the schema meets the contract of the audit table is given with the schema.
- `QuarantineSafety.StepKeeps`: file modes, owners, the length of the waiting window, fsync and power loss, and
  processes on values rather than descriptor objects with their close-retry handling.
- `Gates.FilterLinks`: whether the discovery queue takes what is put up is a given answer; `DiscoveryQueue.Queue.DiscoverMany`
  says when it does.
- `Pipeline.RunOnce`: preparing and analysing an artifact is a given function of the claim; closing streams is not modelled.
- Taint through loops, loop `else`, `try`, `match` and comprehensions, which the analyzer itself approximates in one
  pass; which nodes are credential reads or network calls is given.
- `DiscoveryQueue.Queue.ClaimNext`: whether a row passes the row check is one flag of the row, set by corruption;
  error texts and update times of jobs are not kept, and claims are those the queue handed out.
- `Consumer.RunOnce`: resolving a link is a given function of the job, and fetching the bytes has one of three
  outcomes; `HandOver` has the quarantine side.
- `Policy.Assess`: the report size limit, the file difference, text checks and the policy version digest.
- `WheelRecord.WheelRecordFindings`: CSV parsing, hash algorithms and their sizes are given functions, I/O errors are left out,
  and a row that is wrong about both size and digest is one fault.
- `Preflight.Preflight`: case folding and Unicode composition are given functions; executable bits are not kept.
- `Extraction.Unpack`: the destination starts empty and holds no symbolic links, I/O errors are left out, and so is the
  extraction filter that newer Python versions use for tar files.
- `RawTarget.RawPathsAreUnambiguous`: Unicode categories of unusual characters are a given predicate; the checks against the file
  store after the path is classified are left out.
- `Baseline.SelectBaseline`: version, project name and wheel tag parsing are given functions.
- Web views, command line, metrics, logging, plugin wiring and demo tools.
