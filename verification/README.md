# Verification of the FounderOS local core

A Dafny model of the parts of FounderOS whose guarantees span several functions,
with proofs of those guarantees:

- the backup pipeline: retention, the encrypted container, the raw-storage
  inventory and its archive, and the way of a bundle from its producer through
  export and materialization back to its verifier
  (`Retention`, `Quota`, `SealedFile`, `Inventory`, `BackupPipeline`,
  `AcceptedBundles`);
- the decision protocol for action proposals with its append-only event log,
  client keys and bulk endpoints (`Decisions`, `DecisionRuns`);
- the AI credential check that reads, probes and writes back in three separate
  steps while settings change (`AiSettings`, `AiProvenance`);
- one-time account setup tokens under row locks, and their garbage collector
  (`SetupTokens`);
- the managed block of `.env.local` and bootstrapping twice
  (`Lines`, `ManagedBlock`, `LocalEnv`), and the vault migration
  (`VaultMigration`);
- stopping a recorded runtime in a world where processes die and process ids
  are reused (`Shutdown`);
- the briefing-to-proposal generator (`Briefings`) and the two message codes
  (`Slug`).

`Text`, `Ordering` and `Options` hold what the others share. Code that changes
state is a class or a method with loops, proved against a function of its inputs
or of the old state; what the source promises is then proved about that
function. Ciphers, digests, serializers, the dotenv line parser, the operating
system and other people's transactions are arbitrary functions or steps, so
every theorem holds for all of them. `dafny verify dfyconfig.toml` checks the
whole project.

## Where a natural expectation fails

Each of these has a theorem that states exactly when the expectation holds, and a case in
which it does not.

- Repeating a decision after the proposal was executed does not return the
  original result: the memory ledger raises an uncaught `ValueError`, which in a
  bulk request rolls back the whole batch (`DecisionRuns.RepeatedCommand`,
  `DecisionRuns.RepeatAfterExecution`).
- The AI check clamps the output budget of its probe, so a budget above 600 is
  handed out without having been probed (`AiSettings.RuntimeWasProbed`,
  `AiSettings.BudgetNotProbed`).
- A decrypt that fails because its destination exists, or because its source is
  missing, removes the file that was already at the destination
  (`SealedFile.FailedDecrypt`, `SealedFile.MissingSourceRemoves`).
- The backup producer does not check the size limit its consumer applies to the
  manifest and the receipt (`BackupPipeline.PublishedAccepted`,
  `BackupPipeline.OversizedBundle`).
- A raw-storage tree with hard links is archived in a form the verifier refuses
  (`Inventory.UnchangedSourceVerifies`, `Inventory.HardLinksRefused`).
- Raising the weekly quota can drop a backup (`Retention.WeeklyMonotoneIff`,
  `Retention.WeeklyIsNotMonotone`).
- A development API key with a comma in it makes the list of API keys grow with
  every bootstrap (`LocalEnv.ApiKeysStable`, `LocalEnv.CommaKeyGrows`), and a
  managed value with a Unicode line separator can break the markers
  (`ManagedBlock.StripUpdated`, `LocalEnv.SeparatorBreaksMarkers`).
- Two briefing generations that read before either writes create duplicates
  (`Briefings.OverlapUnique`, `Briefings.TwoClicks`).

## Model

| member | source | states |
|---|---|---|
| Retention.RetainedBackupPaths | scripts/disaster_recovery.py:360-403 | the loop over the sorted list with its three growing sets keeps exactly the set described declaratively by `Run.Kept`, which mentions no order, so input order and repetitions cannot matter; an empty list is answered before a negative count is noticed |
| Retention.GuardsAre | scripts/disaster_recovery.py:390-402 | the three guards of the loop body fire exactly for the newest backup of an in-quota bucket that reaches the tier, repetitions aside |
| Retention.ProgressStep | scripts/disaster_recovery.py:379-402 | one pass of the loop body takes the three sets and the kept names to what the rule has stored one backup later |
| Retention.TierKeepsExactly | scripts/disaster_recovery.py:390-402 | each tier keeps one backup for each of its first `daily`/`weekly`/`monthly` distinct buckets and for no other, as many as the quota allows or as there are buckets |
| Retention.BucketsAre | scripts/disaster_recovery.py:384-388 | two backups share the daily key if and only if they were made in one interval [k * 86400000000, (k+1) * 86400000000) of microseconds, the weekly key if and only if in one seven days from a Monday, the monthly key if and only if the months of their days agree |
| Retention.WindowsAre | scripts/disaster_recovery.py:380-394 | a backup is future-dated, in the daily window or in the weekly window exactly at the stated ages in microseconds, and the quotas of the tiers are the three counts of the policy |
| Retention.DayTierKeeps | scripts/disaster_recovery.py:389-393 | the day tier keeps a backup if and only if it is recent, fewer than `daily` later UTC days hold recent backups, and none of its day is newer, or as new with a greater name |
| Retention.OnePerDay | scripts/disaster_recovery.py:389-393 | so it keeps exactly one backup of each of the newest `daily` UTC days that hold recent backups, and none of any other |
| Retention.AlwaysKept | scripts/disaster_recovery.py:375-383 | the newest backup is unique and kept, and so is every future-dated one |
| Retention.KeptTotal | scripts/disaster_recovery.py:375-402 | at most 1 + future-dated + daily + weekly + monthly backups are kept |
| Retention.PruneStable | scripts/disaster_recovery.py:379-402 | removing any backups that were not kept leaves every verdict unchanged at the same instant |
| Retention.PruneFixpoint | scripts/disaster_recovery.py:337-358 | pruning the survivors again at the same instant removes nothing |
| Retention.MonthlyMonotone | scripts/disaster_recovery.py:386-402 | raising only the monthly quota never drops a backup kept before |
| Retention.WeeklyMonotoneIff | scripts/disaster_recovery.py:386-402 | raising only the weekly quota drops no backup if and only if every backup the month tier kept and the wider window takes away is the newest of all or kept by the week tier instead |
| Retention.WeeklyMonotoneOutsideGap | scripts/disaster_recovery.py:394-399 | so nothing is lost when no backup that falls through to the month tier is young enough for the wider window |
| Retention.WeeklyIsNotMonotone | scripts/disaster_recovery.py:394-402 | a case that does lose one: backups of 31 January and 1 February 1970, where raising the weekly quota from 0 to 1 drops the older |
| Retention.OffsiteTarget.Prune | scripts/disaster_recovery.py:337-358 | the counts reported, the artifacts left after an applied run, and an untouched target after a dry run or a refused policy |
| Quota.GreedyStep | scripts/disaster_recovery.py:390-402 | a greedy newest-first pass bounded by `len(tier) < quota` decides each bucket as "among the quota newest buckets" does |
| Quota.QuotaStable | scripts/disaster_recovery.py:390-402 | dropping buckets outside the quota changes no remaining verdict |
| SealedFile.Disk.EncryptFile | scripts/disaster_recovery.py:597-619 | whatever the chunk size, the file is magic, nonce, one-shot ciphertext and tag, and no other file changes; with a missing source, or a partial file in the way, nothing changes |
| SealedFile.Disk.DecryptFile | scripts/disaster_recovery.py:622-670 | the chunked reader, which never feeds tag bytes to the cipher, has the outcome and leaves the files of the one-shot description |
| SealedFile.OpenSeal | scripts/disaster_recovery.py:597-670 | opening a sealed plaintext gives it back for every key and nonce; the empty plaintext is exactly the one refused as truncated |
| SealedFile.OpensExactlySealings | scripts/disaster_recovery.py:622-670 | the files that open to a nonempty plaintext are exactly its sealings under the same key |
| SealedFile.DecryptsExactlySealings | scripts/disaster_recovery.py:622-670 | a decrypt succeeds if and only if the destination is free and the source is a sealing, under the key, of the nonempty bytes that are then written |
| SealedFile.SealBytes | scripts/disaster_recovery.py:597-619 | byte by byte: the magic, the twelve nonce bytes, each plaintext byte combined with the keystream byte at its offset, and the tag over the latter |
| SealedFile.FailedDecrypt | scripts/disaster_recovery.py:660-670 | a failed decrypt leaves no new file, and leaves all files as they were if and only if the destination was free or the source is a file too short for a container or without the magic; otherwise a file that already was at the destination is removed |
| SealedFile.MissingSourceRemoves | scripts/disaster_recovery.py:622-670 | such a case: a missing source, and the file at the destination is gone |
| SealedFile.RoundTrip | scripts/disaster_recovery.py:597-670 | decrypt after encrypt restores the file on disk for every pair of chunk sizes |
| Inventory.RawInventoryDigest | scripts/local_runtime.py:1245-1256 | the field-by-field digest loop hashes the inventory text of the sorted entries |
| Inventory.LineIs | scripts/local_runtime.py:1245-1256 | the hashed line of an entry, character by character |
| Inventory.TextDeterminesEntries | scripts/local_runtime.py:1245-1256 | the hashed text is uniquely decodable: equal texts come from equal collections of entries |
| Inventory.TextIffEntries | scripts/local_runtime.py:1245-1256 | with NUL-free names and distinct (name, kind) pairs two inventories hash the same text if and only if they hold the same entries, in any order |
| Inventory.VerifyRawStorageArchive | scripts/local_runtime.py:1337-1390 | the member loop accepts exactly the archives whose members are all safe and whose four figures are the expected ones |
| Inventory.FiguresAre | scripts/local_runtime.py:1376-1383 | the figures are the number of file entries, the number of directory entries and the total size of the file entries |
| Inventory.ReadMembers | scripts/local_runtime.py:1346-1373 | a member is read if and only if it is a plain file or directory with a relative name without ".." below `raw_storage`, and the entry holds the rest of its name, its size and its digest |
| Inventory.AcceptsOnlySource | scripts/local_runtime.py:1337-1390 | an accepted archive holds exactly the entries of the scanned source, unless the two inventory texts collide under SHA-256 |
| Inventory.CreateRawStorageArchive | scripts/local_runtime.py:1319-1334 | the archive loop writes the members of the scanned entries, with a hard-link member for an inode already archived |
| Inventory.PackReadsBack | scripts/local_runtime.py:1319-1390 | reading the members back gives the scanned entries, or a refusal exactly if two files share an inode |
| Inventory.UnchangedSourceVerifies | scripts/local_runtime.py:1319-1390 | the archive written from an unchanged source is accepted if and only if no two of its files are hard links of each other |
| Inventory.HardLinksRefused | scripts/local_runtime.py:1319-1390 | such a case: two names of one file |
| BackupPipeline.CreateLocalBackup | scripts/local_runtime.py:1422-1558 | publishes if and only if every step outside the model succeeded and the restore check, the archive check, the comparison of source state and figures before and after, and both metadata read-backs pass; what is published satisfies `Published` |
| BackupPipeline.WrittenChecksumVerifies | scripts/local_runtime.py:799-817 | a checksum line, once written, verifies against the file it was written for |
| BackupPipeline.PublishedAccepted | scripts/disaster_recovery.py:406-497 | the consumer accepts a published bundle, with the digest of its manifest, if and only if manifest and receipt are within `MAX_JSON_BYTES` |
| AcceptedBundles.AcceptedIsIntact | scripts/disaster_recovery.py:406-497 | a bundle is accepted, with a digest, if and only if it is intact, said without any function of the verifier: the seven names, each checksum file naming its artifact and holding the digest of that file, the digest being that of the manifest and the one in the receipt, every receipt flag true, the manifest holding digest and size of the dump and of the raw archive, and the archive having the claimed figures |
| AcceptedBundles.TamperingRefused | scripts/disaster_recovery.py:884-898 | an accepted bundle with its dump, manifest or raw archive replaced by a file of another digest is refused |
| AcceptedBundles.OneFileChanged | scripts/disaster_recovery.py:406-497 | if an accepted bundle with any one file replaced is still accepted, the file is the receipt or a checksum file and the digest is the same, unless two digests collide |
| BackupPipeline.OversizedBundle | scripts/local_runtime.py:1491-1518 | a published bundle that is refused: the row counts of a database with more tables than the limit has bytes |
| BackupPipeline.CreateBundleArchive | scripts/disaster_recovery.py:534-556 | the archive holds one directory and the seven files in sorted order |
| BackupPipeline.ExtractBundleArchive | scripts/disaster_recovery.py:559-594 | accepts exactly the archives of the expected structure and writes their files |
| BackupPipeline.AcceptedArchive | scripts/disaster_recovery.py:559-594 | whatever archive is accepted holds one directory and, for each of the seven names, a file with the contents that are written, and nothing else |
| BackupPipeline.UnpackPack | scripts/disaster_recovery.py:534-594 | extracting a created bundle archive gives back the bundle, file by file |
| BackupPipeline.ExportVerifiedBackup | scripts/disaster_recovery.py:151-234 | an export succeeds exactly for a bundle that verifies and a free name: its own proof of restorability never fails, and the artifact is the sealed archive |
| BackupPipeline.MaterializeOffsiteBackup | scripts/disaster_recovery.py:302-334 | the outcome of opening, unpacking and verifying an artifact, and nothing for a taken output name |
| BackupPipeline.ExportMaterialize | scripts/disaster_recovery.py:151-334 | export followed by materialize gives back the same name and the same seven files, accepted again |
| BackupPipeline.TreeArchiveAccepted | scripts/local_runtime.py:1481-1484 | the archive check of the producer passes if and only if the scanned tree has no hard links |
| BackupPipeline.TreeToRestore | scripts/local_runtime.py:1422-1558 | end to end: a bundle published from an unchanged tree materializes from its export to itself if its metadata fits and to nothing otherwise, verifies with the same manifest digest, and its raw archive reads back exactly the scanned entries |
| BackupPipeline.MaterializedIsVerified | scripts/disaster_recovery.py:302-334 | whatever the artifact, what is materialized verifies, and the artifact is a sealing of its archive under the same key |
| Decisions.Session.DecideActionProposal | app/services/action_proposal_decision_service.py:90-243 | the new tables: unchanged on every refusal, replay and error, and otherwise the decided row plus exactly one fresh event; all error paths come before the first write |
| Decisions.RecordedIff | app/services/action_proposal_decision_service.py:90-198 | a decision is recorded if and only if an admin makes it, no event has its key, the proposal is proposed and at the command's version, a given snapshot is current and lists it at that version, and an approval has evidence and, unless a user wrote the proposal, a snapshot |
| Decisions.OnlyAdminsDecide | app/services/action_proposal_decision_service.py:246-270 | whoever is not an admin is refused, a stranger with "not found" and anyone else with "forbidden", whatever the proposal |
| Decisions.ReplayIs | app/services/action_proposal_decision_service.py:121-153 | with an event under its key an admin gets it back if and only if this very request wrote it and the row still has the decided status with actor and time; an uncaught error comes exactly if the row has the actor but was executed, failed or lacks the time; all else is a conflict |
| Decisions.WhyRefused | app/services/action_proposal_decision_service.py:99-186 | which refusals are "forbidden" and which "not found"; all others are conflicts |
| Decisions.OnlyDecisionsWrite | app/services/action_proposal_decision_service.py:90-243 | a refusal, a replay and an uncaught error leave the tables as they were, and so does every call without the admin role; a recorded decision changes one row and appends one event |
| Decisions.RecordedAs | app/services/action_proposal_decision_service.py:186-243 | which columns a recorded decision writes and which it leaves, and what it puts in the log |
| Decisions.Session.AppendExecutionEvent | app/services/action_execution_audit_service.py:17-77 | an event whose key is known is returned and nothing is added; otherwise the stored event is appended |
| Decisions.KeysSurviveStorage | app/services/action_execution_audit_service.py:157-177 | trimming and cutting to 500 characters changes no decision key |
| Decisions.ExecutionKeysSurviveStorage | app/services/action_execution_audit_service.py:134-154 | nor any execution key of an event type within its column |
| Decisions.KeyFamiliesDisjoint | app/services/action_execution_audit_service.py:134-177 | the two key builders never produce the same key |
| Decisions.KeysAgree | app/services/action_execution_audit_service.py:157-177 | two decision keys agree if and only if workspace, proposal and client key do, unless the two digests collide |
| Decisions.ExecutionKeysAgree | app/services/action_execution_audit_service.py:134-154 | and two execution keys if and only if everything that is digested does |
| DecisionRuns.StepKeepsInv | app/services/action_proposal_decision_service.py:105-243 | every step of the protocol keeps rows, events, counts, unique keys and claims consistent and undoes nothing recorded |
| DecisionRuns.RunKeepsInv | app/services/action_proposal_service.py:236-287 | the same over every run; with the older approve and reject functions in it "at most one decision event" still holds |
| DecisionRuns.OneDecisionPerProposal | app/services/action_proposal_decision_service.py:105-243 | from an empty database a proposal has exactly one decision event if and only if it is no longer proposed; the event matches its status and actor, and both actors are never set |
| DecisionRuns.RepeatedCommand | app/services/action_proposal_decision_service.py:121-153 | after any further steps, any command with the same key and request, single or bulk and whatever the white space around its reason, changes nothing, and returns the original event if and only if the row is still approved or rejected |
| DecisionRuns.RepeatAfterExecution | app/services/company_memory_event_service.py:116-132 | the other case is reachable: approve, claim, execute and repeat raises in the memory ledger |
| DecisionRuns.DifferentCommandRefused | app/services/action_proposal_decision_service.py:313-368 | the same key with another decision, snapshot, version or trimmed reason is refused with no change, unless the request digests collide |
| DecisionRuns.OthersUnaffected | app/services/action_proposal_decision_service.py:105-198 | deciding one proposal changes the outcome for no other proposal |
| DecisionRuns.FoldIndependent | app/api/actions.py:263-322 | each item of a batch over distinct proposals gets the outcome a single decision would have had in the starting state |
| DecisionRuns.FoldRows | app/api/actions.py:263-322 | and each proposal ends in the row a single decision would have left |
| DecisionRuns.ClockIrrelevant | app/services/action_proposal_decision_service.py:105-198 | the clock a decision reads changes its outcome in nothing but the times it records |
| DecisionRuns.BulkOrderIrrelevant | app/api/actions.py:263-391 | a batch leaves the same proposals up to decision times in any order of its items and with any clock reading for each item, the same times included if the readings are the same, and is rolled back in one order exactly if it is in the other |
| DecisionRuns.CrashBySomeItem | app/api/actions.py:263-391 | a batch is rolled back exactly if one of its items alone would raise an uncaught error |
| DecisionRuns.BulkDecide | app/api/actions.py:333-391 | the loop without savepoints commits exactly the successes; successes + failures = items |
| AiSettings.WorkspaceAi.Save | app/services/ai_settings_service.py:81-143 | field by field, the saved row is `AfterSave`, and a rejected save changes nothing |
| AiSettings.WorkspaceAi.RemoveCredential | app/services/ai_settings_service.py:147-167 | removal clears key, switch, acknowledgement and check and moves the version on |
| AiSettings.WorkspaceAi.WriteCheck | app/services/ai_settings_service.py:225-265 | a check result is written only if the version it read is still current |
| AiSettings.SaveBumpsVersion | app/services/ai_settings_service.py:106-143 | every save is a new version, and one that changes a vouched-for field leaves no check behind |
| AiSettings.SaveIs | app/services/ai_settings_service.py:81-143 | a save is accepted if and only if model, effort and budget are supported and an enabled assistant is acknowledged and has a key; the row then holds the input, the current policy if acknowledged, and the typed key or else the stored one |
| AiSettings.RuntimeIff | app/services/ai_settings_service.py:268-320 | a runtime configuration is handed out if and only if the server and the row switch the assistant on, the current policy is acknowledged, the key is readable, the check passed and the fields are supported |
| AiSettings.WarningIs | app/services/ai_settings_service.py:268-325 | which warning is given: the one of the first condition that is not met |
| AiSettings.CheckBegins | app/services/ai_settings_service.py:184-206 | a check starts if and only if the row has a readable key, the current policy acknowledged and supported fields, and it takes these and the version with it |
| AiSettings.CheckEnds | app/services/ai_settings_service.py:222-265 | a check writes to the row exactly if its version is the one that was read, and passes it exactly if the provider answered |
| AiSettings.StepKeepsInv | app/services/ai_settings_service.py:184-265 | every step keeps each passed check backed by a successful probe of exactly the stored fields |
| AiSettings.RuntimeWasProbed | app/services/ai_settings_service.py:268-320 | over every interleaving of saves, removals, deployments and checks, a runtime configuration handed out was probed successfully with its key, model, effort and policy version; some such probe had its output budget if and only if that is at most 600 |
| AiProvenance.RuntimeFromLastSave | app/services/ai_settings_service.py:81-320 | over every interleaving, when one is handed out the last change of the settings is a save that enabled the assistant, acknowledged the policy that is current and gave exactly this model, effort and budget; the key is the one typed in the last save that gave one, with no removal since |
| AiProvenance.DisabledIsOff | app/services/ai_settings_service.py:278-282 | after a last save that disabled the assistant nothing is handed out, whatever check is stored |
| AiSettings.BudgetNotProbed | app/services/ai_settings_service.py:214-222 | a run that hands out a budget of 1200 though the only probe had 600 |
| AiSettings.ProbesComeFromChecks | app/services/ai_settings_service.py:195-228 | every recorded probe is a provider call that answered, made by a check in flight with the fields that check had read |
| SetupTokens.AuthTables.CreateAccountSetupToken | app/services/account_setup_service.py:49-82 | refused exactly for a missing, inactive or already equipped user; otherwise the new token is the only unconsumed one of the user |
| SetupTokens.AuthTables.CompleteAccountSetupToken | app/services/account_setup_service.py:85-121 | the answer and both tables after one uninterrupted completion |
| SetupTokens.AcceptedExactly | app/services/account_setup_service.py:93-120 | a completion is accepted if and only if the token is there, unconsumed and unexpired and its user is there, active and without a password; it then sets that password and consumes that token and changes nothing else |
| SetupTokens.OnlyActive | app/services/account_setup_service.py:58-120 | also in a schedule nothing is accepted for an account that is inactive or has a password, and no creation starts for one |
| SetupTokens.AuthTables.CleanupExpiredAuthArtifacts | app/services/auth_artifact_cleanup_service.py:50-54 | exactly the unexpired tokens stay, unchanged, and no completion at this or any later time has another answer or another effect on accounts than before the deletion |
| SetupTokens.StepSafe | app/services/account_setup_service.py:85-121 | under the row locks every step keeps running completions valid and overwrites no password and no consumption mark |
| SetupTokens.StepKeepsHistory | app/services/account_setup_service.py:85-121 | every step keeps: an accepted token is consumed, its user has the password it set, and no token or user is accepted twice |
| SetupTokens.SetsFirstPassword | app/services/account_setup_service.py:102-120 | when a completion sets a password the account is active and had none, and it is the one the completion was given |
| SetupTokens.SetupOnce | app/services/account_setup_service.py:58-121 | over every schedule, also with overlapping creations, new and reactivated accounts and password changes by users, each token is accepted at most once, setup sets the password of each user at most once, and it stays until that user changes it |
| SetupTokens.TwoLiveTokens | app/services/account_setup_service.py:58-82 | such schedules do leave two live tokens of one user: neither creation sees the token of the other |
| SetupTokens.EndsAtomically | app/services/account_setup_service.py:85-121 | the step that ends a completion has the answer and effect of the whole completion done at that point with the time it read |
| SetupTokens.CompletionRuns | app/services/account_setup_service.py:85-121 | where nothing else holds its locks a completion that is due can run, and its three steps do what the whole of it does |
| SetupTokens.RefusalRuns | app/services/account_setup_service.py:93-115 | one that is not due ends at the token or at the user with nothing changed |
| SetupTokens.CreationRuns | app/services/account_setup_service.py:58-82 | the three steps of a creation consume the older unconsumed tokens of the user and insert the new one, and change nothing else |
| SetupTokens.CollectedStep | app/services/auth_artifact_cleanup_service.py:50-54 | with expired, unlocked tokens left in the table the same steps are possible with the same effect |
| SetupTokens.CleanupUnobservable | app/services/auth_artifact_cleanup_service.py:31-60 | removing every cleanup from a schedule leaves an executable schedule in a related state |
| SetupTokens.SameAnswers | app/services/auth_artifact_cleanup_service.py:31-60 | and it has the same completion results and the same accounts |
| ManagedBlock.StripManagedBlock | scripts/bootstrap_local_workspace.py:212-226 | the line loop with `skipping` leaves the lines outside the markers, right-stripped, and refuses malformed markers |
| ManagedBlock.BlockRemoved | scripts/bootstrap_local_workspace.py:192-226 | exactly the lines from the start marker to the end marker disappear |
| ManagedBlock.BlockFound | scripts/bootstrap_local_workspace.py:192-209 | every text with well-formed markers has the shape `BlockRemoved` speaks of |
| ManagedBlock.RenderManagedBlock | scripts/bootstrap_local_workspace.py:175-189 | renders all settings, or refuses exactly if one of them does not survive its round trip through the parser |
| ManagedBlock.UnescapeEscape | scripts/bootstrap_local_workspace.py:178-183 | a reader that follows section 7 of RFC 8259 gets every value back from its written form |
| ManagedBlock.UpdateEnvLocalText | scripts/bootstrap_local_workspace.py:229-232 | which refusal comes first, and the new text otherwise |
| ManagedBlock.StrippedShape | scripts/bootstrap_local_workspace.py:212-226 | what stripping leaves holds no marker, only newline breaks and no trailing white space |
| ManagedBlock.StripUpdated | scripts/bootstrap_local_workspace.py:212-232 | strip(update(t, v)) = strip(t) for every text with valid markers; the updated markers are valid if and only if no line of a managed value is itself a marker |
| Lines.PlainLines | scripts/bootstrap_local_workspace.py:192-226 | where newline is the only break, `splitlines` is splitting at newlines |
| LocalEnv.MergeCsv | scripts/bootstrap_local_workspace.py:81-90 | the loop with `out` and `seen` computes the ordered, stripped, repetition-free merge |
| LocalEnv.CollectClean | scripts/bootstrap_local_workspace.py:81-90 | merging keeps the listed items and their order, adds each new one once, and adds nothing exactly if all are blank or listed |
| LocalEnv.CollectMembers | scripts/bootstrap_local_workspace.py:81-90 | a merge holds what was listed and the stripped values that are not blank |
| LocalEnv.ApiKeysStable | scripts/bootstrap_local_workspace.py:93-106 | merging the API keys a second time changes nothing if and only if the development key does not break at commas into keys that are not listed |
| LocalEnv.CommaKeyGrows | scripts/bootstrap_local_workspace.py:93-106 | a development key for which it does change |
| LocalEnv.PlainInner | scripts/bootstrap_local_workspace.py:175-189 | values without line breaks beyond the control characters never put a marker into the block |
| LocalEnv.SeparatorBreaksMarkers | scripts/bootstrap_local_workspace.py:175-209 | a storage directory with U+2028 around the end marker survives its round trip and yet leaves a text with malformed markers |
| LocalEnv.StableBinds | scripts/bootstrap_local_workspace.py:180-188 | a line accepted by the round-trip check binds its setting |
| LocalEnv.ManagedWin | scripts/bootstrap_local_workspace.py:175-232 | the managed settings read back from the updated text whatever the user text binds |
| LocalEnv.BootstrapWrites | scripts/bootstrap_local_workspace.py:93-153 | what each of the twelve keys reads back as from the text a bootstrap writes, in terms of the text before, the exported variables, the paths and the drawn tokens |
| LocalEnv.EncryptionKeyIs | scripts/bootstrap_local_workspace.py:107-135 | the precedence of the five sources of the encryption key, and the two conflicts that are exactly the reasons to stop |
| LocalEnv.StoredKeyKept | scripts/bootstrap_local_workspace.py:107-135 | a stored encryption key is kept or the bootstrap stops; it is never replaced |
| LocalEnv.SecondBootstrap | scripts/bootstrap_local_workspace.py:327-345 | with unchanged exported variables a second bootstrap leaves the text byte-identical if and only if no line of a managed value is a marker and the development key does not break into further API keys |
| VaultMigration.ConflictPath | scripts/bootstrap_local_workspace.py:255-263 | the search ends on every finite vault with the first candidate name no file has |
| VaultMigration.CandidatesDiffer | scripts/bootstrap_local_workspace.py:255-263 | no two counters give the same candidate |
| VaultMigration.CandidateIs | scripts/bootstrap_local_workspace.py:255-263 | for a name with a suffix, which is what follows the last dot if there is something before and behind it, the candidate is the stem, the mark and the time, from the second on a counter, and the suffix |
| VaultMigration.PlanVaultMigration | scripts/bootstrap_local_workspace.py:266-320 | the log, and the vault, after the copy loop: each entry is right for the vault at its turn, and a dry run changes nothing |
| VaultMigration.NeverAlters | scripts/bootstrap_local_workspace.py:298-320 | no file in the vault is altered at any point of the run |
| VaultMigration.EveryFileLands | scripts/bootstrap_local_workspace.py:298-320 | every source's content ends at its target or at a fresh conflict name, also when that name is a later source's target |
| VaultMigration.PlacesDiffer | scripts/bootstrap_local_workspace.py:298-320 | no two files are written to the same name |
| VaultMigration.NothingElseAppears | scripts/bootstrap_local_workspace.py:298-320 | nothing appears in the vault but what the log names |
| VaultMigration.ExactlyOneList | scripts/bootstrap_local_workspace.py:298-320 | each source is in exactly one of the three lists |
| VaultMigration.SecondRunCopiesNothing | scripts/bootstrap_local_workspace.py:298-320 | migrating the same files again copies nothing to a target and skips exactly the files that were not conflicts |
| Shutdown.Matches | scripts/local_runtime.py:1722-1751 | an ownership check succeeds only after command, directory and start signature of the pid were all seen to match, and fails on an observation that contradicts them |
| Shutdown.RecordedChildrenAlive | scripts/local_runtime.py:1794-1802 | each listed child was seen alive and each other one with a positive pid was seen to be gone |
| Shutdown.RuntimeIsQuiescent | scripts/local_runtime.py:1805-1806 | true only after both children were seen dead and then both ports free |
| Shutdown.SignalVerifiedOrphanGroup | scripts/local_runtime.py:1809-1817 | signals a verified child only right after it was seen to lead its own group; success means signaled or gone |
| Shutdown.SignalChildren | scripts/local_runtime.py:1835-1843 | a group is signaled only after all children later in the list were signaled or gone; a failure ends with the observation that refutes one child, with the later ones handled and the earlier ones not tried |
| Shutdown.AwaitQuiet | scripts/local_runtime.py:1845-1856 | polls until the deadline, which the clock reaches after at most one period more than the timeout has; removes the record right after a quiet observation and never otherwise |
| Shutdown.ReconcileDeadSupervisor | scripts/local_runtime.py:1820-1856 | no group is signaled before every recorded child passed its check or was seen gone; each ending has its evidence: a live child that was refuted and no signal at all, a checked child that could not be signaled, the deadline reached or the record removed with every child signaled or gone |
| Shutdown.AwaitSupervisor | scripts/local_runtime.py:1889-1904 | children are only signaled after the supervisor was seen to be gone, and the whole wait exceeds the timeout by at most one period |
| Shutdown.StopRecordedRuntime | scripts/local_runtime.py:1859-1904 | the same for the whole call in every world: what was seen of the supervisor decides whether it is left alone as gone, refused, or signaled at once after the three looks that identify it; each ending carries its evidence, a refusal being the record of another root or a look that contradicts the identity, and giving up a clock reading at or after the deadline |
| Shutdown.SignaledSupervisor | scripts/local_runtime.py:1722-1730 | a process is signaled only if the record is of this root and, at three moments of this call, the pid had a command with `scripts/start_local.py`, the root as directory and the recorded start signature |
| Shutdown.SignaledGroup | scripts/local_runtime.py:1733-1751 | a group is signaled only just after its leader was seen to lead it, and only if it is the recorded backend or frontend, seen with its own markers, directory and nonempty recorded signature |
| Shutdown.RemovedRecord | scripts/local_runtime.py:1845-1852 | when the record is removed, both ports were free and before that each recorded child was gone, in the last two to four looks |
| Shutdown.WaitedFor | scripts/local_runtime.py:1846-1852 | a stop sleeps only when one of its last two looks found the supervisor, a child or a port still in use |
| Shutdown.RefusedChild | scripts/local_runtime.py:1828-1834 | a refusal to signal children names a live child that has no recorded signature or was just seen with another command, directory or signature |
| Shutdown.OneProcess | scripts/local_runtime.py:1722-1751 | assuming that no process born during the call has the recorded start signature, the three separate observations of a successful check saw one process, which had the pid when the call began |
| Slug.SafeReasonCode | scripts/report_ignored_file_cleanup_plan.py:323-330 | the replace-until-stable loop ends, with the words between underscores joined by single ones |
| Slug.CodesAgree | app/api/actions.py:1065-1070 | the audit code of a message is the same code, cut to 120 characters, away from its special case |
| Slug.SecretLikeCode | app/api/actions.py:1065-1070 | the special case, for every message about a secret-like key |
| Slug.CodeOfCode | scripts/report_ignored_file_cleanup_plan.py:323-330 | a code is its own code |
| Briefings.ExistingOpenItemKeys | app/services/briefing_action_proposal_service.py:135-165 | the scan collects exactly the keys taken by open internal to-do proposals, by payload or by item id |
| Briefings.OpenKeysAre | app/services/briefing_action_proposal_service.py:135-165 | a key is taken if and only if some internal to-do that is neither rejected nor failed names it for this briefing in its payload, or does not and is linked to the last item of that key |
| Briefings.LinkTakesKey | app/services/briefing_action_proposal_service.py:159-164 | so an open to-do without payload texts takes the key of the item it is linked to, and no proposal is due for that key |
| Briefings.Workspace.GenerateActionProposals | app/services/briefing_action_proposal_service.py:69-132 | the outcome, and the proposal table after it; a validation error rolls the table back |
| Briefings.CreatedPlusSkipped | app/services/briefing_action_proposal_service.py:96-127 | created + skipped is the number of actionable items |
| Briefings.SkipsAre | app/services/briefing_action_proposal_service.py:96-104 | skipped for missing evidence are exactly the actionable items without any, and because of an open action exactly those with evidence that are not the first of a free key |
| Briefings.GeneratedRows | app/services/briefing_action_proposal_service.py:106-124 | the rows before stay, and each created item adds an open internal to-do with the briefing, its key and its id |
| Briefings.GeneratesDue | app/services/briefing_action_proposal_service.py:96-127 | exactly the first evidence-backed actionable item of each key not taken is created, and the call fails exactly if one of these is not acceptable |
| Briefings.SecondGenerationCreatesNothing | app/services/briefing_action_proposal_service.py:69-132 | generating again from the same briefing creates nothing |
| Briefings.OneOpenPerItem | app/services/briefing_action_proposal_service.py:69-165 | over every run of generations, status changes and other proposals at most one generated proposal per briefing item is open |
| Briefings.WantedIsCreated | app/services/briefing_action_proposal_service.py:96-127 | a generation creates a proposal for exactly the keys that have an evidence-backed actionable item and no open proposal |
| Briefings.OverlapUnique | app/services/briefing_action_proposal_service.py:86-127 | two generations that read the same table before either writes keep open proposals unique if and only if they are of different briefings or no key is wanted in both |
| Briefings.StaleReadsDuplicate | app/services/briefing_action_proposal_service.py:86-127 | of one briefing they do so exactly if the key of every evidence-backed actionable item is taken already |
| Briefings.TwoClicks | app/services/briefing_action_proposal_service.py:86-127 | an input for which they do not: one Jira item with evidence and an empty table |

## Left out

- HTTP routes, read models, cookies, logging, printed messages and file permissions.
- SQLAlchemy and PostgreSQL: tables are maps or sequences; a service call is one atomic step, except that setup-token operations and AI checks are split at their locks and transactions.
- Decisions.Session.DecideActionProposal: the memory ledger is modelled only by the status check that can raise, and evidence and headquarters results are taken not to depend on other proposals of the same uncommitted batch.
- DecisionRuns.BulkOrderIrrelevant: is about batches whose proposals are distinct and whose decision keys do not collide; the order of the log entries does depend on the order of the items.
- DecisionRuns.RunKeepsInv: the older approve and reject functions, which no endpoint calls, read the row without a lock; here each is one step, so a race between them and another decision, which could leave both actors set, is not among the runs.
- DecisionRuns.DifferentCommandRefused: assumes that the two request digests do not collide; Decisions.KeysAgree, AcceptedBundles.OneFileChanged and Inventory.AcceptsOnlySource assume the same of the texts or files they compare.
- Retention.RetainedBackupPaths: the calendar month is an arbitrary non-decreasing function of the day, and an artifact is identified by its file name because all of them lie in one directory; pruning at different instants is not compared.
- SealedFile.Disk.EncryptFile: the cipher is an arbitrary keystream and tag function, the nonce is a parameter, and a failing write is not modelled.
- SealedFile.Disk.DecryptFile: the decryptor's file appears on the disk map when the last chunk is written.
- BackupPipeline.CreateLocalBackup: whether the port, settings, database, tool, credential, dump, listing, version, restore, archiving and scan steps succeed is an input, as are the dump, the restore proof and the two scans.
- BackupPipeline.OversizedBundle: of JSON text it is assumed that it reads back and that every table of a manifest takes at least a byte.
- BackupPipeline.ExtractBundleArchive: a member's path is a directory name and a file name; path normalization, links and size limits of the tar library are not modelled. Receipts and locks of the off-device directory are not modelled either.
- Inventory.CreateRawStorageArchive: the comparison of file status before and after reading is not modelled; the source is a fixed tree.
- AiSettings.RuntimeWasProbed: decryption either gives back the sealed text or is unavailable; case folding of the effort is ASCII.
- SetupTokens.SetupOnce: token hashes never repeat, and a cleanup reads the clock at the moment it takes effect; a creation's consumption of older tokens is visible when it happens instead of when the creation commits, and creations do not abort; a password change checks and writes in one step.
- LocalEnv.ManagedWin: the dotenv parser works line by line, with blank lines and comments binding nothing; quoted values that span lines, the interpolation of `${NAME}`, and a later key without a value, which removes an earlier binding, are not modelled.
- LocalEnv.SecondBootstrap: the default storage directory may differ between the runs; the exported variables are the same.
- VaultMigration.PlanVaultMigration: the vault is a map of files; directories standing in the way of a file, and old-vault files that change during the run, are not modelled.
- Shutdown.StopRecordedRuntime: a process may still exit, and its pid be reused, between the last observation and the signal; the model shows what was observed before it.
- Slug.SafeReasonCode: case folding and `isalnum` are arbitrary functions of a character.
- Briefings.OpenKeysAre: item ids are distinct, as primary keys are.
- Briefings.GeneratesDue: whether a drafted proposal is valid is a property of its item.
- Titles, descriptions and related entities of generated proposals, the validation of LLM responses, the counts of the path classification and the tallies of the credential check are not modelled.
- GitHub execution, login throttling and founder invites appear at most as steps that change a status.
