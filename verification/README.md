# Hermes MCP bridge: a model of its state and its promises

This project states, and proves in Dafny 4.11, what the bridge server keeps
while calls, processes, cancellations and crashes interleave. Each module
follows one source file; `Bridge`, `SubmitOnce` and `KeyedSubmit` put the
approval gate, the two registries and the submission path together.

Where the source updates an object in place the model is a class whose methods
are proved equal to a function from old state to new state; the promises are
lemmas about that function and about whole runs of it. SHA-256 and HMAC are
abstract injective functions, JSON text is an abstract injective key into text,
times are integer clock readings, and a `BEGIN IMMEDIATE` transaction is one
atomic step.

| module | what it covers |
|---|---|
| `Approvals`, `Gate` | the approvals table as transactions; the handoff for one prompt request |
| `RunRegistry` | the mapping from client request id to upstream run, and run fingerprints |
| `Bridge` | any number of calls in any number of processes, step by step |
| `SubmitOnce` | one client request id in one process: what holds, and what exactly breaks it |
| `KeyedSubmit` | `hermes_submit` past admission as code, its shielded cancellation included, and that the steps are that code |
| `Replays` | what the same request gets when it is made again |
| `BridgeSteps` | what each step leads to: who passes without approval, and what a submission answers |
| `Migrations` | concurrent migrators at their real commit points, killed anywhere |
| `SecretRotation`, `RotationFaults` | rotation, restore, rollback; exactly when a failure or a rollback leaves nothing behind |
| `EnvFile` | the line editor and the reader |
| `RotationPlans`, `PlanProof` | rotation plan tokens and the encoding they bind |
| `Locks` | the lock table |
| `CanonicalJson`, `ReasonToken` | the canonical form for comparing results; the reason sanitiser |
| `Signing`, `Provenance` | key windows, signatures, result manifests |
| `Lifecycle` | the in-flight registry and the drain |
| `Sorting`, `Texts`, `Wrappers` | Python's `sorted`, `strip`, `splitlines` and number text |

Main results, hardest first:

- Over every interleaving of calls, processes, cancellations, kills and foreign
  registry writes, one approval admits at most one call afresh and so creates at
  most one upstream run; that admission follows an approving response and
  precedes expiry; every repeat admission rests on a mapping of its own run
  fingerprint and creates nothing (`Bridge`).
- For one client request id in one process, at most one submission returns a
  run, its mapping is stored before the key lock is free, and later results
  agree with it, as long as no mapping write is lost. The condition is exact: a
  lost or abandoned write, and only that, leaves a returned run unrecorded with
  the lock free, and from there a second run can be made (`SubmitOnce`).
  `hermes_submit` shields its write against one cancellation; `hermes_prompt`
  does not (server.py:628), and a write that fails for any other reason than a
  registry error is only reported as a warning (server.py:365-374).
- The ledger of the migrator is always exactly {1..k}, and any call that returns
  leaves the schema of one sequential run (`Migrations`).
- Two float-free values have the same canonical form exactly when they are equal
  up to reordering at every depth, and normalising twice is normalising once
  (`CanonicalJson`).
- Secret rotation, exactly. A completed rotation has rewritten every existing target and
  kept each original in its backup if and only if no target is named like the backup of
  an existing target before it. A failing rotation leaves every file there was as it was,
  and adds none but backups, if and only if preparing would be refused or no existing
  target that the rotation changes has its backup listed as a later target; and under
  that last condition, and only then, a completed rotation is undone by its rollback, and
  the rollback can be cut short and made again. What goes wrong otherwise: the backup is
  rewritten too, and comparing the texts finds nothing to restore
  (`SecretRotation.CompletedRotationExact`, `RotationFaults.FailedRotationExact`,
  `RotationFaults.RotateThenRollBackExact`, `RotationFaults.RotationRetriesExact`).
- Rotation plan tokens are single use and last 120 seconds whatever is registered and
  whatever is offered; what an accepted offer must have in common with the plan is
  stated for offers with and without newlines. A plain plan can be mistaken for another
  exactly if it has a path or a digest, and, among plans whose key is one line as the
  rotated names are, exactly if it has two or more (`RotationPlans`, `PlanProof`).
- A call passes without approval only if the policy waved it through, and an upstream run
  of a call under approval follows an approving response; an undisturbed submission
  answers with its own recorded run (`BridgeSteps`).
- A rotation plan token that is still listed and was never accepted is accepted for its
  own plan up to the 120th second (`RotationPlans.GoodOffersAreAccepted`); any live
  migrator can always finish (`Migrations.NeverStuck`).
- After a freshly admitted call has ended with a run, the same request made again gets
  that run, and creates none, exactly until its approval expires (`Replays`).

Where the code and its documentation part, the model follows the code:

- The migrator takes its write lock as if to serialise migrators, but
  `executescript` commits and the ledger insert commits by itself, so the lock
  is dropped between migrations and migrators interleave.
- `READ_SHARED` requests skip the compatibility check, and the check comes before
  lapsed rows are reaped: a reader may join a writer, and a lapsed row still
  refuses (`Locks.ReaderJoinsWriter`, `Locks.LapsedRowBlocks`).
- A refused consumption of a lapsed approval still commits the expiry.
- After an approval has expired, even a repeat of its own recorded execution is
  blocked (`Gate.HandoffCompletes`).
- The identifier pattern ends in `$`, which admits one trailing line feed.
- "Fresh signatures always verify" holds at any later time, not at an earlier
  instant (`Signing.EarlierVerificationMayFail`).

## Model

| member | source | states |
|---|---|---|
| `Bridge.OneFreshAdmission` | src/hermes_mcp_bridge/prompt_approvals.py:140-319 | over any run of any callers, two calls admitted afresh under one approval id are the same call |
| `Bridge.OneRunPerApproval` | src/hermes_mcp_bridge/server.py:450-525 | two upstream runs created by gated calls of one approval id are the same run |
| `Bridge.FreshIsAuthorised` | src/hermes_mcp_bridge/approvals.py:233-331 | a fresh admission is an accepted consumption after an accepted APPROVED response, before expiry, on a record of this request's action and fingerprint |
| `Bridge.IdempotentCreatesNothing` | src/hermes_mcp_bridge/prompt_approvals.py:126-137 | a repeat admission has, at every later moment, a mapping of its own fingerprint, makes no run, and ends with the recorded execution |
| `Bridge.IdempotentFindsTheRun` | src/hermes_mcp_bridge/prompt_approvals.py:281-307 | with injective hashes, a repeat under another call's approval fingerprint finds a mapping of that call's run fingerprint |
| `Bridge.StepKeepsInv` | src/hermes_mcp_bridge/server.py:283-343 | every step of every call, and every foreign write, keeps: admissions are grounded, operations admit once, runs belong to distinct admitted calls |
| `Bridge.GateStepsAreGate` | src/hermes_mcp_bridge/prompt_approvals.py:140-319 | uninterrupted, the gate's separate transactions leave the table and the verdict of the gate method |
| `BridgeSteps.DecidesExact` | src/hermes_mcp_bridge/server.py:283-343 | a blank prompt fails; a labelled call under REQUIRE_APPROVAL goes to the gate; otherwise a call passes iff it is unlabelled or allowed, and is refused if not |
| `BridgeSteps.UngatedIsWaved` | src/hermes_mcp_bridge/server.py:304-329 | over any run a call that passed without approval has no trust label, or the policy did not require approval and allowed it |
| `BridgeSteps.ApprovalPrecedesRun` | src/hermes_mcp_bridge/server.py:466-480 | an upstream run of a call that the policy put under approval has an accepted approving response before it, consumed before expiry on a record of its own fingerprint |
| `BridgeSteps.ArrivesExact` | src/hermes_mcp_bridge/server.py:466-480 | a call arrives under the name of its tool, for `hermes_submit` without a session, and otherwise as given |
| `BridgeSteps.SubmitExact` | src/hermes_mcp_bridge/server.py:404-525 | which answer `hermes_submit` gives (the recorded execution, mismatch, failure, its own run, cancelled), when it creates a run and what it then records |
| `BridgeSteps.SubmittedAnswers` | src/hermes_mcp_bridge/server.py:404-525 | the steps of an admitted call with its lock free end with that answer, create that many runs and hold no lock |
| `BridgeSteps.SubmittedIsRecorded` | src/hermes_mcp_bridge/server.py:426-442 | an answered first submission is on record under its fingerprint and its own execution when a write succeeds |
| `BridgeSteps.WritingAnswers` | src/hermes_mcp_bridge/server.py:438-447 | in any reachable state of ordinary calls a call writing its mapping ends with its own run, on record, and one writing again as cancelled |
| `BridgeSteps.CancelsExact` | src/hermes_mcp_bridge/server.py:438-442 | what a cancellation leaves: the write behind it, one more write of `hermes_submit`, or an ended call without its lock |
| `SubmitOnce.OneSubmissionReturns` | src/hermes_mcp_bridge/server.py:404-447 | over any interleaving without lost writes, two returned runs for a client request id in one process are the same |
| `SubmitOnce.StoredBeforeRelease` | src/hermes_mcp_bridge/server.py:490-514 | whenever the key lock is free a returned run is on record with its own fingerprint and execution id |
| `SubmitOnce.ResultsAgree` | src/hermes_mcp_bridge/server.py:490-502 | a call that ends with a run ends with the one that returned, of its own fingerprint; one refused for its fingerprint has another than the recorded run's |
| `SubmitOnce.StepKeepsOnce` | src/hermes_mcp_bridge/server.py:396-447 | every allowed step keeps the lock holder, returned runs, pending writes and mapping consistent |
| `SubmitOnce.OrdinarySubmitsOnce` | src/hermes_mcp_bridge/server.py:404-447 | in terms of events alone: the calls for the id are `hermes_submit` in one process, each cancelled at most once, none killed, their registry writes succeeding, calls for other ids doing anything: at most one submission returns, on record whenever the lock is free |
| `SubmitOnce.GapIsLostWrite` | src/hermes_mcp_bridge/server.py:438-441 | while a mapping is being written, the next step leaves the run unrecorded and the lock free if and only if it loses or lets go of the write |
| `SubmitOnce.GapAllowsSecondRun` | src/hermes_mcp_bridge/server.py:571-639 | from any state with the mapping absent and a lock free, in this or another process, one more call makes another run return for the id |
| `KeyedSubmit.Server.SubmitAndRecord` | src/hermes_mcp_bridge/server.py:404-447 | one submission and its record, cancelled while it writes or not, as the new mappings, the runs created and the result |
| `KeyedSubmit.Server.HermesSubmit` | src/hermes_mcp_bridge/server.py:482-525 | lookup, fingerprint conflict, recovery or submission, as the new mappings, the runs created and the result |
| `KeyedSubmit.SubmitStepsAreSubmit` | src/hermes_mcp_bridge/server.py:404-525 | with the lock free, the steps of an admitted `hermes_submit` call, its shielded write and second write included, end as the method does and hold no lock |
| `Replays.RepeatRecovers` | src/hermes_mcp_bridge/server.py:466-502 | once a fresh call has ended with a run, the same request later ends with that run and creates none if its approval has not expired, and is refused if it has |
| `Replays.RunKeepsBound` | src/hermes_mcp_bridge/prompt_approvals.py:140-319 | in every reachable state the record a call read has only climbed since, and a consumed one is still bound to its request in action, resource and fingerprint |
| `Gate.ResolveRequiredPromptApproval` | src/hermes_mcp_bridge/prompt_approvals.py:140-319 | the registries and the outcome after the gate, for every record, clock and refusal |
| `Gate.GateExact` | src/hermes_mcp_bridge/prompt_approvals.py:140-319 | admits afresh iff the record is bound, unexpired and consumable, admits a repeat iff consumed with its execution on record; what each leaves in the table |
| `Gate.GateBlocks` | src/hermes_mcp_bridge/prompt_approvals.py:209-319 | what an existing record that does not admit the request is blocked as: stale, expired, requested, rejected, consumed or blocked, each iff |
| `Gate.GateLeaves` | src/hermes_mcp_bridge/prompt_approvals.py:230-247 | a bound, lapsed, pending record is left expired and dated, and other refusals of decided records change nothing |
| `Gate.HandoffCompletes` | src/hermes_mcp_bridge/prompt_approvals.py:155-166 | ask, answer, consume, repeat: exactly when each stage succeeds over the whole handoff |
| `Gate.FingerprintBindsRequest` | src/hermes_mcp_bridge/prompt_approvals.py:59-111 | equal approval fingerprints force the same prompt, the same request payload, the same run fingerprint and approval id |
| `Gate.FingerprintExact` | src/hermes_mcp_bridge/prompt_approvals.py:59-106 | two requests share an approval fingerprint iff they agree in every field, absent lists counting as empty |
| `Gate.RunFingerprintExact` | src/hermes_mcp_bridge/registry.py:52-70 | two requests are the same run iff their stripped prompts have the same lines and they agree in session, agent, orchestration, and subagents up to order |
| `Gate.ApprovalIdExact` | src/hermes_mcp_bridge/prompt_approvals.py:109-111 | approvals are told apart by exactly the first 48 digits of the request digest, and their names are valid |
| `Approvals.ApprovalRegistry.Create` | src/hermes_mcp_bridge/approvals.py:112-162 | new table and reply: refused for a bad or taken id, otherwise the row is added |
| `Approvals.ApprovalRegistry.Respond` | src/hermes_mcp_bridge/approvals.py:185-231 | new table and reply of a response, with every refusal |
| `Approvals.ApprovalRegistry.Consume` | src/hermes_mcp_bridge/approvals.py:233-331 | new table and reply of a consumption, with every refusal and the committed expiry |
| `Approvals.ApprovalRegistry.MarkStale` | src/hermes_mcp_bridge/approvals.py:333-369 | new table and reply; terminal rows are left alone |
| `Approvals.ApprovalRegistry.Expire` | src/hermes_mcp_bridge/approvals.py:371-403 | new table and reply; only a pending row expires |
| `Approvals.ConsumeExact` | src/hermes_mcp_bridge/approvals.py:248-331 | consumption succeeds iff approved, unconsumed, unexpired, not future-dated and bound; what it writes; a refusal changes at most a lapsed approval's decision |
| `Approvals.RespondExact` | src/hermes_mcp_bridge/approvals.py:185-231 | a response is accepted iff pending, readable and unexpired; binding kept, a refusal changes nothing |
| `Approvals.RespondRefusals` | src/hermes_mcp_bridge/approvals.py:185-231 | which refusal a response gets, each iff |
| `Approvals.ConsumeRefusals` | src/hermes_mcp_bridge/approvals.py:248-331 | which refusal a consumption gets, each iff |
| `Approvals.CreateExact` | src/hermes_mcp_bridge/approvals.py:112-162 | a record is added iff its id is valid and free, as given; nothing else changes |
| `Approvals.ExpireExact` | src/hermes_mcp_bridge/approvals.py:371-403 | a pending record becomes EXPIRED and dated, any other is returned as it is, nothing else changes |
| `Approvals.MarkStaleExact` | src/hermes_mcp_bridge/approvals.py:333-369 | a record not at the end of its life becomes STALE and dated, any other is returned as it is |
| `Approvals.StepGrows` | src/hermes_mcp_bridge/approvals.py:112-403 | no operation removes a row, changes its binding, or lowers its decision; consumed_at implies CONSUMED |
| `Approvals.RunGrows` | src/hermes_mcp_bridge/approvals.py:112-403 | between any two moments of any run rows only climb, and the top rank is final |
| `Approvals.ConsumedOnce` | src/hermes_mcp_bridge/approvals.py:233-331 | over any run an approval is consumed at most once |
| `Approvals.ConsumptionAuthorised` | src/hermes_mcp_bridge/approvals.py:248-331 | a consumption comes after an accepted approving response and before expiry |
| `RunRegistry.Registry.Record` | src/hermes_mcp_bridge/registry.py:164-221 | new table and reply: conflict, touch of the same fingerprint, or a new row |
| `RunRegistry.Registry.UpdateStatus` | src/hermes_mcp_bridge/registry.py:223-265 | new table and reply; an absent row is not created |
| `RunRegistry.OperationsKeep` | src/hermes_mcp_bridge/registry.py:164-265 | rows never vanish or change fingerprint, and recording never changes an execution id |
| `RunRegistry.RecordExact` | src/hermes_mcp_bridge/registry.py:164-221 | a write is taken iff its id is valid and free or of the same fingerprint; a free id gets all that was written, another only the time |
| `RunRegistry.UpdateExact` | src/hermes_mcp_bridge/registry.py:223-265 | an update stores the status, the time and a given execution, and keeps the rest |
| `RunRegistry.PromptsNormaliseAlike` | src/hermes_mcp_bridge/registry.py:36-37 | prompts normalise alike iff their stripped texts have the same lines |
| `RunRegistry.RunPayloadExact` | src/hermes_mcp_bridge/registry.py:52-70 | the run payload forgets exactly the white space around the prompt, its line boundaries, the order of subagents and the difference between no list and an empty one |
| `Migrations.MigrationsWellShaped` | src/hermes_mcp_bridge/migrations.py:21-203 | the ten migrations are numbered 1..10 and every index comes after its table |
| `Migrations.Database.ApplyMigrations` | src/hermes_mcp_bridge/migrations.py:271-312 | an undisturbed migrator leaves what the sequential specification says |
| `Migrations.RunKeepsInv` | src/hermes_mcp_bridge/migrations.py:280-304 | for any interleaving and any deaths the ledger is {1..k}, every recorded version has fully run and no statement fails |
| `Migrations.IndexHasTable` | src/hermes_mcp_bridge/migrations.py:21-203 | whatever the interleaving, a migrator about to run an index statement has its table in front of it |
| `Migrations.RunKeepsWriter` | src/hermes_mcp_bridge/migrations.py:280-304 | in every reachable state at most one migrator holds the write lock, and it is deciding what to do next |
| `Migrations.NeverStuck` | src/hermes_mcp_bridge/migrations.py:271-312 | from any reachable state any live migrator can return with 10 by its own steps alone, after at most one step of the one holding the write lock |
| `Migrations.ReturnedMeansComplete` | src/hermes_mcp_bridge/migrations.py:271-312 | a call that returns returns 10 and leaves the ledger {1..10} and the schema of a sequential run |
| `Migrations.SequentialCompletes` | src/hermes_mcp_bridge/migrations.py:271-312 | a sequential run completes any database migrators can leave behind |
| `Migrations.CompleteIsFinal` | src/hermes_mcp_bridge/migrations.py:280-304 | once complete, no run of migrators changes anything |
| `SecretRotation.FileSystem.ApplyRotationLocked` | src/hermes_mcp_bridge/secret_rotation.py:505-541 | back up, replace, restore on a fault, where restoring writes may raise too: the files and the manifest left |
| `SecretRotation.FileSystem.RollbackRotation` | src/hermes_mcp_bridge/secret_rotation.py:559-595 | the files left and the paths restored, or the refusal of relative paths, symbolic links and missing backups, or how far it came when a write raised |
| `RotationFaults.FailedRotationExact` | src/hermes_mcp_bridge/secret_rotation.py:505-541 | whichever write raises, before or after its rename, a failing rotation leaves every file there was as it was and adds none but backups, if and only if preparing would be refused or no existing target that the rotation changes has its backup listed as a later target |
| `RotationFaults.FailedRotationChangesNothing` | src/hermes_mcp_bridge/secret_rotation.py:505-541 | the "if" of it, for one fault and one path |
| `RotationFaults.AliasedFailureKeepsNewText` | src/hermes_mcp_bridge/secret_rotation.py:536-541 | the smallest plan and the fault that leave a target rewritten after a failure |
| `RotationFaults.AliasedBackupNameKeepsNewText` | src/hermes_mcp_bridge/secret_rotation.py:536-541 | the same where the target left rewritten is itself named like the backup of an absent target |
| `SecretRotation.CompletedRotationExact` | src/hermes_mcp_bridge/secret_rotation.py:505-541 | a completed rotation rewrote every existing target, kept each original in its aligned backup and touched nothing else iff no target is named like an earlier target's backup |
| `SecretRotation.FaultFreeRotationCompletes` | src/hermes_mcp_bridge/secret_rotation.py:505-541 | absolute, distinct targets with free backup names are always rotated when no write raises |
| `SecretRotation.RollbackUndoesRotation` | src/hermes_mcp_bridge/secret_rotation.py:559-595 | rolling back a right rotation, free of symbolic links, restores every rotated file and touches no other |
| `RotationFaults.RotateThenRollBackExact` | src/hermes_mcp_bridge/secret_rotation.py:505-595 | rolling a completed rotation back with its own manifest is accepted iff none of its paths is a symbolic link, changes nothing if refused, touches only what was rotated, and leaves nothing changed but the backups iff no changed target's backup is a later target |
| `RotationFaults.RotationRetriesExact` | src/hermes_mcp_bridge/secret_rotation.py:580-588 | the rollback of a completed rotation can be cut short by any fault and made again, ending where an undisturbed one does, iff no changed target's backup is a later target or a symbolic link has it refused anyway |
| `RotationFaults.RollbackAcceptsExact` | src/hermes_mcp_bridge/secret_rotation.py:567-579 | a manifest is taken iff its lists pair off, every path and backup is absolute and no link, and every backup is there; refused, nothing changes |
| `RotationFaults.RestoreCutGives` | src/hermes_mcp_bridge/secret_rotation.py:536-541 | however restoring is cut short each listed path holds its text or its backup's |
| `RotationFaults.RollbackRetries` | src/hermes_mcp_bridge/secret_rotation.py:580-588 | the same for any accepted manifest of distinct paths in which no backup is restored before what it restores: iff every restored path that is also a backup already holds its own backup's text |
| `SecretRotation.AliasedBackupIsOverwritten` | src/hermes_mcp_bridge/secret_rotation.py:513-541 | a concrete plan whose second target is the first one's backup completes and loses the original |
| `EnvFile.ReadEnvFile` | src/hermes_mcp_bridge/secret_rotation.py:87-103 | the loop reads, for each key, the last line that sets it |
| `EnvFile.SpacedAssignmentParses` | src/hermes_mcp_bridge/secret_rotation.py:93-99 | a line sets its key with white space before it, before the `=` and around the value, whose outer quotes go |
| `EnvFile.OtherLinesParseToNothing` | src/hermes_mcp_bridge/secret_rotation.py:93-96 | comments, blank lines and lines without a `=` set nothing |
| `EnvFile.FindKeyLineIndex` | src/hermes_mcp_bridge/secret_rotation.py:427-431 | the first line with the prefix, or -1 if there is none |
| `EnvFile.RewriteText` | src/hermes_mcp_bridge/secret_rotation.py:526-535 | the text written: the first matching line replaced or a line appended |
| `EnvFile.RereadGivesNewValue` | src/hermes_mcp_bridge/secret_rotation.py:87-103 | re-reading gives the new value iff it is clean and no later line sets the key, or the last such line sets that value |
| `EnvFile.OtherKeysUnchanged` | src/hermes_mcp_bridge/secret_rotation.py:526-535 | every other key reads as before, for a one-line value |
| `EnvFile.RewriteIdempotent` | src/hermes_mcp_bridge/secret_rotation.py:526-535 | rewriting twice is rewriting once |
| `EnvFile.LaterLineWins` | src/hermes_mcp_bridge/secret_rotation.py:427-431 | a later `K =` line is missed by the editor and read by the reader |
| `PlanProof.HashContent` | src/hermes_mcp_bridge/_rotation_plans.py:55-88 | the loops feed the tagged lines in sorted order |
| `PlanProof.ProofDetermines` | src/hermes_mcp_bridge/_rotation_plans.py:55-88 | for newline-free fields equal proofs force the same plan up to order, the same nonce, time and secret |
| `PlanProof.TailDetermines` | src/hermes_mcp_bridge/_rotation_plans.py:55-88 | for any plans at all, equal proofs by one-line nonces have the same nonce, time, secret, new value, run count and restart flag |
| `PlanProof.NonceDetermines` | src/hermes_mcp_bridge/_rotation_plans.py:55-88 | a newline-free plan is matched by no other nonce, whatever newlines are offered |
| `PlanProof.MistakableExact` | src/hermes_mcp_bridge/_rotation_plans.py:68-76 | a newline-free plan shares its proof with a different plan iff it has a path or a digest |
| `PlanProof.MistakableByKeyExact` | src/hermes_mcp_bridge/_rotation_plans.py:68-76 | a newline-free plan shares its proof with a different plan whose key is one line, as the caller demands, iff it has two or more paths and digests |
| `PlanProof.ProofIgnoresOrder` | src/hermes_mcp_bridge/_rotation_plans.py:55-88 | reordered paths and digests give the same proof |
| `PlanProof.NewlineCollides` | src/hermes_mcp_bridge/_rotation_plans.py:68-76 | any plan with a path or a digest shares its proof with one that hides a line behind a newline in its key |
| `RotationPlans.PlanRegistry.EvictLocked` | src/hermes_mcp_bridge/_rotation_plans.py:105-116 | the while loop terminates and evicts down to the cap in the specified order |
| `RotationPlans.PlanRegistry.RegisterPlan` | src/hermes_mcp_bridge/_rotation_plans.py:119-149 | the registry after purging, inserting and evicting, and the token |
| `RotationPlans.PlanRegistry.VerifyAndConsume` | src/hermes_mcp_bridge/_rotation_plans.py:152-193 | the registry and verdict for missing, consumed, expired, mismatched and matching tokens |
| `RotationPlans.EvictKeepsHighest` | src/hermes_mcp_bridge/_rotation_plans.py:105-116 | at most 64 stay, no more go than must, and nothing removed outranks anything kept |
| `RotationPlans.EvictSparesUnconsumed` | src/hermes_mcp_bridge/_rotation_plans.py:105-116 | no unconsumed entry goes while a consumed one stays, and the oldest go first |
| `RotationPlans.RegisterBounded` | src/hermes_mcp_bridge/_rotation_plans.py:119-149 | after every registration at most 64 entries |
| `RotationPlans.RegisterSparesItself` | src/hermes_mcp_bridge/_rotation_plans.py:119-149 | with clock readings that do not decrease the entry just registered stays |
| `RotationPlans.TokensAreSingleUse` | src/hermes_mcp_bridge/_rotation_plans.py:91-203 | over any run with fresh one-line nonces, whatever is registered and offered, each token succeeds at most once and within 120 seconds of its creation; the offer has its nonce, secret, new value, run count and restart flag if the plan or the offered nonce is newline-free, and its whole plan if both plans are |
| `RotationPlans.VerifyListed` | src/hermes_mcp_bridge/_rotation_plans.py:170-193 | an offer for a listed token is accepted iff the token is not consumed, not past its expiry and is the proof of the offer; each refusal iff; and what each leaves on the list |
| `RotationPlans.VerifyUnlisted` | src/hermes_mcp_bridge/_rotation_plans.py:170-173 | an unlisted token, and only that, is unknown, and changes nothing |
| `RotationPlans.GoodOffersAreAccepted` | src/hermes_mcp_bridge/_rotation_plans.py:119-193 | over any run with fresh nonces, a token still listed and never accepted is accepted for its own plan in any order up to the 120th second |
| `RotationPlans.RegisterExact` | src/hermes_mcp_bridge/_rotation_plans.py:91-149 | registering keeps no expired entry, and every other one while there is room |
| `Locks.LockRegistry.AcquireLock` | src/hermes_mcp_bridge/locks.py:44-96 | the table after a grant, or unchanged after a refusal |
| `Locks.LockRegistry.ReleaseLock` | src/hermes_mcp_bridge/locks.py:98-126 | the table and the row after a release |
| `Locks.IncompatibleExact` | src/hermes_mcp_bridge/locks.py:20-27 | which ordered pairs of lock types refuse each other |
| `Locks.RunKeepsExclusion` | src/hermes_mcp_bridge/locks.py:44-229 | in every reachable table a held write lock excludes other owners' write, intent and approval locks |
| `Locks.GrantExact` | src/hermes_mcp_bridge/locks.py:181-195 | exactly when each kind of request is granted |
| `Locks.GrantReaps` | src/hermes_mcp_bridge/locks.py:197-229 | a grant leaves no lapsed active row and changes other rows only by reaping |
| `Locks.GrantedRow` | src/hermes_mcp_bridge/locks.py:44-96 | the granted row as requested, with the slot's first acquisition, lapsing exactly its time to live after the grant, if it has one |
| `Locks.ReleaseExact` | src/hermes_mcp_bridge/locks.py:98-126 | a released lock is not held and keeps the record of what it was; nothing else changes |
| `Locks.ReleasedKeyIsFree` | src/hermes_mcp_bridge/locks.py:98-126 | once the only active owner of a key has released it, any request by anyone for it is granted |
| `Locks.ReaderJoinsWriter` | src/hermes_mcp_bridge/locks.py:181-195 | a shared read is granted beside a held write lock, not the other way round |
| `Locks.LapsedRowBlocks` | src/hermes_mcp_bridge/locks.py:44-96 | a lapsed row still refuses, because compatibility comes before reaping |
| `CanonicalJson.CanonDecides` | scripts/v2_phase2_direct_read_acceptance.py:380-392 | canonical forms are equal iff the values are equal up to array and key order at every depth |
| `CanonicalJson.NormDecides` | scripts/v2_phase2_direct_read_acceptance.py:348-392 | normal forms are equal iff the values are, once floats are text; for float-free values outright |
| `CanonicalJson.NormIdempotent` | scripts/v2_phase2_direct_read_acceptance.py:348-392 | normalising twice is normalising once |
| `CanonicalJson.CanonSorted` | scripts/v2_phase2_direct_read_acceptance.py:380-392 | keys are in order at every depth of a canonical form |
| `CanonicalJson.FloatCollides` | scripts/v2_phase2_direct_read_acceptance.py:360-361 | a float and its text differ and normalise alike |
| `CanonicalJson.NormalizeForComparison` | scripts/v2_phase2_direct_read_acceptance.py:395-414 | the loop fills exactly the tool's fields, each with its normal form, or refuses an unknown tool |
| `CanonicalJson.ComparisonDecides` | scripts/v2_phase2_direct_read_acceptance.py:395-414 | two results project alike iff every compared field is equal up to the order that field may vary in |
| `ReasonToken.SanitizeReason` | scripts/v2_phase2_direct_read_acceptance.py:256-274 | the rewriting loop terminates and equals collapsing every underscore run |
| `ReasonToken.TokenIsToken` | scripts/v2_phase2_direct_read_acceptance.py:256-274 | always 1 to 64 characters of the vocabulary, no leading, trailing or doubled underscore, letters a prefix of the reason's |
| `ReasonToken.TokenExact` | scripts/v2_phase2_direct_read_acceptance.py:256-274 | the token is the reason's words joined by single underscores, cut to 64 characters, or 63 where the cut would end in an underscore, or UNSPECIFIED without any |
| `ReasonToken.ReplaceThenCollapse` | scripts/v2_phase2_direct_read_acceptance.py:271-272 | one replacement pass does not change what the runs collapse to |
| `ReasonToken.TokenIdempotent` | scripts/v2_phase2_direct_read_acceptance.py:256-274 | sanitising twice is sanitising once |
| `Signing.SigningPosture` | src/hermes_mcp_bridge/signing.py:144-254 | the branches compute the posture: flags and the first complaint |
| `Signing.PreviousKeyWindow` | src/hermes_mcp_bridge/signing.py:144-254 | in strict mode the previous key is accepted never, or exactly in one half-open span of at most seven days |
| `Signing.PostureExact` | src/hermes_mcp_bridge/signing.py:144-254 | strict or not, when the configuration is in error and when the previous key is accepted, awaited, past or accepted without bounds |
| `Signing.SignExact` | src/hermes_mcp_bridge/signing.py:268-283 | signing fails iff the configuration is not in order, is unsigned without a current key, and otherwise that key's mark with its identifier |
| `Signing.FreshSignatureVerifies` | src/hermes_mcp_bridge/signing.py:268-330 | a fresh signature verifies at every instant, earlier or later, but those before the deadline of a strict previous key that has no identifier; so at every later one |
| `Signing.EarlierVerificationMayFail` | src/hermes_mcp_bridge/signing.py:286-330 | a concrete configuration that refuses its own signature at an earlier instant |
| `Signing.OldSignatureVerifiesInWindow` | src/hermes_mcp_bridge/signing.py:286-330 | after a handover an old signature verifies exactly inside the window |
| `Signing.VerifyExact` | src/hermes_mcp_bridge/signing.py:286-330 | an accepted signature is the current key's, or the active previous key's, and nothing else |
| `Provenance.ManifestVerifiesExactly` | src/hermes_mcp_bridge/provenance.py:58-115 | a built manifest with other content put in verifies iff the content is the same up to key order |
| `Provenance.BuiltManifestVerifies` | src/hermes_mcp_bridge/provenance.py:58-115 | a just-built manifest verifies, signed or unsigned |
| `Provenance.SignatureBindsContent` | src/hermes_mcp_bridge/provenance.py:97-115 | a signed manifest's signature never vouches for different content, whatever digest is written |
| `Provenance.UnsignedExact` | src/hermes_mcp_bridge/provenance.py:109-114 | an unsigned manifest verifies iff its digest is right and it carries no signature |
| `Provenance.SignedStaysSigned` | src/hermes_mcp_bridge/provenance.py:109-115 | a signed manifest passed off as unsigned never verifies |
| `Provenance.BuildExact` | src/hermes_mcp_bridge/provenance.py:58-94 | a manifest is built iff the configuration is in order, of its content, digest and current key's signature |
| `Provenance.PayloadExact` | src/hermes_mcp_bridge/provenance.py:32-55 | payloads are equal iff all eight fields are equal up to key order |
| `Lifecycle.CountsMatchExactly` | src/hermes_mcp_bridge/lifecycle.py:50-78 | the table always has admitted minus completed entries iff no key is used again before the callback of its task has run |
| `Lifecycle.ListedExactly` | src/hermes_mcp_bridge/lifecycle.py:50-78 | starting a task keeps every running task in the table, whatever finishes and calls back afterwards, iff its key is not that of a task whose callback has not run |
| `Lifecycle.RunningAreListed` | src/hermes_mcp_bridge/lifecycle.py:50-78 | with fresh keys every task still running is in the table under its key |
| `Lifecycle.ReusedKeyLosesTask` | src/hermes_mcp_bridge/lifecycle.py:50-61 | a key used again too early always has a continuation that drops a running task from the table |
| `Lifecycle.DrainInFlight` | src/hermes_mcp_bridge/lifecycle.py:81-125 | over the events of any run the drain ends at the first moment each window allows, interrupts and cancels what is then live, reports what it last sees, and with fresh keys reports no manual restart iff every task ever admitted is done |
| `Lifecycle.LiveExact` | src/hermes_mcp_bridge/lifecycle.py:63-64 | with fresh keys what the drain finds live, interrupts and cancels is exactly what was started and is not done |
| `Lifecycle.NoneLiveMeansAllDone` | src/hermes_mcp_bridge/lifecycle.py:63-78 | with fresh keys nothing is live iff every admitted task is done |

## Left out

- SQLite: WAL, busy timeouts, I/O failures inside a transaction; each transaction is one atomic step, each autocommitted statement its own.
- `reset_migrations` and the WAL switch of `apply_migrations`.
- `hermes_stop`: `SubmitOnce` excludes a status update with another execution id for the key it speaks of; `Bridge` admits it.
- The policy rules: the decision is any of its possible answers, and may differ between its two evaluations.
- `client.submit_prompt`: one call creates at most one run; its retries, the circuit and the network are not part of this model.
- `hermes_prompt` with a recorded run: reading and awaiting it upstream is one step that ends the call with the recorded execution.
- Several processes for one client request id: the key lock is per process, so `SubmitOnce` speaks of one process and `GapAllowsSecondRun` shows what a second one can do.
- A second cancellation while `hermes_submit` writes its mapping again, a killed call, a failed write: excluded from `SubmitOnce` by name, with `GapIsLostWrite` showing that exactly these matter.
- Hash, MAC and JSON text internals: injective functions; UTF-8 failures are not modelled.
- FailedRotationExact: takes restoring writes to succeed, as `FailedRotationChangesNothing` does; `ApplyUnder` says what is left when one raises, and `ApplyUnderFine` that the two agree when none does.
- Files of a rotation: text as it is read; CRLF, bytes, modes, fsync, `flock`, the active-run and restart checks, systemd and /proc are left out. Links matter to the rollback's refusal only.
- Line breaks are the ones `str.splitlines` knows and whitespace what `str.strip` removes; upper-casing a reason is a parameter.
- TokenIdempotent: assumes upper-casing leaves tokens alone, which is all it needs of `str.upper`.
- Plan creation times are whole microseconds, so the rounding of `created_at:.6f` does not arise.
- Values that are not JSON (tuples, objects, keys that are not text) in the comparison; the field sets of the tools are a parameter.
- FreshSignatureVerifies: a key in the environment is taken as absent or non-empty and the minimum length as positive, as `read_secret` and `min_secret_length` give them.
- Telemetry, logging, health and readiness, `live_keys` order, the waited seconds of the drain, and the metadata of approval rows.
- ISO-8601 parsing: an expiry or stamp is absent, unreadable, zoneless or a time.
- Quotas, sagas, checkpoints, plan storage, the capability manifest, the agent card and the gate scripts: they would only add easy members.
