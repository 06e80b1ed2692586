# Brain control plane: verified model

Brain (`cmd/brain`) deploys a project's app as a container, runs workflows, keeps their logs and
configuration, and removes what is no longer current. It is one process over one serialised SQLite
connection and a container runtime that it only reaches through calls that may fail. This project
models that core in Dafny and proves what it keeps, over every input, run and crash.

- **Deployment engine** (`Tables`, `Containers`, `Engine`, `EngineSteps`, `EngineQueue`, `WorkQueue`,
  `CrashSafety`, `StartUp`, `ProjectStatuses`, `StopDuringDeploy`): tables, containers, job channel, worker
  and start-up as a state machine. Every transaction and every container call is one step; requests,
  cleanups and crashes fall between any two. The pointer to the current deployment, the queue, crash
  safety, the end of start-up and the cached status are properties of all its runs.
- **The same as programs** (`Store`, `Runtime`, `Worker`, `Reconcile`, `TeardownRetries`, `Cleanup`,
  `RuntimeRemoval`): the transactions statement by statement with their rollbacks, the container calls over a script of
  failures and with a record of what was asked for, and the worker, reconciler and cleaner on top of them. `Worker` is
  proved to make only runs of the engine.
- **Workflow runs** (`Workflows`, `WorkflowStore`, `WorkflowWorker`): idempotent creation, queue cap,
  scheduled ticks and the manager, as a second refinement of the queue protocol in `WorkQueue`.
- **Secret scrubbing** (`Redaction`, `Scrubber`, `ScrubAgreement`, `ScrubPairs`, `ScrubOrder`,
  `ScrubBrackets`, `ScrubLists`): what redaction means, the streaming writer that computes it for every split of the input, and exactly
  when the one-line scrubber agrees with it: for two secrets, for a list at every point of its growth, and
  for both orders in which equally long secrets can be sorted.
- **Log streaming** (`LogStream`, `EventClient`, `LogTail`): printer, buffering reader, client parser
  and tailer.
- **Configuration** (`ConfigHistory`, `ConfigTies`, `ConfigStore`, `ConfigPins`, `ContainerEnv`): revisions as
  a persistent history, what jobs and runs pin, and the environment that containers get.
- **Image references** (`Strings`, `ImageRefs`, `BuiltImages`): normal form, printer and parser.

`ByteStrings` and `Choice` hold what several modules share. `dafny verify dfyconfig.toml` checks
everything.

Conventions: IDs are fresh opaque keys with an order; times are keys with an order, not text; a Go
string that is scanned byte by byte is a sequence of bytes, one that is split at ASCII characters is a
Dafny string; encryption is the promise that what was sealed opens to the same text.

What the proofs brought to light, each stated by a lemma or contract below:

- A stop request that lands during a deploy outlives it: the status stays "stopped" while the new app
  runs. `ProjectStatuses.StatusAfterPromotionIff` says exactly when, `StopDuringDeploy.StoppedButRunning`
  gives the run; in the middle of such a run the cached status is not the derived one
  (`ProjectStatuses.DirectWriteAgreesIff`, `StopDuringDeploy.DirectWriteCanDisagree`).
- The result of `Scrub` can depend on how equally long secrets happen to be sorted: exactly when one cuts
  the other or is confused with its marker (`ScrubOrder.OrderIsIrrelevantIff`, `ScrubOrder.ScrubDependsOnOrder`);
  the streaming writer's
  cannot.
- `RemoveRuntime` clears the rows before it removes the database container, so it can fail with the rows
  cleared, exactly when the database is to be removed (`RuntimeRemoval.NeverHalfDoneIff`,
  `RuntimeRemoval.RemovalHalfDone`); `Cleanup` cannot.
- A canonical digest reference is not always canonical (`ImageRefs.DigestedIsNormalFormIff`,
  `ImageRefs.NotAlwaysNormalForm`).
- A poll may cut a log line in two events (`LogTail.LinesSurviveIff`, `LogTail.OneLineShownAsTwo`), and a line
  that ends in a carriage return loses it on the client's side (`EventClient.RoundTripIff`,
  `EventClient.CarriageReturnIsLost`).
- Two revisions with one time make the next change start from either, and the other change is lost
  (`ConfigHistory.NewRevisionIsLatestIff`, `ConfigTies.SettingIsLost`).

## Model

| member | source | states |
|---|---|---|
| `Engine.PointerAgreesOverRuns` | cmd/brain/worker.go:314-434 | In every reachable state, with cleanups, runtime requests and crashes between any two steps, `current_deployment_id` names the project's only succeeded deployment, it is null exactly when there is none, foreign keys hold and a project has at most one active job |
| `Engine.RunKeepsInv` | cmd/brain/provision.go:44-128 | The engine's invariant (pointer, foreign keys, what the worker knows at each point of Process, running job belongs to the worker) survives every run |
| `Engine.PromotionCommitsIff` | cmd/brain/worker.go:314-357 | The promotion commits if and only if the image has a name and the pointer is still the one that Process read. When it commits, the rows are the old ones with the new deployment under its project, app and image as succeeded, the deployment that was current still there as superseded, the job succeeded and the pointer on the new one, and nothing else changed; otherwise nothing is written, and marking the job failed then leaves pointer, deployments and all other jobs alone |
| `Engine.DeploymentsPersist` | cmd/brain/worker.go:359-416 | Over every run no deployment row disappears or changes its project or app, and none changes its image unless a start-up adopts a running app |
| `Engine.PromotableIff` | cmd/brain/worker.go:397-416 | At the commit, the conditions of the single statements amount to the pointer being unchanged and the image having a name |
| `Engine.FailedPromotionMarksJobOnly` | cmd/brain/worker.go:220-263 | Marking a job failed changes that job's row and the cached status of its project: pointer, deployments, all other jobs and all other projects' rows stay as they are |
| `Tables.CreateKeepsPointer` | cmd/brain/jobs.go:252-332 | Admitting a job keeps the pointer invariant and foreign keys, also for a project it creates |
| `Tables.PromoteKeepsPointer` | cmd/brain/worker.go:314-434 | A promotion that expects the superseded row, or finds none current, makes the new deployment the only succeeded one |
| `Tables.ClearKeepsPointer` | cmd/brain/cleanup.go:378-415 | Clearing a project leaves no succeeded deployment and a null pointer, and the pointers of all other projects right |
| `Tables.NormalizeRepairsPointer` | cmd/brain/reconcile.go:173-196 | Normalising makes one row the only succeeded and current deployment, whatever the rows said before, and changes no other project |
| `EngineQueue.StepRefinesQueue` | cmd/brain/worker.go:60-141 | Every step of the engine is a step of the abstract queue protocol, or leaves the queue alone |
| `EngineQueue.RunRefinesQueue` | cmd/brain/worker.go:60-141 | Every run of the engine is a run of the queue protocol |
| `EngineQueue.NoJobLostNoneRunTwice` | cmd/brain/worker.go:60-141 | Over all interleavings of creates, duplicate enqueues, cleanups, crashes and restarts no job ID reaches Process twice; while Brain is up every queued job is in the channel, with a blocked sender or in the worker's hands; the channel stays within 64 |
| `EngineQueue.TerminalRowsStay` | cmd/brain/worker.go:220-263 | A succeeded or failed job row never changes again |
| `EngineQueue.InterruptedJobFails` | cmd/brain/worker.go:180-195 | A job that a crash leaves running has failed whenever Brain is up again, and nothing else in its row has changed |
| `EngineQueue.PinsStay` | cmd/brain/jobs.go:292-332 | Over every run a job keeps its project and the configuration revision it pinned |
| `EngineQueue.WorkerDrainsQueue` | cmd/brain/worker.go:83-141 | Without further creates and crashes, but with cleanups, runtime requests and status writes at any point: the steps of the worker that change anything and the backlog at the end are at most the backlog at the start, whatever the container calls answer; and when no step of it changes anything any more, every job that was queued has reached Process and no job is queued or running |
| `EngineQueue.WorkIsPossible` | cmd/brain/worker.go:83-141 | While the backlog is not empty some step of the worker changes the state |
| `WorkQueue.RunKeepsInv` | cmd/brain/worker.go:79-92 | The queue protocol never processes an ID twice and never loses a waiting row |
| `WorkQueue.FinishedStays` | cmd/brain/workflow_manager.go:240-260 | In the queue protocol a finished row stays finished and is not processed any more |
| `WorkQueue.WorkTerminates` | cmd/brain/worker.go:83-92 | However the queue's work is interleaved with itself and with deletions, it stops within a measure of the backlog |
| `WorkQueue.WorkProcessesWaiting` | cmd/brain/worker.go:83-92 | When the backlog is empty, every row that waited has been processed or deleted |
| `CrashSafety.DeployIsCrashSafe` | cmd/brain/provision.go:44-128 | From one running app of the current deployment, over every run in which no container call of the project fails and nobody else touches its containers: some app of the project runs at every point, crashes included; when Brain is up and the worker elsewhere, the project has exactly one app container, the running app of the current and only succeeded deployment; no job is left running when the worker holds none |
| `CrashSafety.CleanRunKeepsSafe` | cmd/brain/reconcile.go:42-144 | The picture of the project's containers at each point of deploy and restart survives every such run, between stop and remove and around the commit too |
| `CrashSafety.RestartCanFinish` | cmd/brain/main.go:42-89 | From every crash point of such a run, reconciliation, the status sync of every project, job recovery and start, in this order, can be carried to their end |
| `StartUp.StartUpEnds` | cmd/brain/main.go:42-89 | After every run that ends in a crash or in the middle of start-up: in whatever order start-up goes on and whatever it gives up on, its steps that change anything are at most a computed number; and when none changes anything any more, the worker has been started |
| `CrashSafety.RemoveLeftovers` | cmd/brain/reconcile.go:132-144 | The reconciler's stop and remove calls come to an end with the kept app alone |
| `ProjectStatuses.StatusesAgreeOverRuns` | cmd/brain/project_status.go:37-108 | In every history "deploying" implies an active job; and the cached status equals the derived one after every step, provided runtime start and stop write it only with no active job and a current deployment |
| `ProjectStatuses.ColumnTellsOverRuns` | cmd/brain/project_status.go:46-93 | Over every such history from the empty state the column is "deploying" if and only if a job of the project is queued or running; "failed" if and only if none is, no deployment is current and the job with the greatest creation time and ID has failed; "idle" if and only if the first two hold and that job has not failed or there is none; "stopped" or "running" if and only if no job is queued or running and a deployment is current |
| `ProjectStatuses.DerivedTells` | cmd/brain/project_status.go:77-92 | In every table the derived status is the only one whose meaning in terms of the rows holds |
| `ProjectStatuses.StoppedIsRequested` | cmd/brain/project_runtime.go:249-288 | Over every run a project becomes "stopped" only by a stop request |
| `ProjectStatuses.DirectWriteAgreesIff` | cmd/brain/project_runtime.go:249-288 | The runtime service's direct status write agrees with the derived status if and only if no job is active and a deployment is current |
| `StopDuringDeploy.DirectWriteCanDisagree` | cmd/brain/project_runtime.go:249-288 | A run from the empty state to the middle of a second deploy, where a stop request has stopped the app of the current deployment: all statuses agree there, and after the status write of the request one does not |
| `ProjectStatuses.StatusAfterPromotionIff` | cmd/brain/worker.go:314-357 | After a promotion the cached status is "running" if and only if it was not "stopped" before, and "stopped" if and only if it was |
| `StopDuringDeploy.StoppedButRunning` | cmd/brain/project_runtime.go:249-288 | A run from the empty state to the same point, which then makes the status write of the stop request and the last steps of the deploy: it ends with the status "stopped", no active job, and the promoted app running |
| `ProjectStatuses.SyncAgrees` | cmd/brain/project_status.go:37-44 | Syncing makes cached and derived status equal; syncing twice is syncing once |
| `ProjectStatuses.StatusesAgreeAfterBoot` | cmd/brain/main.go:42-89 | Whatever was written before and wherever a crash fell: when start-up has ended and the worker starts, the cached status of every project is the derived one, and so says in terms of the rows what `ColumnTellsOverRuns` says |
| `Worker.Deployer.Process` | cmd/brain/provision.go:44-128 | Every run of Process, whatever the calls answer, is a run of the engine. It ends ready to commit, with the superseded ID equal to the pointer, only after database, new app, its readiness and the removal of the current app were asked for in this order and each of them succeeded, and then exactly the current app is gone and the new one runs; otherwise it ends failing at the first of them that fails, and a failure up to readiness leaves every app but the new one as it was, a failing removal at most stops the current one; without faults it ends ready to commit |
| `Worker.Deployer.Prepare` | cmd/brain/provision.go:44-91 | The first part of it, up to readiness: it goes on if and only if the image was built and all three operations succeeded |
| `Worker.Deployer.Supersede` | cmd/brain/provision.go:93-128 | The last part: reading the current deployment and removing its app; when that fails the new app is removed again, and of all other apps at most the current one has been stopped |
| `Worker.JobManager.ProcessJob` | cmd/brain/worker.go:94-141 | Every run of processJob is a run of the engine; a job that is not queued changes nothing and calls nothing; otherwise it ends succeeded and current, with the image that was built in its row, the old deployment still there as superseded and everything that the deploy asked for succeeded; or failed with pointer and deployments unchanged and no app but its own lost; without faults and with a named image it is promoted |
| `Worker.JobManager.Conclude` | cmd/brain/worker.go:114-132 | The promotion is made if and only if Process succeeded, the image has a name and the pointer is the superseded ID, and it writes the rows of the promotion; everything else ends in a failed job |
| `Worker.JobManager.Run` | cmd/brain/worker.go:83-92 | The loop over the channel is a run of the engine, and every job of the channel has ended after it |
| `Worker.EnsureAppSteps` | cmd/brain/app.go:74-133 | Whatever container ensureProjectApp leaves behind, two steps of the engine leave the same |
| `Worker.RemoveOldSteps` | cmd/brain/runtime.go:400-420 | Stop-then-remove of the superseded app, complete or not, is one of the engine's outcomes |
| `Worker.UndoSteps` | cmd/brain/provision.go:156-166 | The rollback of the new app, complete or not, is one of the engine's outcomes |
| `Store.BrainStore.FindActiveDeploymentJob` | cmd/brain/jobs.go:334-357 | Finds the oldest queued or running job of the project, if there is one |
| `Store.BrainStore.DeriveProjectStatus` | cmd/brain/project_status.go:46-93 | Computes the status that the rows call for: from a queued or running job, the pointer, the cached status and whether the last job by creation time and ID has failed |
| `Store.BrainStore.SyncProjectStatus` | cmd/brain/project_status.go:37-44 | Writes the derived status into the project's row, and nothing else |
| `Store.BrainStore.CreateQueuedJob` | cmd/brain/jobs.go:252-332 | Admits a job if and only if its project has no active one and its ID is free: the row is queued, pins a latest configuration revision if the project has one, and nothing else changes but its project's row; otherwise it changes nothing and names the active job in the way |
| `Store.BrainStore.MarkJobFailed` | cmd/brain/worker.go:220-263 | Fails a running job of a stored project and syncs that project's status, and touches no deployment, pointer or other row; otherwise it changes nothing |
| `Store.BrainStore.MarkJobSucceeded` | cmd/brain/worker.go:314-357 | The statements of the promotion amount to one transaction: job succeeded, new deployment with project, app and image, the superseded row kept as superseded, all other rows and projects as before and the pointer on the new row; or a complete rollback, exactly when one of the guards fails |
| `Store.BrainStore.ClearProjectRuntimeState` | cmd/brain/cleanup.go:378-415 | Makes every deployment of the project superseded without changing anything else in the rows, nulls the pointer and syncs the status; or rolls back when there is no such project |
| `Store.BrainStore.NormalizeProjectCurrentDeployment` | cmd/brain/reconcile.go:173-196 | Makes an existing row of the project its only succeeded and its current one, and changes nothing else in any deployment or other project; or rolls back |
| `Store.BrainStore.PromoteProjectAppRuntime` | cmd/brain/reconcile.go:198-255 | Adopts a running app: afterwards its row has its project, name and image and is the only succeeded and current one of the project, all other rows keep what they hold; or rolls back |
| `Store.BrainStore.RecoverInterruptedJobs` | cmd/brain/worker.go:180-195 | Fails exactly the running jobs and derives the status of exactly their projects again; with intact foreign keys it cannot stop half-way |
| `Runtime.ContainerRuntime.EnsureProjectApp` | cmd/brain/app.go:74-133 | It comes to what the last of its calls comes to, and makes no call after one that fails; afterwards the app runs, or on failure its container is as before or new and not running |
| `Runtime.ContainerRuntime.WaitForProjectAppReady` | cmd/brain/app.go:135-179 | The app is reported ready if and only if its readiness call succeeds and it is running |
| `Runtime.ContainerRuntime.RemoveProjectApp` | cmd/brain/app.go:217-234 | It comes to what the last of its calls comes to, and makes no call after one that fails; a missing container is a success; a failure leaves the container as it was or stopped |
| `Reconcile.Reconciler.ReconcileProject` | cmd/brain/reconcile.go:42-130 | On success the rows and containers are those of the decision; with no app to keep nothing changes; on failure the rows changed completely or not at all; the kept app keeps running; other projects are untouched |
| `Reconcile.Reconciler.RemoveOtherProjectApps` | cmd/brain/reconcile.go:132-144 | Removes every listed app but the kept one, which stays as it is |
| `Reconcile.KeptDeploymentIs` | cmd/brain/reconcile.go:42-130 | Which app is kept: that of the current deployment if it runs; if not, the project's only running app; none if several run or none does |
| `Reconcile.ReconciliationIsFixpoint` | cmd/brain/reconcile.go:42-144 | What is kept is the project's only container, running, and the only succeeded and current deployment; reconciling again changes neither rows nor containers |
| `Cleanup.ProjectCleaner.Cleanup` | cmd/brain/cleanup.go:72-142 | When a teardown fails no row has changed; on success the project has no container, network, current or succeeded deployment or workflow row; other projects' resources are unchanged. For a stored project it succeeds if and only if the listing succeeded, no teardown failed for good, no pause was cut short and no teardown met more than four retryable failures; in particular for all coming outcomes with at most four single retryable failures behind the listing |
| `Cleanup.ProjectCleaner.RemoveRuntime` | cmd/brain/cleanup.go:144-196 | Outcome, rows, resources and the calls made are those of the removal: apps, routes, rows, then database, data and network, up to the first that fails |
| `RuntimeRemoval.NeverHalfDoneIff` | cmd/brain/cleanup.go:144-196 | For a project with rows to clear: a failing removal leaves the rows alone, whatever the calls answer and in whatever order the apps are listed, if and only if the database is not to be removed |
| `RuntimeRemoval.LateFailure` | cmd/brain/cleanup.go:168-196 | For any resources there are answers under which the removal fails at the database, with the rows cleared |
| `RuntimeRemoval.RemovalHalfDone` | cmd/brain/cleanup.go:144-196 | The program in one such situation: it fails at the database, and the current deployment is no longer current or succeeded |
| `Cleanup.ProjectCleaner.RetryRuntimeTeardown` | cmd/brain/cleanup.go:198-219 | Every attempt but the last met a retryable failure and was followed by its pause; the step comes to the last attempt's result, which is retryable only after five attempts, or to a failure for good because the last pause was cut short; it succeeds on all coming outcomes with at most four single retryable failures; at most 1650 ms of pauses; success means the thing is gone |
| `TeardownRetries.StepEnds` | cmd/brain/cleanup.go:198-219 | Such a step succeeds if and only if none of its attempts failed for good, no pause was cut short and at most four attempts met a retryable failure |
| `TeardownRetries.CleanupRuntimeTeardownRetryDelay` | cmd/brain/cleanup.go:228-238 | The loop computes the doubling delay with its maximum |
| `Cleanup.SecondCleanupChangesNothing` | cmd/brain/cleanup.go:72-142 | A second cleanup changes neither rows nor resources |
| `Cleanup.CleanupIsCompleteAndLocal` | cmd/brain/cleanup.go:378-438 | Cleared rows: nothing of the project is current, succeeded or defined; its deployments keep all but their status; no job and no deployment, workflow, run or token of another project is lost or changed |
| `Workflows.KeyedCreatesAgree` | cmd/brain/workflows.go:278-351 | Over every history all successful creates with one key since the last cleanup returned the same run, exactly one created it, and exactly one row carries the key |
| `Workflows.KnownKeyIsAnswered` | cmd/brain/workflows.go:558-585 | Until a cleanup, a create with a known key returns its run, also when the queue is full or the run has finished |
| `Workflows.QueueBound` | cmd/brain/workflows.go:471-490 | In every reachable state a workflow's active runs are at most the largest cap it ever had |
| `Workflows.CreatesStayWithinCap` | cmd/brain/workflows.go:312-322 | After every history: a create adds no active run when they have reached the present cap, and never takes them beyond it |
| `Workflows.UpsertedCapStays` | cmd/brain/workflows.go:49-122 | Until a workflow is defined again or removed its cap is the one that was asked for, or 64 if that is not positive |
| `Workflows.DefinitionGoesIff` | cmd/brain/workflows.go:190-223 | A definition goes if and only if it is there and no run refers to it; with it go exactly its tokens |
| `Workflows.OverlappingTickNeverRuns` | cmd/brain/workflows.go:353-421 | A tick that finds an active run leaves a skipped row that, over every continuation, is never processed and never changes until a cleanup deletes it; the active runs stay the same |
| `Workflows.PinsStay` | cmd/brain/workflows.go:324-340 | Over every history a run keeps its workflow and the configuration revision it pinned |
| `Workflows.StepRefinesQueue` | cmd/brain/workflow_manager.go:39-111 | Every step of the workflow manager is a step of the queue protocol |
| `Workflows.NoRunLostNoneRunTwice` | cmd/brain/workflow_manager.go:39-111 | No run ID reaches Process twice; while Brain is up no queued run is lost |
| `Workflows.FinishedRunsStay` | cmd/brain/workflow_manager.go:213-260 | The row of a finished run never changes again, whatever happens, until a cleanup deletes it; a deleted run never comes back |
| `Workflows.InterruptedRunFails` | cmd/brain/workflow_manager.go:174-189 | A run that a crash leaves running has failed whenever Brain is up again, and nothing else in its row has changed |
| `Workflows.WorkerDrainsQueue` | cmd/brain/workflow_manager.go:62-111 | Without creates, ticks and crashes, but with cleanups and changes of definitions at any point: the steps of the worker that change anything and the backlog at the end are at most the backlog at the start; and when no step of it changes anything any more, every run that was queued has been processed or deleted and no run is queued or in progress |
| `Workflows.QueuedRunMeansWork` | cmd/brain/workflow_manager.go:62-111 | While a run is queued the manager has a step to make |
| `WorkflowStore.WorkflowRows.CreateQueuedWorkflowRun` | cmd/brain/workflows.go:278-351 | Looks up the key before the cap and answers not found, the run with the key, queue full or created, each exactly when it should, keeping keys unique; a new run is queued under its workflow and key and pins a latest configuration revision if the project has one; nothing else changes |
| `WorkflowStore.WorkflowRows.CreateScheduledWorkflowRun` | cmd/brain/workflows.go:353-421 | Inserts a queued run, with a latest configuration revision pinned, when none is active; else a skipped one |
| `WorkflowStore.WorkflowRows.CountActiveWorkflowRuns` | cmd/brain/workflows.go:471-490 | Counts the queued, preparing and running runs of a workflow |
| `WorkflowStore.WorkflowRows.GetWorkflowRunByIdempotencyKey` | cmd/brain/workflows.go:558-585 | Finds a row with the key if and only if there is one |
| `WorkflowStore.WorkflowRows.DeleteWorkflowDefinition` | cmd/brain/workflows.go:190-223 | Deletes a definition with exactly its tokens if and only if it is there and no run refers to it |
| `WorkflowStore.WorkflowRows.RecoverInterruptedWorkflowRuns` | cmd/brain/workflow_manager.go:174-189 | Fails exactly the preparing and running runs and changes nothing else |
| `WorkflowWorker.WorkflowManager.ProcessRun` | cmd/brain/workflow_manager.go:73-111 | Every run of processRun is a run of the manager; a run that is not queued is not touched; a queued one ends succeeded if and only if Process succeeded, timed out if and only if it timed out, and failed if and only if it failed, with its workflow, key and pin and all other rows as before |
| `WorkflowWorker.WorkflowManager.Run` | cmd/brain/workflow_manager.go:62-71 | After the loop every queued run of the channel has ended in this way, each with its own ending, and no other row has changed |
| `Redaction.RedactionHidesSecretsOnly` | cmd/brain/secret_scrubber.go:78-115 | The text is a row of plain bytes and whole secrets, and the output is the same row with a marker for each secret |
| `Redaction.EveryOccurrenceIsCovered` | cmd/brain/secret_scrubber.go:78-115 | The first byte of every occurrence of a secret lies in a redacted span |
| `Redaction.OnlyOccurrencesAreRedacted` | cmd/brain/secret_scrubber.go:78-115 | A redacted byte belongs to an occurrence of a secret |
| `Redaction.MatchLength` | cmd/brain/secret_scrubber.go:91-96 | The longest secret that the text starts with |
| `Scrubber.NewSecretScrubber` | cmd/brain/secret_scrubber.go:16-39 | Keeps exactly the values of at least four bytes, once each, longest first, with the length of the longest |
| `Scrubber.ScrubbingWriter.Write` | cmd/brain/secret_scrubber.go:62-72 | Keeps the writer on the way to the one-shot redaction; what it holds back is shorter than some secret |
| `Scrubber.ScrubbingWriter.Flush` | cmd/brain/secret_scrubber.go:74-76 | The sink has exactly the one-shot redaction of everything written, and nothing is held back |
| `Scrubber.ScrubbingWriter.Drain` | cmd/brain/secret_scrubber.go:78-115 | The loop keeps every continuation of the input on the way to its one-shot redaction |
| `Scrubber.TurnContinues` | cmd/brain/secret_scrubber.go:84-105 | One turn of the loop is one step of the one-shot redaction, whatever is written later |
| `Scrubber.ScrubStream` | cmd/brain/secret_scrubber.go:16-115 | For every set of values and every split of the input into writes, the output is the one-shot redaction of the whole input by the values of at least four bytes |
| `ScrubAgreement.Scrub` | cmd/brain/secret_scrubber.go:41-47 | The loop computes the fold of ReplaceAll over the values in their order |
| `ScrubAgreement.PassAddsSecret` | cmd/brain/secret_scrubber.go:41-47 | One more ReplaceAll is one more secret in the one-shot redaction, when its cuts by longer secrets are covered and it can be confused with no marker that they leave |
| `ScrubAgreement.ScrubAgrees` | cmd/brain/secret_scrubber.go:41-47 | If every cut is covered and every later value is safe from the markers of the earlier ones, Scrub equals the one-shot redaction on every text |
| `ScrubAgreement.UncoveredCutShows` | cmd/brain/secret_scrubber.go:41-47 | For a secret that is safe from the markers of the earlier ones, a cut that is not covered makes the two differ on the two secrets run together |
| `ScrubLists.AgreementIff` | cmd/brain/secret_scrubber.go:41-47 | For any number of values: Scrub and the writer agree on every text, and have done so for every beginning of the list, if and only if every cut is covered and no later value can be confused with a marker that the earlier ones leave; for lists in which a later value that can be confused with one neither contains the whole marker nor comes after the marker itself |
| `ScrubAgreement.OneSecretAgrees` | cmd/brain/secret_scrubber.go:41-47 | With one secret they always agree, even when it overlaps itself or the marker |
| `ScrubAgreement.OverlapFreeAgreement` | cmd/brain/secret_scrubber.go:41-47 | Secrets that overlap neither one another nor the marker: they agree, in whatever order the values were sorted |
| `ScrubPairs.TwoSecretsAgreeIff` | cmd/brain/secret_scrubber.go:41-47 | For any two different secrets, whatever they share with the marker: Scrub and the writer agree on every text if and only if the longer one starts wherever the shorter one starts and runs into it, and the shorter one neither starts in a marker nor runs into one that the longer one leaves (a secret that is the marker itself does no harm) |
| `ScrubOrder.OrderIsIrrelevantIff` | cmd/brain/secret_scrubber.go:34-47 | For two different, equally long secrets, neither of which contains the whole marker as a proper part: Scrub gives the same result in both sorting orders for every text if and only if one is the marker itself, or neither cuts the other or can be confused with a marker that the other leaves |
| `ScrubOrder.ApartFromMarker` | cmd/brain/secret_scrubber.go:34-47 | For secrets that do not touch the marker, that condition is that neither cuts the other |
| `ScrubBrackets.MarkerInsideIsDifferent` | cmd/brain/secret_scrubber.go:34-47 | Two equally long secrets that contain the whole marker and can be confused with it, for which both sorting orders still give the same result on every text |
| `ScrubOrder.ScrubDependsOnOrder` | cmd/brain/secret_scrubber.go:34-47 | Two equally long secrets and a text on which Scrub agrees with the writer in one sorting order and not in the other |
| `ScrubOrder.BothOrdersPossible` | cmd/brain/secret_scrubber.go:28-36 | Both orders are ones that the unstable sort over a map may give |
| `LogStream.EventStream.WriteSSELogEvents` | cmd/brain/job_logs.go:191-208 | The loop writes one event per newline-separated line |
| `LogStream.EventStream.StreamSSELogReader` | cmd/brain/job_logs.go:210-257 | For every way the bytes arrive, it writes what the printer writes for the whole log, or for its finished lines as long as it has not ended; a failure is reported unless the client has gone |
| `LogStream.LinesOfTerminated` | cmd/brain/job_logs.go:191-208 | Cutting a text after a newline cuts its lines, and hence its events |
| `LogStream.LinesMakeText` | cmd/brain/job_logs.go:191-208 | The lines of a log, put together again, are the log, but for a newline at its end; no line holds one |
| `LogStream.ReadTurn` | cmd/brain/job_logs.go:224-237 | Printing the finished lines turn by turn adds up to printing the finished lines of the whole |
| `EventClient.ReadSSEData` | internal/cli/client/client.go:891-907 | The scanner loop emits the payloads of data lines up to the first line that does not fit |
| `EventClient.ParseOfEvents` | internal/cli/client/client.go:891-907 | What the client gets of printed lines: each without one final carriage return, up to the first that is too long |
| `EventClient.RoundTripIff` | cmd/brain/job_logs.go:191-208 | The client reads back exactly the lines of a log, without error, if and only if no line ends in a carriage return and every line has at most 65529 bytes |
| `EventClient.CarriageReturnIsLost` | internal/cli/client/client.go:891-907 | The log of the letter a and a carriage return comes back without the carriage return |
| `EventClient.LongLineIsLost` | internal/cli/client/client.go:891-907 | A line of 65530 bytes comes back as an error |
| `EventClient.Relay` | cmd/brain/job_logs.go:210-257 | The same through reader, events and client, for every way the log arrives and whether or not it has ended |
| `LogTail.ReadJobLogDelta` | cmd/brain/job_logs.go:175-189 | The bytes from the offset on; an offset beyond the end starts over; a missing file keeps the offset |
| `LogTail.PrepareJobLogStream` | cmd/brain/job_logs.go:106-119 | The whole file first, and its length as the offset |
| `LogTail.FollowJobLogStream` | cmd/brain/job_logs.go:121-164 | The loop prints the lines of each delta, up to the poll that finds the job ended |
| `LogTail.StreamJobLog` | cmd/brain/job_logs.go:75-84 | The handler's stream: the lines of what is there at first and, unless the job had ended, those of every delta |
| `LogTail.TailConservesBytes` | cmd/brain/job_logs.go:121-189 | For a file that only grows, what was seen and all deltas make up the file at the last poll: nothing lost, nothing twice |
| `LogTail.StreamConservesBytes` | cmd/brain/job_logs.go:106-189 | The same from the initial read on, whether or not there is a file at first |
| `LogTail.PathChangeStartsOver` | cmd/brain/job_logs.go:139-143 | After a change of the log path the new file is delivered from its beginning |
| `LogTail.TruncationStartsOver` | cmd/brain/job_logs.go:184-188 | A file that has become shorter than what was delivered is delivered from its beginning, and nothing of it is lost or delivered twice from there on |
| `LogTail.LinesSurviveIff` | cmd/brain/job_logs.go:106-189 | For a file that only grows: the stream shows exactly the lines of the file as it was read last if and only if each time it was read before, it ended with a finished line or nothing was added after that |
| `LogTail.CutLineShownTwice` | cmd/brain/job_logs.go:145-156 | Every line of which a beginning is read before its end has been written is shown as two |
| `LogTail.OneLineShownAsTwo` | cmd/brain/job_logs.go:145-156 | The line ab, read after its first byte, is shown as a and b |
| `ConfigHistory.LatestIsFold` | cmd/brain/project_config.go:295-352 | As long as no two revisions of the project have the same time or times against the order of the requests: at every point of every history its latest revision holds what all requests so far add up to |
| `ConfigHistory.NoRevisionNoSettings` | cmd/brain/project_config.go:333-352 | A project without revisions has no settings left |
| `ConfigHistory.RevisionsPersist` | cmd/brain/project_config.go:393-435 | No revision is ever changed or lost, whatever the clock does |
| `ConfigHistory.PinnedRevisionKeepsItsSettings` | cmd/brain/jobs.go:292-309 | A job that pinned the latest revision at some point resolves to the settings of that point ever after |
| `ConfigHistory.NewRevisionIsLatestIff` | cmd/brain/project_config.go:333-352 | A new revision is sure to be found next if and only if its time is later than all others of the project |
| `ConfigTies.SettingIsLost` | cmd/brain/project_config.go:295-352 | For any three changes of different variables of which the first two have the same time: a history that keeps to the code and in which the second setting is lost |
| `ConfigTies.LostForInstance` | cmd/brain/project_config.go:295-352 | The same with three literal requests |
| `ConfigPins.JobKeepsItsSettings` | cmd/brain/jobs.go:292-332 | A job admitted at some point of the project's configuration history resolves to the settings of that point, whatever Brain does between admission and deployment and however the configuration changes meanwhile |
| `ConfigPins.RunKeepsItsSettings` | cmd/brain/workflows.go:324-340 | The same for a workflow run that a request creates, until a cleanup deletes it |
| `ConfigPins.TickedRunKeepsItsSettings` | cmd/brain/workflows.go:396-412 | The same for a run that a tick queues |
| `ConfigHistory.StepKeepsValid` | cmd/brain/project_config.go:116-224 | Every request keeps foreign keys, valid names and exactly the secrets sealed |
| `ConfigHistory.ValidNameIff` | cmd/brain/project_config.go:53-68 | A name is accepted if and only if it has 1 to 255 capital letters, digits and underscores, does not begin with a digit, is neither PORT nor POCKETBASE_URL and does not begin with OVEK_ |
| `ConfigStore.ProjectConfigStore.LatestProjectConfigRevisionID` | cmd/brain/project_config.go:333-352 | Finds a revision with the greatest time, if the project has one |
| `ConfigStore.ProjectConfigStore.ListProjectConfigEntryRecords` | cmd/brain/project_config.go:354-391 | Lists the names of a revision's rows, strictly sorted |
| `ConfigStore.ProjectConfigStore.LatestProjectConfigEntryMap` | cmd/brain/project_config.go:295-315 | Collects the rows of a latest revision |
| `ConfigStore.ProjectConfigStore.InsertProjectConfigRevision` | cmd/brain/project_config.go:393-435 | Adds the revision with exactly the given entries and touches no other row |
| `ConfigStore.ProjectConfigStore.SetEnvironmentEntry` | cmd/brain/project_config.go:116-179 | One step of the history, made if and only if the trimmed name is valid and the value has at most 8192 bytes; refused names and values change nothing |
| `ConfigStore.ProjectConfigStore.DeleteEnvironmentEntry` | cmd/brain/project_config.go:181-224 | One step of the history; an invalid name, a missing project or a missing entry changes nothing |
| `ConfigStore.ProjectConfigStore.ResolveRuntimeConfig` | cmd/brain/project_config.go:226-259 | The sorted environment of the pinned revision, and the values of exactly its secrets; in a valid database every secret opens |
| `ConfigStore.ListIsUnique` | cmd/brain/project_config.go:412-416 | A set of names is sorted in one way only |
| `ContainerEnv.AppDefinesOnce` | cmd/brain/app.go:413-417 | The full environment of an app container defines no variable twice, whatever the values and the Brain URL |
| `ContainerEnv.WorkflowDefinesOnce` | cmd/brain/workflow_runtime.go:35-45 | The same for workflow containers |
| `ContainerEnv.AppHolds` | cmd/brain/provision.go:130-138 | The environment of an app container holds every setting of the project with its value, the port, the address of the database and the configured address of Brain or the default one, and no other line |
| `ContainerEnv.WorkflowHolds` | cmd/brain/workflow_runtime.go:35-45 | The same for workflow containers, with project, workflow, run and payload file |
| `ContainerEnv.EnvDefines` | cmd/brain/project_config.go:53-68 | Line i of a project's environment defines exactly name i, which is never reserved |
| `ContainerEnv.SettingsHaveValidNames` | cmd/brain/project_config.go:53-68 | In every reachable database, whatever the clock does, the names of all revisions are valid |
| `ImageRefs.CanonicalContainerImageRef` | cmd/brain/pocketbase.go:449-494 | The computation on split parts gives the canonical reference |
| `ImageRefs.TaggedIsNormalForm` | cmd/brain/pocketbase.go:449-494 | Without a digest, canonicalising twice is canonicalising once |
| `ImageRefs.DigestedIsNormalFormIff` | cmd/brain/pocketbase.go:449-494 | With a digest it is if and only if the last component before the digest has at most one colon |
| `ImageRefs.NotAlwaysNormalForm` | cmd/brain/pocketbase.go:449-494 | A digest reference with two colons for which it is not |
| `ImageRefs.CanonicalIsTrimmed` | cmd/brain/pocketbase.go:450-453 | A canonical reference has no space at either end |
| `ImageRefs.QualifiedIsQualified` | cmd/brain/pocketbase.go:469-484 | A name with host and namespace spelled out is left as it is |
| `ImageRefs.LibraryImage` | cmd/brain/pocketbase.go:449-494 | A name of one component gets docker.io/library in front, and the tag latest if it has none |
| `ImageRefs.NamespaceOrHost` | cmd/brain/pocketbase.go:449-494 | A name of several components stays as it is if the first one has a dot or a colon or is localhost, and gets docker.io in front otherwise; its tag stays, and is latest if it has none |
| `BuiltImages.BuiltImageParsesIff` | cmd/brain/build.go:239-251 | For every valid project name, job ID and registry host, the cleaner's parser gives back trimmed host, repository and job ID if and only if the trimmed host is not empty and has no slash |
| `BuiltImages.NoRegistryNoHost` | cmd/brain/build.go:239-251 | Without a registry host the reference is the bare image name, which the parser refuses for lack of a host |
| `BuiltImages.ParsesIff` | cmd/brain/registry_cleanup.go:73-103 | The parser accepts exactly a host without slashes, a slash, a repository, a colon and a tag without slashes and colons, none of them empty, and gives back these three |
| `BuiltImages.SlashesEndTheHost` | cmd/brain/registry_cleanup.go:73-103 | What the parser makes of any other host: its first part is the host, the rest goes to the repository |

## Left out

- HTTP handlers, JSON, authentication, Traefik ingress, the CLI and the rest of the client: plumbing around the modelled core.
- Container SDK details: inspected configuration, labels that do not match their name, edge networks, image pulls, readiness addresses and the polling for readiness, which counts as one call; the runtime is a map from container name to running or not, and every call may fail.
- Database errors: a statement fails only for the reasons the code itself checks; SQLite's own failures are not modelled.
- Columns that no property reads: job phase, error message, start and finish times, source and log path of deployments, run payload, trigger and exit code, audit records.
- Network and PocketBase names in the promotion's metadata: they are computed from the project name and never empty.
- Failed readiness leaves its container and a removal may stop without deleting: the crash property assumes that no call of its project fails, and does not claim anything about such leftovers.
- Interleavings of whole programs: `Worker`, `Reconcile` and `Cleanup` run without others in between; what may fall between their steps is in `Engine`, `Workflows` and their proofs.
- ProjectStatuses.StatusesAgreeOverRuns: agreement after every step assumes that start and stop requests write the status with no active job and a current deployment; `DirectWriteAgreesIff` gives the exact condition, and `StatusesAgreeAfterBoot` assumes nothing.
- ScrubLists.AgreementIff: it is about agreement for the list and all its beginnings; a list can agree again after it has disagreed. It leaves open later values that contain the whole marker, or come after the marker itself, and can be confused with one; for two secrets `ScrubPairs.TwoSecretsAgreeIff` leaves nothing open.
- ScrubOrder.OrderIsIrrelevantIff: leaves out secrets that contain the whole marker as a proper part; `ScrubBrackets.MarkerInsideIsDifferent` shows that the condition does not fit them.
- EventClient.ReadSSEData: the scanner of Go's library is modelled by its documented line splitting and 65536-byte limit; a reader that fails, makes no progress, or reports the end together with the very byte that fills the buffer, and an emit callback that fails, are not modelled.
- Scrubber.ScrubbingWriter.Write: errors and short writes of the underlying writer are not modelled, nor is a writer without one.
- LogTail.FollowJobLogStream: read errors other than a missing file, the poll interval and cancellation are not modelled.
- ConfigHistory.LatestIsFold: assumes that the revisions of the one project have increasing times; `NewRevisionIsLatestIff` and `ConfigTies.SettingIsLost` say what happens otherwise, and `RevisionsPersist` and `StepKeepsValid` need no clock.
- Cryptography and random IDs: sealing is assumed to be invertible and new IDs to be fresh.
- `dedupeStrings`, image and log file removal after a cleanup, `normalizeJobFailureMessage`: easy members.
- The status "preparing" of a workflow run is modelled where statements mention it, but no statement writes it.
- The cron library and the scheduler's entries; a tick is an event that may happen at any time.
- Route and data directory removal in `RemoveRuntime`: whether they succeed is a parameter (`Cleanup.Elsewhere`).
- The revision that project_pocketbase.go writes for the database's own secrets: one more kind of change to the same history.
