# RAIBITSERVER control plane: a verified model

RAIBITSERVER is a small platform-as-a-service. Builds and rollouts are jobs in a durable queue that competing workers
claim; the workers drive deployments through a life cycle; around both sits an in-memory relational store with
cascading deletes. This project models those parts in Dafny and proves what they keep over whole runs, together with
the exact guarantees of the small algorithms beside them (shell quoting, the SQL policy lexer, hostname labels, the
rate limiter, row trimming).

Code that updates state in place is a class whose methods are proved against functions of the old state; the theorems
are lemmas about those functions and about every run of them. A protocol of several workers is a state machine whose
steps are the atomic actions of the code.

| file | what it models |
|---|---|
| `Wrappers.dfy`, `Rows.dfy`, `Sorting.dfy`, `WhiteSpace.dfy`, `Words.dfy` | shared results, lookup by id, a stable sort proved to sort, trimming, and the words of a text |
| `Workflow.dfy` | the job record and its claim, complete and fail updates, in TypeScript and in Go |
| `ListQueue.dfy`, `QueueRuns.dfy` | the TypeScript list queue and the Go file store, agreement of the two, and all runs of the list queue |
| `PostgresQueue.dfy` | the Go PostgreSQL queue with lease takeover and late writes |
| `PrismaQueue.dfy` | the Prisma queue as interleaved find and compare-and-set steps |
| `Lifecycle.dfy`, `DeploymentLog.dfy`, `BuildWorkflow.dfy` | the transition table, the event log, and the build and rollout handlers joined with their job |
| `Reconciler.dfy` | the Go orchestrator that drains deployments asking for work |
| `ControlPlane.dfy`, `Webhooks.dfy` | relational integrity with cascades, and webhook de-duplication |
| `Ids.dfy` | slugs and the ids computed from them |
| `ShellQuoting.dfy`, `DbConsole.dfy`, `HostLabels.dfy`, `RateLimiter.dfy` | the small algorithms |

Times are integer milliseconds. In the relational store and the event log a creation may meet a row with its id and
overwrites it; webhook deployments have the ids the code computes. The queues take a fresh id for every enqueued job;
`Ids` and `QueueRuns.AnswerReachesItsJobExactly` say when computed ids are not fresh, and what that does.

## What the proofs found

Where a property one would expect of the code is false, the model keeps the code and proves exactly when it holds.

- `docs/workflows.md` lists lease recovery among what the queue implements. Only the PostgreSQL store takes over a
  running job. In the list and Prisma queues the lease test can never matter, and a job whose worker died stays running.
- PostgreSQL complete and fail calls check neither lock owner nor status. A late failure puts a succeeded job back in
  the queue exactly when the row has attempts left. A worker that dies on the last attempt strands its job.
- An exception after the image-ready or ready update is recorded as `BUILD_FAILED` or `FAILED`, transitions that the
  table never allows there. An exception in the first log writes, or while a failure is being recorded, gives the job
  up with the deployment left in `BUILDING`. A completion that cannot be stored gives the job up with the image ready.
- Job and deployment are in step exactly when the last call's completion was stored and no cancellation followed, or the
  last call that wrote anything recorded its failure and neither rollout nor cancellation has written since. A rollout
  that read its status before a retry can still write after it.
- The build handler does not look at the status before it writes, and cancelling leaves the queued build job alone. So a
  cancellation is final, as far as builder and rollout go, exactly when no rollout is under way and the job has ended,
  just used up its last attempt, or lost its worker. The pull-request cleanup of a preview and a creation that
  reuses the id overwrite it in any case.
- A deployment id is computed from service and commit. One push to the branch of a pull request sends a push and a
  synchronize with one commit: each service then has two jobs for one deployment, and the preview row replaces the
  production row. Each deployment has exactly one job exactly when no id is computed twice.
- Computed ids end at 63 characters, and their parts are slugs: two environment keys that differ in case or punctuation
  only share a row. A service id of 58 characters or more gives all its deployments one id, and a deployment id of 31
  or more gives all its build jobs one id. With a repeated job id the TypeScript queue writes the answer over the first
  record and leaves the claimed one running.
- A webhook payload without a repository matches every service that has none, so such a push deploys all of those.
- In the Prisma queue, completing or failing a job by its id alone reads the row and writes it without a condition. It
  breaks the claim protocol exactly when a worker holds the job at the write, or an attempt was made since the read;
  one attempt number can then be granted twice. For a job whose worker died it is the only way out.
- `updateDeployment` with event appending switched off, and the pull-request cleanup, change the status without logging
  it; the event log replays to the status exactly when no such write happened.
- `createDeployment` does not look its service up, and reusing an id resets the status without logging it.
- Attaching a resource again under another prefix strands the first environment rows, which outlive the resource;
  deleting it restores nothing that an attachment overwrote. Deleting a project leaves the secrets behind its services'
  environment.
- The reconciler takes the deployment with the least id; while its service or project row is missing, every other
  deployment waits.
- The rate limiter allows up to twice the limit less one in an interval of one window length, and the bound is
  attained. A limit below one acts as one.
- A negative `maxAttempts` means one attempt in TypeScript and three in Go.
- A blank service name gives the console hostname of the project.
- With a repeated job id the Go file store can update a record other than the one it found ready.

## Model

| member | source | states |
|---|---|---|
| `Workflow.RetryDelaysAgree` | services/builder/internal/controlplane/store.go:654-662 | Go's retry delay never exceeds TypeScript's default delay, and equals it exactly through the sixth attempt |
| `Workflow.RetryDelayDoubles` | packages/core/src/workflows.ts:184-188 | each retry delay is twice the one before, from the base to the longest delay |
| `Workflow.FailureStatusesAgree` | packages/core/src/workflows.ts:103-125 | a retryable failure gives the same next status in both languages if and only if the limit is not negative or the attempts are at most 0 or at least 3 |
| `Workflow.FailureRecordsAgree` | packages/core/src/workflows.ts:103-125 | the two languages leave the same record after a retryable failure if and only if the statuses agree and a requeued job has made at most six attempts, or a failed one was due just now |
| `Workflow.ClaimRecordsAgree` | packages/core/src/workflows.ts:73-85 | the TypeScript claim stores the record the other stores do if and only if attempts are not negative and the limit is at least one |
| `ListQueue.TsPickIsNext` | packages/core/src/workflows.ts:127-138 | filter, stable sort and first pick find the ready job with least runAfter, ties by position, and find none exactly when none is ready |
| `ListQueue.TsPickByFields` | packages/core/src/workflows.ts:58-71 | a position is picked if and only if its job is queued, due, and unlocked or past its lease, and every other such job is due later, or equally due and further back |
| `ListQueue.GoScanIsNext` | services/builder/internal/controlplane/store.go:150-164 | sorting all jobs and scanning for the first ready one finds that same job |
| `ListQueue.ClaimsAgree` | services/builder/internal/controlplane/store.go:130-184 | both queues pick the same position; Go writes to it if and only if no earlier record carries the same id |
| `ListQueue.TsQueue.ClaimNext` | packages/core/src/workflows.ts:127-138 | the claim is the picked job in claimed form, the queue holds the same record there and every other record is untouched |
| `ListQueue.TsQueue.Replace` | packages/core/src/workflows.ts:211-216 | only the first record with the id is overwritten; an unknown id is refused and changes nothing |
| `ListQueue.TsQueue.ProcessNext` | packages/core/src/workflows.ts:140-160 | claim, handler outcome and the answer written at a time of its own, as one function of the old queue; missing handlers fail without retry |
| `ListQueue.GoFileQueue.Scan` | services/builder/internal/controlplane/store.go:154-164 | the loop ends at the first ready candidate and gives the first record with its id |
| `ListQueue.GoFileQueue.ClaimNext` | services/builder/internal/controlplane/store.go:130-184 | exactly the picked record is marked running with one more attempt; without a ready job nothing changes |
| `ListQueue.GoFileQueue.Complete` | services/builder/internal/controlplane/store.go:186-197 | the record with the id becomes succeeded and unlocked; an unknown id is an error |
| `ListQueue.GoFileQueue.Refuse` | services/builder/internal/controlplane/store.go:199-221 | the record with the id is queued again with its delay while attempts are left, and failed otherwise |
| `QueueRuns.RunKeepsInv` | packages/core/src/workflows.ts:58-138 | after every run of enqueues, claims and answers ids are unique, running, locked and held coincide, every job keeps its place, and finished jobs stay as they were |
| `QueueRuns.RunningMeansHeldOnce` | packages/core/src/workflows.ts:73-138 | in every reachable state a job is running exactly when it is locked and exactly when one outstanding claim is for it |
| `QueueRuns.LeaseNeverMatters` | packages/core/src/workflows.ts:58-71 | in every reachable state the claim does not depend on the lease and never finds a job that is held |
| `QueueRuns.StatusesMoveForward` | packages/core/src/workflows.ts:87-125 | no step leaves a terminal status, and a running job changes only by the reply of its holder |
| `QueueRuns.ProcessingLowersRemaining` | packages/core/src/workflows.ts:140-160 | whatever the handler does, one processed job strictly lowers the sum of max(1, maxAttempts - attempts) over unfinished jobs |
| `QueueRuns.AnswerReachesItsJobExactly` | packages/core/src/workflows.ts:211-216 | a worker's answer overwrites the record it claimed if and only if no earlier record carries the same id; otherwise the claimed record is left running |
| `QueueRuns.ProcessedJobByFields` | packages/core/src/workflows.ts:103-160 | one processed job field by field: succeeded if and only if the handler succeeds, queued with the doubled delay if and only if it throws retryably with an attempt left, failed otherwise and always without a handler; every other job is untouched |
| `QueueRuns.JobHistory` | packages/core/src/workflows.ts:73-160 | over every run from a reachable state a waiting job is claimed once per reply and once more while held; every reply but the last is a retryable error, the last one decides between success and failure, and a missing handler costs exactly one claim |
| `QueueRuns.QueueDrains` | packages/core/src/workflows.ts:58-160 | for unique ids: with the clock moved to the least due time and on by what each handler takes, after as many rounds as remaining work every waiting job has succeeded or failed, and every running or finished one is as it was |
| `QueueRuns.DueIsRunAfter` | packages/core/src/workflows.ts:58-71 | in every reachable state that due time is the job's runAfter, whatever the lease |
| `PostgresQueue.PostgresStore.ClaimNext` | services/builder/internal/controlplane/postgres_store.go:85-132 | the first claimable row in query order that no other transaction locks is taken, and no other row changes |
| `PostgresQueue.PicksByColumns` | services/builder/internal/controlplane/postgres_store.go:20-35 | a row is picked if and only if it satisfies the condition on status, due time, lock and attempts and is not locked elsewhere, and every other such row is due later, or equally due and created later, or equal in both with no smaller id |
| `PostgresQueue.TableClaimsAsTheListDoes` | services/builder/internal/controlplane/postgres_store.go:20-35 | for jobs in creation order, none left behind by its worker, the table hands out the job that the list queue picks |
| `PostgresQueue.OvertakenOnlyByEarlier` | services/builder/internal/controlplane/postgres_store.go:33 | over every run a due, waiting row that nobody changes or locks is overtaken only by rows before it in due time, creation time and id |
| `PostgresQueue.PostgresStore.Complete` | services/builder/internal/controlplane/postgres_store.go:134-141 | the row with the id is succeeded and unlocked whoever held it; an unknown id is an error |
| `PostgresQueue.PostgresStore.Refuse` | services/builder/internal/controlplane/postgres_store.go:143-161 | the row with the id is queued with its delay or failed, whoever held it and whatever its status was |
| `PostgresQueue.StepKeepsInv` | services/builder/internal/controlplane/postgres_store.go:292-327 | every call keeps attempts at most maxAttempts and queued rows below it; attempts grow exactly at a claim |
| `PostgresQueue.ClaimsAreBounded` | services/builder/internal/controlplane/postgres_store.go:20-35 | over every run, takeovers and late writes included, attempts are the initial value plus the claims, and claims are at most the attempts left |
| `PostgresQueue.TerminalLastsExactly` | services/builder/internal/controlplane/postgres_store.go:143-161 | a finished job stays finished for the rest of a run if and only if it is out of attempts or no failure is reported for it |
| `PostgresQueue.SuccessLastsExactly` | services/builder/internal/controlplane/postgres_store.go:134-161 | a success lasts for the rest of a run if and only if no failure is reported for the job any more |
| `PostgresQueue.LateFailureUndoesSuccess` | services/builder/internal/controlplane/postgres_store.go:85-161 | a concrete run of two workers in which a late failure puts a succeeded job back in the queue |
| `PostgresQueue.LastAttemptIsStrandedExactly` | services/builder/internal/controlplane/postgres_store.go:28-32 | a running row on its last attempt stays as it is over a run if and only if nobody completes or fails it by id |
| `PostgresQueue.LeaseHoldsExactly` | services/builder/internal/controlplane/postgres_store.go:20-35 | in every run whose claims come before the lease ends, a held row stays as it is if and only if nobody completes or fails it by id |
| `PrismaQueue.RunKeepsInvExactly` | packages/core/src/persistence.ts:638-689 | over every interleaving of find, compare-and-set, read-back, reply, crash and the separate read and write of calls by id, the protocol invariant holds throughout if and only if every write by id comes while no worker holds the job and from a read since which no attempt was made |
| `PrismaQueue.OutdatedReadRepeatsAnAttempt` | packages/core/src/persistence.ts:671-689 | a run in which no worker holds the job at the read or the write of a call by id, and the first attempt is granted twice |
| `PrismaQueue.GrantsAreDistinctAndCounted` | packages/core/src/persistence.ts:651-667 | in every state reached without such a write no two successful claims share job and attempt number, attempts are the initial value plus the claims, and no job has two holders |
| `PrismaQueue.EdgesAreGrants` | packages/core/src/persistence.ts:651-667 | over every run, every call by id included, each edge from queued to running is one worker's successful compare-and-set |
| `PrismaQueue.AttemptsCountEdges` | packages/core/src/persistence.ts:651-689 | over every run without such a write the row's attempts grow by exactly the edges |
| `PrismaQueue.LeaseNeverMatters` | packages/core/src/persistence.ts:643-650 | in every reachable state the claim condition is just queued and due |
| `PrismaQueue.OnlyTheHolderEndsAJob` | packages/core/src/persistence.ts:671-689 | unless it is written by id, a finished row never changes and a running row changes only by its holder's reply |
| `PrismaQueue.OrphanStaysRunningExactly` | packages/core/src/persistence.ts:638-689 | a running row whose worker crashed stays running over a run, whatever happens to other rows, if and only if no call by id writes it |
| `PrismaQueue.FindsByColumns` | packages/core/src/persistence.ts:643-650 | a row may be found if and only if it is queued, due, and unlocked or past its lease, and no other such row comes before it in due and creation time |
| `PrismaQueue.UpdateWinsExactly` | packages/core/src/persistence.ts:651-666 | a conditional update wins if and only if the row is by then still queued, due, and unlocked or past its lease; a lost one changes nothing |
| `PrismaQueue.ThreeUpdatesAtMost` | packages/core/src/persistence.ts:642-669 | over every run a claim makes at most three conditional updates and is over after the third |
| `Lifecycle.ChangesAreBounded` | packages/core/src/deployments.ts:36-60 | a run of allowed transitions from queued with k retry edges changes the status at most 6 + 4k times |
| `Lifecycle.BoundIsMet` | packages/core/src/deployments.ts:36-46 | for every k some run attains 6 + 4k |
| `Lifecycle.CancelledIsFinal` | packages/core/src/deployments.ts:36-60 | cancelled is never left |
| `Lifecycle.EveryRunCanBeCancelled` | packages/core/src/deployments.ts:36-46 | every run of allowed transitions from queued can be cancelled wherever it stands |
| `Lifecycle.TableExactly` | packages/core/src/deployments.ts:36-60 | the table in words: one step along the way, image-ready straight to ready, failures before ready, new builds after a failure, and cancellation from every known status |
| `Lifecycle.ReadyHasAnImage` | packages/core/src/deployments.ts:36-46 | every ready status is preceded by image-ready since the last building |
| `DeploymentLog.DeploymentStore.Create` | packages/core/src/store.ts:328-361 | the deployment is stored with its status and one event without a status pair is appended |
| `DeploymentLog.DeploymentStore.Update` | packages/core/src/store.ts:369-393 | outcome and whole new state of the update, checked only on request, logging a pair when the status changed or an event type is given |
| `DeploymentLog.DeploymentStore.Transition` | packages/core/src/store.ts:395-408 | a disallowed transition is refused and changes nothing; an allowed one logs exactly one pair even if the status stays |
| `DeploymentLog.DeploymentStore.Cancel` | packages/core/src/store.ts:410-427 | cancellation is the checked transition, and enqueues a cancel job only when it is allowed |
| `DeploymentLog.StepReplaysExactly` | packages/core/src/store.ts:328-427 | one call, a creation that reuses the id included, keeps the from/to pairs a chain ending in the current status if and only if it does not change the status without logging |
| `DeploymentLog.RunReplaysExactly` | packages/core/src/store.ts:369-427 | the log replays at every point of a run if and only if no write of the run was silent |
| `DeploymentLog.DefaultRunsReplay` | packages/core/src/store.ts:369-427 | updates with default event options, transitions and cancellations always replay |
| `DeploymentLog.CancelJobsAreCounted` | packages/core/src/store.ts:410-427 | over every run the cancel jobs are exactly the cancellations that meet a deployment in a known status, in order |
| `DeploymentLog.PairsAreCounted` | packages/core/src/store.ts:369-427 | over every run one pair is logged for each accepted transition, cancellation, labelled update, and update that changes the status |
| `DeploymentLog.CreationReplays` | packages/core/src/store.ts:328-361 | a deployment with a fresh id starts a chain at its creation status |
| `DeploymentLog.CheckedRunFollowsTable` | packages/core/src/store.ts:395-427 | over every run of checked calls the logged history is a path of the transition table |
| `DeploymentLog.CheckedLifeIsSound` | packages/core/src/store.ts:395-427 | such a history ends in the current status, is bounded by its retries, and a ready end was image-ready since the last building |
| `BuildWorkflow.ProcessBuild` | packages/core/src/deployment-workflow.ts:28-110 | the status writes of the build handler for each way a call can go, missing rows and failing writes included, the status that each leaves, and success exactly when the job may be completed |
| `BuildWorkflow.ProcessRollout` | packages/core/src/deployment-workflow.ts:112-142 | the status writes of a rollout, none unless the deployment is image-ready or deploying and its service exists, and the status that each outcome leaves: ready when it reports having processed, failed when an error is recorded |
| `BuildWorkflow.BuildCallStores` | packages/core/src/deployment-workflow.ts:28-110 | in every interleaving with rollout and cancellation one call of the builder machine stores exactly the statuses that the handler writes for its outcome |
| `BuildWorkflow.RolloutCallStores` | packages/core/src/deployment-workflow.ts:112-142 | likewise for every rollout and every way in which it can end; it has rolled out if and only if it ends without an error |
| `BuildWorkflow.BuildWritesAllowedExactly` | packages/core/src/deployment-workflow.ts:24-110 | from any status, every write of a call is an allowed transition if and only if it makes none, or starts where a build may start and records no error after the image-ready update |
| `BuildWorkflow.BuildAfterCancelIsIllegal` | packages/core/src/deployment-workflow.ts:24-32 | a call for a cancelled deployment keeps to the table if and only if it writes nothing |
| `BuildWorkflow.RolloutWritesAllowedExactly` | packages/core/src/deployment-workflow.ts:112-142 | every rollout write is allowed if and only if no error after the ready update is recorded |
| `BuildWorkflow.WrittenReplays` | packages/core/src/deployment-workflow.ts:28-142 | the handlers' writes keep the event log replaying to the status |
| `BuildWorkflow.RunKeepsInv` | packages/core/src/deployment-workflow.ts:28-142 | the joint invariant of job, deployment, builder and rollout over every interleaving, rollout faults included, in which no read or write of the builder throws and nobody cancels |
| `BuildWorkflow.CallLinksExactly` | packages/core/src/deployment-workflow.ts:28-110 | a call leaves job and deployment in step if and only if its completion was stored or its failure recorded, or it wrote nothing where a failure was recorded before |
| `BuildWorkflow.LinkHoldsExactly` | packages/core/src/deployment-workflow.ts:28-142 | over every run, with every fault of builder and rollout and any cancellation, between calls job and deployment are in step if and only if the last call's completion was stored and no cancellation followed, or nobody has written since the last writing call and that recorded its failure, or since the start |
| `BuildWorkflow.JobAndDeploymentMoveTogether` | packages/core/src/deployment-workflow.ts:28-142 | if no read or write of the builder throws and nobody cancels: queued after an attempt means build-failed, failed means build-failed, succeeded means image-ready or later, whatever the rollout does; a write is an allowed transition if and only if it does not record a rollout failure over ready |
| `BuildWorkflow.FaultsBreakTheLink` | packages/core/src/deployment-workflow.ts:33-110 | a fault before the build, or while a failure is being recorded, gives the job up with the deployment still building |
| `BuildWorkflow.FaultsBreakTheTable` | packages/core/src/deployment-workflow.ts:68-142 | a failure recorded after the image-ready or the ready update is a transition the table never allows there |
| `BuildWorkflow.CancelledKeptExactly` | packages/core/src/store.ts:410-427 | a cancelled deployment stays cancelled over a run if and only if neither builder nor rollout writes a status any more |
| `BuildWorkflow.CancellationIsFinalExactly` | packages/core/src/store.ts:410-427 | with no other writer than builder and rollout, every continuation keeps a cancelled deployment cancelled if and only if no rollout is under way and its build job has ended, just used up its last attempt, or lost its worker |
| `Reconciler.Head` | services/orchestrator/internal/store/store.go:143-162 | the head of the worklist is the least-id row asking for work, and none exactly when no row asks |
| `Reconciler.HeadByStatus` | services/orchestrator/internal/store/store.go:143-162 | a row is the head if and only if its status is image-ready, rollback requested or either spelling of cleanup requested, and no such row has a lesser id or the same id further in front |
| `Reconciler.ServiceReconciler.UpdateDeployment` | services/orchestrator/internal/store/store.go:194-218 | the first row with the id gets the status, and the image if one is given |
| `Reconciler.ServiceReconciler.RunOnce` | services/orchestrator/internal/reconciler/reconciler.go:68-114 | one call takes the head and leaves every other row alone, for every answer of kubectl |
| `Reconciler.OneCallByColumns` | services/orchestrator/internal/reconciler/reconciler.go:68-173 | blocked if and only if the service or project row is missing or a needed manifest cannot be written; otherwise status and image of the row by its request, its image and the two commands, and no other row changes |
| `Reconciler.ServiceReconciler.CleanupPreview` | services/orchestrator/internal/reconciler/reconciler.go:154-173 | cleaned up or failed by the delete command; without a manifest nothing changes |
| `Reconciler.ServiceReconciler.ApplyAndWatch` | services/orchestrator/internal/reconciler/reconciler.go:116-152 | failed without an image or on a failing command, else ready with the applied image |
| `Reconciler.ProgressExactly` | services/orchestrator/internal/reconciler/reconciler.go:68-114 | one call shortens the worklist by exactly one if and only if the head's rows exist, its manifest is written when needed and no earlier row shares its id |
| `Reconciler.MissingRowsBlockEverything` | services/orchestrator/internal/reconciler/reconciler.go:85-100 | a head with a missing service or project blocks the worklist in every further call |
| `Reconciler.WorklistDrains` | services/orchestrator/internal/reconciler/reconciler.go:68-173 | n calls empty a worklist of n, and each row is untouched or finished |
| `Reconciler.WorklistDrainsExactly` | services/orchestrator/internal/reconciler/reconciler.go:85-100 | with manifests written, n calls empty a worklist of n if and only if no row on it misses its service or project |
| `Reconciler.EveryOpenRowEnds` | services/orchestrator/internal/reconciler/reconciler.go:92-173 | each initial row of the worklist ends ready, failed or cleaned up; a ready one has a non-empty image, the previous one after a rollback |
| `ControlPlane.ControlPlaneStore.CreateResource` | packages/core/src/store.ts:233-262 | the resource and one secret per key are stored; an empty connection is refused after the resource was stored |
| `ControlPlane.ControlPlaneStore.UpsertServiceEnvironment` | packages/core/src/store.ts:580-602 | unknown service, foreign project and any invalid key are refused with nothing written; otherwise rows and secrets in order, an entry's own source before the call's |
| `ControlPlane.LastEntryStands` | packages/core/src/store.ts:587-598 | after an upsert of any entries each listed key has a row with the project and, of its last entry, the secret flag and the source, the entry's own before the call's |
| `ControlPlane.OtherRowsStay` | packages/core/src/store.ts:580-602 | every row under another key or of another service and every other table is as it was |
| `ControlPlane.SecretsGrowExactly` | packages/core/src/store.ts:587-598 | the service's secrets grow by exactly the keys of secret entries |
| `ControlPlane.ValidKeyExactly` | packages/core/src/env-file.ts:3 | a valid key is made of ASCII letters, digits and underscores and does not begin with a digit |
| `ControlPlane.ControlPlaneStore.AttachResource` | packages/core/src/store.ts:305-326 | same-project check, attachment replaced in place or appended, and its environment injected |
| `ControlPlane.AttachmentIsExact` | packages/core/src/store.ts:305-326 | attaching leaves the pair of resource and service with exactly the keys of this call, even where one of them is refused, and every other attachment as it was |
| `ControlPlane.RunKeepsPairs` | packages/core/src/store.ts:162-326 | over every run a resource and a service have at most one attachment |
| `ControlPlane.ControlPlaneStore.DeleteService` | packages/core/src/store.ts:216-231 | exactly the service with its deployments, environment rows and attachments goes |
| `ControlPlane.ServiceDeletionIsExact` | packages/core/src/store.ts:216-231 | exactly the deployments, environment rows and attachments of the service go with it; resources and secrets stay |
| `ControlPlane.ControlPlaneStore.RemoveInjectedEnvironment` | packages/core/src/store.ts:889-902 | exactly the listed rows that the resource injected go, with the secrets behind them |
| `ControlPlane.ControlPlaneStore.DeleteResource` | packages/core/src/store.ts:291-303 | the loop over attachments removes all injected rows at once; attachments and provider secrets go too |
| `ControlPlane.ResourceDeletionIsExact` | packages/core/src/store.ts:291-303 | exactly the attachments and provider secrets of the resource go with it, and the rows it injected under a key still listed, with the secrets of the secret ones |
| `ControlPlane.ControlPlaneStore.DeleteProject` | packages/core/src/store.ts:162-170 | deleting services and resources one by one equals removing them all together |
| `ControlPlane.ServicesGoOneByOne` | packages/core/src/store.ts:162-170 | deleting one more service after a set of them is deleting the larger set |
| `ControlPlane.ResourcesGoOneByOne` | packages/core/src/store.ts:162-170 | likewise for resources, injected rows and secrets included, in any order |
| `ControlPlane.StepKeepsSoundExactly` | packages/core/src/store.ts:162-361 | a call, creations that overwrite a row included, keeps referential integrity if and only if it neither moves a row still referred to into another project nor creates a deployment for a missing service |
| `ControlPlane.RunKeepsSoundExactly` | packages/core/src/store.ts:162-361 | a run is sound at every point if and only if each of its calls is such a call |
| `ControlPlane.ReachableIsSound` | packages/core/src/store.ts:162-361 | after every such run attachments join an existing service and resource of one project, environment rows and deployments have their service |
| `ControlPlane.ProjectDeletionIsExact` | packages/core/src/store.ts:162-170 | deleting a project removes everything of it and nothing else, and leaves every secret behind a service's environment |
| `ControlPlane.InjectedRowGoesExactly` | packages/core/src/store.ts:291-303 | deleting a resource removes a row it injected if and only if its attachment to that service still lists the key |
| `ControlPlane.SecretUpsertIsExact` | packages/core/src/store.ts:587-598 | injecting secret entries writes one row and one secret for each key and nothing else |
| `ControlPlane.DeletionUndoesAttachmentExactly` | packages/core/src/store.ts:291-326 | deleting a resource undoes its first attachment to a service if and only if no environment row or secret of the service existed under an injected key |
| `ControlPlane.ReattachingStrandsRows` | packages/core/src/store.ts:305-326 | attaching again under another key leaves the first row in place even after the resource is deleted |
| `Webhooks.WebhookStore.Handle` | packages/core/src/store.ts:707-753 | answer and whole new state for a delivery: refused, duplicate, or one piece of work for each matching service, a deployment being stored under its computed id |
| `Webhooks.DeliveryCausesWorkExactly` | packages/core/src/store.ts:720-749 | one job for each matching service in order: a build for a push, a preview for an opened, synchronized or reopened pull request, a cleanup for a closed one, nothing for anything else |
| `Webhooks.OpenThenCloseMarks` | packages/core/src/store.ts:726-748 | opening a pull request, whatever the opening action, makes a preview with its number that its closing marks for cleanup, whatever deliveries computing another id come in between |
| `Webhooks.RedeliveryHasNoEffect` | packages/core/src/store.ts:715-719 | any sequence of deliveries leaves the store that its first acceptable deliveries per id leave |
| `Webhooks.EffectiveIdsAreDistinct` | packages/core/src/store.ts:715-719 | those carry each new id of an acceptable delivery exactly once and nothing else |
| `Webhooks.JobsAreCountedOnce` | packages/core/src/store.ts:720-749 | the jobs enqueued are the matching services summed over the distinct deliveries that are not ignored |
| `Webhooks.EveryDeploymentHasOneJobExactly` | packages/core/src/store.ts:328-357 | over every sequence of deliveries the deployments are exactly those with jobs, each of the kind of its latest job; each has exactly one job if and only if no deployment id is computed twice |
| `Webhooks.OneJobEachFromScratchExactly` | packages/core/src/store.ts:720-735 | from an empty store: each deployment has exactly one job if and only if no two distinct deploying deliveries, nor two services of one, compute the same id |
| `Webhooks.PushAndSynchronizeShareARow` | packages/core/src/store.ts:722-735 | a push and a synchronize with one commit leave each service of the repository with two jobs for one deployment, the preview in place of the production row |
| `Webhooks.DeploymentIdsAgreeExactly` | packages/core/src/store.ts:333 | two deliveries get one deployment id for a service if and only if the slugs of their commits, or of their times without one, agree as far as the 63 characters reach, which is always so for a service slug of 58 or more |
| `Webhooks.NamelessPushDeploysUnlinked` | packages/core/src/store.ts:762-772 | a push that names no repository deploys exactly the services without one, and does nothing if and only if there is none |
| `Webhooks.CleanupMarksExactly` | packages/core/src/store.ts:736-748 | closing a pull request marks exactly the preview deployments of its number and of a matching service |
| `ShellQuoting.GoCommandString` | services/orchestrator/internal/command/command.go:74-84 | the Go printer gives the redacted text if there is one, and otherwise the TypeScript rendering of the masked arguments, which reads back as those |
| `ShellQuoting.QuotersAgree` | services/builder/internal/worker/command.go:96-106 | the Go and TypeScript quoters agree on every text |
| `ShellQuoting.BareExactly` | packages/core/src/command-runner.ts:29-33 | a word is printed as it is if and only if it is not empty and has only letters, digits and ten plain signs |
| `ShellQuoting.RoundTrip` | packages/core/src/command-runner.ts:24-33 | tokenizing a printed command by the POSIX quoting rules gives back every argument list, empty arguments and quotes included |
| `ShellQuoting.MaskedRoundTripExactly` | services/orchestrator/internal/command/command.go:74-96 | the Go printers round-trip a list if and only if masking leaves its arguments unchanged |
| `DbConsole.NormalizeRaw` | packages/core/src/db-console.ts:56-95 | the index-jumping loop computes what a character-by-character automaton shows |
| `DbConsole.SkipLine` | packages/core/src/db-console.ts:72-76 | skipping a line comment by its index is what the automaton does, showing one blank |
| `DbConsole.SkipBlock` | packages/core/src/db-console.ts:77-83 | likewise for a block comment, unclosed ones included |
| `DbConsole.InsideQuote` | packages/core/src/db-console.ts:62-70 | a round inside a literal, doubled closing quotes included, is what the automaton does |
| `DbConsole.OnlyCodeIsVisible` | packages/core/src/db-console.ts:56-95 | of any statement cut into code, literals and comments exactly the code is shown, in order, and blanks |
| `DbConsole.EveryTextIsPieces` | packages/core/src/db-console.ts:56-95 | every statement can be so cut, and the output is no longer than the statement |
| `DbConsole.NormalizeSqlForPolicy` | packages/core/src/db-console.ts:96-99 | the spaced form is the words of the lexer's output, in order, upper-cased and joined by single blanks, so cutting it at white space gives those words back; the compact form is the same words without any white space |
| `DbConsole.SpacedSqueezesToCompact` | packages/core/src/db-console.ts:96-99 | removing white space from the spaced form gives the compact form for every lexer output |
| `DbConsole.TrimResultRows` | packages/core/src/db-console.ts:394-406 | a prefix of the rows fits the clamped byte limit if and only if it is no longer than the one kept |
| `DbConsole.ArrayBytesIsLength` | packages/core/src/db-console.ts:394-406 | the size that is counted is the length of the rows written in brackets and joined by commas |
| `Ids.SlugifyMakesSlugs` | packages/core/src/ids.ts:1-9 | every slug starts with a letter or digit, has no double dash and at most 63 characters |
| `Ids.SlugIsWords` | packages/core/src/ids.ts:1-9 | the slug of any text is its runs of letters and digits in lower case, joined by single dashes and cut at 63 characters, or the fallback if there are none |
| `Ids.AlikeTextsShareASlug` | packages/core/src/ids.ts:1-9 | texts that differ, character by character, only in the case of letters and in which other characters stand between letters and digits have one slug |
| `Ids.ReslugifyExactly` | packages/core/src/ids.ts:1-9 | slugifying a slug changes it if and only if truncation left a dash at its end |
| `Ids.StableIdIs` | packages/core/src/ids.ts:11-14 | for every list of texts the id is the prefix and the slugs of the texts, joined by dashes and cut at 63 characters |
| `Ids.StableIdsAgreeExactly` | packages/core/src/ids.ts:11-14 | two ids that differ in their last text are equal if and only if the slugs of the texts agree as far as the 63 characters reach |
| `Ids.EnvRowsAgreeExactly` | packages/core/src/store.ts:594 | two environment keys of a service share one row if and only if their slugs agree as far as the 63 characters reach |
| `Ids.AlikeKeysShareARow` | packages/core/src/store.ts:594 | environment keys that differ so share a row |
| `Ids.JobIdIs` | packages/core/src/workflows.ts:31 | a job's id is the first 63 characters of the slugs of its types, target and creation time, whatever these are |
| `Ids.LongTargetsShareAJobId` | packages/core/src/workflows.ts:31 | behind a target slug of 57 characters less the two types, 31 for build jobs, all jobs of a target have one id whatever their creation times |
| `HostLabels.SplitInvertsJoin` | packages/core/src/domain-router.ts:18-20 | a decoder recovers any number of slugs from their joined label |
| `HostLabels.ParseInvertsHostname` | packages/core/src/domain-router.ts:22-27 | slugs, zone and base domain are recovered from a generated hostname |
| `HostLabels.ServiceHostnamesSpelledOut` | packages/core/src/domain-router.ts:18-27 | the hostname of a service: slugs from preview and service to organization joined by two dashes, the zone preview or apps, the base domain; a custom domain replaces it |
| `HostLabels.ConsoleHostnamesSpelledOut` | packages/core/src/domain-router.ts:29-43 | likewise for the consoles of services, projects and workspaces, and for resources |
| `HostLabels.ServiceHostnamesAreUnique` | packages/core/src/domain-router.ts:22-27 | two generated service hostnames are equal if and only if their slugs, zones and base domains are |
| `HostLabels.ConsoleHostnamesAgreeExactly` | packages/core/src/domain-router.ts:29-43 | console hostnames of services, projects and workspaces coincide if and only if their slugs left after dropping blank parts do, and the base domains |
| `HostLabels.ResourceHostnamesAgreeExactly` | packages/core/src/domain-router.ts:33-35 | resource hostnames coincide if and only if their slugs and base domains do, and never with a console hostname |
| `HostLabels.ConsoleHostnamesAreDisjoint` | packages/core/src/domain-router.ts:29-43 | with a project and an organization: no two kinds share a hostname, except that a blank service has that of its project |
| `RateLimiter.FixedWindowRateLimiter.Check` | packages/core/src/security.ts:209-220 | reply and new counters of a check; a window opens when the key has none or its window ended |
| `RateLimiter.WindowReplies` | packages/core/src/security.ts:209-220 | the replies of one window: the first is allowed and sets the reset time, the others are allowed while the limit lasts, and each tells what is left |
| `RateLimiter.OtherKeysNeverMatter` | packages/core/src/security.ts:206-225 | over every run the replies for a key are those of the run without all other keys; only the empty key and global are one |
| `RateLimiter.AnyIntervalIsBounded` | packages/core/src/security.ts:206-225 | over every run any half-open interval of window length allows at most 2 * max(1, limit) - 1 checks of a key, and one quota more per reset |
| `RateLimiter.RepliesAreTruthful` | packages/core/src/security.ts:209-220 | after a reply exactly the remaining number of checks are allowed until its reset time, or all if fewer come |
| `RateLimiter.BoundIsAttained` | packages/core/src/security.ts:206-225 | for every limit and every window of at least two milliseconds some run attains twice the limit less one |

## Left out

- `Workflow.FailureRecordsAgree`: payload and update time.
- `ControlPlane.SecretUpsertIsExact`: rows are kept under service and key; keys that `Ids.EnvRowsAgreeExactly` gives one row are one key here.
- `ControlPlane.ControlPlaneStore.UpsertServiceEnvironment`: likewise.
- `ControlPlane.LastEntryStands`: likewise.
- `ControlPlane.OtherRowsStay`: likewise.
- `BuildWorkflow.CancellationIsFinalExactly`: the pull-request cleanup and a creation that reuses the id, which overwrite any status.
- `BuildWorkflow.LinkHoldsExactly`: the same two writers.
- `ShellQuoting.RoundTrip`: what a shell does with the words; a first word such as `A=b` is printed bare and taken as an assignment.
- `Webhooks.WebhookStore.Handle`: a missing webhook secret (error 503), the outbound status plan and the preview plan inside the job payload; signature check and repository parsing are outcomes carried by the delivery.
- `DbConsole.NormalizeSqlForPolicy`: the case mapping is a parameter; the laws about words assume of it only that white space maps to itself and every other character to something without white space.
- `ShellQuoting.MaskedRoundTripExactly`: the masking function is a parameter.
- `RateLimiter.BoundIsAttained`: windows of one millisecond, whose intervals hold a single instant and so at most the limit.
- Status strings, their aliases and trimming; the model starts from the normalized status. An unknown status stays as it is.
- Job payloads, error texts, update times and secret masking, which pass through unchanged by the control flow.
- A job without runAfter, which TypeScript sorts by its creation time; zero maxAttempts stored by Prisma as three; sub-millisecond times in Go.
- SQL transactions and conditional updates are atomic. A Prisma reply reads the row before writing it; as the written record does not depend on that read, both are one step.
- `processBuildAndRolloutWorkflowJob`, which runs the two handlers one after the other, and `rollbackDeployment`.
- Event metadata passed by a caller, which could override the logged from/to pair; build and runtime logs; audit rows.
- The copy of the environment kept inside a service row, environment keys before trimming, domains, volumes, members and quotas.
- Store and disk failures of the Go file stores. The reconciler's deployment rows change only through it during a drain.
- Alphabetic lower-casing in slugs beyond the characters whose lower case is or contains an ASCII letter; the defaults for absent hostname parts.
- Other generated ids, cryptography, HTTP controllers, the dashboard and the command-line tools.
- Manifest, provisioning and catalog builders, YAML and .env parsing, RBAC tables and validators: long but shallow.
