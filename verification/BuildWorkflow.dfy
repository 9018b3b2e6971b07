/**
 The build handler and the rollout, which write deployment statuses without checking the transition,
 and the build job that drives them. First the writes of one handler call against the table, then job,
 builder and rollout interleaved step by step over all retries.
 */
module BuildWorkflow {
  import opened Wrappers
  import W = Workflow
  import opened Lifecycle
  import opened DeploymentLog

  /**
   How one call of the build handler goes. `Unstarted`: a row it needs is missing, or its first update fails. `Early`: a
   log write fails before the build starts. `BuildError`: the build itself throws. `Late`: a write after the image-ready
   update throws. `caught` tells whether the error path then gets as far as its own status write.
   */
  datatype BuildOutcome = Built | Unstarted | Early | BuildError(caught: bool) | Late(caught: bool)

  /**
   How one rollout goes. `NoService`: the service row is missing. `RolloutRefused`: the first update fails.
   `RolloutLate`: a write after the ready update throws.
   */
  datatype RolloutOutcome =
    | RolledOut
    | NoService
    | RolloutRefused(caught: bool)
    | RolloutError(caught: bool)
    | RolloutLate(caught: bool)

  function BuildWrites(outcome: BuildOutcome): seq<Status> {
    match outcome
    case Built => [Building, ImageReady]
    case Unstarted => []
    case Early => [Building]
    case BuildError(caught) => [Building] + if caught then [BuildFailed] else []
    case Late(caught) => [Building, ImageReady] + if caught then [BuildFailed] else []
  }

  function RolloutWrites(from: Status, outcome: RolloutOutcome): seq<Status> {
    if from != ImageReady && from != Deploying then []
    else
      (if from == ImageReady && !outcome.NoService? && !outcome.RolloutRefused? then [Deploying] else []) +
      match outcome
      case RolledOut => [Ready]
      case NoService => []
      case RolloutRefused(caught) => if caught then [Failed] else []
      case RolloutError(caught) => if caught then [Failed] else []
      case RolloutLate(caught) => [Ready] + if caught then [Failed] else []
  }

  /** The log after the unchecked updates, one by one. */
  function Written(log: Log, id: Id, writes: seq<Status>): Log {
    if writes == [] then log
    else Updated(Written(log, id, writes[..|writes| - 1]), id, Set(writes[|writes| - 1]), DEFAULTS)
  }

  lemma {:induction false} LastWriteStands(log: Log, id: Id, writes: seq<Status>)
    requires id in log.deployments
    ensures var status := if writes == [] then log.deployments[id] else writes[|writes| - 1];
            Written(log, id, writes).deployments == log.deployments[id := status]
  {
    if writes != [] {
      LastWriteStands(log, id, writes[..|writes| - 1]);
    }
  }

  /** Runs the build handler for a deployment; it reports success exactly when the job may be completed. */
  method ProcessBuild(store: DeploymentStore, id: Id, outcome: BuildOutcome) returns (ok: bool)
    modifies store
    ensures ok <==> id in old(store.deployments) && outcome == Built
    ensures store.Contents()
         == if id in old(store.deployments) then Written(old(store.Contents()), id, BuildWrites(outcome)) else old(store.Contents())
    ensures id in old(store.deployments) ==>
              id in store.deployments
              && match outcome
                 case Built => store.deployments[id] == ImageReady
                 case Unstarted => store.deployments[id] == old(store.deployments)[id]
                 case Early => store.deployments[id] == Building
                 case BuildError(caught) => store.deployments[id] == if caught then BuildFailed else Building
                 case Late(caught) => store.deployments[id] == if caught then BuildFailed else ImageReady
  {
    assert Written(store.Contents(), id, []) == store.Contents();
    hide Written;
    if id in store.deployments {
      LastWriteStands(store.Contents(), id, BuildWrites(outcome));
    }
    if id !in store.deployments || outcome.Unstarted? {
      return false;
    }
    ghost var start := store.Contents();
    ghost var writes := WriteStatus(store, id, Building, start, []);
    assert writes == [Building];
    if !outcome.Early? {
      TryBuild(store, id, outcome, start);
    }
    ok := outcome.Built?;
  }

  /** The guarded part of the handler: the build, the image-ready update, and the recording of what was thrown. */
  method TryBuild(store: DeploymentStore, id: Id, outcome: BuildOutcome, ghost start: Log)
    requires !outcome.Unstarted? && !outcome.Early? && store.Contents() == Written(start, id, [Building])
    modifies store
    ensures store.Contents() == Written(start, id, BuildWrites(outcome))
  {
    hide Written;
    ghost var writes := [Building];
    if !outcome.BuildError? {
      writes := WriteStatus(store, id, ImageReady, start, writes);
    }
    if !outcome.Built? && outcome.caught {
      writes := WriteStatus(store, id, BuildFailed, start, writes);
    }
    assert writes == BuildWrites(outcome);
  }

  /** Appends one more unchecked status write to those already made. */
  method WriteStatus(store: DeploymentStore, id: Id, status: Status, ghost start: Log, ghost before: seq<Status>)
    returns (ghost writes: seq<Status>)
    requires store.Contents() == Written(start, id, before)
    modifies store
    ensures writes == before + [status] && store.Contents() == Written(start, id, writes)
  {
    var _ := store.Update(id, Set(status), DEFAULTS);
    writes := before + [status];
    assert writes[..|before|] == before;
  }

  /** Rolls an image-ready deployment out, or resumes a rollout that was under way. */
  method ProcessRollout(store: DeploymentStore, id: Id, outcome: RolloutOutcome) returns (processed: bool)
    modifies store
    ensures processed <==> (id in old(store.deployments) && outcome == RolledOut
                            && (old(store.deployments)[id] == ImageReady || old(store.deployments)[id] == Deploying))
    ensures store.Contents()
         == if id in old(store.deployments)
            then Written(old(store.Contents()), id, RolloutWrites(old(store.deployments)[id], outcome))
            else old(store.Contents())
    ensures processed ==> id in store.deployments && store.deployments[id] == Ready
    ensures id in old(store.deployments) && (old(store.deployments)[id] == ImageReady || old(store.deployments)[id] == Deploying) ==>
              id in store.deployments
              && match outcome
                 case RolledOut => store.deployments[id] == Ready
                 case NoService => store.deployments[id] == old(store.deployments)[id]
                 case RolloutRefused(caught) => store.deployments[id] == if caught then Failed else old(store.deployments)[id]
                 case RolloutError(caught) => store.deployments[id] == if caught then Failed else Deploying
                 case RolloutLate(caught) => store.deployments[id] == if caught then Failed else Ready
  {
    if id in store.deployments {
      LastWriteStands(store.Contents(), id, RolloutWrites(store.deployments[id], outcome));
    }
    if id !in store.deployments {
      return false;
    }
    var status := store.deployments[id];
    if (status != ImageReady && status != Deploying) || outcome.NoService? {
      return false;
    }
    ghost var start := store.Contents();
    TryRollout(store, id, status, outcome, start);
    processed := outcome.RolledOut?;
  }

  /** The guarded part of the rollout, and the recording of what was thrown in it. */
  method TryRollout(store: DeploymentStore, id: Id, status: Status, outcome: RolloutOutcome, ghost start: Log)
    requires (status == ImageReady || status == Deploying) && !outcome.NoService? && store.Contents() == Written(start, id, [])
    modifies store
    ensures store.Contents() == Written(start, id, RolloutWrites(status, outcome))
  {
    hide Written;
    ghost var writes: seq<Status> := [];
    if status != Deploying && !outcome.RolloutRefused? {
      writes := WriteStatus(store, id, Deploying, start, writes);
    }
    if !outcome.RolloutError? && !outcome.RolloutRefused? {
      writes := WriteStatus(store, id, Ready, start, writes);
    }
    if !outcome.RolledOut? && outcome.caught {
      writes := WriteStatus(store, id, Failed, start, writes);
    }
    assert writes == RolloutWrites(status, outcome);
  }

  /**
   The build handler never looks at the status it starts from: its writes obey the table exactly when it makes none, or
   when it starts where a build may start and records no error after the image.
   */
  lemma BuildWritesAllowedExactly(from: Status, outcome: BuildOutcome)
    ensures Path([from] + BuildWrites(outcome))
        <==> outcome == Unstarted || (CanTransition(from, Building) && outcome != Late(true))
  {
    var p := [from] + BuildWrites(outcome);
    if outcome != Unstarted {
      assert p[0] == from && p[1] == Building;
      if !CanTransition(from, Building) {
        assert !CanTransition(p[0], p[1]);
      } else if outcome == Late(true) {
        assert p[2] == ImageReady && p[3] == BuildFailed;
        assert !CanTransition(p[2], p[3]);
      }
    }
  }

  /** So a build job that was still queued when its deployment was cancelled breaks the table with its first write. */
  lemma BuildAfterCancelIsIllegal(outcome: BuildOutcome)
    ensures Path([Cancelled] + BuildWrites(outcome)) <==> outcome == Unstarted
  {
    BuildWritesAllowedExactly(Cancelled, outcome);
  }

  /** The rollout likewise, except for an error recorded after the ready update. */
  lemma RolloutWritesAllowedExactly(from: Status, outcome: RolloutOutcome)
    ensures Path([from] + RolloutWrites(from, outcome))
        <==> (from != ImageReady && from != Deploying) || outcome != RolloutLate(true)
  {
    var p := [from] + RolloutWrites(from, outcome);
    if (from == ImageReady || from == Deploying) && outcome == RolloutLate(true) {
      assert p[|p| - 2] == Ready && p[|p| - 1] == Failed;
      assert !CanTransition(p[|p| - 2], p[|p| - 1]);
    }
  }

  /** The handler's writes keep the event log replaying. */
  lemma {:induction false} WrittenReplays(log: Log, id: Id, writes: seq<Status>, origin: Status)
    requires LogReplays(log, id, origin)
    ensures LogReplays(Written(log, id, writes), id, origin)
    ensures Written(log, id, writes).deployments[id] == if writes == [] then log.deployments[id] else writes[|writes| - 1]
  {
    if writes != [] {
      var front := writes[..|writes| - 1];
      WrittenReplays(log, id, front, origin);
      StepReplaysExactly(Written(log, id, front), Update(id, Set(writes[|writes| - 1]), DEFAULTS), id, origin);
    }
  }

  // ---- One build job, its deployment and the rollout, interleaved ----

  datatype Builder =
    | Away
    | Claimed(claim: W.Job)
    | Started(claim: W.Job)
    | Imaged(claim: W.Job)
    | Caught(claim: W.Job, late: bool)
    | Thrown(claim: W.Job, outcome: BuildOutcome)
    | Lost(claim: W.Job)

  datatype Rollout = Off | Read(status: Status) | Rolling | RolledReady | RolloutCaught

  /**
   How a call ended: its completion was stored, or the job was given up. A build whose completion could not be stored is
   given up as built.
   */
  datatype Ending = Stored | GivenUp(outcome: BuildOutcome)

  /** Who has written the status since the builder's last write. */
  datatype Writer = Nobody | ByRollout | ByCancel

  /** The history lists how the finished calls ended, oldest first. */
  datatype State = State(
    job: W.Job,
    deployment: Status,
    builder: Builder,
    rollout: Rollout,
    history: seq<Ending>,
    since: Writer)

  /**
   Steps of the builder, then of the rollout, the cancellation of the deployment, and the faults of a repository whose
   reads and writes may throw. A lost worker has died, or failed to store even that it gives the job up; nothing claims
   its job again. An abandoned rollout ends without another write.
   */
  datatype Step =
    | Claim(now: int, lease: int, worker: Id)
    | StartBuild
    | FailBuild
    | WriteImageReady
    | Complete
    | RecordBuildFailed
    | Report(at: int, retryable: bool, backoff: W.Backoff)
    | ReadStatus
    | StartRollout
    | WriteReady
    | FailRollout
    | EndRollout
    | RecordFailed
    | AbandonRollout
    | Cancel
    | StartFault
    | EarlyFault
    | LateFault
    | UncaughtFault
    | CompleteFault
    | Lose
    | RolloutStartFault
    | RolloutLateFault

  predicate BuilderFault(step: Step) {
    step.StartFault? || step.EarlyFault? || step.LateFault? || step.UncaughtFault? || step.CompleteFault?
  }

  predicate Enabled(s: State, step: Step) {
    match step
    case Claim(now, lease, _) => s.builder.Away? && W.Ready(s.job, now, lease)
    case StartBuild => s.builder.Claimed?
    case FailBuild => s.builder.Started?
    case WriteImageReady => s.builder.Started?
    case Complete => s.builder.Imaged?
    case RecordBuildFailed => s.builder.Caught?
    case Report(_, _, _) => s.builder.Thrown?
    case ReadStatus => s.rollout.Off? && (s.deployment == ImageReady || s.deployment == Deploying)
    case StartRollout => s.rollout.Read?
    case WriteReady => s.rollout.Rolling?
    case FailRollout => s.rollout.Rolling?
    case EndRollout => s.rollout.RolledReady?
    case RecordFailed => s.rollout.RolloutCaught?
    case AbandonRollout => !s.rollout.Off?
    case Cancel => CanTransition(s.deployment, Cancelled)
    case StartFault => s.builder.Claimed?
    case EarlyFault => s.builder.Started?
    case LateFault => s.builder.Imaged?
    case UncaughtFault => s.builder.Caught?
    case CompleteFault => s.builder.Imaged?
    case Lose => !s.builder.Away? && !s.builder.Lost?
    case RolloutStartFault => s.rollout.Read?
    case RolloutLateFault => s.rollout.RolledReady?
  }

  function Apply(s: State, step: Step): State
    requires Enabled(s, step)
  {
    match step
    case Claim(now, _, worker) => s.(job := W.Claimed(s.job, now, worker), builder := Claimed(W.Claimed(s.job, now, worker)))
    case StartBuild => s.(deployment := Building, builder := Started(s.builder.claim), since := Nobody)
    case FailBuild => s.(builder := Caught(s.builder.claim, false))
    case WriteImageReady => s.(deployment := ImageReady, builder := Imaged(s.builder.claim), since := Nobody)
    case Complete => s.(job := W.CompleteRecord(s.builder.claim), builder := Away, history := s.history + [Stored])
    case RecordBuildFailed =>
      s.(deployment := BuildFailed,
         builder := Thrown(s.builder.claim, if s.builder.late then Late(true) else BuildError(true)),
         since := Nobody)
    case Report(at, retryable, backoff) =>
      s.(job := W.FailRecord(s.builder.claim, at, retryable, backoff),
         builder := Away,
         history := s.history + [GivenUp(s.builder.outcome)])
    case ReadStatus => s.(rollout := Read(s.deployment))
    case StartRollout =>
      if s.rollout.status == Deploying then s.(rollout := Rolling)
      else s.(deployment := Deploying, rollout := Rolling, since := ByRollout)
    case WriteReady => s.(deployment := Ready, rollout := RolledReady, since := ByRollout)
    case FailRollout => s.(rollout := RolloutCaught)
    case EndRollout => s.(rollout := Off)
    case RecordFailed => s.(deployment := Failed, rollout := Off, since := ByRollout)
    case AbandonRollout => s.(rollout := Off)
    case Cancel => s.(deployment := Cancelled, since := ByCancel)
    case StartFault => s.(builder := Thrown(s.builder.claim, Unstarted))
    case EarlyFault => s.(builder := Thrown(s.builder.claim, Early))
    case LateFault => s.(builder := Caught(s.builder.claim, true))
    case UncaughtFault =>
      s.(builder := Thrown(s.builder.claim, if s.builder.late then Late(false) else BuildError(false)))
    case CompleteFault => s.(builder := Thrown(s.builder.claim, Built))
    case Lose => s.(builder := Lost(s.builder.claim))
    case RolloutStartFault => s.(rollout := RolloutCaught)
    case RolloutLateFault => s.(rollout := RolloutCaught)
  }

  /** A fresh build job of a fresh deployment. */
  predicate Initial(s: State) {
    s.job.status == W.Queued && s.job.attempts == 0 && s.deployment == Queued && s.builder.Away? && s.rollout.Off? && s.history == []
    && s.since == Nobody
  }

  predicate Valid(s: State, run: seq<Step>)
    decreases |run|
  {
    run == [] || (Enabled(s, run[0]) && Valid(Apply(s, run[0]), run[1..]))
  }

  function After(s: State, run: seq<Step>): State
    requires Valid(s, run)
    decreases |run|
  {
    if run == [] then s else After(Apply(s, run[0]), run[1..])
  }

  predicate PastImage(status: Status) {
    status == ImageReady || status == Deploying || status == Ready || status == Failed
  }

  /** What the job's status says about the deployment, with the builder away. */
  predicate JobFits(job: W.Job, deployment: Status) {
    && (job.status == W.Queued ==> job.attempts >= 0 && deployment == if job.attempts == 0 then Queued else BuildFailed)
    && (job.status == W.Failed ==> deployment == BuildFailed)
    && (job.status == W.Succeeded ==> PastImage(deployment))
    && job.status != W.Running && job.status != W.Cancelled
  }

  // ---- When job and deployment move together: one call ----

  /** The job record that a finished call leaves. */
  function AnswerFor(claim: W.Job, ending: Ending, at: int, retryable: bool, backoff: W.Backoff): W.Job {
    if ending == Stored then W.CompleteRecord(claim) else W.FailRecord(claim, at, retryable, backoff)
  }

  function OutcomeOf(ending: Ending): BuildOutcome {
    if ending == Stored then Built else ending.outcome
  }

  /** The call's completion was stored, or its failure recorded. */
  predicate Settles(ending: Ending) {
    ending == Stored || ending == GivenUp(BuildError(true)) || ending == GivenUp(Late(true))
  }

  function StatusAfter(from: Status, ending: Ending): Status {
    var writes := BuildWrites(OutcomeOf(ending));
    if writes == [] then from else writes[|writes| - 1]
  }

  /** One call leaves job and deployment in step exactly when it settles, or changes nothing where a failure was recorded before. */
  lemma CallLinksExactly(claim: W.Job, from: Status, ending: Ending, at: int, retryable: bool, backoff: W.Backoff)
    requires claim.attempts > 0
    ensures JobFits(AnswerFor(claim, ending, at, retryable, backoff), StatusAfter(from, ending))
        <==> Settles(ending) || (ending == GivenUp(Unstarted) && from == BuildFailed)
  {
  }

  // ---- Runs with every fault, the rollout and cancellation interleaved ----

  /** The status that the finished calls alone have written last. */
  function StatusOf(history: seq<Ending>): Status {
    if history == [] then Queued else StatusAfter(StatusOf(history[..|history| - 1]), history[|history| - 1])
  }

  /** The last call that wrote anything settled. */
  predicate LastWriterSettled(history: seq<Ending>) {
    if history == [] then false
    else if history[|history| - 1] == GivenUp(Unstarted) then LastWriterSettled(history[..|history| - 1])
    else Settles(history[|history| - 1])
  }

  /** A completion can only be the last ending, as nothing claims a succeeded job. */
  predicate HistoryInv(s: State) {
    && (forall i :: 0 <= i < |s.history| && s.history[i] == Stored ==> i == |s.history| - 1 && s.builder.Away?)
    && (s.builder.Away? ==>
          if s.history == [] then s.job.status == W.Queued && s.job.attempts == 0
          else s.job.attempts > 0 && if s.history[|s.history| - 1] == Stored then s.job.status == W.Succeeded
                                     else s.job.status == W.Queued || s.job.status == W.Failed)
    && (!s.builder.Away? ==> s.builder.claim.attempts > 0)
  }

  /** What the builder has written last, the call under way included. */
  predicate BuilderWrote(s: State, status: Status) {
    match s.builder
    case Away => status == StatusOf(s.history)
    case Claimed(_) => status == StatusOf(s.history)
    case Started(_) => status == Building
    case Imaged(_) => status == ImageReady
    case Caught(_, late) => status == if late then ImageReady else Building
    case Thrown(_, outcome) => status == StatusAfter(StatusOf(s.history), GivenUp(outcome))
    case Lost(_) => true
  }

  predicate StatusInv(s: State) {
    match s.since
    case Nobody => BuilderWrote(s, s.deployment)
    case ByRollout => s.deployment == Deploying || s.deployment == Ready || s.deployment == Failed
    case ByCancel => s.deployment == Cancelled
  }

  lemma StatusFurther(history: seq<Ending>, ending: Ending)
    ensures StatusOf(history + [ending]) == StatusAfter(StatusOf(history), ending)
  {
    assert (history + [ending])[..|history|] == history;
  }

  lemma StepKeepsHistory(s: State, step: Step)
    requires HistoryInv(s) && Enabled(s, step)
    ensures HistoryInv(Apply(s, step))
  {
    hide W.RetryDelay;
  }

  /** A step of the rollout or a cancellation. */
  predicate ByOthers(step: Step) {
    step.ReadStatus? || step.StartRollout? || step.WriteReady? || step.FailRollout? || step.EndRollout? || step.RecordFailed?
    || step.AbandonRollout? || step.Cancel? || step.RolloutStartFault? || step.RolloutLateFault?
  }

  lemma OthersKeepStatus(s: State, step: Step)
    requires StatusInv(s) && Enabled(s, step) && ByOthers(step)
    ensures StatusInv(Apply(s, step))
  {
    hide BuilderWrote;
    var t := Apply(s, step);
    assert t.since != Nobody || (t.since == s.since && t.deployment == s.deployment);
    SameBuilder(s, t, s.deployment);
  }

  lemma SameBuilder(s: State, t: State, status: Status)
    requires s.builder == t.builder && s.history == t.history
    ensures BuilderWrote(s, status) == BuilderWrote(t, status)
  {
    hide StatusOf, StatusAfter;
  }

  lemma StatusesAfter(from: Status)
    ensures StatusAfter(from, Stored) == StatusAfter(from, GivenUp(Built)) == ImageReady
    ensures StatusAfter(from, GivenUp(Unstarted)) == from && StatusAfter(from, GivenUp(Early)) == Building
    ensures StatusAfter(from, GivenUp(BuildError(true))) == BuildFailed && StatusAfter(from, GivenUp(BuildError(false))) == Building
    ensures StatusAfter(from, GivenUp(Late(true))) == BuildFailed && StatusAfter(from, GivenUp(Late(false))) == ImageReady
  {
  }

  lemma FinishKeepsStatus(s: State, step: Step)
    requires StatusInv(s) && Enabled(s, step) && (step.Complete? || step.Report?)
    ensures StatusInv(Apply(s, step))
  {
    hide StatusOf, StatusAfter, W.FailRecord, W.CompleteRecord;
    if step.Complete? {
      StatusFurther(s.history, Stored);
      StatusesAfter(StatusOf(s.history));
    } else {
      StatusFurther(s.history, GivenUp(s.builder.outcome));
    }
  }

  lemma BuilderKeepsStatus(s: State, step: Step)
    requires StatusInv(s) && Enabled(s, step) && !ByOthers(step) && !step.Complete? && !step.Report?
    ensures StatusInv(Apply(s, step))
  {
    hide StatusOf, StatusAfter;
    StatusesAfter(StatusOf(s.history));
  }

  lemma StepKeepsStatus(s: State, step: Step)
    requires StatusInv(s) && Enabled(s, step)
    ensures StatusInv(Apply(s, step))
  {
    hide StatusInv, Apply, Enabled;
    if ByOthers(step) {
      OthersKeepStatus(s, step);
    } else if step.Complete? || step.Report? {
      FinishKeepsStatus(s, step);
    } else {
      BuilderKeepsStatus(s, step);
    }
  }

  lemma {:induction false} RunKeepsHistory(s: State, run: seq<Step>)
    requires HistoryInv(s) && StatusInv(s) && Valid(s, run)
    ensures HistoryInv(After(s, run)) && StatusInv(After(s, run))
    decreases |run|
  {
    if run != [] {
      StepKeepsHistory(s, run[0]);
      StepKeepsStatus(s, run[0]);
      RunKeepsHistory(Apply(s, run[0]), run[1..]);
    }
  }

  lemma {:induction false} SettledMeansFailed(history: seq<Ending>)
    requires forall i :: 0 <= i < |history| ==> history[i] != Stored
    ensures StatusOf(history) == BuildFailed <==> LastWriterSettled(history)
  {
    if history != [] {
      SettledMeansFailed(history[..|history| - 1]);
    }
  }

  /** A completion stands whatever the rollout does, until the deployment is cancelled; anything else must still be the last write. */
  predicate InStep(history: seq<Ending>, since: Writer) {
    if history == [] then since == Nobody
    else if history[|history| - 1] == Stored then since != ByCancel
    else LastWriterSettled(history) && since == Nobody
  }

  /**
   Over every run, whatever throws in builder and rollout and whenever the deployment is cancelled: between two calls job
   and deployment are in step exactly when the completion of the last call was stored and no cancellation followed, or
   the last call that wrote anything recorded its failure, or none was made yet, and nobody else has written since.
   */
  lemma LinkHoldsExactly(start: State, run: seq<Step>)
    requires Initial(start) && Valid(start, run)
    ensures var s := After(start, run);
            s.builder.Away? ==> (JobFits(s.job, s.deployment) <==> InStep(s.history, s.since))
  {
    RunKeepsHistory(start, run);
    var s := After(start, run);
    if s.builder.Away? && s.history != [] && s.history[|s.history| - 1] != Stored {
      SettledMeansFailed(s.history);
    }
  }

  // ---- Runs without faults of the builder, the rollout interleaved and with every fault ----

  predicate Inv(s: State) {
    && (match s.builder
        case Away => JobFits(s.job, s.deployment)
        case Claimed(_) => s.deployment == Queued || s.deployment == BuildFailed
        case Started(_) => s.deployment == Building
        case Imaged(_) => PastImage(s.deployment)
        case Caught(_, late) => !late && s.deployment == Building
        case Thrown(_, _) => s.deployment == BuildFailed
        case Lost(_) => true)
    && (!s.builder.Away? ==> s.job == s.builder.claim && s.job.status == W.Running && s.job.attempts > 0)
    && (match s.rollout
        case Off => true
        case Read(status) => s.deployment == status && (status == ImageReady || status == Deploying)
        case Rolling => s.deployment == Deploying
        case RolledReady => s.deployment == Ready
        case RolloutCaught => s.deployment == ImageReady || s.deployment == Deploying || s.deployment == Ready)
  }

  /** The one write that breaks the table: a rollout failure recorded over a ready deployment. */
  predicate Undoes(s: State, step: Step) {
    step.RecordFailed? && s.deployment == Ready
  }

  lemma StepKeepsInv(s: State, step: Step)
    requires Inv(s) && Enabled(s, step) && !BuilderFault(step) && !step.Cancel?
    ensures Inv(Apply(s, step))
    ensures CanTransition(s.deployment, Apply(s, step).deployment) <==> !Undoes(s, step)
  {
  }

  lemma {:induction false} RunKeepsInv(s: State, run: seq<Step>)
    requires Inv(s) && Valid(s, run) && forall step :: step in run ==> !BuilderFault(step) && !step.Cancel?
    ensures Inv(After(s, run))
    decreases |run|
  {
    if run != [] {
      assert run[0] in run && forall step :: step in run[1..] ==> step in run;
      StepKeepsInv(s, run[0]);
      RunKeepsInv(Apply(s, run[0]), run[1..]);
    }
  }

  /**
   As long as no read or write of the builder throws, job and deployment move together over all retries, whatever
   happens to the rollout; and an unchecked status write is an allowed transition exactly when it does not record a
   rollout failure over a ready deployment.
   */
  lemma JobAndDeploymentMoveTogether(start: State, run: seq<Step>, step: Step)
    requires Initial(start) && Valid(start, run) && forall r :: r in run ==> !BuilderFault(r) && !r.Cancel?
    ensures var s := After(start, run);
            && (s.job.status == W.Queued ==> s.deployment == if s.job.attempts == 0 then Queued else BuildFailed)
            && (s.job.status == W.Failed ==> s.deployment == BuildFailed)
            && (s.job.status == W.Succeeded ==> PastImage(s.deployment))
            && (Enabled(s, step) && !BuilderFault(step) && !step.Cancel? ==>
                  (CanTransition(s.deployment, Apply(s, step).deployment) <==> !Undoes(s, step)))
  {
    RunKeepsInv(start, run);
    var s := After(start, run);
    if Enabled(s, step) && !BuilderFault(step) && !step.Cancel? {
      StepKeepsInv(s, step);
    }
  }

  lemma OneStep(s: State, step: Step)
    requires Enabled(s, step)
    ensures Valid(s, [step]) && After(s, [step]) == Apply(s, step)
  {
    var t := Apply(s, step);
    assert [step][1..] == [] && Valid(t, []) && After(t, []) == t;
  }

  lemma StepThen(s: State, step: Step, run: seq<Step>)
    requires Enabled(s, step) && Valid(Apply(s, step), run)
    ensures Valid(s, [step] + run) && After(s, [step] + run) == After(Apply(s, step), run)
  {
    assert ([step] + run)[1..] == run;
  }

  lemma TwoSteps(s: State, first: Step, second: Step)
    requires Enabled(s, first) && Enabled(Apply(s, first), second)
    ensures Valid(s, [first] + [second]) && After(s, [first] + [second]) == Apply(Apply(s, first), second)
  {
    OneStep(Apply(s, first), second);
    StepThen(s, first, [second]);
  }

  predicate GivenUpBuilding(s: State) {
    s.deployment == Building && (s.job.status == W.Queued || s.job.status == W.Failed) && !JobFits(s.job, s.deployment)
  }

  /**
   A fault before the build, or one while its failure is being recorded, gives the job up with the deployment still
   building.
   */
  lemma FaultsBreakTheLink(s: State, fault: Step, report: Step)
    requires Inv(s) && Enabled(s, fault) && (fault.EarlyFault? || fault.UncaughtFault?) && report.Report?
    ensures Valid(s, [fault] + [report]) && GivenUpBuilding(After(s, [fault] + [report]))
  {
    TwoSteps(s, fault, report);
  }

  /** A failure recorded after the image-ready or the ready update is a transition that the table never allows there. */
  lemma FaultsBreakTheTable(s: State, fault: Step)
    requires Inv(s) && Enabled(s, fault) && (fault.LateFault? || fault.RolloutLateFault?)
    ensures var record := if fault.LateFault? then RecordBuildFailed else RecordFailed;
            Valid(s, [fault] + [record]) && !CanTransition(s.deployment, After(s, [fault] + [record]).deployment)
  {
    TwoSteps(s, fault, if fault.LateFault? then RecordBuildFailed else RecordFailed);
  }

  // ---- Cancellation ----

  /** The step stores a status other than cancelled. */
  predicate Overwrites(s: State, step: Step) {
    step.StartBuild? || step.WriteImageReady? || step.RecordBuildFailed? || step.WriteReady? || step.RecordFailed?
    || (step.StartRollout? && s.rollout.Read? && s.rollout.status != Deploying)
  }

  ghost predicate AlwaysCancelled(s: State, run: seq<Step>)
    requires Valid(s, run)
    decreases |run|
  {
    s.deployment == Cancelled && (run == [] || AlwaysCancelled(Apply(s, run[0]), run[1..]))
  }

  ghost predicate NeverOverwrites(s: State, run: seq<Step>)
    requires Valid(s, run)
    decreases |run|
  {
    run == [] || (!Overwrites(s, run[0]) && NeverOverwrites(Apply(s, run[0]), run[1..]))
  }

  /** A cancelled deployment stays cancelled over a run exactly when neither builder nor rollout writes a status any more. */
  lemma {:induction false} CancelledKeptExactly(s: State, run: seq<Step>)
    requires Valid(s, run) && s.deployment == Cancelled
    ensures AlwaysCancelled(s, run) <==> NeverOverwrites(s, run)
    decreases |run|
  {
    if run != [] {
      var t := Apply(s, run[0]);
      if t.deployment == Cancelled {
        CancelledKeptExactly(t, run[1..]);
      }
    }
  }

  // ---- The handlers' writes are what the machine stores ----

  function StoredBy(s: State, step: Step, others: bool): seq<Status>
    requires Enabled(s, step)
  {
    if Overwrites(s, step) && ByOthers(step) == others then [Apply(s, step).deployment] else []
  }

  /** The statuses that a run stores, those of rollout and cancellation or those of the builder. */
  function Stores(s: State, run: seq<Step>, others: bool): seq<Status>
    requires Valid(s, run)
    decreases |run|
  {
    if run == [] then [] else StoredBy(s, run[0], others) + Stores(Apply(s, run[0]), run[1..], others)
  }

  /** What a builder in the middle of a call has stored. */
  function SoFar(builder: Builder): seq<Status> {
    match builder
    case Away => []
    case Claimed(_) => []
    case Started(_) => [Building]
    case Imaged(_) => [Building, ImageReady]
    case Caught(_, late) => if late then [Building, ImageReady] else [Building]
    case Thrown(_, outcome) => BuildWrites(outcome)
    case Lost(_) => []
  }

  predicate InCall(builder: Builder) {
    !builder.Away? && !builder.Lost?
  }

  /** The steps with which a call ends. */
  predicate EndsCall(step: Step) {
    step.Complete? || step.Report? || step.Lose?
  }

  lemma BuilderStepStores(s: State, step: Step)
    requires Enabled(s, step) && InCall(s.builder) && !EndsCall(step)
    ensures InCall(Apply(s, step).builder)
    ensures SoFar(Apply(s, step).builder)
         == SoFar(s.builder) + StoredBy(s, step, false)
  {
  }

  predicate NoneEnds(run: seq<Step>) {
    forall i :: 0 <= i < |run| ==> !EndsCall(run[i])
  }

  lemma {:induction false} BuilderStores(s: State, run: seq<Step>)
    requires Valid(s, run) && InCall(s.builder) && NoneEnds(run)
    ensures InCall(After(s, run).builder)
    ensures SoFar(s.builder) + Stores(s, run, false) == SoFar(After(s, run).builder)
    decreases |run|
  {
    if run == [] {
      assert SoFar(s.builder) + [] == SoFar(s.builder);
    } else {
      hide Enabled, Apply, SoFar, StoredBy, EndsCall, InCall;
      var step, rest := run[0], run[1..];
      var next := Apply(s, step);
      BuilderStepStores(s, step);
      BuilderStores(next, rest);
      Regrouped(SoFar(s.builder), StoredBy(s, step, false), Stores(next, rest, false));
    }
  }

  lemma Regrouped(a: seq<Status>, b: seq<Status>, c: seq<Status>)
    ensures (a + b) + c == a + (b + c)
  {
  }

  /**
   Whatever rollout and cancellation do in between, one call of the build handler stores exactly the statuses of its
   outcome: those of a built image while its job can be completed, and those of the fault once it has thrown.
   */
  lemma BuildCallStores(s: State, run: seq<Step>)
    requires Valid(s, run) && s.builder.Claimed? && NoneEnds(run)
    ensures After(s, run).builder.Imaged? ==> Stores(s, run, false) == BuildWrites(Built)
    ensures After(s, run).builder.Thrown? ==> Stores(s, run, false) == BuildWrites(After(s, run).builder.outcome)
  {
    BuilderStores(s, run);
    assert [] + Stores(s, run, false) == Stores(s, run, false);
  }

  predicate EndsRollout(step: Step) {
    step.EndRollout? || step.RecordFailed? || step.AbandonRollout?
  }

  /** The run ends the rollout that is under way, and it does so with its last step. */
  predicate OneRollout(run: seq<Step>) {
    run != [] && EndsRollout(run[|run| - 1]) && forall i :: 0 <= i < |run| - 1 ==> !EndsRollout(run[i])
  }

  /** How a rollout went, by how far it came, the faults in it and its end. */
  function RolloutBy(run: seq<Step>): RolloutOutcome
    requires run != []
  {
    var recorded := run[|run| - 1] == RecordFailed;
    if RolloutStartFault in run then RolloutRefused(recorded)
    else if StartRollout !in run then NoService
    else if FailRollout in run then RolloutError(recorded)
    else if WriteReady !in run then RolloutError(false)
    else if RolloutLateFault in run then RolloutLate(recorded)
    else if run[|run| - 1] == EndRollout then RolledOut
    else RolloutLate(false)
  }

  /** What a rollout still stores. */
  function StillStores(rollout: Rollout, run: seq<Step>): seq<Status>
    requires run != []
    decreases match rollout case Off => 0 case RolloutCaught => 1 case RolledReady => 2 case Rolling => 3 case Read(_) => 4
  {
    match rollout
    case Off => []
    case RolloutCaught => if run[|run| - 1] == RecordFailed then [Failed] else []
    case RolledReady => if RolloutLateFault in run then StillStores(RolloutCaught, run) else []
    case Rolling =>
      if FailRollout in run then StillStores(RolloutCaught, run)
      else if WriteReady in run then [Ready] + StillStores(RolledReady, run)
      else []
    case Read(status) =>
      if RolloutStartFault in run then StillStores(RolloutCaught, run)
      else if StartRollout in run then (if status == Deploying then [] else [Deploying]) + StillStores(Rolling, run)
      else []
  }

  predicate Behind(rollout: Rollout, step: Step) {
    match rollout
    case Off => false
    case Read(_) => false
    case Rolling => step.StartRollout? || step.RolloutStartFault?
    case RolledReady => step.StartRollout? || step.RolloutStartFault? || step.WriteReady? || step.FailRollout?
    case RolloutCaught =>
      step.StartRollout? || step.RolloutStartFault? || step.WriteReady? || step.FailRollout? || step.RolloutLateFault? || step.EndRollout?
  }

  /** A rollout does not go back to what is behind it. */
  lemma {:induction false} NeverGoesBack(s: State, run: seq<Step>, step: Step)
    requires Valid(s, run) && OneRollout(run) && Behind(s.rollout, step)
    ensures step !in run
    decreases |run|
  {
    assert run[0] != step;
    if |run| > 1 {
      assert !EndsRollout(run[0]);
      NeverGoesBack(Apply(s, run[0]), run[1..], step);
      assert forall other :: other in run <==> other == run[0] || other in run[1..];
    }
  }

  /** The steps by which a rollout can still move on. */
  predicate Ahead(rollout: Rollout, step: Step) {
    match rollout
    case Off => false
    case Read(_) => true
    case Rolling => step.FailRollout? || step.WriteReady? || step.RolloutLateFault?
    case RolledReady => step.RolloutLateFault?
    case RolloutCaught => false
  }

  lemma SameBehind(rollout: Rollout, step: Step, rest: seq<Step>)
    requires rest != [] && (Ahead(rollout, step) ==> rollout.Read? && HasNoPart(step))
    ensures StillStores(rollout, [step] + rest) == StillStores(rollout, rest)
  {
    var run := [step] + rest;
    assert run[|run| - 1] == rest[|rest| - 1];
    assert forall other :: other in run <==> other == step || other in rest;
  }

  /** A step that has no part in a rollout under way. */
  predicate HasNoPart(step: Step) {
    !(step.StartRollout? || step.RolloutStartFault? || step.WriteReady? || step.FailRollout? || step.RolloutLateFault?)
  }

  /** The first step of a rollout's run stores the first of what the rollout still stores. */
  lemma FirstStores(s: State, run: seq<Step>)
    requires Valid(s, run) && OneRollout(run) && |run| > 1 && !s.rollout.Off?
    ensures var next := Apply(s, run[0]);
            && !next.rollout.Off? && OneRollout(run[1..])
            && (Ahead(next.rollout, run[0]) ==> next.rollout.Read? && HasNoPart(run[0]))
            && StillStores(s.rollout, run)
               == StoredBy(s, run[0], true) + StillStores(next.rollout, run)
  {
    var step, rest, next := run[0], run[1..], Apply(s, run[0]);
    assert !EndsRollout(step);
    assert forall other :: other in run <==> other == step || other in rest;
    forall other | Behind(next.rollout, other)
      ensures other !in rest
    {
      NeverGoesBack(next, rest, other);
    }
  }

  lemma {:induction false} RolloutStores(s: State, run: seq<Step>)
    requires Valid(s, run) && OneRollout(run) && !s.rollout.Off?
    ensures Stores(s, run, true) == StillStores(s.rollout, run)
    decreases |run|
  {
    var step, rest := run[0], run[1..];
    if rest == [] {
      assert run == [step];
    } else {
      FirstStores(s, run);
      RolloutStores(Apply(s, step), rest);
      assert run == [step] + rest;
      SameBehind(Apply(s, step).rollout, step, rest);
    }
  }

  /** A rollout that ends without an error has passed every step and met no fault. */
  lemma {:induction false} EndsAfterReady(s: State, run: seq<Step>)
    requires Valid(s, run) && OneRollout(run) && !s.rollout.Off? && run[|run| - 1] == EndRollout
    ensures RolloutStartFault !in run && FailRollout !in run && RolloutLateFault !in run && !s.rollout.RolloutCaught?
    ensures s.rollout.Read? ==> StartRollout in run
    ensures s.rollout.Read? || s.rollout.Rolling? ==> WriteReady in run
    decreases |run|
  {
    assert forall other :: other in run <==> other == run[0] || other in run[1..];
    if |run| > 1 {
      assert !EndsRollout(run[0]);
      EndsAfterReady(Apply(s, run[0]), run[1..]);
    }
  }

  /**
   Whatever builder and cancellation do in between, a rollout that has read the status stores exactly the statuses of its
   outcome, for every way in which it can end, and it has rolled out exactly if it ends without an error.
   */
  lemma RolloutCallStores(s: State, run: seq<Step>)
    requires Valid(s, run) && OneRollout(run) && s.rollout.Read? && (s.rollout.status == ImageReady || s.rollout.status == Deploying)
    ensures Stores(s, run, true) == RolloutWrites(s.rollout.status, RolloutBy(run))
    ensures RolloutBy(run) == RolledOut <==> run[|run| - 1] == EndRollout
  {
    RolloutStores(s, run);
    if run[|run| - 1] == EndRollout {
      EndsAfterReady(s, run);
    }
  }

  /**
   Nothing of builder and rollout is under way that could still write: the rollout is off, and the build job is over or
   about to be, or its worker is lost.
   */
  predicate Quiet(s: State) {
    s.rollout.Off?
    && ((s.builder.Away? && s.job.status != W.Queued)
        || s.builder.Lost?
        || (s.builder.Thrown? && Max(0, s.builder.claim.attempts) >= W.EffectiveMax(s.builder.claim.maxAttempts)))
  }

  lemma {:induction false} QuietStays(s: State, run: seq<Step>)
    requires Quiet(s) && s.deployment == Cancelled && Valid(s, run)
    ensures After(s, run).deployment == Cancelled
    decreases |run|
  {
    if run != [] {
      QuietStays(Apply(s, run[0]), run[1..]);
    }
  }

  lemma LoudClaimed(s: State) returns (run: seq<Step>)
    requires s.builder.Claimed?
    ensures Valid(s, run) && After(s, run).deployment == Building
  {
    run := [StartBuild];
    OneStep(s, StartBuild);
  }

  lemma LoudQueued(s: State) returns (run: seq<Step>)
    requires s.builder.Away? && s.job.status == W.Queued
    ensures Valid(s, run) && After(s, run).deployment == Building
  {
    var now := if s.job.lockedAt.Some? then Max(s.job.runAfter, s.job.lockedAt.value) else s.job.runAfter;
    var claim := Claim(now, 0, 0);
    run := LoudClaimed(Apply(s, claim));
    StepThen(s, claim, run);
    run := [claim] + run;
  }

  lemma LoudBuilder(s: State) returns (run: seq<Step>)
    requires !Quiet(s) && s.rollout.Off? && !(s.builder.Away? && s.job.status != W.Queued)
    ensures Valid(s, run) && After(s, run).deployment != Cancelled
  {
    match s.builder
    case Away => run := LoudQueued(s);
    case Claimed(_) => run := LoudClaimed(s);
    case Started(_) =>
      run := [WriteImageReady];
      OneStep(s, WriteImageReady);
    case Caught(_, _) =>
      run := [RecordBuildFailed];
      OneStep(s, RecordBuildFailed);
    case Imaged(_) =>
      TwoSteps(s, LateFault, RecordBuildFailed);
      run := [LateFault] + [RecordBuildFailed];
    case Thrown(_, _) =>
      var report := Report(0, true, W.DEFAULT_BACKOFF);
      run := LoudQueued(Apply(s, report));
      StepThen(s, report, run);
      run := [report] + run;
  }

  lemma LoudRollout(s: State) returns (run: seq<Step>)
    requires !s.rollout.Off?
    ensures Valid(s, run) && After(s, run).deployment != Cancelled
  {
    match s.rollout
    case RolloutCaught =>
      run := [RecordFailed];
      OneStep(s, RecordFailed);
    case Rolling =>
      run := [WriteReady];
      OneStep(s, WriteReady);
    case Read(_) =>
      TwoSteps(s, StartRollout, WriteReady);
      run := [StartRollout] + [WriteReady];
    case RolledReady =>
      TwoSteps(s, RolloutLateFault, RecordFailed);
      run := [RolloutLateFault] + [RecordFailed];
  }

  /**
   With no other writer than builder and rollout, a cancellation is final exactly when at that moment no rollout is under
   way and the build job has ended, its last attempt has just been given up, or its worker is lost. A deployment whose job
   still waits is never finally cancelled.
   */
  lemma CancellationIsFinalExactly(s: State)
    requires s.deployment == Cancelled
    ensures (forall run :: Valid(s, run) ==> After(s, run).deployment == Cancelled) <==> Quiet(s)
  {
    if Quiet(s) {
      forall run | Valid(s, run)
        ensures After(s, run).deployment == Cancelled
      {
        QuietStays(s, run);
      }
    } else if s.rollout.Off? {
      var run := LoudBuilder(s);
    } else {
      var run := LoudRollout(s);
    }
  }
}
