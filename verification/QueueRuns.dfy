/**
 Whole runs of the list queue: what holds after any interleaving of enqueues, claims and answers
 by any number of workers, and why processing drains the queue.
 */
module QueueRuns {
  import opened Wrappers
  import opened Workflow
  import opened ListQueue

  /** The queue together with the claims that some worker still holds unanswered. */
  datatype State = State(jobs: seq<Job>, held: seq<Job>)

  datatype Event =
    | Enqueue(job: Job)
    | Claim(now: int, lease: int, worker: Id)
    | Reply(ticket: nat, handler: Handler, at: int, backoff: Backoff)

  const EMPTY := State([], [])

  /**
   Enqueues bring a fresh id and an unlocked queued job; a reply answers one held claim. A worker that
   dies simply never replies.
   */
  predicate Enabled(s: State, e: Event) {
    match e
    case Enqueue(job) => job.status == Queued && job.lockedAt == None && FirstWithId(s.jobs, job.id) == None
    case Claim(_, _, _) => true
    case Reply(ticket, _, _, _) => ticket < |s.held|
  }

  function Apply(s: State, e: Event): State
    requires Enabled(s, e)
  {
    match e
    case Enqueue(job) => s.(jobs := s.jobs + [job])
    case Claim(now, lease, worker) =>
      var claim := ClaimOf(s.jobs, now, lease, worker);
      State(AfterClaim(s.jobs, now, lease, worker), if claim.Some? then s.held + [claim.value] else s.held)
    case Reply(ticket, handler, at, backoff) =>
      State(Replaced(s.jobs, Answer(s.held[ticket], handler, at, backoff)), s.held[..ticket] + s.held[ticket + 1..])
  }

  predicate Valid(s: State, run: seq<Event>)
    decreases |run|
  {
    run == [] || (Enabled(s, run[0]) && Valid(Apply(s, run[0]), run[1..]))
  }

  function After(s: State, run: seq<Event>): State
    requires Valid(s, run)
    decreases |run|
  {
    if run == [] then s else After(Apply(s, run[0]), run[1..])
  }

  /** A job is running exactly when it is locked and exactly when one held claim is its record. */
  ghost predicate Inv(s: State) {
    && UniqueIds(s.jobs)
    && UniqueIds(s.held)
    && (forall i :: 0 <= i < |s.jobs| ==>
          (s.jobs[i].status == Running <==> s.jobs[i].lockedAt.Some?) &&
          (s.jobs[i].status == Running <==> s.jobs[i] in s.held))
    && (forall k :: 0 <= k < |s.held| ==> s.held[k] in s.jobs)
  }

  lemma ClaimKeepsInv(s: State, now: int, lease: int, worker: Id)
    requires Inv(s)
    ensures Inv(Apply(s, Claim(now, lease, worker)))
  {
    TsPickIsNext(s.jobs, now, lease);
    match TsPick(s.jobs, now, lease)
    case None =>
    case Some(n) =>
      var claim := Claimed(s.jobs[n], now, worker);
      var jobs, held := s.jobs[n := claim], s.held + [claim];
      assert Apply(s, Claim(now, lease, worker)) == State(jobs, held);
      forall k | 0 <= k < |s.held|
        ensures s.held[k].id != claim.id && s.held[k] in jobs
      {
        var i :| 0 <= i < |s.jobs| && s.jobs[i] == s.held[k];
        assert s.jobs[i] in s.held;
        assert i != n;
        assert jobs[i] == s.held[k];
      }
      assert jobs[n] == claim && held[|s.held|] == claim;
  }

  lemma AnswerReleases(claim: Job, handler: Handler, at: int, backoff: Backoff)
    ensures var job := Answer(claim, handler, at, backoff);
            job.id == claim.id && job.status != Running && job.lockedAt == None
  {
  }

  /** Writing a released record over a held job and dropping its claim keeps the invariant. */
  lemma ReleaseKeepsInv(s: State, ticket: nat, n: nat, answer: Job)
    requires Inv(s) && ticket < |s.held| && n < |s.jobs| && s.jobs[n] == s.held[ticket]
    requires answer.id == s.jobs[n].id && answer.status != Running && answer.lockedAt == None
    ensures Inv(State(s.jobs[n := answer], s.held[..ticket] + s.held[ticket + 1..]))
  {
    var jobs, held := s.jobs[n := answer], s.held[..ticket] + s.held[ticket + 1..];
    forall k | 0 <= k < |held|
      ensures held[k].id != answer.id && held[k] in jobs
    {
      assert held[k] == s.held[if k < ticket then k else k + 1];
      var i :| 0 <= i < |s.jobs| && s.jobs[i] == held[k];
      assert jobs[i] == held[k];
    }
    forall i | 0 <= i < |jobs|
      ensures jobs[i].status == Running <==> jobs[i] in held
    {
      if i != n && jobs[i].status == Running {
        assert s.jobs[i] in s.held;
        var k :| 0 <= k < |s.held| && s.held[k] == s.jobs[i];
        assert held[if k < ticket then k else k - 1] == jobs[i];
      }
    }
  }

  lemma ReplyKeepsInv(s: State, e: Event) returns (n: nat)
    requires e.Reply? && Enabled(s, e) && Inv(s)
    ensures n < |s.jobs| && s.jobs[n] == s.held[e.ticket] && s.jobs[n].status == Running
    ensures Apply(s, e).jobs == s.jobs[n := Answer(s.held[e.ticket], e.handler, e.at, e.backoff)]
    ensures Inv(Apply(s, e))
  {
    var claim := s.held[e.ticket];
    AnswerReleases(claim, e.handler, e.at, e.backoff);
    assert claim in s.jobs;
    n :| 0 <= n < |s.jobs| && s.jobs[n] == claim;
    assert FirstWithId(s.jobs, claim.id) == Some(n);
    ReleaseKeepsInv(s, e.ticket, n, Answer(claim, e.handler, e.at, e.backoff));
  }

  lemma StepKeepsInv(s: State, e: Event)
    requires Enabled(s, e) && Inv(s)
    ensures Inv(Apply(s, e))
  {
    match e
    case Enqueue(job) =>
      var t := Apply(s, e);
      assert forall k :: 0 <= k < |s.held| ==> s.held[k] in t.jobs;
      assert forall k :: 0 <= k < |s.held| ==> s.held[k].id != job.id;
    case Claim(now, lease, worker) => ClaimKeepsInv(s, now, lease, worker);
    case Reply(_, _, _, _) => var _ := ReplyKeepsInv(s, e);
  }

  /** Jobs keep their place and id, terminal jobs stay as they are, and only the holder's reply changes a running job. */
  lemma StepMovesForward(s: State, e: Event, i: nat)
    requires Inv(s) && Enabled(s, e) && i < |s.jobs|
    ensures |Apply(s, e).jobs| >= |s.jobs| && Apply(s, e).jobs[i].id == s.jobs[i].id
    ensures Terminal(s.jobs[i]) ==> Apply(s, e).jobs[i] == s.jobs[i]
    ensures s.jobs[i].status == Running && Apply(s, e).jobs[i] != s.jobs[i] ==> e.Reply? && s.held[e.ticket] == s.jobs[i]
  {
    match e
    case Enqueue(_) =>
    case Claim(now, lease, _) => TsPickIsNext(s.jobs, now, lease);
    case Reply(_, _, _, _) => var _ := ReplyKeepsInv(s, e);
  }

  /** Every run keeps the invariant, the place and id of each job, and every finished job. */
  lemma {:induction false} RunKeepsInv(s: State, run: seq<Event>)
    requires Inv(s) && Valid(s, run)
    ensures Inv(After(s, run)) && |After(s, run).jobs| >= |s.jobs|
    ensures forall i :: 0 <= i < |s.jobs| ==>
              After(s, run).jobs[i].id == s.jobs[i].id && (Terminal(s.jobs[i]) ==> After(s, run).jobs[i] == s.jobs[i])
    decreases |run|
  {
    if run != [] {
      var next := Apply(s, run[0]);
      StepKeepsInv(s, run[0]);
      forall i | 0 <= i < |s.jobs|
        ensures |next.jobs| >= |s.jobs| && next.jobs[i].id == s.jobs[i].id && (Terminal(s.jobs[i]) ==> next.jobs[i] == s.jobs[i])
      {
        StepMovesForward(s, run[0], i);
      }
      RunKeepsInv(next, run[1..]);
      assert |s.jobs| > 0 ==> |next.jobs| >= |s.jobs|;
    }
  }

  ghost predicate Reachable(s: State) {
    exists run :: Valid(EMPTY, run) && s == After(EMPTY, run)
  }

  lemma ReachableInv(s: State)
    requires Reachable(s)
    ensures Inv(s)
  {
    var run :| Valid(EMPTY, run) && s == After(EMPTY, run);
    RunKeepsInv(EMPTY, run);
  }

  /** Running, locked and held by exactly one worker are the same thing in every reachable state. */
  lemma RunningMeansHeldOnce(s: State, i: nat)
    requires Reachable(s) && i < |s.jobs|
    ensures s.jobs[i].status == Running <==> s.jobs[i].lockedAt.Some?
    ensures s.jobs[i].status == Running <==> exists k :: 0 <= k < |s.held| && s.held[k].id == s.jobs[i].id
    ensures forall k, l :: 0 <= k < |s.held| && 0 <= l < |s.held| && s.held[k].id == s.held[l].id ==> k == l
  {
    ReachableInv(s);
    if k :| 0 <= k < |s.held| && s.held[k].id == s.jobs[i].id {
      assert s.held[k] in s.jobs;
    }
  }

  /** Where only running jobs are locked, the lease has no say in what is picked. */
  lemma PicksAgree(jobs: seq<Job>, now: int, lease: int, otherLease: int)
    requires forall i :: 0 <= i < |jobs| && jobs[i].status == Queued ==> jobs[i].lockedAt.None?
    ensures TsPick(jobs, now, lease) == TsPick(jobs, now, otherLease)
  {
    TsPickIsNext(jobs, now, lease);
    TsPickIsNext(jobs, now, otherLease);
  }

  lemma HeldJobsRun(s: State, k: nat, i: nat)
    requires Inv(s) && k < |s.held| && i < |s.jobs| && s.held[k].id == s.jobs[i].id
    ensures s.jobs[i].status == Running
  {
    assert s.held[k] in s.jobs;
  }

  /**
   The lease never matters: in a reachable state a claim depends on the clock alone and finds a job
   that is not running, so a job whose worker dies is never handed out again.
   */
  lemma LeaseNeverMatters(s: State, now: int, lease: int, otherLease: int)
    requires Reachable(s)
    ensures TsPick(s.jobs, now, lease) == TsPick(s.jobs, now, otherLease)
    ensures match TsPick(s.jobs, now, lease)
            case None => true
            case Some(i) => i < |s.jobs| && forall k :: 0 <= k < |s.held| ==> s.held[k].id != s.jobs[i].id
  {
    ReachableInv(s);
    PicksAgree(s.jobs, now, lease, otherLease);
    TsPickIsNext(s.jobs, now, lease);
    match TsPick(s.jobs, now, lease)
    case None =>
    case Some(i) =>
      forall k | 0 <= k < |s.held|
        ensures s.held[k].id != s.jobs[i].id
      {
        if s.held[k].id == s.jobs[i].id {
          HeldJobsRun(s, k, i);
        }
      }
  }

  /** No step of a reachable state leaves a terminal status, and only the holder's reply ends a running job. */
  lemma StatusesMoveForward(s: State, e: Event, i: nat)
    requires Reachable(s) && Enabled(s, e) && i < |s.jobs|
    ensures |Apply(s, e).jobs| >= |s.jobs| && Apply(s, e).jobs[i].id == s.jobs[i].id
    ensures Terminal(s.jobs[i]) ==> Apply(s, e).jobs[i] == s.jobs[i]
    ensures s.jobs[i].status == Running && Apply(s, e).jobs[i] != s.jobs[i] ==> e.Reply? && s.held[e.ticket] == s.jobs[i]
  {
    ReachableInv(s);
    StepMovesForward(s, e, i);
  }

  // ---- Draining ----

  /** How many more claims a job can cost at most. */
  function Weight(job: Job): nat {
    if Terminal(job) then 0 else Max(1, EffectiveMax(job.maxAttempts) - Max(0, job.attempts))
  }

  function Remaining(jobs: seq<Job>): nat {
    if jobs == [] then 0 else Remaining(jobs[..|jobs| - 1]) + Weight(jobs[|jobs| - 1])
  }

  lemma {:induction false} RemainingUpdate(jobs: seq<Job>, i: nat, job: Job)
    requires i < |jobs|
    ensures Remaining(jobs[i := job]) == Remaining(jobs) - Weight(jobs[i]) + Weight(job)
  {
    var last := |jobs| - 1;
    if i == last {
      assert jobs[i := job][..last] == jobs[..last];
    } else {
      assert jobs[i := job][..last] == jobs[..last][i := job];
      RemainingUpdate(jobs[..last], i, job);
    }
  }

  lemma {:induction false} RemainingZero(jobs: seq<Job>)
    ensures Remaining(jobs) == 0 <==> forall i :: 0 <= i < |jobs| ==> Terminal(jobs[i])
  {
    if jobs != [] {
      RemainingZero(jobs[..|jobs| - 1]);
    }
  }

  lemma AnswerLowersWeight(job: Job, handler: Handler, now: int, done: int, worker: Id, backoff: Backoff)
    requires job.status == Queued
    ensures var answer := Answer(Claimed(job, now, worker), handler, done, backoff);
            answer.id == job.id && answer.lockedAt == None && Weight(answer) < Weight(job)
            && (Terminal(answer) || answer.status == Queued) && answer.status != Cancelled
  {
  }

  lemma ReplacedInPlace(jobs: seq<Job>, i: nat, claim: Job, answer: Job)
    requires UniqueIds(jobs) && i < |jobs| && claim.id == answer.id == jobs[i].id
    ensures Replaced(jobs[i := claim], answer) == jobs[i := answer]
  {
    var claimed := jobs[i := claim];
    assert claimed[i].id == answer.id;
    assert forall j :: 0 <= j < |jobs| && j != i ==> claimed[j] == jobs[j] && claimed[j].id != answer.id;
    assert FirstWithId(claimed, answer.id) == Some(i);
    assert claimed[i := answer] == jobs[i := answer];
  }

  /**
   A worker's answer reaches the record it claimed exactly when no earlier record carries the same id. Otherwise it
   overwrites that earlier record, and the claimed one stays running with nobody left to answer for it.
   */
  lemma AnswerReachesItsJobExactly(jobs: seq<Job>, handler: Handler, now: int, done: int, lease: int, worker: Id, backoff: Backoff)
    requires TsPick(jobs, now, lease).Some?
    ensures var i := TsPick(jobs, now, lease).value;
            i < |jobs|
            && (AfterProcess(jobs, handler, now, done, lease, worker, backoff)
                == jobs[i := Answer(Claimed(jobs[i], now, worker), handler, done, backoff)]
                <==> forall j :: 0 <= j < i ==> jobs[j].id != jobs[i].id)
            && ((exists j :: 0 <= j < i && jobs[j].id == jobs[i].id) ==>
                |AfterProcess(jobs, handler, now, done, lease, worker, backoff)| == |jobs|
                && AfterProcess(jobs, handler, now, done, lease, worker, backoff)[i] == Claimed(jobs[i], now, worker))
  {
    TsPickIsNext(jobs, now, lease);
    var i := TsPick(jobs, now, lease).value;
    var claim := Claimed(jobs[i], now, worker);
    var answer, claimed := Answer(claim, handler, done, backoff), jobs[i := claim];
    AnswerReleases(claim, handler, done, backoff);
    assert claimed[i].id == answer.id && forall j :: 0 <= j < |jobs| && j != i ==> claimed[j] == jobs[j];
    var k := FirstWithId(claimed, answer.id).value;
    assert AfterProcess(jobs, handler, now, done, lease, worker, backoff) == claimed[k := answer];
    if k == i {
      assert claimed[i := answer] == jobs[i := answer];
    } else {
      assert claimed[k := answer][i] == claim != answer;
    }
  }

  /** Whatever the handler does, one processed job lowers the remaining work and touches nothing else. */
  lemma ProcessingLowersRemaining(jobs: seq<Job>, handler: Handler, now: int, done: int, lease: int, worker: Id, backoff: Backoff)
    requires UniqueIds(jobs)
    ensures match TsPick(jobs, now, lease)
            case None => AfterProcess(jobs, handler, now, done, lease, worker, backoff) == jobs
            case Some(i) =>
              i < |jobs| && jobs[i].status == Queued
              && AfterProcess(jobs, handler, now, done, lease, worker, backoff)
                 == jobs[i := Answer(Claimed(jobs[i], now, worker), handler, done, backoff)]
              && Remaining(AfterProcess(jobs, handler, now, done, lease, worker, backoff)) < Remaining(jobs)
  {
    TsPickIsNext(jobs, now, lease);
    match TsPick(jobs, now, lease)
    case None =>
    case Some(i) =>
      var claim := Claimed(jobs[i], now, worker);
      var answer := Answer(claim, handler, done, backoff);
      AnswerLowersWeight(jobs[i], handler, now, done, worker, backoff);
      ReplacedInPlace(jobs, i, claim, answer);
      RemainingUpdate(jobs, i, answer);
  }

  /**
   What one processed job comes to, field by field. It succeeds exactly if its handler does. It waits again exactly if the
   handler throws an error that may be retried and the limit leaves another attempt; otherwise it fails, as every job
   without a handler does.
   */
  lemma ProcessedJobByFields(jobs: seq<Job>, i: nat, handler: Handler, now: int, done: int, lease: int, worker: Id, backoff: Backoff)
    requires TsPick(jobs, now, lease) == Some(i)
    requires forall j :: 0 <= j < i < |jobs| ==> jobs[j].id != jobs[i].id
    ensures var after := AfterProcess(jobs, handler, now, done, lease, worker, backoff);
            var made := if i < |jobs| && jobs[i].attempts > 0 then jobs[i].attempts else 0;
            && i < |jobs| == |after|
            && (forall j :: 0 <= j < |jobs| && j != i ==> after[j] == jobs[j])
            && var limit := if jobs[i].maxAttempts == 0 then 3 else if jobs[i].maxAttempts < 1 then 1 else jobs[i].maxAttempts;
            && after[i].id == jobs[i].id && after[i].createdAt == jobs[i].createdAt
            && after[i].attempts == made + 1 && after[i].maxAttempts == limit
            && after[i].lockedBy == None && after[i].lockedAt == None
            && (after[i].status == Succeeded <==> handler == Succeeds)
            && (after[i].status == Queued <==> handler == Throws(true) && made + 1 < limit)
            && (after[i].status == Failed <==>
                handler == Missing || handler == Throws(false) || (handler == Throws(true) && made + 1 >= limit))
            && (after[i].status == Succeeded ==> after[i].runAfter == jobs[i].runAfter)
            && (after[i].status == Failed ==> after[i].runAfter == done)
            && (after[i].status == Queued ==> after[i].runAfter == done + Min(backoff.max, backoff.base * Pow2(made)))
  {
    TsPickByFields(jobs, now, lease, i);
    AnswerReachesItsJobExactly(jobs, handler, now, done, lease, worker, backoff);
  }

  // ---- The history of one job ----

  predicate Takes(s: State, e: Event, i: nat) {
    e.Claim? && TsPick(s.jobs, e.now, e.lease) == Some(i)
  }

  predicate Answers(s: State, e: Event, id: Id)
    requires Enabled(s, e)
  {
    e.Reply? && s.held[e.ticket].id == id
  }

  /** How often the run claims the job at a position. */
  function ClaimsOf(s: State, run: seq<Event>, i: nat): nat
    requires Valid(s, run)
    decreases |run|
  {
    if run == [] then 0 else (if Takes(s, run[0], i) then 1 else 0) + ClaimsOf(Apply(s, run[0]), run[1..], i)
  }

  /** What the handlers of a job's claims came to, in the order of the replies. */
  function RepliesTo(s: State, run: seq<Event>, id: Id): seq<Handler>
    requires Valid(s, run)
    decreases |run|
  {
    if run == [] then []
    else (if Answers(s, run[0], id) then [run[0].handler] else []) + RepliesTo(Apply(s, run[0]), run[1..], id)
  }

  lemma StepOfJob(s: State, e: Event, i: nat)
    requires Inv(s) && Enabled(s, e) && i < |s.jobs|
    ensures var next := Apply(s, e);
            && i < |next.jobs|
            && (Takes(s, e, i) ==> s.jobs[i].status == Queued && next.jobs[i] == Claimed(s.jobs[i], e.now, e.worker))
            && (Answers(s, e, s.jobs[i].id) ==>
                s.jobs[i].status == Running && next.jobs[i] == Answer(s.jobs[i], e.handler, e.at, e.backoff))
            && (!Takes(s, e, i) && !Answers(s, e, s.jobs[i].id) ==> next.jobs[i] == s.jobs[i])
  {
    match e
    case Enqueue(_) =>
    case Claim(now, lease, _) => TsPickIsNext(s.jobs, now, lease);
    case Reply(_, _, _, _) => var _ := ReplyKeepsInv(s, e);
  }

  ghost predicate Counted(job: Job) {
    job.status == Running ==> job.attempts >= 1 && job.maxAttempts >= 1
  }

  /** What a history is about: the status, the attempts that were answered for, and the limit. */
  datatype View = View(status: Status, made: int, limit: int)

  function ViewOf(job: Job): View {
    View(job.status, Max(0, job.attempts) - (if job.status == Running then 1 else 0), EffectiveMax(job.maxAttempts))
  }

  predicate StepsOn(v: View, w: View, taken: bool, answered: bool) {
    if taken then !answered && v.status == Queued && w == v.(status := Running)
    else if answered then v.status == Running && w == View(Queued, v.made + 1, v.limit) && w.made < v.limit
    else w == v
  }

  function Busy(v: View): nat {
    if v.status == Running then 1 else 0
  }

  /** The error used up the last attempt, or there was no way to try again. */
  predicate GivesUp(reply: Handler, made: int, limit: int) {
    reply == Missing || reply == Throws(false) || (reply == Throws(true) && made >= limit)
  }

  ghost predicate AllRetried(replies: seq<Handler>, made: int, limit: int) {
    && (forall k :: 0 <= k < |replies| - 1 ==> replies[k] == Throws(true))
    && (|replies| > 1 ==> made + |replies| - 1 < limit)
  }

  /** The status that these replies leave a job in, and the claims that they answer. */
  ghost predicate Tells(v: View, w: View, claims: nat, replies: seq<Handler>) {
    && claims + Busy(v) == |replies| + Busy(w) && w.made == v.made + |replies| && w.limit == v.limit
    && AllRetried(replies, v.made, v.limit)
    && (w.status == Succeeded <==> replies != [] && replies[|replies| - 1] == Succeeds)
    && (w.status == Failed <==> replies != [] && GivesUp(replies[|replies| - 1], v.made + |replies|, v.limit))
    && w.status != Cancelled
  }

  lemma {:induction false} EndedJobIsDone(s: State, run: seq<Event>, i: nat)
    requires Inv(s) && Valid(s, run) && i < |s.jobs| && Terminal(s.jobs[i])
    ensures ClaimsOf(s, run, i) == 0 && RepliesTo(s, run, s.jobs[i].id) == []
    ensures i < |After(s, run).jobs| && After(s, run).jobs[i] == s.jobs[i]
    decreases |run|
  {
    if run != [] {
      StepKeepsInv(s, run[0]);
      StepOfJob(s, run[0], i);
      EndedJobIsDone(Apply(s, run[0]), run[1..], i);
    }
  }

  /** A waiting or running job after one step. */
  lemma StepTells(s: State, e: Event, i: nat)
    requires Inv(s) && Enabled(s, e) && i < |s.jobs| && !Terminal(s.jobs[i]) && Counted(s.jobs[i])
    ensures i < |Apply(s, e).jobs| && Apply(s, e).jobs[i].id == s.jobs[i].id && Counted(Apply(s, e).jobs[i])
    ensures var v, w, taken, answered := ViewOf(s.jobs[i]), ViewOf(Apply(s, e).jobs[i]), Takes(s, e, i), Answers(s, e, s.jobs[i].id);
            if Terminal(Apply(s, e).jobs[i]) then !taken && answered && Tells(v, w, 0, [e.handler])
            else StepsOn(v, w, taken, answered) && (answered ==> e.handler == Throws(true))
  {
    StepOfJob(s, e, i);
  }

  lemma {:induction false} HistoryTells(s: State, run: seq<Event>, i: nat)
    requires Inv(s) && Valid(s, run) && i < |s.jobs| && !Terminal(s.jobs[i]) && Counted(s.jobs[i])
    ensures i < |After(s, run).jobs|
    ensures Tells(ViewOf(s.jobs[i]), ViewOf(After(s, run).jobs[i]), ClaimsOf(s, run, i), RepliesTo(s, run, s.jobs[i].id))
    decreases |run|
  {
    if run != [] {
      var e, rest := run[0], run[1..];
      var next, job := Apply(s, e), s.jobs[i];
      StepKeepsInv(s, e);
      StepTells(s, e, i);
      hide Inv, Enabled, Tells, Answers, Takes, StepsOn, Counted, ViewOf, Apply;
      if Terminal(next.jobs[i]) {
        EndedJobIsDone(next, rest, i);
        assert [e.handler] + [] == [e.handler];
      } else {
        HistoryTells(next, rest, i);
        TellsLonger(ViewOf(job), ViewOf(next.jobs[i]), ViewOf(After(s, run).jobs[i]), Takes(s, e, i), Answers(s, e, job.id),
                    ClaimsOf(next, rest, i), RepliesTo(next, rest, job.id));
      }
    }
  }

  /** A claim, a retry or nothing at the front of a history. */
  lemma TellsLonger(v: View, next: View, w: View, taken: bool, answered: bool, claims: nat, replies: seq<Handler>)
    requires StepsOn(v, next, taken, answered) && Tells(next, w, claims, replies)
    ensures Tells(v, w, (if taken then 1 else 0) + claims, (if answered then [Throws(true)] else []) + replies)
  {
    if answered {
      var all := [Throws(true)] + replies;
      assert replies != [] ==> all[|all| - 1] == replies[|replies| - 1];
      assert AllRetried(all, v.made, v.limit) by {
        forall k | 0 <= k < |all| - 1
          ensures all[k] == Throws(true)
        {
          assert k > 0 ==> all[k] == replies[k - 1];
        }
      }
    } else {
      hide AllRetried;
      assert [] + replies == replies;
    }
  }

  lemma QueuedTells(v: View, w: View, claims: nat, replies: seq<Handler>)
    requires v.status == Queued && Tells(v, w, claims, replies)
    ensures claims == |replies| + (if w.status == Running then 1 else 0) && w.made == v.made + |replies|
    ensures forall k :: 0 <= k < |replies| - 1 ==> replies[k] == Throws(true)
    ensures |replies| > 1 ==> v.made + |replies| - 1 < v.limit
    ensures w.status == Succeeded <==> replies != [] && replies[|replies| - 1] == Succeeds
    ensures w.status == Failed <==> replies != [] && GivesUp(replies[|replies| - 1], v.made + |replies|, v.limit)
    ensures replies != [] && replies[0] == Missing ==> claims == |replies| == 1 && w.status == Failed
  {
    if |replies| > 1 {
      assert replies[0] == Throws(true);
    }
  }

  /**
   The history of a waiting job over every run of a reachable queue. It is claimed once for each reply, and once more while
   a worker holds it. Every reply but the last is an error that may be retried; the job has succeeded exactly if the last
   reply is a success, and has failed exactly if the last is a missing handler, an error that may not be retried, or the
   error that uses up its last attempt. So a job without a handler costs one claim and is never claimed again.
   */
  lemma JobHistory(s: State, run: seq<Event>, i: nat, after: Job, claims: nat, replies: seq<Handler>)
    requires Reachable(s) && Valid(s, run) && i < |s.jobs| && s.jobs[i].status == Queued
    requires i < |After(s, run).jobs| ==> after == After(s, run).jobs[i]
    requires claims == ClaimsOf(s, run, i) && replies == RepliesTo(s, run, s.jobs[i].id)
    ensures i < |After(s, run).jobs|
    ensures claims == |replies| + (if after.status == Running then 1 else 0)
    ensures forall k :: 0 <= k < |replies| - 1 ==> replies[k] == Throws(true)
    ensures |replies| > 1 ==> Max(0, s.jobs[i].attempts) + |replies| - 1 < EffectiveMax(s.jobs[i].maxAttempts)
    ensures after.status == Succeeded <==> replies != [] && replies[|replies| - 1] == Succeeds
    ensures after.status == Failed <==>
              replies != []
              && match replies[|replies| - 1]
                 case Missing => true
                 case Succeeds => false
                 case Throws(retryable) => !retryable || Max(0, s.jobs[i].attempts) + |replies| >= EffectiveMax(s.jobs[i].maxAttempts)
    ensures replies != [] && replies[0] == Missing ==> claims == |replies| == 1 && after.status == Failed
    ensures claims > 0 ==> after.attempts == Max(0, s.jobs[i].attempts) + claims
  {
    var v, w := ViewOf(s.jobs[i]), ViewOf(After(s, run).jobs[i]) by {
      ReachableInv(s);
      HistoryTells(s, run, i);
    }
    assert Tells(v, w, claims, replies) by {
      ReachableInv(s);
      HistoryTells(s, run, i);
    }
    hide Reachable, Inv, Valid, After, ClaimsOf, RepliesTo;
    QueuedTells(v, w, claims, replies);
  }

  /** The time from which a waiting job is ready. */
  function Due(job: Job, lease: int): int {
    if job.lockedAt.None? then job.runAfter else Max(job.runAfter, job.lockedAt.value + lease)
  }

  /** The least time at which some waiting job becomes due, or the given bound if it is earlier. */
  function LeastDue(jobs: seq<Job>, lease: int, bound: int): int {
    if jobs == [] then bound
    else
      var last := jobs[|jobs| - 1];
      LeastDue(jobs[..|jobs| - 1], lease, if last.status == Queued then Min(bound, Due(last, lease)) else bound)
  }

  function AnyDue(jobs: seq<Job>, lease: int): Option<int> {
    if jobs == [] then None
    else if jobs[|jobs| - 1].status == Queued
    then Some(LeastDue(jobs[..|jobs| - 1], lease, Due(jobs[|jobs| - 1], lease)))
    else AnyDue(jobs[..|jobs| - 1], lease)
  }

  lemma {:induction false} LeastDueIsLeast(jobs: seq<Job>, lease: int, bound: int)
    ensures LeastDue(jobs, lease, bound) <= bound
    ensures LeastDue(jobs, lease, bound) == bound
         || exists i :: 0 <= i < |jobs| && jobs[i].status == Queued && Due(jobs[i], lease) == LeastDue(jobs, lease, bound)
    ensures forall i :: 0 <= i < |jobs| && jobs[i].status == Queued ==> LeastDue(jobs, lease, bound) <= Due(jobs[i], lease)
  {
    if jobs != [] {
      var front, last := jobs[..|jobs| - 1], jobs[|jobs| - 1];
      LeastDueIsLeast(front, lease, if last.status == Queued then Min(bound, Due(last, lease)) else bound);
      assert forall i :: 0 <= i < |front| ==> front[i] == jobs[i];
    }
  }

  lemma {:induction false} AnyDueIsLeast(jobs: seq<Job>, lease: int)
    ensures match AnyDue(jobs, lease)
            case None => forall i :: 0 <= i < |jobs| ==> jobs[i].status != Queued
            case Some(due) =>
              (exists i :: 0 <= i < |jobs| && jobs[i].status == Queued && Due(jobs[i], lease) == due) &&
              forall i :: 0 <= i < |jobs| && jobs[i].status == Queued ==> due <= Due(jobs[i], lease)
  {
    if jobs != [] {
      var front, last := jobs[..|jobs| - 1], jobs[|jobs| - 1];
      assert forall i :: 0 <= i < |front| ==> front[i] == jobs[i];
      if last.status == Queued {
        LeastDueIsLeast(front, lease, Due(last, lease));
      } else {
        AnyDueIsLeast(front, lease);
      }
    }
  }

  /** In every reachable state the earliest due time is the least runAfter of the waiting jobs, for every lease. */
  lemma DueIsRunAfter(s: State, i: nat, lease: int)
    requires Reachable(s) && i < |s.jobs| && s.jobs[i].status == Queued
    ensures Due(s.jobs[i], lease) == s.jobs[i].runAfter
  {
    RunningMeansHeldOnce(s, i);
  }

  /** How one claimed job's handler goes, and how long it takes. */
  datatype Turn = Turn(handler: Handler, took: nat)

  /**
   Rounds of processing without new jobs. Before each round the clock moves on to the earliest due time
   if that is still ahead, and during it by the time the handler takes; the handlers behave as the list says.
   */
  function Rounds(jobs: seq<Job>, clock: int, turns: seq<Turn>, lease: int, worker: Id, backoff: Backoff): seq<Job>
    decreases |turns|
  {
    if turns == [] || AnyDue(jobs, lease).None? then jobs
    else
      var now := Max(clock, AnyDue(jobs, lease).value);
      var done := now + turns[0].took;
      Rounds(AfterProcess(jobs, turns[0].handler, now, done, lease, worker, backoff), done, turns[1..], lease, worker, backoff)
  }

  /** A waiting job stays waiting or has ended; any other job is as it was. */
  predicate Drained(before: Job, after: Job) {
    if before.status == Queued then after.id == before.id && (after.status == Queued || after.status == Succeeded || after.status == Failed)
    else after == before
  }

  /** Once the clock has reached the earliest due time, a round processes one job. */
  lemma OneRound(jobs: seq<Job>, handler: Handler, now: int, done: int, lease: int, worker: Id, backoff: Backoff)
    requires UniqueIds(jobs) && AnyDue(jobs, lease).Some? && AnyDue(jobs, lease).value <= now
    ensures var next := AfterProcess(jobs, handler, now, done, lease, worker, backoff);
            |next| == |jobs| && UniqueIds(next) && Remaining(next) < Remaining(jobs)
            && forall i :: 0 <= i < |jobs| ==> Drained(jobs[i], next[i])
  {
    AnyDueIsLeast(jobs, lease);
    TsPickIsNext(jobs, now, lease);
    ProcessingLowersRemaining(jobs, handler, now, done, lease, worker, backoff);
    AnswerLowersWeight(jobs[TsPick(jobs, now, lease).value], handler, now, done, worker, backoff);
  }

  /**
   After as many rounds as there is remaining work every waiting job has succeeded or failed, whatever the handlers did,
   and every job that was running or finished at the start is as it was.
   */
  lemma {:induction false} QueueDrains(jobs: seq<Job>, clock: int, turns: seq<Turn>, lease: int, worker: Id, backoff: Backoff)
    requires UniqueIds(jobs) && |turns| >= Remaining(jobs)
    ensures |Rounds(jobs, clock, turns, lease, worker, backoff)| == |jobs|
    ensures forall i :: 0 <= i < |jobs| ==>
              var job := Rounds(jobs, clock, turns, lease, worker, backoff)[i];
              Drained(jobs[i], job) && job.status != Queued
    decreases |turns|
  {
    AnyDueIsLeast(jobs, lease);
    RemainingZero(jobs);
    hide AfterProcess, AnyDue, Remaining;
    if AnyDue(jobs, lease).Some? && turns != [] {
      var now := Max(clock, AnyDue(jobs, lease).value);
      var done := now + turns[0].took;
      var next := AfterProcess(jobs, turns[0].handler, now, done, lease, worker, backoff);
      OneRound(jobs, turns[0].handler, now, done, lease, worker, backoff);
      QueueDrains(next, done, turns[1..], lease, worker, backoff);
      var end := Rounds(next, done, turns[1..], lease, worker, backoff);
      DrainedTwice(jobs, next, end);
    }
  }

  lemma DrainedTwice(first: seq<Job>, second: seq<Job>, third: seq<Job>)
    requires |first| == |second| == |third|
    requires forall i :: 0 <= i < |first| ==> Drained(first[i], second[i])
    requires forall i :: 0 <= i < |first| ==> Drained(second[i], third[i])
    ensures forall i :: 0 <= i < |first| ==> Drained(first[i], third[i])
  {
    forall i | 0 <= i < |first|
      ensures Drained(first[i], third[i])
    {
      assert Drained(first[i], second[i]) && Drained(second[i], third[i]);
    }
  }
}
