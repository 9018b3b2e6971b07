/**
 The Prisma queue as a protocol: any number of workers each run the claim loop of find, conditional update and
 read-back, interleaved step by step. A find result may be stale by the time of the conditional update, which is
 why the update repeats the whole condition. Completing or failing a job by its id alone reads the row in one step and
 writes what it makes of that record in another, without any condition.
 */
module PrismaQueue {
  import opened Wrappers
  import opened Workflow
  import opened ListQueue

  /** Where one worker stands: in its claim loop, or holding a claim. */
  datatype Pc =
    | Idle
    | Searching(tries: nat, now: int, lease: int)
    | Found(tries: nat, now: int, lease: int, id: Id)
    | Won(id: Id)
    | Working(claim: Job)

  /** One successful conditional update. */
  datatype Grant = Grant(worker: Id, id: Id, attempt: int)

  /** `seen` holds, for each caller between the two steps of a call by id, the record it has read. */
  datatype State = State(
    rows: map<Id, Job>,
    workers: map<Id, Pc>,
    grants: seq<Grant>,
    initial: map<Id, int>,
    seen: map<Id, Job>)

  /** A reply writes the record the worker has finished; settling writes what a caller by id makes of its read. */
  datatype Step =
    | Enqueue(row: Job)
    | Begin(w: Id, now: int, lease: int)
    | Find(w: Id, id: Id)
    | FindNothing(w: Id)
    | CompareAndSet(w: Id)
    | ReadBack(w: Id)
    | Reply(w: Id, handler: Handler, at: int, backoff: Backoff)
    | Crash(w: Id)
    | Look(caller: Id, id: Id)
    | Settle(caller: Id, handler: Handler, at: int, backoff: Backoff)

  const EMPTY := State(map[], map[], [], map[], map[])

  function PcOf(s: State, w: Id): Pc {
    if w in s.workers then s.workers[w] else Idle
  }

  /** The first row the find query may return; rows equal in both sort keys come in any order. */
  ghost predicate Finds(s: State, now: int, lease: int, id: Id) {
    id in s.rows && Ready(s.rows[id], now, lease) &&
    forall other :: other in s.rows && Ready(s.rows[other], now, lease) ==>
      || s.rows[id].runAfter < s.rows[other].runAfter
      || (s.rows[id].runAfter == s.rows[other].runAfter && s.rows[id].createdAt <= s.rows[other].createdAt)
  }

  ghost predicate Enabled(s: State, step: Step) {
    match step
    case Enqueue(row) => row.id !in s.rows && row.status == Queued && row.lockedAt == None
    case Begin(w, _, _) => PcOf(s, w).Idle?
    case Find(w, id) => var pc := PcOf(s, w); pc.Searching? && Finds(s, pc.now, pc.lease, id)
    case FindNothing(w) =>
      var pc := PcOf(s, w);
      pc.Searching? && forall id :: id in s.rows ==> !Ready(s.rows[id], pc.now, pc.lease)
    case CompareAndSet(w) => PcOf(s, w).Found? && PcOf(s, w).id in s.rows
    case ReadBack(w) => PcOf(s, w).Won? && PcOf(s, w).id in s.rows
    case Reply(w, _, _, _) => PcOf(s, w).Working?
    case Crash(_) => true
    case Look(_, id) => id in s.rows
    case Settle(caller, _, _, _) => caller in s.seen && s.seen[caller].id in s.rows
  }

  function Apply(s: State, step: Step): State
    requires Enabled(s, step)
  {
    match step
    case Enqueue(row) => s.(rows := s.rows[row.id := row], initial := s.initial[row.id := row.attempts])
    case Begin(w, now, lease) => s.(workers := s.workers[w := Searching(0, now, lease)])
    case Find(w, id) =>
      var pc := PcOf(s, w);
      s.(workers := s.workers[w := Found(pc.tries, pc.now, pc.lease, id)])
    case FindNothing(w) => s.(workers := s.workers[w := Idle])
    case CompareAndSet(w) =>
      var pc := PcOf(s, w);
      if Ready(s.rows[pc.id], pc.now, pc.lease) then
        s.(rows := s.rows[pc.id := Taken(s.rows[pc.id], pc.now, w)],
           workers := s.workers[w := Won(pc.id)],
           grants := s.grants + [Grant(w, pc.id, s.rows[pc.id].attempts + 1)])
      else
        s.(workers := s.workers[w := if pc.tries + 1 < 3 then Searching(pc.tries + 1, pc.now, pc.lease) else Idle])
    case ReadBack(w) => s.(workers := s.workers[w := Working(s.rows[PcOf(s, w).id])])
    case Reply(w, handler, at, backoff) =>
      var claim := PcOf(s, w).claim;
      s.(rows := s.rows[claim.id := Answer(claim, handler, at, backoff)], workers := s.workers[w := Idle])
    case Crash(w) => s.(workers := s.workers[w := Idle])
    case Look(caller, id) => s.(seen := s.seen[caller := s.rows[id]])
    case Settle(caller, handler, at, backoff) =>
      var read := s.seen[caller];
      s.(rows := s.rows[read.id := Answer(read, handler, at, backoff)], seen := s.seen - {caller})
  }

  ghost predicate Valid(s: State, run: seq<Step>)
    decreases |run|
  {
    run == [] || (Enabled(s, run[0]) && Valid(Apply(s, run[0]), run[1..]))
  }

  function After(s: State, run: seq<Step>): State
    requires Valid(s, run)
    decreases |run|
  {
    if run == [] then s else After(Apply(s, run[0]), run[1..])
  }

  predicate Holds(pc: Pc, id: Id) {
    (pc.Won? && pc.id == id) || (pc.Working? && pc.claim.id == id)
  }

  function Count(grants: seq<Grant>, id: Id): nat {
    if grants == [] then 0
    else Count(grants[..|grants| - 1], id) + (if grants[|grants| - 1].id == id then 1 else 0)
  }

  ghost predicate RowsSound(s: State) {
    forall id :: id in s.rows ==> s.rows[id].id == id && (s.rows[id].status == Running <==> s.rows[id].lockedAt.Some?)
  }

  /** A held job is running, a worker's copy of it is current, and no job has two holders. */
  ghost predicate HoldersSound(s: State) {
    && (forall w, id :: Holds(PcOf(s, w), id) ==> id in s.rows && s.rows[id].status == Running)
    && (forall w :: PcOf(s, w).Working? ==> PcOf(s, w).claim.id in s.rows && s.rows[PcOf(s, w).claim.id] == PcOf(s, w).claim)
    && (forall v, w, id :: Holds(PcOf(s, v), id) && Holds(PcOf(s, w), id) ==> v == w)
  }

  ghost predicate GrantsSound(s: State) {
    && s.initial.Keys == s.rows.Keys
    && (forall id :: id in s.rows ==> s.rows[id].attempts == s.initial[id] + Count(s.grants, id))
    && (forall k :: 0 <= k < |s.grants| ==> s.grants[k].id in s.rows && s.grants[k].attempt <= s.rows[s.grants[k].id].attempts)
    && (forall k, l :: 0 <= k < l < |s.grants| && s.grants[k].id == s.grants[l].id ==> s.grants[k].attempt < s.grants[l].attempt)
  }

  ghost predicate Inv(s: State) {
    RowsSound(s) && HoldersSound(s) && GrantsSound(s)
  }

  lemma AnswerReleases(claim: Job, handler: Handler, at: int, backoff: Backoff)
    ensures var row := Answer(claim, handler, at, backoff);
            row.id == claim.id && row.attempts == claim.attempts && row.status != Running && row.lockedAt == None
  {
  }

  /** Moving one worker on keeps the invariant when it holds no more than before and reads the row as it is. */
  lemma MoveKeepsInv(s: State, w: Id, pc: Pc)
    requires Inv(s)
    requires pc.Won? ==> PcOf(s, w) == pc
    requires pc.Working? ==> Holds(PcOf(s, w), pc.claim.id) && pc.claim.id in s.rows && s.rows[pc.claim.id] == pc.claim
    ensures Inv(s.(workers := s.workers[w := pc]))
  {
    var t := s.(workers := s.workers[w := pc]);
    assert forall v :: v != w ==> PcOf(t, v) == PcOf(s, v);
    assert PcOf(t, w) == pc && forall id :: Holds(pc, id) ==> Holds(PcOf(s, w), id);
  }

  lemma SetKeepsInv(s: State, w: Id)
    requires Inv(s) && Enabled(s, CompareAndSet(w))
    ensures Inv(Apply(s, CompareAndSet(w)))
  {
    var pc, t := PcOf(s, w), Apply(s, CompareAndSet(w));
    if Ready(s.rows[pc.id], pc.now, pc.lease) {
      assert t.grants[..|s.grants|] == s.grants;
      assert forall v :: !Holds(PcOf(s, v), pc.id);
      assert PcOf(t, w) == Won(pc.id);
      assert forall v :: v != w ==> PcOf(t, v) == PcOf(s, v);
      assert HoldersSound(t) by {
        assert forall v, id :: Holds(PcOf(t, v), id) ==> (v == w && id == pc.id) || (v != w && id != pc.id && Holds(PcOf(s, v), id));
      }
      assert GrantsSound(t);
    } else {
      MoveKeepsInv(s, w, PcOf(t, w));
    }
  }

  lemma ReplyKeepsInv(s: State, step: Step)
    requires step.Reply? && Inv(s) && Enabled(s, step)
    ensures Inv(Apply(s, step))
  {
    var claim, t := PcOf(s, step.w).claim, Apply(s, step);
    AnswerReleases(claim, step.handler, step.at, step.backoff);
    assert Holds(PcOf(s, step.w), claim.id);
    assert PcOf(t, step.w) == Idle;
    assert forall v :: v != step.w ==> PcOf(t, v) == PcOf(s, v);
    assert HoldersSound(t) by {
      assert forall v, id :: Holds(PcOf(t, v), id) ==> v != step.w && id != claim.id && Holds(PcOf(s, v), id);
    }
    assert t.rows.Keys == s.rows.Keys;
    assert forall id :: id in s.rows ==> t.rows[id].attempts == s.rows[id].attempts;
    assert GrantsSound(t);
  }

  lemma {:induction false} CountAbsent(grants: seq<Grant>, id: Id)
    requires forall k :: 0 <= k < |grants| ==> grants[k].id != id
    ensures Count(grants, id) == 0
  {
    if grants != [] {
      CountAbsent(grants[..|grants| - 1], id);
    }
  }

  lemma EnqueueKeepsInv(s: State, row: Job)
    requires Inv(s) && Enabled(s, Enqueue(row))
    ensures Inv(Apply(s, Enqueue(row)))
  {
    CountAbsent(s.grants, row.id);
    assert forall w :: PcOf(Apply(s, Enqueue(row)), w) == PcOf(s, w);
  }

  ghost predicate Unheld(s: State, id: Id) {
    forall w :: !Holds(PcOf(s, w), id)
  }

  /** The step writes a job by its id alone. */
  predicate Settles(s: State, step: Step, id: Id) {
    step.Settle? && step.caller in s.seen && s.seen[step.caller].id == id
  }

  /** A write by id comes while no worker holds the job, and from a read since which no attempt was made. */
  ghost predicate Polite(s: State, step: Step) {
    forall id :: Settles(s, step, id) && id in s.rows ==>
      Unheld(s, id) && s.seen[step.caller].attempts == s.rows[id].attempts
  }

  lemma SettleKeepsInvExactly(s: State, step: Step)
    requires step.Settle? && Inv(s) && Enabled(s, step)
    ensures Inv(Apply(s, step)) <==> Polite(s, step)
  {
    var t, read := Apply(s, step), s.seen[step.caller];
    AnswerReleases(read, step.handler, step.at, step.backoff);
    assert forall w :: PcOf(t, w) == PcOf(s, w);
    assert Settles(s, step, read.id);
    if !Unheld(s, read.id) {
      var w :| Holds(PcOf(s, w), read.id);
      assert Holds(PcOf(t, w), read.id);
    } else if read.attempts == s.rows[read.id].attempts {
      SettleUnheld(s, step);
    } else {
      assert t.rows[read.id].attempts != s.initial[read.id] + Count(s.grants, read.id);
    }
  }

  lemma SettleUnheld(s: State, step: Step)
    requires step.Settle? && Inv(s) && Enabled(s, step)
    requires var read := s.seen[step.caller]; Unheld(s, read.id) && read.attempts == s.rows[read.id].attempts
    ensures Inv(Apply(s, step))
  {
    var t, read := Apply(s, step), s.seen[step.caller];
    AnswerReleases(read, step.handler, step.at, step.backoff);
    assert forall w :: PcOf(t, w) == PcOf(s, w);
    assert forall id :: id in s.rows ==> t.rows[id].attempts == s.rows[id].attempts;
    assert GrantsSound(t);
    assert HoldersSound(t);
  }

  /** One step keeps the invariant exactly when it is no write by id to a held job or from an outdated read. */
  lemma StepKeepsInvExactly(s: State, step: Step)
    requires Inv(s) && Enabled(s, step)
    ensures Inv(Apply(s, step)) <==> Polite(s, step)
  {
    var t := Apply(s, step);
    match step
    case Enqueue(row) => EnqueueKeepsInv(s, row);
    case CompareAndSet(w) => SetKeepsInv(s, w);
    case Reply(_, _, _, _) => ReplyKeepsInv(s, step);
    case ReadBack(w) => MoveKeepsInv(s, w, PcOf(t, w));
    case Look(_, _) => assert forall w :: PcOf(t, w) == PcOf(s, w);
    case Settle(_, _, _, _) => SettleKeepsInvExactly(s, step);
    case _ => MoveKeepsInv(s, step.w, PcOf(t, step.w));
  }

  ghost predicate AlwaysInv(s: State, run: seq<Step>)
    requires Valid(s, run)
    decreases |run|
  {
    Inv(s) && (run == [] || AlwaysInv(Apply(s, run[0]), run[1..]))
  }

  ghost predicate AlwaysPolite(s: State, run: seq<Step>)
    requires Valid(s, run)
    decreases |run|
  {
    run == [] || (Polite(s, run[0]) && AlwaysPolite(Apply(s, run[0]), run[1..]))
  }

  /** The invariant holds at every point of a run exactly when no call by id writes to a held job or from an outdated read. */
  lemma {:induction false} RunKeepsInvExactly(s: State, run: seq<Step>)
    requires Inv(s) && Valid(s, run)
    ensures AlwaysInv(s, run) <==> AlwaysPolite(s, run)
    ensures AlwaysPolite(s, run) ==> Inv(After(s, run))
    decreases |run|
  {
    if run != [] {
      StepKeepsInvExactly(s, run[0]);
      if Polite(s, run[0]) {
        RunKeepsInvExactly(Apply(s, run[0]), run[1..]);
      }
    }
  }

  ghost predicate Reachable(s: State) {
    exists run :: Valid(EMPTY, run) && AlwaysPolite(EMPTY, run) && s == After(EMPTY, run)
  }

  lemma ReachableInv(s: State)
    requires Reachable(s)
    ensures Inv(s)
  {
    var run :| Valid(EMPTY, run) && AlwaysPolite(EMPTY, run) && s == After(EMPTY, run);
    RunKeepsInvExactly(EMPTY, run);
  }

  /** However the workers interleave, no attempt of a job is granted twice and every grant is counted in the row. */
  lemma GrantsAreDistinctAndCounted(s: State)
    requires Reachable(s)
    ensures forall k, l :: 0 <= k < l < |s.grants| ==>
              s.grants[k].id != s.grants[l].id || s.grants[k].attempt != s.grants[l].attempt
    ensures forall id :: id in s.rows ==> id in s.initial && s.rows[id].attempts == s.initial[id] + Count(s.grants, id)
    ensures forall v, w, id :: Holds(PcOf(s, v), id) && Holds(PcOf(s, w), id) ==> v == w
  {
    ReachableInv(s);
  }

  predicate TakesEdge(s: State, t: State, id: Id) {
    id in s.rows && id in t.rows && s.rows[id].status == Queued && t.rows[id].status == Running
  }

  /** A step takes a job from queued to running exactly when it is the conditional update of one worker, its only winner. */
  lemma EveryEdgeHasOneWinner(s: State, step: Step, id: Id)
    requires Enabled(s, step) && id in s.rows
    ensures id in Apply(s, step).rows
    ensures TakesEdge(s, Apply(s, step), id)
        <==> step.CompareAndSet? && Apply(s, step).grants == s.grants + [Grant(step.w, id, s.rows[id].attempts + 1)]
             && Holds(PcOf(Apply(s, step), step.w), id)
    ensures Apply(s, step).grants != s.grants ==> step.CompareAndSet?
  {
    if step.Reply? {
      AnswerReleases(PcOf(s, step.w).claim, step.handler, step.at, step.backoff);
    } else if step.Settle? {
      AnswerReleases(s.seen[step.caller], step.handler, step.at, step.backoff);
    }
  }

  /** How often the run takes the job from queued to running. */
  ghost function Edges(s: State, run: seq<Step>, id: Id): nat
    requires Valid(s, run)
    decreases |run|
  {
    if run == [] then 0
    else
      var t := Apply(s, run[0]);
      (if TakesEdge(s, t, id) then 1 else 0) + Edges(t, run[1..], id)
  }

  lemma CountFurther(grants: seq<Grant>, grant: Grant, id: Id)
    ensures Count(grants + [grant], id) == Count(grants, id) + if grant.id == id then 1 else 0
  {
    assert (grants + [grant])[..|grants|] == grants;
  }

  lemma NewGrant(s: State, step: Step) returns (grant: Grant)
    requires Enabled(s, step) && Apply(s, step).grants != s.grants
    ensures Apply(s, step).grants == s.grants + [grant] && TakesEdge(s, Apply(s, step), grant.id)
    ensures forall id :: TakesEdge(s, Apply(s, step), id) ==> id == grant.id
  {
    var pc := PcOf(s, step.w);
    grant := Grant(step.w, pc.id, s.rows[pc.id].attempts + 1);
  }

  lemma StepCountsEdges(s: State, step: Step, id: Id)
    requires Enabled(s, step) && id in s.rows
    ensures id in Apply(s, step).rows
    ensures Count(Apply(s, step).grants, id) == Count(s.grants, id) + if TakesEdge(s, Apply(s, step), id) then 1 else 0
  {
    var t := Apply(s, step);
    if t.grants == s.grants {
      EveryEdgeHasOneWinner(s, step, id);
    } else {
      var grant := NewGrant(s, step);
      CountFurther(s.grants, grant, id);
    }
  }

  /** Over every run, calls by id included, each edge from queued to running is one grant of one worker. */
  lemma {:induction false} EdgesAreGrants(s: State, run: seq<Step>, id: Id)
    requires Valid(s, run) && id in s.rows
    ensures id in After(s, run).rows
    ensures Count(After(s, run).grants, id) == Count(s.grants, id) + Edges(s, run, id)
    decreases |run|
  {
    if run != [] {
      StepCountsEdges(s, run[0], id);
      EdgesAreGrants(Apply(s, run[0]), run[1..], id);
    }
  }

  /** The row's attempts count the edges over every run in which the invariant holds to the end. */
  lemma AttemptsCountEdges(s: State, run: seq<Step>, id: Id)
    requires Inv(s) && Valid(s, run) && AlwaysPolite(s, run) && id in s.rows
    ensures id in After(s, run).rows
    ensures After(s, run).rows[id].attempts == s.rows[id].attempts + Edges(s, run, id)
  {
    EdgesAreGrants(s, run, id);
    RunKeepsInvExactly(s, run);
    InitialStays(s, run, id);
  }

  lemma {:induction false} InitialStays(s: State, run: seq<Step>, id: Id)
    requires Valid(s, run) && id in s.rows && id in s.initial
    ensures id in After(s, run).initial && After(s, run).initial[id] == s.initial[id]
    decreases |run|
  {
    if run != [] {
      EveryEdgeHasOneWinner(s, run[0], id);
      InitialStays(Apply(s, run[0]), run[1..], id);
    }
  }

  /** The lock-expiry half of the claim condition is dead: a queued row is never locked. */
  lemma LeaseNeverMatters(s: State, id: Id, now: int, lease: int)
    requires Reachable(s) && id in s.rows
    ensures Ready(s.rows[id], now, lease) <==> s.rows[id].status == Queued && s.rows[id].runAfter <= now
  {
    ReachableInv(s);
  }

  /**
   Unless the job is written by id, a finished job stays finished, and a running job changes only by the reply of a
   worker that holds it.
   */
  lemma OnlyTheHolderEndsAJob(s: State, step: Step, id: Id)
    requires Inv(s) && Enabled(s, step) && id in s.rows
    ensures id in Apply(s, step).rows
    ensures Terminal(s.rows[id]) && Apply(s, step).rows[id] != s.rows[id] ==> Settles(s, step, id)
    ensures s.rows[id].status == Running && Apply(s, step).rows[id] != s.rows[id]
        ==> Settles(s, step, id) || (step.Reply? && Holds(PcOf(s, step.w), id))
  {
    if step.Reply? {
      assert Holds(PcOf(s, step.w), PcOf(s, step.w).claim.id);
    }
  }

  lemma OrphanStep(s: State, step: Step, id: Id)
    requires RowsSound(s) && Enabled(s, step) && id in s.rows && s.rows[id].status == Running && Unheld(s, id)
    ensures RowsSound(Apply(s, step)) && id in Apply(s, step).rows
    ensures if Settles(s, step, id) then Apply(s, step).rows[id].status != Running
            else Apply(s, step).rows[id] == s.rows[id] && Unheld(Apply(s, step), id)
  {
    if step.Settle? {
      AnswerReleases(s.seen[step.caller], step.handler, step.at, step.backoff);
    } else if step.Reply? {
      AnswerReleases(PcOf(s, step.w).claim, step.handler, step.at, step.backoff);
      assert Holds(PcOf(s, step.w), PcOf(s, step.w).claim.id);
    }
    forall w
      ensures Holds(PcOf(Apply(s, step), w), id) ==> Settles(s, step, id)
    {
      assert !Holds(PcOf(s, w), id);
    }
  }

  ghost predicate AlwaysRunning(s: State, run: seq<Step>, id: Id)
    requires Valid(s, run)
    decreases |run|
  {
    id in s.rows && s.rows[id].status == Running && (run == [] || AlwaysRunning(Apply(s, run[0]), run[1..], id))
  }

  ghost predicate NeverSettled(s: State, run: seq<Step>, id: Id)
    requires Valid(s, run)
    decreases |run|
  {
    run == [] || (!Settles(s, run[0], id) && NeverSettled(Apply(s, run[0]), run[1..], id))
  }

  /**
   Nothing but a write by id recovers a job whose holder has crashed: it stays running for a whole run, whatever calls by
   id do to other jobs, exactly when none writes this one.
   */
  lemma {:induction false} OrphanStaysRunningExactly(s: State, run: seq<Step>, id: Id)
    requires RowsSound(s) && Valid(s, run) && id in s.rows && s.rows[id].status == Running && Unheld(s, id)
    ensures AlwaysRunning(s, run, id) <==> NeverSettled(s, run, id)
    decreases |run|
  {
    if run != [] {
      OrphanStep(s, run[0], id);
      if !Settles(s, run[0], id) {
        OrphanStaysRunningExactly(Apply(s, run[0]), run[1..], id);
      }
    }
  }

  // ---- An outdated read repeats an attempt ----

  lemma Further(s: State, run: seq<Step>, step: Step)
    requires Valid(s, run) && Enabled(After(s, run), step)
    ensures Valid(s, run + [step]) && After(s, run + [step]) == Apply(After(s, run), step)
    decreases |run|
  {
    if run == [] {
      assert run + [step] == [step] && [step][1..] == [];
      var t := Apply(s, step);
      assert Valid(t, []) && After(t, []) == t;
    } else {
      assert (run + [step])[0] == run[0] && (run + [step])[1..] == run[1..] + [step];
      Further(Apply(s, run[0]), run[1..], step);
    }
  }

  /** One worker finds the only row, claims it and learns that it won. */
  lemma ClaimOnlyRow(start: State, run: seq<Step>, w: Id, id: Id, now: int) returns (longer: seq<Step>)
    requires Valid(start, run)
    requires var s := After(start, run);
             s.rows.Keys == {id} && Ready(s.rows[id], now, 0) && PcOf(s, w).Idle? && s.rows[id].id == id
    ensures Valid(start, longer)
    ensures var s, t := After(start, run), After(start, longer);
            var row := Taken(s.rows[id], now, w);
            t == s.(rows := s.rows[id := row], workers := s.workers[w := Working(row)],
                    grants := s.grants + [Grant(w, id, s.rows[id].attempts + 1)])
  {
    hide Valid, After;
    var s := After(start, run);
    var a, b, c, d := Begin(w, now, 0), Find(w, id), CompareAndSet(w), ReadBack(w);
    Further(start, run, a);
    assert Finds(Apply(s, a), now, 0, id);
    Further(start, run + [a], b);
    Further(start, run + [a] + [b], c);
    Further(start, run + [a] + [b] + [c], d);
    longer := run + [a] + [b] + [c] + [d];
    var t := After(start, longer);
    assert t.workers == s.workers[w := Working(Taken(s.rows[id], now, w))];
  }

  function FreshRow(id: Id): Job {
    Job(id, Queued, 0, 3, 0, 0, None, None)
  }

  lemma EnqueueAndLook(id: Id, caller: Id) returns (run: seq<Step>)
    ensures Valid(EMPTY, run)
    ensures After(EMPTY, run) == State(map[id := FreshRow(id)], map[], [], map[id := 0], map[caller := FreshRow(id)])
  {
    var enqueue := Enqueue(FreshRow(id));
    Further(EMPTY, [], enqueue);
    Further(EMPTY, [] + [enqueue], Look(caller, id));
    run := [] + [enqueue] + [Look(caller, id)];
  }

  /** The worker reports a failure that may be retried, and then the call by id writes the same about its own record. */
  lemma ReplyThenSettle(start: State, run: seq<Step>, w: Id, caller: Id) returns (longer: seq<Step>)
    requires Valid(start, run)
    requires var s := After(start, run);
             PcOf(s, w).Working? && caller in s.seen && s.seen[caller].id == PcOf(s, w).claim.id
    ensures Valid(start, longer)
    ensures var s, t := After(start, run), After(start, longer);
            var row := FailRecord(s.seen[caller], 0, true, DEFAULT_BACKOFF);
            t == s.(rows := s.rows[row.id := row], workers := s.workers[w := Idle], seen := s.seen - {caller})
  {
    var s := After(start, run);
    var reply, settle := Reply(w, Throws(true), 0, DEFAULT_BACKOFF), Settle(caller, Throws(true), 0, DEFAULT_BACKOFF);
    Further(start, run, reply);
    Further(start, run + [reply], settle);
    longer := run + [reply] + [settle];
    assert After(start, longer).rows == s.rows[s.seen[caller].id := FailRecord(s.seen[caller], 0, true, DEFAULT_BACKOFF)];
  }

  lemma RepeatedAttemptIsImpolite(run: seq<Step>, w: Id, id: Id)
    requires Valid(EMPTY, run) && After(EMPTY, run).grants == [Grant(w, id, 1), Grant(w, id, 1)]
    ensures !AlwaysPolite(EMPTY, run)
  {
    RunKeepsInvExactly(EMPTY, run);
    var grants := After(EMPTY, run).grants;
    assert grants[0].id == grants[1].id && grants[0].attempt == grants[1].attempt;
  }

  /**
   A call by id reads the queued job, a worker claims it and reports a failure, and then the call writes its outdated
   record. No worker holds the job at the read or at the write, and yet the next claim grants the first attempt again.
   */
  lemma OutdatedReadRepeatsAnAttempt(id: Id, w: Id, caller: Id) returns (run: seq<Step>)
    ensures Valid(EMPTY, run) && !AlwaysPolite(EMPTY, run)
    ensures After(EMPTY, run).grants == [Grant(w, id, 1), Grant(w, id, 1)]
  {
    hide Valid, After, AlwaysPolite;
    var row := FreshRow(id);
    run := EnqueueAndLook(id, caller);
    run := ClaimOnlyRow(EMPTY, run, w, id, 0);
    run := ReplyThenSettle(EMPTY, run, w, caller);
    var again := FailRecord(row, 0, true, DEFAULT_BACKOFF);
    assert After(EMPTY, run).rows == map[id := again];
    run := ClaimOnlyRow(EMPTY, run, w, id, again.runAfter);
    RepeatedAttemptIsImpolite(run, w, id);
  }

  // ---- What is found, won and lost ----

  /** A found row is queued, due, and unlocked or past its lease, and no other such row comes before it in the sort keys. */
  lemma FindsByColumns(s: State, now: int, lease: int, id: Id)
    ensures Finds(s, now, lease, id) <==>
            && id in s.rows && s.rows[id].status == Queued && s.rows[id].runAfter <= now
            && (s.rows[id].lockedAt == None || s.rows[id].lockedAt.value <= now - lease)
            && forall other :: other in s.rows && s.rows[other].status == Queued && s.rows[other].runAfter <= now
                               && (s.rows[other].lockedAt == None || s.rows[other].lockedAt.value <= now - lease)
                ==> !(|| s.rows[other].runAfter < s.rows[id].runAfter
                      || (s.rows[other].runAfter == s.rows[id].runAfter && s.rows[other].createdAt < s.rows[id].createdAt))
  {
    assert forall other :: other in s.rows ==>
      (Ready(s.rows[other], now, lease)
       <==> s.rows[other].status == Queued && s.rows[other].runAfter <= now
            && (s.rows[other].lockedAt == None || s.rows[other].lockedAt.value <= now - lease));
  }

  /**
   A conditional update wins exactly when the row, as it is by then, is still queued, due, and unlocked or past its lease.
   The winner's row is running under its lock with one more attempt; a lost update changes no row.
   */
  lemma UpdateWinsExactly(s: State, w: Id)
    requires Enabled(s, CompareAndSet(w))
    ensures var pc, t := PcOf(s, w), Apply(s, CompareAndSet(w));
            var row := s.rows[pc.id];
            && (PcOf(t, w) == Won(pc.id) <==>
                row.status == Queued && row.runAfter <= pc.now && (row.lockedAt == None || row.lockedAt.value <= pc.now - pc.lease))
            && (if PcOf(t, w) == Won(pc.id)
                then t.rows == s.rows[pc.id := row.(status := Running, attempts := row.attempts + 1, lockedBy := Some(w), lockedAt := Some(pc.now))]
                else t.rows == s.rows)
  {
  }

  /** The updates a worker has lost in its claim loop: three once it is out of it. */
  function Lost(pc: Pc): nat {
    match pc
    case Searching(tries, _, _) => tries
    case Found(tries, _, _, _) => tries
    case Idle => 3
    case Won(_) => 3
    case Working(_) => 3
  }

  function Updates(run: seq<Step>, w: Id): nat {
    if run == [] then 0 else (if run[0] == CompareAndSet(w) then 1 else 0) + Updates(run[1..], w)
  }

  lemma {:induction false} UpdatesAreCounted(s: State, run: seq<Step>, w: Id)
    requires Valid(s, run) && forall step :: step in run ==> !(step.Begin? && step.w == w)
    requires Lost(PcOf(s, w)) < 3 || !(PcOf(s, w).Searching? || PcOf(s, w).Found?)
    ensures Updates(run, w) <= 3 - Lost(PcOf(s, w))
    ensures Updates(run, w) == 3 - Lost(PcOf(s, w)) ==> !(PcOf(After(s, run), w).Searching? || PcOf(After(s, run), w).Found?)
    decreases |run|
  {
    if run != [] {
      assert run[0] in run && forall step :: step in run[1..] ==> step in run;
      UpdatesAreCounted(Apply(s, run[0]), run[1..], w);
    }
  }

  /** A worker makes at most three conditional updates in one claim, and is out of its loop after the third, won or lost. */
  lemma ThreeUpdatesAtMost(s: State, run: seq<Step>, w: Id, now: int, lease: int)
    requires Valid(s, run) && PcOf(s, w) == Searching(0, now, lease) && forall step :: step in run ==> !(step.Begin? && step.w == w)
    ensures Updates(run, w) <= 3
    ensures Updates(run, w) == 3 ==> !(PcOf(After(s, run), w).Searching? || PcOf(After(s, run), w).Found?)
  {
    UpdatesAreCounted(s, run, w);
  }
}
