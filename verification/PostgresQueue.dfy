/**
 The Go builder's PostgreSQL job table. Unlike the list queues it takes over running jobs whose
 lease has run out, and completing or failing a job checks neither the lock owner nor the status,
 so a worker that lost its lease may still write. Every call is one atomic transaction.
 */
module PostgresQueue {
  import opened Wrappers
  import opened Workflow
  import ListQueue

  type Rows = map<Id, Job>

  /** The claim query's WHERE clause. A NULL lock time satisfies no comparison. */
  predicate Claimable(row: Job, now: int, cutoff: int) {
    || (row.status == Queued && row.runAfter <= now && (row.lockedAt.None? || row.lockedAt.value <= cutoff))
    || (row.status == Running && row.lockedAt.Some? && row.lockedAt.value <= cutoff && row.attempts < row.maxAttempts)
  }

  /** The claim query's ORDER BY clause. */
  predicate NotAfter(a: Job, b: Job) {
    || a.runAfter < b.runAfter
    || (a.runAfter == b.runAfter && a.createdAt < b.createdAt)
    || (a.runAfter == b.runAfter && a.createdAt == b.createdAt && a.id <= b.id)
  }

  /** The rows the query may lock: claimable, and not locked by another transaction. */
  function Candidates(rows: Rows, skipped: set<Id>, now: int, cutoff: int): set<Id> {
    set id | id in rows && id !in skipped && Claimable(rows[id], now, cutoff)
  }

  ghost predicate Picks(rows: Rows, skipped: set<Id>, now: int, cutoff: int, id: Id) {
    id in Candidates(rows, skipped, now, cutoff) &&
    forall other :: other in Candidates(rows, skipped, now, cutoff) ==> NotAfter(rows[id], rows[other])
  }

  function LeaseMillis(leaseSeconds: int): int {
    1000 * (if leaseSeconds <= 0 then 300 else leaseSeconds)
  }

  lemma {:induction false} LeastRowExists(rows: Rows, ids: set<Id>) returns (least: Id)
    requires ids != {} && ids <= rows.Keys
    ensures least in ids && forall other :: other in ids ==> NotAfter(rows[least], rows[other])
  {
    least := Member(ids);
    if ids - {least} != {} {
      var rest := LeastRowExists(rows, ids - {least});
      if !NotAfter(rows[least], rows[rest]) {
        least := rest;
      }
    }
  }

  class PostgresStore {
    var rows: Rows

    constructor ()
      ensures rows == map[]
    {
      rows := map[];
    }

    /** `skipped` is the set of rows that other transactions have locked at this moment. */
    method ClaimNext(skipped: set<Id>, now: int, leaseSeconds: int, worker: Id) returns (claim: Option<Id>)
      modifies this
      ensures match claim
              case None => Candidates(rows, skipped, now, now - LeaseMillis(leaseSeconds)) == {} && rows == old(rows)
              case Some(id) =>
                Picks(old(rows), skipped, now, now - LeaseMillis(leaseSeconds), id)
                && rows == old(rows)[id := Taken(old(rows)[id], now, worker)]
    {
      var lease := if leaseSeconds <= 0 then 300 else leaseSeconds;
      var ids := Candidates(rows, skipped, now, now - 1000 * lease);
      if ids == {} {
        return None;
      }
      ghost var least := LeastRowExists(rows, ids);
      var id :| id in ids && forall other :: other in ids ==> NotAfter(rows[id], rows[other]);
      rows := rows[id := Taken(rows[id], now, worker)];
      claim := Some(id);
    }

    method Complete(id: Id) returns (outcome: Outcome<Id>)
      modifies this
      ensures if id in old(rows)
              then outcome == Pass && rows == old(rows)[id := CompleteRecord(old(rows)[id])]
              else outcome == Fail(id) && rows == old(rows)
    {
      if id !in rows {
        return Fail(id);
      }
      var job := rows[id];
      job := job.(status := Succeeded);
      rows := rows[id := job.(lockedBy := None, lockedAt := None)];
      outcome := Pass;
    }

    method Refuse(id: Id, now: int) returns (outcome: Outcome<Id>)
      modifies this
      ensures if id in old(rows)
              then outcome == Pass && rows == old(rows)[id := GoFailRecord(old(rows)[id], now)]
              else outcome == Fail(id) && rows == old(rows)
    {
      if id !in rows {
        return Fail(id);
      }
      var job := rows[id];
      var limit := if job.maxAttempts <= 0 then 3 else job.maxAttempts;
      if job.attempts < limit {
        job := job.(status := Queued, runAfter := now + GoRetryDelay(job.attempts));
      } else {
        job := job.(status := Failed);
      }
      rows := rows[id := job.(lockedBy := None, lockedAt := None)];
      outcome := Pass;
    }
  }

  /**
   The claim takes a row that is due or left behind by its worker, and passes over no other such row but those locked by other
   transactions and those that are due later, or equally due and created later, or equal in both with a larger id.
   */
  lemma PicksByColumns(rows: Rows, skipped: set<Id>, now: int, leaseSeconds: int, id: Id)
    ensures var cutoff := now - 1000 * (if leaseSeconds <= 0 then 300 else leaseSeconds);
            Picks(rows, skipped, now, now - LeaseMillis(leaseSeconds), id) <==>
            && id in rows && id !in skipped
            && (|| (rows[id].status == Queued && rows[id].runAfter <= now
                    && (rows[id].lockedAt == None || rows[id].lockedAt.value <= cutoff))
                || (rows[id].status == Running && rows[id].lockedAt != None && rows[id].lockedAt.value <= cutoff
                    && rows[id].attempts < rows[id].maxAttempts))
            && forall other :: other in rows && other !in skipped
                && (|| (rows[other].status == Queued && rows[other].runAfter <= now
                        && (rows[other].lockedAt == None || rows[other].lockedAt.value <= cutoff))
                    || (rows[other].status == Running && rows[other].lockedAt != None && rows[other].lockedAt.value <= cutoff
                        && rows[other].attempts < rows[other].maxAttempts))
                ==> || rows[id].runAfter < rows[other].runAfter
                    || (rows[id].runAfter == rows[other].runAfter && rows[id].createdAt < rows[other].createdAt)
                    || (rows[id].runAfter == rows[other].runAfter && rows[id].createdAt == rows[other].createdAt
                        && rows[id].id <= rows[other].id)
  {
    var cutoff := now - LeaseMillis(leaseSeconds);
    assert Candidates(rows, skipped, now, cutoff) == set other | other in rows && other !in skipped && Claimable(rows[other], now, cutoff);
  }

  ghost predicate SameJobs(jobs: seq<Job>, rows: Rows) {
    && ListQueue.UniqueIds(jobs)
    && (forall i :: 0 <= i < |jobs| ==> jobs[i].id in rows && rows[jobs[i].id] == jobs[i])
    && (forall id :: id in rows ==> rows[id].id == id && rows[id] in jobs)
  }

  /** As a table kept in the order in which jobs are created, with rising ids, is listed. */
  ghost predicate InCreationOrder(jobs: seq<Job>) {
    forall i, j :: 0 <= i < j < |jobs| ==>
      (jobs[i].createdAt < jobs[j].createdAt || (jobs[i].createdAt == jobs[j].createdAt && jobs[i].id < jobs[j].id))
  }

  /** No worker has left a job behind: none is running past its lease with attempts left. */
  ghost predicate NoneLeftBehind(jobs: seq<Job>, now: int, lease: int) {
    forall j :: 0 <= j < |jobs| && jobs[j].status == Running ==>
      jobs[j].lockedAt.None? || now < jobs[j].lockedAt.value + lease || jobs[j].attempts >= jobs[j].maxAttempts
  }

  lemma ReadyIsCandidate(jobs: seq<Job>, rows: Rows, now: int, lease: int, i: nat)
    requires SameJobs(jobs, rows) && NoneLeftBehind(jobs, now, lease) && i < |jobs|
    ensures jobs[i].id in rows && rows[jobs[i].id] == jobs[i]
    ensures Ready(jobs[i], now, lease) <==> jobs[i].id in Candidates(rows, {}, now, now - lease)
  {
    assert Ready(jobs[i], now, lease) <==> Claimable(jobs[i], now, now - lease);
  }

  lemma IndexOf(jobs: seq<Job>, rows: Rows, now: int, lease: int, id: Id) returns (i: nat)
    requires SameJobs(jobs, rows) && NoneLeftBehind(jobs, now, lease) && id in Candidates(rows, {}, now, now - lease)
    ensures i < |jobs| && jobs[i] == rows[id] && jobs[i].id == id && Ready(jobs[i], now, lease)
  {
    assert rows[id] in jobs;
    i :| 0 <= i < |jobs| && jobs[i] == rows[id];
    ReadyIsCandidate(jobs, rows, now, lease, i);
  }

  lemma OrdersAgree(jobs: seq<Job>, i: nat, j: nat)
    requires InCreationOrder(jobs) && i < |jobs| && j < |jobs|
    ensures NotAfter(jobs[i], jobs[j]) <==> jobs[i].runAfter < jobs[j].runAfter || (jobs[i].runAfter == jobs[j].runAfter && i <= j)
  {
  }

  /** Where no worker has left a job behind, the table hands out the job that the list queue does. */
  lemma TableClaimsAsTheListDoes(jobs: seq<Job>, rows: Rows, now: int, leaseSeconds: int, i: nat)
    requires SameJobs(jobs, rows) && InCreationOrder(jobs) && NoneLeftBehind(jobs, now, LeaseMillis(leaseSeconds)) && i < |jobs|
    ensures Picks(rows, {}, now, now - LeaseMillis(leaseSeconds), jobs[i].id)
        <==> ListQueue.TsPick(jobs, now, LeaseMillis(leaseSeconds)) == Some(i)
  {
    var lease := LeaseMillis(leaseSeconds);
    var due, pick := Candidates(rows, {}, now, now - lease), ListQueue.TsPick(jobs, now, lease);
    ListQueue.TsPickIsNext(jobs, now, lease);
    ReadyIsCandidate(jobs, rows, now, lease, i);
    hide Candidates, NoneLeftBehind, NotAfter, Ready, LeaseMillis, InCreationOrder, ListQueue.TsPick;
    if jobs[i].id in due {
      var n := pick.value;
      ReadyIsCandidate(jobs, rows, now, lease, n);
      OrdersAgree(jobs, i, n);
      forall id | id in due
        ensures NotAfter(jobs[n], rows[id])
      {
        var j := IndexOf(jobs, rows, now, lease, id);
        OrdersAgree(jobs, n, j);
      }
    }
  }

  // ---- Runs: any calls, in any order, by any workers ----

  datatype Call =
    | Enqueue(row: Job)
    | Take(id: Id, worker: Id, now: int, leaseSeconds: int, skipped: set<Id>)
    | Finish(id: Id)
    | GiveUp(id: Id, at: int)

  ghost predicate Enabled(rows: Rows, call: Call) {
    match call
    case Enqueue(row) =>
      row.id !in rows && row.status == Queued && row.lockedAt == None && 0 <= row.attempts < row.maxAttempts
    case Take(id, _, now, leaseSeconds, skipped) => Picks(rows, skipped, now, now - LeaseMillis(leaseSeconds), id)
    case Finish(id) => id in rows
    case GiveUp(id, _) => id in rows
  }

  function Apply(rows: Rows, call: Call): Rows {
    match call
    case Enqueue(row) => rows[row.id := row]
    case Take(id, worker, now, _, _) => if id in rows then rows[id := Taken(rows[id], now, worker)] else rows
    case Finish(id) => if id in rows then rows[id := CompleteRecord(rows[id])] else rows
    case GiveUp(id, at) => if id in rows then rows[id := GoFailRecord(rows[id], at)] else rows
  }

  ghost predicate Valid(rows: Rows, run: seq<Call>)
    decreases |run|
  {
    run == [] || (Enabled(rows, run[0]) && Valid(Apply(rows, run[0]), run[1..]))
  }

  function After(rows: Rows, run: seq<Call>): Rows
    decreases |run|
  {
    if run == [] then rows else After(Apply(rows, run[0]), run[1..])
  }

  /** How often the run hands the job out, takeovers included. */
  function Claims(run: seq<Call>, id: Id): nat {
    if run == [] then 0
    else (if run[0].Take? && run[0].id == id then 1 else 0) + Claims(run[1..], id)
  }

  predicate SoundRow(row: Job) {
    0 <= row.attempts <= row.maxAttempts && 1 <= row.maxAttempts && (row.status == Queued ==> row.attempts < row.maxAttempts)
  }

  ghost predicate Inv(rows: Rows) {
    forall id :: id in rows ==> SoundRow(rows[id])
  }

  lemma StepKeepsInv(rows: Rows, call: Call)
    requires Inv(rows) && Enabled(rows, call)
    ensures Inv(Apply(rows, call))
    ensures forall id :: id in rows ==>
              id in Apply(rows, call)
              && Apply(rows, call)[id].maxAttempts == rows[id].maxAttempts
              && Apply(rows, call)[id].attempts == rows[id].attempts + (if call.Take? && call.id == id then 1 else 0)
  {
    if call.Take? {
      assert call.id in Candidates(rows, call.skipped, call.now, call.now - LeaseMillis(call.leaseSeconds));
    }
  }

  /**
   Over every run of any number of workers, takeovers and late writes included, queued rows have an
   attempt left, no row exceeds its limit, and a job is handed out at most as often as it has attempts left.
   */
  lemma {:induction false} ClaimsAreBounded(rows: Rows, run: seq<Call>, id: Id)
    requires Inv(rows) && Valid(rows, run) && id in rows
    ensures Inv(After(rows, run)) && id in After(rows, run)
    ensures After(rows, run)[id].maxAttempts == rows[id].maxAttempts
    ensures After(rows, run)[id].attempts == rows[id].attempts + Claims(run, id)
    ensures Claims(run, id) <= rows[id].maxAttempts - rows[id].attempts
    decreases |run|
  {
    if run != [] {
      StepKeepsInv(rows, run[0]);
      ClaimsAreBounded(Apply(rows, run[0]), run[1..], id);
    }
  }

  /**
   A finished job comes back to life exactly when some worker reports a failure for it while the row still has
   attempts left. No other call, a claim in particular, ever does so.
   */
  lemma TerminalLeftExactly(rows: Rows, call: Call, id: Id)
    requires Inv(rows) && Enabled(rows, call) && id in rows && Terminal(rows[id])
    ensures id in Apply(rows, call)
    ensures !Terminal(Apply(rows, call)[id])
        <==> call.GiveUp? && call.id == id && rows[id].attempts < rows[id].maxAttempts
  {
    if call.Take? {
      assert call.id in Candidates(rows, call.skipped, call.now, call.now - LeaseMillis(call.leaseSeconds));
    }
  }

  ghost predicate AlwaysSucceeded(rows: Rows, run: seq<Call>, id: Id)
    decreases |run|
  {
    id in rows && rows[id].status == Succeeded && (run == [] || AlwaysSucceeded(Apply(rows, run[0]), run[1..], id))
  }

  /** A success lasts for the rest of a run exactly when no failure is reported for the job any more. */
  lemma {:induction false} SuccessLastsExactly(rows: Rows, run: seq<Call>, id: Id)
    requires Inv(rows) && Valid(rows, run) && id in rows && rows[id].status == Succeeded
    ensures AlwaysSucceeded(rows, run, id) <==> forall call :: call in run ==> !(call.GiveUp? && call.id == id)
    decreases |run|
  {
    if run != [] {
      var call, rest, next := run[0], run[1..], Apply(rows, run[0]);
      assert forall c :: c in run <==> c == call || c in rest;
      StepKeepsInv(rows, call);
      if call.Take? {
        assert call.id in Candidates(rows, call.skipped, call.now, call.now - LeaseMillis(call.leaseSeconds));
      }
      if next[id].status == Succeeded {
        SuccessLastsExactly(next, rest, id);
      }
    }
  }

  ghost predicate AlwaysTerminal(rows: Rows, run: seq<Call>, id: Id)
    decreases |run|
  {
    id in rows && Terminal(rows[id]) && (run == [] || AlwaysTerminal(Apply(rows, run[0]), run[1..], id))
  }

  /** A finished job stays finished for the rest of a run exactly when it is out of attempts or no failure is reported for it. */
  lemma {:induction false} TerminalLastsExactly(rows: Rows, run: seq<Call>, id: Id)
    requires Inv(rows) && Valid(rows, run) && id in rows && Terminal(rows[id])
    ensures AlwaysTerminal(rows, run, id)
        <==> rows[id].attempts == rows[id].maxAttempts || forall call :: call in run ==> !(call.GiveUp? && call.id == id)
    decreases |run|
  {
    if run != [] {
      var call, rest, next := run[0], run[1..], Apply(rows, run[0]);
      assert forall c :: c in run <==> c == call || c in rest;
      StepKeepsInv(rows, call);
      TerminalLeftExactly(rows, call, id);
      if call.Take? {
        assert call.id in Candidates(rows, call.skipped, call.now, call.now - LeaseMillis(call.leaseSeconds));
      }
      if Terminal(next[id]) {
        TerminalLastsExactly(next, rest, id);
      }
    }
  }

  /**
   The late write that undoes a success: the first worker's lease runs out, a second worker takes the job over and
   completes it, and then the first worker reports its own failure.
   */
  lemma LateFailureUndoesSuccess(id: Id, slow: Id, fast: Id) returns (run: seq<Call>)
    ensures |run| == 5 && Valid(map[], run) && id in After(map[], run[..4]) && id in After(map[], run)
    ensures After(map[], run[..4])[id].status == Succeeded
    ensures run[4] == GiveUp(id, 300_001) && After(map[], run)[id].status == Queued
  {
    var row := Job(id, Queued, 0, 3, 0, 0, None, None);
    var e, a, b, f, g := Enqueue(row), Take(id, slow, 0, 300, {}), Take(id, fast, 300_000, 300, {}), Finish(id), GiveUp(id, 300_001);
    run := [e, a, b, f, g];
    var s1 := Apply(map[], e);
    assert Candidates(s1, {}, 0, -300_000) == {id};
    var s2 := Apply(s1, a);
    assert s2[id] == Taken(row, 0, slow);
    assert Candidates(s2, {}, 300_000, 0) == {id};
    var s3 := Apply(s2, b);
    var s4 := Apply(s3, f);
    var s5 := Apply(s4, g);
    assert run[1..] == [a, b, f, g] && run[1..][1..] == [b, f, g] && run[1..][1..][1..] == [f, g] && run[1..][1..][1..][1..] == [g];
    assert Valid(s4, [g]) && Valid(s3, [f, g]) && Valid(s2, [b, f, g]) && Valid(s1, [a, b, f, g]);
    assert After(s4, [g]) == s5 && After(s3, [f, g]) == s5 && After(s2, [b, f, g]) == s5 && After(s1, [a, b, f, g]) == s5;
    var cut := run[..4];
    assert cut == [e, a, b, f] && cut[1..] == [a, b, f] && cut[1..][1..] == [b, f] && cut[1..][1..][1..] == [f];
    assert After(s3, [f]) == s4 && After(s2, [b, f]) == s4 && After(s1, [a, b, f]) == s4;
  }

  ghost predicate AlwaysAsIs(rows: Rows, run: seq<Call>, id: Id, row: Job)
    decreases |run|
  {
    id in rows && rows[id] == row && (run == [] || AlwaysAsIs(Apply(rows, run[0]), run[1..], id, row))
  }

  predicate ByIdOf(call: Call, id: Id) {
    (call.Finish? && call.id == id) || (call.GiveUp? && call.id == id)
  }

  /** A row that no claim of the run may take stays as it is exactly when nobody completes or fails it by id. */
  lemma {:induction false} UnclaimedStaysExactly(rows: Rows, run: seq<Call>, id: Id)
    requires Inv(rows) && Valid(rows, run) && id in rows && rows[id].status == Running
    requires forall call :: call in run && call.Take? ==> !Claimable(rows[id], call.now, call.now - LeaseMillis(call.leaseSeconds))
    ensures AlwaysAsIs(rows, run, id, rows[id]) <==> forall call :: call in run ==> !ByIdOf(call, id)
    decreases |run|
  {
    if run != [] {
      var call, rest, next := run[0], run[1..], Apply(rows, run[0]);
      assert forall c :: c in run <==> c == call || c in rest;
      StepKeepsInv(rows, call);
      if call.Take? {
        assert call.id in Candidates(rows, call.skipped, call.now, call.now - LeaseMillis(call.leaseSeconds));
      }
      assert call in run;
      assert next[id] == rows[id] <==> !ByIdOf(call, id);
      if next[id] == rows[id] {
        UnclaimedStaysExactly(next, rest, id);
      }
    }
  }

  /**
   A worker that dies on the last attempt strands the job: however the clock moves, the row stays as it is exactly when
   nobody completes or fails it by id.
   */
  lemma LastAttemptIsStrandedExactly(rows: Rows, run: seq<Call>, id: Id)
    requires Inv(rows) && Valid(rows, run) && id in rows
    requires rows[id].status == Running && rows[id].attempts == rows[id].maxAttempts
    ensures AlwaysAsIs(rows, run, id, rows[id]) <==> forall call :: call in run ==> !ByIdOf(call, id)
  {
    UnclaimedStaysExactly(rows, run, id);
  }

  /**
   While a lease runs, nobody else gets the job: in a run whose claims come before its end the row stays as it is exactly
   when nobody completes or fails it by id.
   */
  lemma LeaseHoldsExactly(rows: Rows, run: seq<Call>, id: Id, since: int)
    requires Inv(rows) && Valid(rows, run) && id in rows
    requires rows[id].status == Running && rows[id].lockedAt == Some(since)
    requires forall call :: call in run ==> (call.Take? ==> call.now < since + LeaseMillis(call.leaseSeconds))
    ensures AlwaysAsIs(rows, run, id, rows[id]) <==> forall call :: call in run ==> !ByIdOf(call, id)
  {
    UnclaimedStaysExactly(rows, run, id);
  }

  /**
   A waiting row that is due, and that nobody changes or locks, is overtaken over a whole run only by rows that were due
   before it, or equally due and created before it, or equal in both with a smaller id.
   */
  lemma {:induction false} OvertakenOnlyByEarlier(rows: Rows, run: seq<Call>, id: Id, k: nat)
    requires id in rows && Valid(rows, run) && AlwaysAsIs(rows, run, id, rows[id]) && rows[id].status == Queued && rows[id].lockedAt == None
    requires k < |run| && run[k].Take? && run[k].now >= rows[id].runAfter && id !in run[k].skipped
    ensures var taken := run[k].id;
            && taken in After(rows, run[..k])
            && var row := After(rows, run[..k])[taken];
            || row.runAfter < rows[id].runAfter
            || (row.runAfter == rows[id].runAfter && row.createdAt < rows[id].createdAt)
            || (row.runAfter == rows[id].runAfter && row.createdAt == rows[id].createdAt && row.id <= rows[id].id)
    ensures run[k].id != id
    decreases k
  {
    var call := run[0];
    if k == 0 {
      PicksByColumns(rows, call.skipped, call.now, call.leaseSeconds, call.id);
    } else {
      assert run[..k][1..] == run[1..][..k - 1];
      OvertakenOnlyByEarlier(Apply(rows, call), run[1..], id, k - 1);
    }
  }
}
