/**
 The two list-shaped job queues: the TypeScript queue, which filters the ready jobs, sorts them
 and takes the first, and the Go file store, which sorts every job, scans for a ready one and
 finds its record again by id. Both are proved to take the same job.
 */
module ListQueue {
  import opened Wrappers
  import opened Workflow
  import opened Sorting
  import Rows

  /** What running the handler of a claimed job comes to. */
  datatype Handler = Missing | Succeeds | Throws(retryable: bool)

  /** Entries of the jobs that satisfy the filter, in queue order. */
  function Entries(jobs: seq<Job>, onlyReady: bool, now: int, lease: int): (entries: seq<Entry>)
    ensures forall e :: e in entries <==>
      e.index < |jobs| && e.key == jobs[e.index].runAfter && (onlyReady ==> Ready(jobs[e.index], now, lease))
    ensures InListOrder(entries)
  {
    if jobs == [] then []
    else
      var front, last := jobs[..|jobs| - 1], |jobs| - 1;
      var rest := Entries(front, onlyReady, now, lease);
      if onlyReady && !Ready(jobs[last], now, lease) then rest else rest + [Entry(jobs[last].runAfter, last)]
  }

  function FirstReady(entries: seq<Entry>, jobs: seq<Job>, now: int, lease: int): Option<nat>
    requires forall e :: e in entries ==> e.index < |jobs|
  {
    if entries == [] then None
    else if Ready(jobs[entries[0].index], now, lease) then Some(entries[0].index)
    else FirstReady(entries[1..], jobs, now, lease)
  }

  /** The position the TypeScript queue claims. */
  function TsPick(jobs: seq<Job>, now: int, lease: int): Option<nat> {
    var ordered := StableSort(Entries(jobs, true, now, lease));
    if ordered == [] then None else Some(ordered[0].index)
  }

  /** The position the Go file store scans to. */
  function GoScan(jobs: seq<Job>, now: int, lease: int): Option<nat> {
    StableSortSorts(Entries(jobs, false, now, lease));
    FirstReady(StableSort(Entries(jobs, false, now, lease)), jobs, now, lease)
  }

  function FirstWithId(jobs: seq<Job>, id: Id): (i: Option<nat>)
    ensures i.Some? ==> i.value < |jobs| && jobs[i.value].id == id && forall j :: 0 <= j < i.value ==> jobs[j].id != id
    ensures i.None? ==> forall j :: 0 <= j < |jobs| ==> jobs[j].id != id
  {
    Rows.FirstWithId(jobs, (job: Job) => job.id, id)
  }

  /** The position the Go file store updates: the first record carrying the scanned job's id. */
  function GoPick(jobs: seq<Job>, now: int, lease: int): Option<nat> {
    GoScanIsNext(jobs, now, lease);
    match GoScan(jobs, now, lease)
    case None => None
    case Some(i) => FirstWithId(jobs, jobs[i].id)
  }

  /** The job both queues promise: ready, least runAfter, and first in the queue among equals. */
  ghost predicate IsNext(jobs: seq<Job>, now: int, lease: int, i: nat) {
    i < |jobs| && Ready(jobs[i], now, lease) &&
    forall j :: 0 <= j < |jobs| && Ready(jobs[j], now, lease) ==>
      jobs[i].runAfter < jobs[j].runAfter || (jobs[i].runAfter == jobs[j].runAfter && i <= j)
  }

  ghost predicate NoneReady(jobs: seq<Job>, now: int, lease: int) {
    forall j :: 0 <= j < |jobs| ==> !Ready(jobs[j], now, lease)
  }

  lemma TsPickIsNext(jobs: seq<Job>, now: int, lease: int)
    ensures match TsPick(jobs, now, lease)
            case None => NoneReady(jobs, now, lease)
            case Some(i) => IsNext(jobs, now, lease, i)
  {
    var entries := Entries(jobs, true, now, lease);
    StableSortSorts(entries);
    var ordered := StableSort(entries);
    forall j | 0 <= j < |jobs| && Ready(jobs[j], now, lease)
      ensures ordered != [] && (ordered[0] == Entry(jobs[j].runAfter, j) || Before(ordered[0], Entry(jobs[j].runAfter, j)))
    {
      assert Entry(jobs[j].runAfter, j) in ordered;
    }
    if ordered != [] {
      assert ordered[0] in entries;
    }
  }

  /**
   The claimed job is queued, due, and unlocked or past its lease, and every other such job is due later, or equally due and
   further back in the queue.
   */
  lemma TsPickByFields(jobs: seq<Job>, now: int, lease: int, i: nat)
    ensures TsPick(jobs, now, lease) == Some(i) <==>
      && i < |jobs|
      && jobs[i].status == Queued && jobs[i].runAfter <= now
      && (jobs[i].lockedAt == None || jobs[i].lockedAt.value + lease <= now)
      && forall j :: 0 <= j < |jobs| && j != i && jobs[j].status == Queued && jobs[j].runAfter <= now
                     && (jobs[j].lockedAt == None || jobs[j].lockedAt.value + lease <= now)
                     ==> jobs[i].runAfter < jobs[j].runAfter || (jobs[i].runAfter == jobs[j].runAfter && i < j)
  {
    TsPickIsNext(jobs, now, lease);
    if i < |jobs| && Ready(jobs[i], now, lease) && TsPick(jobs, now, lease) != Some(i) {
      assert IsNext(jobs, now, lease, TsPick(jobs, now, lease).value);
    }
  }

  lemma {:induction false} FirstReadyIsLeast(entries: seq<Entry>, jobs: seq<Job>, now: int, lease: int)
    requires Sorted(entries) && forall e :: e in entries ==> e.index < |jobs|
    ensures match FirstReady(entries, jobs, now, lease)
            case None => forall e :: e in entries ==> !Ready(jobs[e.index], now, lease)
            case Some(i) =>
              i < |jobs| && Ready(jobs[i], now, lease) &&
              exists a :: a in entries && a.index == i &&
                forall e :: e in entries && Ready(jobs[e.index], now, lease) ==> e == a || Before(a, e)
  {
    if entries != [] {
      var head, rest := entries[0], entries[1..];
      assert forall e :: e in entries <==> e == head || e in rest;
      if Ready(jobs[head.index], now, lease) {
        assert head in entries && forall e :: e in entries ==> e == head || Before(head, e);
      } else {
        FirstReadyIsLeast(rest, jobs, now, lease);
      }
    }
  }

  lemma GoScanIsNext(jobs: seq<Job>, now: int, lease: int)
    ensures match GoScan(jobs, now, lease)
            case None => NoneReady(jobs, now, lease)
            case Some(i) => IsNext(jobs, now, lease, i)
  {
    var entries := Entries(jobs, false, now, lease);
    StableSortSorts(entries);
    FirstReadyIsLeast(StableSort(entries), jobs, now, lease);
    forall j | 0 <= j < |jobs|
      ensures Entry(jobs[j].runAfter, j) in StableSort(entries)
    {
      assert Entry(jobs[j].runAfter, j) in entries;
    }
  }

  /**
   The two claims agree. With a repeated id the Go store may update a different record than the one
   it found ready; it updates the same one exactly when no earlier record carries that id.
   */
  lemma ClaimsAgree(jobs: seq<Job>, now: int, lease: int)
    ensures TsPick(jobs, now, lease) == GoScan(jobs, now, lease)
    ensures TsPick(jobs, now, lease).None? <==> GoPick(jobs, now, lease).None?
    ensures match TsPick(jobs, now, lease)
            case None => true
            case Some(i) =>
              i < |jobs| &&
              (GoPick(jobs, now, lease) == Some(i) <==> forall j :: 0 <= j < i ==> jobs[j].id != jobs[i].id)
  {
    TsPickIsNext(jobs, now, lease);
    GoScanIsNext(jobs, now, lease);
  }

  predicate UniqueIds(jobs: seq<Job>) {
    Rows.UniqueIds(jobs, (job: Job) => job.id)
  }

  // ---- What one call does to the queue ----

  /** The claim handed to the worker, if any; the queue then holds the same record. */
  function ClaimOf(jobs: seq<Job>, now: int, lease: int, worker: Id): Option<Job> {
    TsPickIsNext(jobs, now, lease);
    match TsPick(jobs, now, lease)
    case None => None
    case Some(i) => Some(Claimed(jobs[i], now, worker))
  }

  function AfterClaim(jobs: seq<Job>, now: int, lease: int, worker: Id): seq<Job> {
    TsPickIsNext(jobs, now, lease);
    match TsPick(jobs, now, lease)
    case None => jobs
    case Some(i) => jobs[i := Claimed(jobs[i], now, worker)]
  }

  /** The queue after the first record with the new record's id is overwritten by it. */
  function Replaced(jobs: seq<Job>, next: Job): seq<Job> {
    match FirstWithId(jobs, next.id)
    case None => jobs
    case Some(i) => jobs[i := next]
  }

  /** The record a worker writes back for its claim. */
  function Answer(claim: Job, handler: Handler, now: int, backoff: Backoff): Job {
    match handler
    case Missing => FailRecord(claim, now, false, backoff)
    case Succeeds => CompleteRecord(claim)
    case Throws(retryable) => FailRecord(claim, now, retryable, backoff)
  }

  /** The job is claimed at one time and answered at another, as its handler takes a while. */
  function AfterProcess(jobs: seq<Job>, handler: Handler, now: int, done: int, lease: int, worker: Id, backoff: Backoff): seq<Job> {
    match ClaimOf(jobs, now, lease, worker)
    case None => jobs
    case Some(claim) => Replaced(AfterClaim(jobs, now, lease, worker), Answer(claim, handler, done, backoff))
  }

  /** The TypeScript queue, held as the array of records the store keeps. */
  class TsQueue {
    var jobs: seq<Job>

    constructor ()
      ensures jobs == []
    {
      jobs := [];
    }

    method ClaimNext(now: int, lease: int, worker: Id) returns (claim: Option<Job>)
      modifies this
      ensures claim == ClaimOf(old(jobs), now, lease, worker)
      ensures jobs == AfterClaim(old(jobs), now, lease, worker)
    {
      var ready: seq<Entry> := [];
      for index := 0 to |jobs|
        invariant jobs == old(jobs)
        invariant ready == Entries(jobs[..index], true, now, lease)
      {
        assert jobs[..index + 1][..index] == jobs[..index];
        if Ready(jobs[index], now, lease) {
          ready := ready + [Entry(jobs[index].runAfter, index)];
        }
      }
      assert jobs[..|jobs|] == jobs;
      var ordered := StableSort(ready);
      TsPickIsNext(jobs, now, lease);
      if ordered == [] {
        return None;
      }
      var next := ordered[0].index;
      claim := ClaimRecord(jobs[next], now, lease, worker);
      jobs := jobs[next := claim.value];
    }

    method Replace(next: Job) returns (outcome: Outcome<Id>)
      modifies this
      ensures jobs == Replaced(old(jobs), next)
      ensures outcome == if exists i :: 0 <= i < |old(jobs)| && old(jobs)[i].id == next.id then Pass else Fail(next.id)
    {
      var index := 0;
      while index < |jobs| && jobs[index].id != next.id
        invariant index <= |jobs|
        invariant forall j :: 0 <= j < index ==> jobs[j].id != next.id
      {
        index := index + 1;
      }
      if index == |jobs| {
        return Fail(next.id);
      }
      jobs := jobs[index := next];
      outcome := Pass;
    }

    /** Claims the next ready job, runs its handler and writes the answer back. */
    method ProcessNext(handler: Handler, now: int, done: int, lease: int, worker: Id, backoff: Backoff) returns (processed: bool)
      modifies this
      ensures processed == ClaimOf(old(jobs), now, lease, worker).Some?
      ensures jobs == AfterProcess(old(jobs), handler, now, done, lease, worker, backoff)
    {
      var claim := ClaimNext(now, lease, worker);
      if claim.None? {
        return false;
      }
      var _ := Replace(Answer(claim.value, handler, done, backoff));
      processed := true;
    }
  }

  /** The Go file store's queue. */
  class GoFileQueue {
    var jobs: seq<Job>

    constructor ()
      ensures jobs == []
    {
      jobs := [];
    }

    /** Walks the sorted candidates to the first ready one, and looks its record up by id. */
    static method Scan(jobs: seq<Job>, sorted: seq<Entry>, now: int, lease: int) returns (index: Option<nat>)
      requires forall e :: e in sorted ==> e.index < |jobs|
      ensures match FirstReady(sorted, jobs, now, lease)
              case None => index == None
              case Some(i) => i < |jobs| && index == FirstWithId(jobs, jobs[i].id)
    {
      index := None;
      var at := 0;
      while at < |sorted|
        invariant at <= |sorted|
        invariant FirstReady(sorted, jobs, now, lease) == FirstReady(sorted[at..], jobs, now, lease)
      {
        assert sorted[at] in sorted && sorted[at..][1..] == sorted[at + 1..];
        var candidate := jobs[sorted[at].index];
        if Ready(candidate, now, lease) {
          return FirstWithId(jobs, candidate.id);
        }
        at := at + 1;
      }
    }

    method ClaimNext(now: int, lease: int, worker: Id) returns (claimed: Option<Job>)
      modifies this
      ensures match GoPick(old(jobs), now, lease)
              case None => claimed == None && jobs == old(jobs)
              case Some(i) =>
                claimed == Some(Taken(old(jobs)[i], now, worker)) && jobs == old(jobs)[i := Taken(old(jobs)[i], now, worker)]
    {
      var entries := Entries(jobs, false, now, lease);
      StableSortSorts(entries);
      GoScanIsNext(jobs, now, lease);
      var index := Scan(jobs, StableSort(entries), now, lease);
      if index.None? {
        return None;
      }
      var job := jobs[index.value];
      job := job.(status := Running, attempts := job.attempts + 1, lockedBy := Some(worker), lockedAt := Some(now));
      jobs := jobs[index.value := job];
      claimed := Some(job);
    }

    method Complete(id: Id) returns (outcome: Outcome<Id>)
      modifies this
      ensures match FirstWithId(old(jobs), id)
              case None => outcome == Fail(id) && jobs == old(jobs)
              case Some(i) => outcome == Pass && jobs == old(jobs)[i := CompleteRecord(old(jobs)[i])]
    {
      var index := FirstWithId(jobs, id);
      if index.None? {
        return Fail(id);
      }
      var job := jobs[index.value].(status := Succeeded);
      jobs := jobs[index.value := job.(lockedBy := None, lockedAt := None)];
      outcome := Pass;
    }

    method Refuse(id: Id, now: int) returns (outcome: Outcome<Id>)
      modifies this
      ensures match FirstWithId(old(jobs), id)
              case None => outcome == Fail(id) && jobs == old(jobs)
              case Some(i) => outcome == Pass && jobs == old(jobs)[i := GoFailRecord(old(jobs)[i], now)]
    {
      var index := FirstWithId(jobs, id);
      if index.None? {
        return Fail(id);
      }
      var job := jobs[index.value];
      var limit := if job.maxAttempts <= 0 then 3 else job.maxAttempts;
      if job.attempts < limit {
        job := job.(status := Queued, runAfter := now + GoRetryDelay(job.attempts));
      } else {
        job := job.(status := Failed);
      }
      jobs := jobs[index.value := job.(lockedBy := None, lockedAt := None)];
      outcome := Pass;
    }
  }
}
