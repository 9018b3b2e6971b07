/**
 The deployment life cycle: the transition table, and what it implies for every run of checked
 transitions. Statuses are taken after normalization; a status the table does not know stays as it is.
 */
module Lifecycle {
  import opened Wrappers

  datatype Status =
    | Queued
    | Building
    | ImageReady
    | Deploying
    | Ready
    | BuildFailed
    | Failed
    | Cancelled
    | CleanupRequested
    | Unknown(raw: string)

  function Allowed(from: Status): set<Status> {
    match from
    case Queued => {Building, Cancelled, Failed}
    case Building => {ImageReady, BuildFailed, Failed, Cancelled}
    case ImageReady => {Deploying, Ready, Failed, Cancelled}
    case Deploying => {Ready, Failed, Cancelled}
    case Ready => {CleanupRequested, Cancelled}
    case BuildFailed => {Building, Cancelled}
    case Failed => {Building, Cancelled}
    case CleanupRequested => {Cancelled}
    case Cancelled => {}
    case Unknown(_) => {}
  }

  predicate CanTransition(from: Status, to: Status) {
    from == to || to in Allowed(from)
  }

  /** The statuses of a deployment over a run of checked transitions. */
  ghost predicate Path(p: seq<Status>) {
    p != [] && forall i :: 0 < i < |p| ==> CanTransition(p[i - 1], p[i])
  }

  predicate RetryEdge(from: Status, to: Status) {
    (from == BuildFailed || from == Failed) && to == Building
  }

  function Changes(p: seq<Status>): nat {
    if |p| <= 1 then 0
    else Changes(p[..|p| - 1]) + (if p[|p| - 2] != p[|p| - 1] then 1 else 0)
  }

  function Retries(p: seq<Status>): nat {
    if |p| <= 1 then 0
    else Retries(p[..|p| - 1]) + (if RetryEdge(p[|p| - 2], p[|p| - 1]) then 1 else 0)
  }

  /** The most changes a run can still make without another retry, a failed run keeping one in reserve. */
  function Budget(s: Status): nat {
    match s
    case Queued => 6
    case Building => 5
    case ImageReady => 4
    case Deploying => 3
    case Ready => 2
    case BuildFailed => 2
    case Failed => 2
    case CleanupRequested => 1
    case Cancelled => 0
    case Unknown(_) => 0
  }

  lemma {:induction false} BudgetPays(p: seq<Status>)
    requires Path(p) && p[0] == Queued
    ensures Changes(p) + Budget(p[|p| - 1]) <= 6 + 4 * Retries(p)
  {
    if |p| > 1 {
      BudgetPays(p[..|p| - 1]);
    }
  }

  /** A run from queued with k retries changes the status at most 6 + 4k times. */
  lemma ChangesAreBounded(p: seq<Status>)
    requires Path(p) && p[0] == Queued
    ensures Changes(p) <= 6 + 4 * Retries(p)
  {
    BudgetPays(p);
  }

  lemma Extend(p: seq<Status>, s: Status) returns (q: seq<Status>)
    requires Path(p) && CanTransition(p[|p| - 1], s)
    ensures q != [] && Path(q) && q[0] == p[0] && q[|q| - 1] == s
    ensures Changes(q) == Changes(p) + (if p[|p| - 1] != s then 1 else 0)
    ensures Retries(q) == Retries(p) + (if RetryEdge(p[|p| - 1], s) then 1 else 0)
  {
    q := Extended(p, s);
    assert q[..|p|] == p;
  }

  lemma {:induction false} LongRunToBuilding(k: nat) returns (p: seq<Status>)
    ensures p != [] && Path(p) && p[0] == Queued && p[|p| - 1] == Building
    ensures Changes(p) == 1 + 4 * k && Retries(p) == k
  {
    if k == 0 {
      p := Extend([Queued], Building);
    } else {
      p := LongRunToBuilding(k - 1);
      p := Extend(p, ImageReady);
      p := Extend(p, Deploying);
      p := Extend(p, Failed);
      p := Extend(p, Building);
    }
  }

  /** The bound is met: for every k some run with k retries makes exactly 6 + 4k changes. */
  lemma BoundIsMet(k: nat) returns (p: seq<Status>)
    ensures p != [] && Path(p) && p[0] == Queued && Retries(p) == k && Changes(p) == 6 + 4 * k
  {
    p := LongRunToBuilding(k);
    p := Extend(p, ImageReady);
    p := Extend(p, Deploying);
    p := Extend(p, Ready);
    p := Extend(p, CleanupRequested);
    p := Extend(p, Cancelled);
  }

  /** A cancelled deployment stays cancelled. */
  lemma {:induction false} CancelledIsFinal(p: seq<Status>, i: nat, j: nat)
    requires Path(p) && i <= j < |p| && p[i] == Cancelled
    ensures p[j] == Cancelled
    decreases j
  {
    if i < j {
      CancelledIsFinal(p, i, j - 1);
    }
  }

  /**
   Every ready deployment was image-ready before, after its last build began: walking back from a
   status reached only through the image leads to it without meeting another build.
   */
  lemma {:induction false} ReadyHasAnImage(p: seq<Status>, i: nat) returns (j: nat, b: nat)
    requires Path(p) && p[0] == Queued && i < |p|
    requires p[i] == ImageReady || p[i] == Deploying || p[i] == Ready || p[i] == CleanupRequested
    ensures b < j <= i && p[j] == ImageReady && p[b] == Building
    ensures forall m :: b < m <= i ==> p[m] != Building
    decreases i
  {
    if p[i] == ImageReady && p[i - 1] != ImageReady {
      j, b := i, i - 1;
    } else {
      j, b := ReadyHasAnImage(p, i - 1);
    }
  }

  // ---- The table in words ----

  /** How far a deployment that meets no error has come; the other statuses are off this way. */
  function Place(s: Status): Option<nat> {
    match s
    case Queued => Some(0)
    case Building => Some(1)
    case ImageReady => Some(2)
    case Deploying => Some(3)
    case Ready => Some(4)
    case CleanupRequested => Some(5)
    case _ => None
  }

  /**
   The table as a whole: one step along the way, straight from image-ready to ready, a failure before ready, a failed
   build, a new build after a failure, and a cancellation from every status the table knows.
   */
  lemma TableExactly(from: Status, to: Status)
    ensures CanTransition(from, to) <==>
            || from == to
            || (Place(from).Some? && Place(to) == Some(Place(from).value + 1))
            || (from == ImageReady && to == Ready)
            || (to == Failed && Place(from).Some? && Place(from).value < 4)
            || (from == Building && to == BuildFailed)
            || ((from == BuildFailed || from == Failed) && to == Building)
            || (to == Cancelled && !from.Unknown?)
  {
  }

  /** Every run from queued can be cancelled wherever it stands. */
  lemma {:induction false} EveryRunCanBeCancelled(p: seq<Status>)
    requires Path(p) && p[0] == Queued
    ensures !p[|p| - 1].Unknown? && Path(p + [Cancelled])
  {
    if |p| > 1 {
      EveryRunCanBeCancelled(p[..|p| - 1]);
      assert CanTransition(p[|p| - 2], p[|p| - 1]);
    }
    TableExactly(p[|p| - 1], Cancelled);
    var _ := Extended(p, Cancelled);
  }

  lemma Extended(p: seq<Status>, s: Status) returns (q: seq<Status>)
    requires Path(p) && CanTransition(p[|p| - 1], s)
    ensures q == p + [s] && Path(q)
  {
    q := p + [s];
    forall i | 0 < i < |q|
      ensures CanTransition(q[i - 1], q[i])
    {
      if i < |p| {
        assert q[i - 1] == p[i - 1] && q[i] == p[i];
      }
    }
  }
}
