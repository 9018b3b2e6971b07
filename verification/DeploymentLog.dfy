/**
 Deployments with their event log: the unchecked update, the checked transition, cancellation and the
 webhook's direct cleanup write, and when the log replays to the current status.
 */
module DeploymentLog {
  import opened Wrappers
  import opened Lifecycle

  type Id = int

  datatype Change = Change(from: Status, to: Status)

  /** An event of a deployment; only status events carry a from/to pair. */
  datatype Event = Event(deployment: Id, change: Option<Change>)

  /** What an update says about the status: nothing, an empty value, or a status. */
  datatype StatusUpdate = Keep | Clear | Set(status: Status)

  datatype Options = Options(validate: bool, append: bool, labelled: bool)

  datatype Error = NotFound | InvalidTransition

  datatype Log = Log(deployments: map<Id, Status>, events: seq<Event>, cancels: seq<Id>)

  const DEFAULTS := Options(false, true, false)

  /** An empty status normalizes to queued. */
  function NextStatus(current: Status, update: StatusUpdate): Status {
    match update
    case Keep => current
    case Clear => Queued
    case Set(status) => status
  }

  function UpdateOutcome(log: Log, id: Id, update: StatusUpdate, options: Options): Outcome<Error> {
    if id !in log.deployments then Fail(NotFound)
    else if options.validate && !CanTransition(log.deployments[id], NextStatus(log.deployments[id], update)) then Fail(InvalidTransition)
    else Pass
  }

  function Updated(log: Log, id: Id, update: StatusUpdate, options: Options): Log {
    if UpdateOutcome(log, id, update, options).Fail? then log
    else
      var current := log.deployments[id];
      var next := NextStatus(current, update);
      log.(deployments := log.deployments[id := next],
           events := if options.append && (current != next || options.labelled)
                     then log.events + [Event(id, Some(Change(current, next)))]
                     else log.events)
  }

  function TransitionOutcome(log: Log, id: Id, status: Status): Outcome<Error> {
    if id !in log.deployments then Fail(NotFound)
    else if !CanTransition(log.deployments[id], status) then Fail(InvalidTransition)
    else Pass
  }

  /** A checked transition logs its pair even when the status stays the same. */
  function Transitioned(log: Log, id: Id, status: Status): Log {
    if TransitionOutcome(log, id, status).Fail? then log
    else log.(deployments := log.deployments[id := status],
              events := log.events + [Event(id, Some(Change(log.deployments[id], status)))])
  }

  function CancelledLog(log: Log, id: Id): Log {
    if TransitionOutcome(log, id, Cancelled).Fail? then log
    else Transitioned(log, id, Cancelled).(cancels := log.cancels + [id])
  }

  /** The pull-request cleanup overwrites the status and logs an event without a pair. */
  function CleanupLog(log: Log, id: Id): Log {
    if id !in log.deployments then log
    else log.(deployments := log.deployments[id := CleanupRequested], events := log.events + [Event(id, None)])
  }

  function CreatedLog(log: Log, id: Id, status: Status): Log {
    log.(deployments := log.deployments[id := status], events := log.events + [Event(id, None)])
  }

  class DeploymentStore {
    var deployments: map<Id, Status>
    var events: seq<Event>
    var cancels: seq<Id>

    function Contents(): Log
      reads this
    {
      Log(deployments, events, cancels)
    }

    constructor ()
      ensures Contents() == Log(map[], [], [])
    {
      deployments, events, cancels := map[], [], [];
    }

    method AppendEvent(event: Event)
      modifies this`events
      ensures events == old(events) + [event]
    {
      events := events + [event];
    }

    method Create(id: Id, status: Status)
      modifies this
      ensures Contents() == CreatedLog(old(Contents()), id, status)
      ensures deployments == old(deployments)[id := status] && events == old(events) + [Event(id, None)] && cancels == old(cancels)
    {
      deployments := deployments[id := status];
      AppendEvent(Event(id, None));
    }

    method Update(id: Id, update: StatusUpdate, options: Options) returns (outcome: Outcome<Error>)
      modifies this
      ensures outcome == UpdateOutcome(old(Contents()), id, update, options)
      ensures Contents() == Updated(old(Contents()), id, update, options)
      ensures match outcome
              case Pass =>
                && id in old(deployments)
                && (var current := old(deployments)[id];
                    var next := match update case Keep => current case Clear => Queued case Set(status) => status;
                    && deployments == old(deployments)[id := next] && cancels == old(cancels)
                    && (options.validate ==> CanTransition(current, next))
                    && events == old(events) + if options.append && (current != next || options.labelled)
                                               then [Event(id, Some(Change(current, next)))] else [])
              case Fail(error) => Contents() == old(Contents()) && (error == NotFound <==> id !in old(deployments))
    {
      if id !in deployments {
        return Fail(NotFound);
      }
      var current := deployments[id];
      var next := current;
      if !update.Keep? {
        next := NextStatus(current, update);
        if options.validate && !CanTransition(current, next) {
          return Fail(InvalidTransition);
        }
      }
      deployments := deployments[id := next];
      var statusChanged := !update.Keep? && current != next;
      if (statusChanged || options.labelled) && options.append {
        AppendEvent(Event(id, Some(Change(current, next))));
      }
      outcome := Pass;
    }

    method Transition(id: Id, status: Status) returns (outcome: Outcome<Error>)
      modifies this
      ensures outcome == TransitionOutcome(old(Contents()), id, status)
      ensures Contents() == Transitioned(old(Contents()), id, status)
      ensures match outcome
              case Pass =>
                && id in old(deployments) && CanTransition(old(deployments)[id], status)
                && deployments == old(deployments)[id := status] && cancels == old(cancels)
                && events == old(events) + [Event(id, Some(Change(old(deployments)[id], status)))]
              case Fail(error) => Contents() == old(Contents()) && (error == NotFound <==> id !in old(deployments))
    {
      if id !in deployments {
        return Fail(NotFound);
      }
      var current := deployments[id];
      if !CanTransition(current, status) {
        return Fail(InvalidTransition);
      }
      outcome := Update(id, Set(status), Options(false, false, false));
      AppendEvent(Event(id, Some(Change(current, status))));
    }

    method Cancel(id: Id) returns (outcome: Outcome<Error>)
      modifies this
      ensures outcome == TransitionOutcome(old(Contents()), id, Cancelled)
      ensures Contents() == CancelledLog(old(Contents()), id)
      ensures outcome.Pass? <==> id in old(deployments) && !old(deployments)[id].Unknown?
      ensures if outcome.Pass?
              then deployments == old(deployments)[id := Cancelled] && cancels == old(cancels) + [id] && |events| == |old(events)| + 1
              else Contents() == old(Contents())
    {
      if id in deployments {
        TableExactly(deployments[id], Cancelled);
      }
      outcome := Transition(id, Cancelled);
      if outcome.Pass? {
        cancels := cancels + [id];
      }
    }

    method RequestCleanup(id: Id)
      modifies this
      ensures Contents() == CleanupLog(old(Contents()), id)
      ensures if id in old(deployments)
              then deployments == old(deployments)[id := CleanupRequested] && events == old(events) + [Event(id, None)] && cancels == old(cancels)
              else Contents() == old(Contents())
    {
      if id in deployments {
        deployments := deployments[id := CleanupRequested];
        AppendEvent(Event(id, None));
      }
    }
  }

  // ---- Replaying the log ----

  datatype Op =
    | Create(id: Id, status: Status)
    | Update(id: Id, update: StatusUpdate, options: Options)
    | Transition(id: Id, status: Status)
    | Cancel(id: Id)
    | Cleanup(id: Id)

  function Apply(log: Log, op: Op): Log {
    match op
    case Create(id, status) => CreatedLog(log, id, status)
    case Update(id, update, options) => Updated(log, id, update, options)
    case Transition(id, status) => Transitioned(log, id, status)
    case Cancel(id) => CancelledLog(log, id)
    case Cleanup(id) => CleanupLog(log, id)
  }

  /** The from/to pairs logged for one deployment, oldest first. */
  function Trail(events: seq<Event>, id: Id): seq<Change> {
    if events == [] then []
    else
      var last := events[|events| - 1];
      Trail(events[..|events| - 1], id) + (if last.deployment == id && last.change.Some? then [last.change.value] else [])
  }

  /** The pairs form a chain from the creation status to the current one. */
  ghost predicate Replays(origin: Status, trail: seq<Change>, current: Status) {
    && (|trail| > 0 ==> trail[0].from == origin)
    && (forall k :: 0 < k < |trail| ==> trail[k - 1].to == trail[k].from)
    && current == if |trail| > 0 then trail[|trail| - 1].to else origin
  }

  ghost predicate LogReplays(log: Log, id: Id, origin: Status) {
    id in log.deployments && Replays(origin, Trail(log.events, id), log.deployments[id])
  }

  /** A write that changes the status without logging the pair. */
  predicate Silent(log: Log, op: Op, id: Id) {
    id in log.deployments &&
    match op
    case Update(i, update, options) =>
      i == id && !options.append && UpdateOutcome(log, id, update, options).Pass?
      && NextStatus(log.deployments[id], update) != log.deployments[id]
    case Create(i, status) => i == id && log.deployments[id] != status
    case Cleanup(i) => i == id && log.deployments[id] != CleanupRequested
    case _ => false
  }

  lemma TrailStep(events: seq<Event>, event: Event, id: Id)
    ensures Trail(events + [event], id)
         == Trail(events, id) + (if event.deployment == id && event.change.Some? then [event.change.value] else [])
  {
    assert (events + [event])[..|events|] == events;
  }

  lemma ReplaysFurther(origin: Status, trail: seq<Change>, change: Change)
    requires Replays(origin, trail, change.from)
    ensures Replays(origin, trail + [change], change.to)
  {
    var longer := trail + [change];
    assert |trail| > 0 ==> longer[0] == trail[0];
    forall k | 0 < k < |longer|
      ensures longer[k - 1].to == longer[k].from
    {
      assert longer[k - 1] == trail[k - 1] && longer[k] == if k < |trail| then trail[k] else change;
    }
  }

  /** Whether the call logs a from/to pair for the deployment. */
  predicate LogsPair(log: Log, op: Op, id: Id) {
    op.id == id && id in log.deployments &&
    match op
    case Update(_, update, options) =>
      UpdateOutcome(log, id, update, options).Pass? && options.append
      && (NextStatus(log.deployments[id], update) != log.deployments[id] || options.labelled)
    case Transition(_, status) => TransitionOutcome(log, id, status).Pass?
    case Cancel(_) => TransitionOutcome(log, id, Cancelled).Pass?
    case _ => false
  }

  /** The events a call appends: at most one, with a pair for the deployment exactly when it logs one. */
  lemma AppendedEvents(log: Log, op: Op, id: Id) returns (added: seq<Event>)
    requires id in log.deployments
    ensures Apply(log, op).events == log.events + added && |added| <= 1
    ensures id in Apply(log, op).deployments
    ensures LogsPair(log, op, id) ==> added == [Event(id, Some(Change(log.deployments[id], Apply(log, op).deployments[id])))]
    ensures !LogsPair(log, op, id) && added != [] ==> added[0].deployment != id || added[0].change.None?
    ensures Silent(log, op, id) <==> !LogsPair(log, op, id) && Apply(log, op).deployments[id] != log.deployments[id]
  {
    added := Apply(log, op).events[|log.events|..];
  }

  lemma StepShape(log: Log, op: Op, id: Id)
    requires id in log.deployments
    ensures id in Apply(log, op).deployments
    ensures LogsPair(log, op, id) ==>
      Trail(Apply(log, op).events, id) == Trail(log.events, id) + [Change(log.deployments[id], Apply(log, op).deployments[id])]
    ensures !LogsPair(log, op, id) ==> Trail(Apply(log, op).events, id) == Trail(log.events, id)
    ensures Silent(log, op, id) <==> !LogsPair(log, op, id) && Apply(log, op).deployments[id] != log.deployments[id]
  {
    var added := AppendedEvents(log, op, id);
    if added == [] {
      assert log.events + added == log.events;
    } else {
      assert added == [added[0]];
      TrailStep(log.events, added[0], id);
    }
  }

  /** One call keeps the log replaying exactly when it is not a silent write. */
  lemma StepReplaysExactly(log: Log, op: Op, id: Id, origin: Status)
    requires LogReplays(log, id, origin)
    ensures LogReplays(Apply(log, op), id, origin) <==> !Silent(log, op, id)
  {
    StepShape(log, op, id);
    if LogsPair(log, op, id) {
      ReplaysFurther(origin, Trail(log.events, id), Change(log.deployments[id], Apply(log, op).deployments[id]));
    }
  }

  /** A fresh deployment's log replays trivially. */
  lemma CreationReplays(log: Log, id: Id, status: Status)
    requires Trail(log.events, id) == []
    ensures LogReplays(CreatedLog(log, id, status), id, status)
  {
    TrailStep(log.events, Event(id, None), id);
  }

  ghost predicate AlwaysReplays(log: Log, ops: seq<Op>, id: Id, origin: Status)
    decreases |ops|
  {
    LogReplays(log, id, origin) && (ops == [] || AlwaysReplays(Apply(log, ops[0]), ops[1..], id, origin))
  }

  ghost predicate NeverSilent(log: Log, ops: seq<Op>, id: Id)
    decreases |ops|
  {
    ops == [] || (!Silent(log, ops[0], id) && NeverSilent(Apply(log, ops[0]), ops[1..], id))
  }

  /** Over a whole run the log replays to the status at every point exactly when no write was silent. */
  lemma {:induction false} RunReplaysExactly(log: Log, ops: seq<Op>, id: Id, origin: Status)
    requires LogReplays(log, id, origin)
    ensures AlwaysReplays(log, ops, id, origin) <==> NeverSilent(log, ops, id)
    decreases |ops|
  {
    if ops != [] {
      StepReplaysExactly(log, ops[0], id, origin);
      if !Silent(log, ops[0], id) {
        RunReplaysExactly(Apply(log, ops[0]), ops[1..], id, origin);
      }
    }
  }

  /** In particular, updates with the default event options, transitions and cancellations are never silent. */
  lemma {:induction false} DefaultRunsReplay(log: Log, ops: seq<Op>, id: Id, origin: Status)
    requires LogReplays(log, id, origin)
    requires forall op :: op in ops ==>
      (op.id == id ==> (op.Update? && op.options.append) || op.Transition? || op.Cancel?)
    ensures AlwaysReplays(log, ops, id, origin)
    decreases |ops|
  {
    if ops != [] {
      assert ops[0] in ops && forall op :: op in ops[1..] ==> op in ops;
      StepReplaysExactly(log, ops[0], id, origin);
      DefaultRunsReplay(Apply(log, ops[0]), ops[1..], id, origin);
    }
  }

  // ---- What a whole run logs and enqueues ----

  function AfterOps(log: Log, ops: seq<Op>): Log
    decreases |ops|
  {
    if ops == [] then log else AfterOps(Apply(log, ops[0]), ops[1..])
  }

  /** The cancellations of a run that meet a deployment in a status the table knows. */
  function PassedCancels(log: Log, ops: seq<Op>): seq<Id>
    decreases |ops|
  {
    if ops == [] then []
    else
      var op := ops[0];
      (if op.Cancel? && op.id in log.deployments && !log.deployments[op.id].Unknown? then [op.id] else [])
        + PassedCancels(Apply(log, op), ops[1..])
  }

  /** Over a whole run every cancellation that passes enqueues one cancel job, in order, and nothing else does. */
  lemma {:induction false} CancelJobsAreCounted(log: Log, ops: seq<Op>)
    ensures AfterOps(log, ops).cancels == log.cancels + PassedCancels(log, ops)
    decreases |ops|
  {
    if ops != [] {
      var op, rest := ops[0], ops[1..];
      var first := if op.Cancel? && op.id in log.deployments && !log.deployments[op.id].Unknown? then [op.id] else [];
      assert Apply(log, op).cancels == log.cancels + first by {
        if op.Cancel? && op.id in log.deployments {
          TableExactly(log.deployments[op.id], Cancelled);
        }
      }
      hide Apply;
      CancelJobsAreCounted(Apply(log, op), rest);
      assert (log.cancels + first) + PassedCancels(Apply(log, op), rest) == log.cancels + (first + PassedCancels(Apply(log, op), rest));
    }
  }

  /** The call is accepted, and logs a pair always or, for an update without a label, when it changes the status. */
  predicate Logged(log: Log, op: Op, id: Id) {
    op.id == id && id in log.deployments &&
    match op
    case Create(_, _) => false
    case Cleanup(_) => false
    case Cancel(_) => !log.deployments[id].Unknown?
    case Transition(_, status) => CanTransition(log.deployments[id], status)
    case Update(_, update, options) =>
      && options.append
      && (var next := match update case Keep => log.deployments[id] case Clear => Queued case Set(status) => status;
          && (options.validate ==> CanTransition(log.deployments[id], next))
          && (options.labelled || next != log.deployments[id]))
  }

  function LoggedBy(log: Log, ops: seq<Op>, id: Id): nat
    decreases |ops|
  {
    if ops == [] then 0 else (if Logged(log, ops[0], id) then 1 else 0) + LoggedBy(Apply(log, ops[0]), ops[1..], id)
  }

  lemma LoggedExactly(log: Log, op: Op, id: Id)
    requires id in log.deployments
    ensures Logged(log, op, id) <==> LogsPair(log, op, id)
  {
    TableExactly(log.deployments[id], Cancelled);
  }

  /** A run logs one pair for each accepted transition, cancellation, labelled update, and update that changes the status. */
  lemma {:induction false} PairsAreCounted(log: Log, ops: seq<Op>, id: Id)
    requires id in log.deployments
    ensures |Trail(AfterOps(log, ops).events, id)| == |Trail(log.events, id)| + LoggedBy(log, ops, id)
    decreases |ops|
  {
    if ops != [] {
      StepShape(log, ops[0], id);
      LoggedExactly(log, ops[0], id);
      PairsAreCounted(Apply(log, ops[0]), ops[1..], id);
    }
  }

  // ---- Checked runs follow the life cycle ----

  /** The statuses a deployment went through according to its log. */
  function History(origin: Status, trail: seq<Change>): seq<Status> {
    [origin] + seq(|trail|, k requires 0 <= k < |trail| => trail[k].to)
  }

  predicate Checked(op: Op, id: Id) {
    op.id == id ==> op.Transition? || op.Cancel? || (op.Update? && op.options.validate && op.options.append)
  }

  ghost predicate FollowsTable(log: Log, id: Id, origin: Status) {
    LogReplays(log, id, origin) && Path(History(origin, Trail(log.events, id)))
  }

  lemma HistoryFurther(origin: Status, trail: seq<Change>, change: Change)
    requires Replays(origin, trail, change.from) && Path(History(origin, trail)) && CanTransition(change.from, change.to)
    ensures Path(History(origin, trail + [change]))
  {
    var p, q := History(origin, trail), History(origin, trail + [change]);
    assert q == p + [change.to];
    forall i | 0 < i < |q|
      ensures CanTransition(q[i - 1], q[i])
    {
      if i < |p| {
        assert q[i - 1] == p[i - 1] && q[i] == p[i];
      }
    }
  }

  lemma CheckedStepFollowsTable(log: Log, op: Op, id: Id, origin: Status)
    requires FollowsTable(log, id, origin) && Checked(op, id)
    ensures FollowsTable(Apply(log, op), id, origin)
  {
    StepReplaysExactly(log, op, id, origin);
    StepShape(log, op, id);
    if LogsPair(log, op, id) {
      HistoryFurther(origin, Trail(log.events, id), Change(log.deployments[id], Apply(log, op).deployments[id]));
    }
  }

  lemma {:induction false} CheckedRunFollowsTable(log: Log, ops: seq<Op>, id: Id, origin: Status)
    requires FollowsTable(log, id, origin) && forall op :: op in ops ==> Checked(op, id)
    ensures FollowsTable(AfterOps(log, ops), id, origin)
    decreases |ops|
  {
    if ops != [] {
      assert ops[0] in ops && forall op :: op in ops[1..] ==> op in ops;
      CheckedStepFollowsTable(log, ops[0], id, origin);
      CheckedRunFollowsTable(Apply(log, ops[0]), ops[1..], id, origin);
    }
  }

  /**
   A history that ends in the current status, is bounded by its retries, and was image-ready since its last build began
   if it is ready now.
   */
  ghost predicate SoundHistory(history: seq<Status>, current: Status) {
    && history != [] && current == history[|history| - 1]
    && Changes(history) <= 6 + 4 * Retries(history)
    && (current == Ready ==>
          exists b, j :: 0 <= b < j < |history| && history[b] == Building && history[j] == ImageReady
            && forall m :: b < m < |history| ==> history[m] != Building)
  }

  lemma PathIsSound(history: seq<Status>)
    requires Path(history) && history[0] == Queued
    ensures SoundHistory(history, history[|history| - 1])
  {
    ChangesAreBounded(history);
    if history[|history| - 1] == Ready {
      var j, b := ReadyHasAnImage(history, |history| - 1);
    }
  }

  lemma HistoryEndsNow(trail: seq<Change>, current: Status)
    requires Replays(Queued, trail, current) && Path(History(Queued, trail))
    ensures SoundHistory(History(Queued, trail), current)
  {
    PathIsSound(History(Queued, trail));
  }

  /** A deployment created queued and changed only by checked calls has a sound history. */
  lemma CheckedLifeIsSound(log: Log, ops: seq<Op>, id: Id)
    requires Trail(log.events, id) == [] && forall op :: op in ops ==> Checked(op, id)
    ensures var end := AfterOps(CreatedLog(log, id, Queued), ops);
            id in end.deployments && SoundHistory(History(Queued, Trail(end.events, id)), end.deployments[id])
  {
    var start := CreatedLog(log, id, Queued);
    CreationReplays(log, id, Queued);
    CheckedRunFollowsTable(start, ops, id, Queued);
    var end := AfterOps(start, ops);
    HistoryEndsNow(Trail(end.events, id), end.deployments[id]);
  }
}
