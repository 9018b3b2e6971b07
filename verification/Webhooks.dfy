/**
 GitHub webhook deliveries: which work a delivery causes, and why redelivery causes none. Signature checking and
 repository parsing are outcomes carried by the delivery. A deployment's id is computed from its service and commit, so
 a second delivery of the same commit overwrites the row.
 */
module Webhooks {
  import opened Wrappers
  import opened Ids

  type Id = string

  datatype Kind = ProductionDeploy | PreviewDeploy | PreviewCleanup | Ignored

  /**
   Event and action are lower-cased. `repository` is None when the payload names one that cannot be parsed;
   a payload without a repository carries the empty name, and one without a commit the empty commit. `clock` is the
   time of handling in milliseconds, as text.
   */
  datatype Delivery = Delivery(
    id: Id,
    signed: bool,
    event: string,
    action: string,
    repository: Option<string>,
    commit: string,
    pullRequest: int,
    clock: string)

  datatype Service = Service(id: Id, repository: string)

  datatype Deployment = Deployment(service: Id, preview: bool, pullRequest: int, cleanupRequested: bool)

  datatype Job = BuildJob(deployment: Id) | PreviewJob(deployment: Id) | CleanupJob(service: Id, pullRequest: int)

  datatype Answer = Accepted | Duplicate | Unauthorized | BadRepository

  datatype Store = Store(seen: set<Id>, services: seq<Service>, deployments: map<Id, Deployment>, jobs: seq<Job>)

  function PlanKind(event: string, action: string): Kind {
    if event == "push" then ProductionDeploy
    else if event == "pull_request" && (action == "opened" || action == "synchronize" || action == "reopened") then PreviewDeploy
    else if event == "pull_request" && action == "closed" then PreviewCleanup
    else Ignored
  }

  predicate Deploys(d: Delivery) {
    PlanKind(d.event, d.action) == ProductionDeploy || PlanKind(d.event, d.action) == PreviewDeploy
  }

  /** The text that tells a service's deployments apart: the commit, or the time without one. */
  function Mark(d: Delivery): string {
    if d.commit != "" then d.commit else d.clock
  }

  /** The id of the deployment that a delivery creates for a service. */
  function DeploymentId(service: Id, d: Delivery): Id {
    StableId("dep", [service, Mark(d)])
  }

  predicate IsPreviewOf(row: Deployment, service: Id, pullRequest: int) {
    row.service == service && row.preview && row.pullRequest == pullRequest
  }

  function Requested(deployments: map<Id, Deployment>, service: Id, pullRequest: int): map<Id, Deployment> {
    map id | id in deployments ::
      var row := deployments[id]; if IsPreviewOf(row, service, pullRequest) then row.(cleanupRequested := true) else row
  }

  /** The work one matching service gets. */
  function Served(s: Store, d: Delivery, service: Id): Store {
    var id := DeploymentId(service, d);
    match PlanKind(d.event, d.action)
    case ProductionDeploy =>
      s.(deployments := s.deployments[id := Deployment(service, false, 0, false)], jobs := s.jobs + [BuildJob(id)])
    case PreviewDeploy =>
      s.(deployments := s.deployments[id := Deployment(service, true, d.pullRequest, false)], jobs := s.jobs + [PreviewJob(id)])
    case PreviewCleanup =>
      s.(deployments := Requested(s.deployments, service, d.pullRequest), jobs := s.jobs + [CleanupJob(service, d.pullRequest)])
    case Ignored => s
  }

  function Matching(services: seq<Service>, repository: string): seq<Service> {
    if services == [] then []
    else
      Matching(services[..|services| - 1], repository)
        + (if services[|services| - 1].repository == repository then [services[|services| - 1]] else [])
  }

  function AllServed(s: Store, d: Delivery, services: seq<Service>): Store {
    if services == [] then s
    else Served(AllServed(s, d, services[..|services| - 1]), d, services[|services| - 1].id)
  }

  function AnswerTo(s: Store, d: Delivery): Answer {
    if !d.signed then Unauthorized
    else if d.id in s.seen then Duplicate
    else if d.repository.None? then BadRepository
    else Accepted
  }

  function Handled(s: Store, d: Delivery): Store {
    if AnswerTo(s, d) != Accepted then s
    else AllServed(s.(seen := s.seen + {d.id}), d, Matching(s.services, d.repository.value))
  }

  class WebhookStore {
    var seen: set<Id>
    var services: seq<Service>
    var deployments: map<Id, Deployment>
    var jobs: seq<Job>

    function Contents(): Store
      reads this
    {
      Store(seen, services, deployments, jobs)
    }

    constructor (services: seq<Service>)
      ensures Contents() == Store({}, services, map[], [])
    {
      seen, this.services, deployments, jobs := {}, services, map[], [];
    }

    /** The row is stored under the computed id, whether or not one is there already. */
    method CreateDeployment(service: Id, d: Delivery, preview: bool, pullRequest: int) returns (id: Id)
      modifies this
      ensures id == DeploymentId(service, d)
      ensures Contents() == old(Contents()).(deployments := old(deployments)[id := Deployment(service, preview, pullRequest, false)])
    {
      id := DeploymentId(service, d);
      deployments := deployments[id := Deployment(service, preview, pullRequest, false)];
    }

    method RequestCleanup(service: Id, pullRequest: int)
      modifies this
      ensures Contents() == old(Contents()).(deployments := Requested(old(deployments), service, pullRequest))
    {
      var pending := set id | id in deployments && IsPreviewOf(deployments[id], service, pullRequest);
      while pending != {}
        invariant pending <= deployments.Keys && Contents() == old(Contents()).(deployments := deployments)
        invariant forall id :: id in pending ==> IsPreviewOf(deployments[id], service, pullRequest)
        invariant deployments.Keys == old(deployments).Keys
        invariant forall id :: id in deployments ==>
          deployments[id] == if id in pending then old(deployments)[id] else Requested(old(deployments), service, pullRequest)[id]
      {
        ghost var some := Member(pending);
        var id :| id in pending;
        deployments := deployments[id := deployments[id].(cleanupRequested := true)];
        pending := pending - {id};
      }
      assert deployments == Requested(old(deployments), service, pullRequest);
    }

    method Handle(d: Delivery) returns (answer: Answer)
      modifies this
      ensures answer == AnswerTo(old(Contents()), d)
      ensures Contents() == Handled(old(Contents()), d)
      ensures answer == Unauthorized <==> !d.signed
      ensures answer == Duplicate <==> d.signed && d.id in old(seen)
      ensures answer == BadRepository <==> d.signed && d.id !in old(seen) && d.repository == None
      ensures answer != Accepted ==> Contents() == old(Contents())
    {
      if !d.signed {
        return Unauthorized;
      }
      if d.id in seen {
        return Duplicate;
      }
      if d.repository.None? {
        return BadRepository;
      }
      var kind := PlanKind(d.event, d.action);
      seen := seen + {d.id};
      ghost var start := Contents();
      var matching := Matching(services, d.repository.value);
      for i := 0 to |matching|
        invariant Contents() == AllServed(start, d, matching[..i])
      {
        assert matching[..i + 1][..i] == matching[..i];
        var service := matching[i].id;
        match kind
        case ProductionDeploy =>
          var id := CreateDeployment(service, d, false, 0);
          jobs := jobs + [BuildJob(id)];
        case PreviewDeploy =>
          var id := CreateDeployment(service, d, true, d.pullRequest);
          jobs := jobs + [PreviewJob(id)];
        case PreviewCleanup =>
          jobs := jobs + [CleanupJob(service, d.pullRequest)];
          RequestCleanup(service, d.pullRequest);
        case Ignored =>
      }
      assert matching[..|matching|] == matching;
      answer := Accepted;
    }
  }

  // ---- Sequences of deliveries ----

  function Run(s: Store, ds: seq<Delivery>): Store
    decreases |ds|
  {
    if ds == [] then s else Run(Handled(s, ds[0]), ds[1..])
  }

  /** The first acceptable delivery of each id that has not been seen. */
  function Effective(ds: seq<Delivery>, seen: set<Id>): seq<Delivery> {
    if ds == [] then []
    else if ds[0].signed && ds[0].repository.Some? && ds[0].id !in seen
    then [ds[0]] + Effective(ds[1..], seen + {ds[0].id})
    else Effective(ds[1..], seen)
  }

  lemma {:induction false} AllServedFrame(s: Store, d: Delivery, services: seq<Service>)
    ensures AllServed(s, d, services).seen == s.seen && AllServed(s, d, services).services == s.services
    ensures |AllServed(s, d, services).jobs| == |s.jobs| + (if PlanKind(d.event, d.action) == Ignored then 0 else |services|)
  {
    if services != [] {
      AllServedFrame(s, d, services[..|services| - 1]);
    }
  }

  /** Any sequence of deliveries leaves the store that its effective deliveries alone leave. */
  lemma {:induction false} RedeliveryHasNoEffect(s: Store, ds: seq<Delivery>)
    ensures Run(s, ds) == Run(s, Effective(ds, s.seen))
    decreases |ds|
  {
    if ds != [] {
      var next := Handled(s, ds[0]);
      RedeliveryHasNoEffect(next, ds[1..]);
      if AnswerTo(s, ds[0]) == Accepted {
        AllServedFrame(s.(seen := s.seen + {ds[0].id}), ds[0], Matching(s.services, ds[0].repository.value));
        var kept := [ds[0]] + Effective(ds[1..], s.seen + {ds[0].id});
        assert kept[0] == ds[0] && kept[1..] == Effective(ds[1..], s.seen + {ds[0].id});
      }
    }
  }

  lemma {:induction false} EffectiveIsAcceptable(ds: seq<Delivery>, seen: set<Id>)
    ensures forall e :: e in Effective(ds, seen) ==> e in ds && e.id !in seen && e.signed && e.repository.Some?
    decreases |ds|
  {
    if ds != [] {
      EffectiveIsAcceptable(ds[1..], seen + {ds[0].id});
      EffectiveIsAcceptable(ds[1..], seen);
    }
  }

  lemma {:induction false} EffectiveIsDistinct(ds: seq<Delivery>, seen: set<Id>)
    ensures forall i, j :: 0 <= i < j < |Effective(ds, seen)| ==> Effective(ds, seen)[i].id != Effective(ds, seen)[j].id
    decreases |ds|
  {
    if ds != [] {
      var rest := Effective(ds[1..], seen + {ds[0].id});
      EffectiveIsAcceptable(ds[1..], seen + {ds[0].id});
      EffectiveIsDistinct(ds[1..], seen + {ds[0].id});
      EffectiveIsDistinct(ds[1..], seen);
      assert forall j :: 0 <= j < |rest| ==> rest[j] in rest && rest[j].id != ds[0].id;
    }
  }

  lemma {:induction false} EffectiveCovers(ds: seq<Delivery>, seen: set<Id>, d: Delivery) returns (e: Delivery)
    requires d in ds && d.signed && d.repository.Some? && d.id !in seen
    ensures e in Effective(ds, seen) && e.id == d.id
    decreases |ds|
  {
    var first, rest := ds[0], ds[1..];
    assert d == first || d in rest;
    if first.signed && first.repository.Some? && first.id !in seen {
      if first.id == d.id {
        e := first;
      } else {
        e := EffectiveCovers(rest, seen + {first.id}, d);
      }
    } else {
      e := EffectiveCovers(rest, seen, d);
    }
  }

  /** The effective deliveries carry each new id of an acceptable delivery exactly once, and nothing else. */
  lemma EffectiveIdsAreDistinct(ds: seq<Delivery>, seen: set<Id>)
    ensures forall i, j :: 0 <= i < j < |Effective(ds, seen)| ==> Effective(ds, seen)[i].id != Effective(ds, seen)[j].id
    ensures forall e :: e in Effective(ds, seen) ==> e in ds && e.id !in seen && e.signed && e.repository.Some?
    ensures forall d :: d in ds && d.signed && d.repository.Some? && d.id !in seen ==> exists e :: e in Effective(ds, seen) && e.id == d.id
  {
    EffectiveIsDistinct(ds, seen);
    EffectiveIsAcceptable(ds, seen);
    forall d | d in ds && d.signed && d.repository.Some? && d.id !in seen
      ensures exists e :: e in Effective(ds, seen) && e.id == d.id
    {
      var e := EffectiveCovers(ds, seen, d);
    }
  }

  function JobsCaused(services: seq<Service>, ds: seq<Delivery>): nat
    requires forall d :: d in ds ==> d.repository.Some?
  {
    if ds == [] then 0
    else
      (if PlanKind(ds[0].event, ds[0].action) == Ignored then 0 else |Matching(services, ds[0].repository.value)|)
        + JobsCaused(services, ds[1..])
  }

  lemma {:induction false} EffectiveJobs(s: Store, ds: seq<Delivery>)
    requires forall i, j :: 0 <= i < j < |ds| ==> ds[i].id != ds[j].id
    requires forall d :: d in ds ==> d.signed && d.repository.Some? && d.id !in s.seen
    ensures |Run(s, ds).jobs| == |s.jobs| + JobsCaused(s.services, ds)
    decreases |ds|
  {
    if ds != [] {
      assert ds[0] in ds && forall d :: d in ds[1..] ==> d in ds;
      AllServedFrame(s.(seen := s.seen + {ds[0].id}), ds[0], Matching(s.services, ds[0].repository.value));
      EffectiveJobs(Handled(s, ds[0]), ds[1..]);
    }
  }

  /** The jobs enqueued are the matching services summed over the distinct effective deliveries that are not ignored. */
  lemma JobsAreCountedOnce(s: Store, ds: seq<Delivery>)
    ensures forall d :: d in Effective(ds, s.seen) ==> d.repository.Some?
    ensures |Run(s, ds).jobs| == |s.jobs| + JobsCaused(s.services, Effective(ds, s.seen))
  {
    EffectiveIdsAreDistinct(ds, s.seen);
    RedeliveryHasNoEffect(s, ds);
    EffectiveJobs(s, Effective(ds, s.seen));
  }

  lemma {:induction false} MatchingMembers(services: seq<Service>, repository: string)
    ensures forall x :: x in Matching(services, repository) <==> x in services && x.repository == repository
  {
    if services != [] {
      MatchingMembers(services[..|services| - 1], repository);
      assert services == services[..|services| - 1] + [services[|services| - 1]];
    }
  }

  /**
   A payload that names no repository matches exactly the services linked to none: a push without one deploys all of
   them, and does nothing exactly when every service has a repository.
   */
  lemma NamelessPushDeploysUnlinked(s: Store, d: Delivery)
    requires AnswerTo(s, d) == Accepted && d.repository == Some("") && PlanKind(d.event, d.action) == ProductionDeploy
    ensures |Handled(s, d).jobs| == |s.jobs| + |Matching(s.services, "")|
    ensures forall x :: x in Matching(s.services, "") <==> x in s.services && x.repository == ""
    ensures |Handled(s, d).jobs| == |s.jobs| <==> forall x :: x in s.services ==> x.repository != ""
  {
    MatchingMembers(s.services, "");
    AllServedFrame(s.(seen := s.seen + {d.id}), d, Matching(s.services, ""));
    if Matching(s.services, "") != [] {
      assert Matching(s.services, "")[0] in Matching(s.services, "");
    }
  }

  lemma {:induction false} ServedCleanup(s: Store, d: Delivery, services: seq<Service>, id: Id)
    requires PlanKind(d.event, d.action) == PreviewCleanup && id in s.deployments
    ensures AllServed(s, d, services).deployments.Keys == s.deployments.Keys
    ensures var row := s.deployments[id];
            var hit := row.preview && row.pullRequest == d.pullRequest && exists x :: x in services && x.id == row.service;
            AllServed(s, d, services).deployments[id] == row.(cleanupRequested := row.cleanupRequested || hit)
  {
    hide DeploymentId, PlanKind;
    if services != [] {
      var front, last := services[..|services| - 1], services[|services| - 1];
      ServedCleanup(s, d, front, id);
      assert services == front + [last];
    }
  }

  /** Closing a pull request marks exactly the preview deployments of that number and of a matching service. */
  lemma CleanupMarksExactly(s: Store, d: Delivery, id: Id)
    requires AnswerTo(s, d) == Accepted && PlanKind(d.event, d.action) == PreviewCleanup && id in s.deployments
    ensures Handled(s, d).deployments.Keys == s.deployments.Keys
    ensures var row := s.deployments[id];
            var hit := row.preview && row.pullRequest == d.pullRequest
                    && exists x :: x in s.services && x.repository == d.repository.value && x.id == row.service;
            Handled(s, d).deployments[id] == row.(cleanupRequested := row.cleanupRequested || hit)
  {
    MatchingMembers(s.services, d.repository.value);
    ServedCleanup(s.(seen := s.seen + {d.id}), d, Matching(s.services, d.repository.value), id);
  }

  lemma {:induction false} IgnoredServesNothing(s: Store, d: Delivery, services: seq<Service>)
    requires PlanKind(d.event, d.action) == Ignored
    ensures AllServed(s, d, services) == s
  {
    if services != [] {
      IgnoredServesNothing(s, d, services[..|services| - 1]);
    }
  }

  lemma {:induction false} ServedJobs(s: Store, d: Delivery, services: seq<Service>, i: nat)
    requires i < |services| && PlanKind(d.event, d.action) != Ignored
    ensures var jobs := AllServed(s, d, services).jobs;
            && |jobs| == |s.jobs| + |services| && jobs[..|s.jobs|] == s.jobs
            && jobs[|s.jobs| + i] == match PlanKind(d.event, d.action)
                                     case ProductionDeploy => BuildJob(DeploymentId(services[i].id, d))
                                     case PreviewDeploy => PreviewJob(DeploymentId(services[i].id, d))
                                     case _ => CleanupJob(services[i].id, d.pullRequest)
  {
    hide DeploymentId, PlanKind;
    var front := services[..|services| - 1];
    AllServedFrame(s, d, front);
    if i < |front| {
      ServedJobs(s, d, front, i);
    } else if front != [] {
      ServedJobs(s, d, front, 0);
    }
  }

  /**
   The work that an accepted delivery causes for the services of its repository, one job for each in their order: a build for
   a push, a preview for a pull request that is opened, synchronized or reopened, a cleanup for one that is closed, and
   nothing for any other event or action.
   */
  lemma DeliveryCausesWorkExactly(s: Store, d: Delivery, i: nat)
    requires AnswerTo(s, d) == Accepted && i < |Matching(s.services, d.repository.value)|
    ensures var x, jobs := Matching(s.services, d.repository.value)[i], Handled(s, d).jobs;
            var id := StableId("dep", [x.id, if d.commit != "" then d.commit else d.clock]);
            var opening := d.action == "opened" || d.action == "synchronize" || d.action == "reopened";
            if d.event == "push" || (d.event == "pull_request" && (opening || d.action == "closed")) then
              && |jobs| == |s.jobs| + |Matching(s.services, d.repository.value)| && jobs[..|s.jobs|] == s.jobs
              && jobs[|s.jobs| + i] == if d.event == "push" then BuildJob(id)
                                       else if opening then PreviewJob(id)
                                       else CleanupJob(x.id, d.pullRequest)
            else Handled(s, d) == s.(seen := s.seen + {d.id})
  {
    var before, matching := s.(seen := s.seen + {d.id}), Matching(s.services, d.repository.value);
    if PlanKind(d.event, d.action) == Ignored {
      IgnoredServesNothing(before, d, matching);
    } else {
      ServedJobs(before, d, matching, i);
    }
  }

  /** No other of these services gets the id that the delivery computes for this one. */
  ghost predicate OwnId(services: seq<Service>, d: Delivery, service: Id) {
    forall y :: y in services && y.id != service ==> DeploymentId(y.id, d) != DeploymentId(service, d)
  }

  lemma {:induction false} ServedRow(s: Store, d: Delivery, services: seq<Service>, service: Id)
    requires Deploys(d) && OwnId(services, d, service) && exists x :: x in services && x.id == service
    ensures var id, preview := DeploymentId(service, d), PlanKind(d.event, d.action) == PreviewDeploy;
            && id in AllServed(s, d, services).deployments
            && AllServed(s, d, services).deployments[id] == Deployment(service, preview, if preview then d.pullRequest else 0, false)
  {
    hide DeploymentId, PlanKind;
    var front, last := services[..|services| - 1], services[|services| - 1];
    assert services == front + [last];
    if last.id != service {
      ServedRow(s, d, front, service);
    }
  }

  /** The delivery computes another id for every service it makes a deployment for. */
  ghost predicate Misses(services: seq<Service>, d: Delivery, id: Id) {
    Deploys(d) ==> forall x :: x in services ==> DeploymentId(x.id, d) != id
  }

  /** The row is the same but for a cleanup that may have been requested since. */
  predicate SameRow(before: Deployment, after: Deployment) {
    after == before || after == before.(cleanupRequested := true)
  }

  lemma {:induction false} ServedElsewhere(s: Store, d: Delivery, services: seq<Service>, id: Id)
    requires id in s.deployments && Misses(services, d, id)
    ensures id in AllServed(s, d, services).deployments && SameRow(s.deployments[id], AllServed(s, d, services).deployments[id])
  {
    hide DeploymentId, PlanKind;
    if services != [] {
      var front, last := services[..|services| - 1], services[|services| - 1];
      assert services == front + [last];
      ServedElsewhere(s, d, front, id);
    }
  }

  lemma {:induction false} RowStays(s: Store, ds: seq<Delivery>, id: Id)
    requires id in s.deployments && forall d :: d in ds ==> Misses(s.services, d, id)
    ensures Run(s, ds).services == s.services
    ensures id in Run(s, ds).deployments && SameRow(s.deployments[id], Run(s, ds).deployments[id])
    decreases |ds|
  {
    if ds != [] {
      var d := ds[0];
      assert d in ds && forall e :: e in ds[1..] ==> e in ds;
      if AnswerTo(s, d) == Accepted {
        var before, matching := s.(seen := s.seen + {d.id}), Matching(s.services, d.repository.value);
        MatchingMembers(s.services, d.repository.value);
        AllServedFrame(before, d, matching);
        ServedElsewhere(before, d, matching, id);
      }
      hide Misses, AllServed, Handled, AnswerTo;
      RowStays(Handled(s, d), ds[1..], id);
    }
  }

  predicate Opens(d: Delivery) {
    d.event == "pull_request" && (d.action == "opened" || d.action == "synchronize" || d.action == "reopened")
  }

  /**
   A pull request that is opened, synchronized or reopened makes a preview without a cleanup request, and its closing requests
   the cleanup of that preview, whatever deliveries come in between that compute another id.
   */
  lemma OpenThenCloseMarks(s: Store, open: Delivery, between: seq<Delivery>, close: Delivery, x: Service)
    requires AnswerTo(s, open) == Accepted && Opens(open)
    requires x in s.services && Some(x.repository) == open.repository == close.repository && OwnId(s.services, open, x.id)
    requires forall d :: d in between ==> Misses(s.services, d, DeploymentId(x.id, open))
    requires AnswerTo(Run(Handled(s, open), between), close) == Accepted
    requires close.event == "pull_request" && close.action == "closed" && close.pullRequest == open.pullRequest
    ensures var id, shown := DeploymentId(x.id, open), Handled(s, open);
            var closed := Handled(Run(shown, between), close);
            && id in shown.deployments && shown.deployments[id] == Deployment(x.id, true, open.pullRequest, false)
            && id in closed.deployments && closed.deployments[id] == Deployment(x.id, true, open.pullRequest, true)
  {
    var before, matching, shown := s.(seen := s.seen + {open.id}), Matching(s.services, x.repository), Handled(s, open);
    assert PlanKind(open.event, open.action) == PreviewDeploy && PlanKind(close.event, close.action) == PreviewCleanup;
    hide DeploymentId, PlanKind;
    MatchingMembers(s.services, x.repository);
    AllServedFrame(before, open, matching);
    ServedRow(before, open, matching, x.id);
    RowStays(shown, between, DeploymentId(x.id, open));
    CleanupMarksExactly(Run(shown, between), close, DeploymentId(x.id, open));
  }

  // ---- Deployments and their jobs ----

  /** What a build or preview job is for. */
  datatype Target = Target(id: Id, preview: bool)

  /** The targets of the build and preview jobs, in queue order. */
  function Targets(jobs: seq<Job>): seq<Target> {
    if jobs == [] then []
    else
      Targets(jobs[..|jobs| - 1]) +
      match jobs[|jobs| - 1]
      case BuildJob(id) => [Target(id, false)]
      case PreviewJob(id) => [Target(id, true)]
      case CleanupJob(_, _) => []
  }

  function LastFor(targets: seq<Target>, id: Id): Option<bool> {
    if targets == [] then None
    else if targets[|targets| - 1].id == id then Some(targets[|targets| - 1].preview)
    else LastFor(targets[..|targets| - 1], id)
  }

  function JobsFor(targets: seq<Target>, id: Id): nat {
    if targets == [] then 0
    else JobsFor(targets[..|targets| - 1], id) + (if targets[|targets| - 1].id == id then 1 else 0)
  }

  function KindOf(s: Store, id: Id): Option<bool> {
    if id in s.deployments then Some(s.deployments[id].preview) else None
  }

  /** Exactly the deployments have jobs, and each is of the kind that its latest job says. */
  ghost predicate LastJobWins(s: Store) {
    forall id :: LastFor(Targets(s.jobs), id) == KindOf(s, id)
  }

  ghost predicate OneJobEach(s: Store) {
    forall id :: JobsFor(Targets(s.jobs), id) == if id in s.deployments then 1 else 0
  }

  /** The deployment ids that a list of deliveries computes, one for each matching service. */
  function Assigned(services: seq<Service>, ds: seq<Delivery>): seq<Target>
    requires forall d :: d in ds ==> d.repository.Some?
  {
    if ds == [] then [] else AssignedBy(ds[0], Matching(services, ds[0].repository.value)) + Assigned(services, ds[1..])
  }

  function AssignedTo(d: Delivery, service: Id): seq<Target> {
    if Deploys(d) then [Target(DeploymentId(service, d), PlanKind(d.event, d.action) == PreviewDeploy)] else []
  }

  function AssignedBy(d: Delivery, services: seq<Service>): seq<Target> {
    if services == [] then [] else AssignedBy(d, services[..|services| - 1]) + AssignedTo(d, services[|services| - 1].id)
  }

  predicate NoIdTwice(targets: seq<Target>) {
    forall i, j :: 0 <= i < j < |targets| ==> targets[i].id != targets[j].id
  }

  lemma {:induction false} JobsForExactly(targets: seq<Target>, id: Id)
    ensures JobsFor(targets, id) == 0 <==> forall i :: 0 <= i < |targets| ==> targets[i].id != id
    ensures JobsFor(targets, id) <= 1 <==> forall i, j :: 0 <= i < j < |targets| ==> targets[i].id != id || targets[j].id != id
    ensures LastFor(targets, id).None? <==> JobsFor(targets, id) == 0
  {
    if targets != [] {
      JobsForExactly(targets[..|targets| - 1], id);
    }
  }

  /** Where the latest job wins, every deployment has exactly one job exactly when no id occurs twice among the targets. */
  lemma OneJobEachExactly(s: Store)
    requires LastJobWins(s)
    ensures OneJobEach(s) <==> NoIdTwice(Targets(s.jobs))
  {
    var targets := Targets(s.jobs);
    forall id
      ensures id in s.deployments <==> JobsFor(targets, id) > 0
      ensures JobsFor(targets, id) <= 1 <==> forall i, j :: 0 <= i < j < |targets| ==> targets[i].id != id || targets[j].id != id
    {
      JobsForExactly(targets, id);
      assert LastFor(targets, id) == KindOf(s, id);
    }
    if OneJobEach(s) {
      forall i, j | 0 <= i < j < |targets|
        ensures targets[i].id != targets[j].id
      {
        assert JobsFor(targets, targets[i].id) <= 1;
      }
    }
  }

  lemma TargetsFurther(jobs: seq<Job>, job: Job)
    ensures Targets(jobs + [job]) == Targets(jobs) + match job
                                                     case BuildJob(id) => [Target(id, false)]
                                                     case PreviewJob(id) => [Target(id, true)]
                                                     case CleanupJob(_, _) => []
  {
    assert (jobs + [job])[..|jobs|] == jobs;
  }

  lemma LastForFurther(targets: seq<Target>, target: Target, id: Id)
    ensures LastFor(targets + [target], id) == if target.id == id then Some(target.preview) else LastFor(targets, id)
  {
    assert (targets + [target])[..|targets|] == targets;
  }

  lemma ServedTargets(s: Store, d: Delivery, service: Id)
    requires LastJobWins(s)
    ensures LastJobWins(Served(s, d, service))
    ensures Targets(Served(s, d, service).jobs) == Targets(s.jobs) + AssignedTo(d, service)
  {
    hide DeploymentId, PlanKind, Targets, LastFor;
    var t, before, kind := Served(s, d, service), Targets(s.jobs), PlanKind(d.event, d.action);
    var id := DeploymentId(service, d);
    if Deploys(d) {
      TargetsFurther(s.jobs, if kind == ProductionDeploy then BuildJob(id) else PreviewJob(id));
    } else if kind == PreviewCleanup {
      TargetsFurther(s.jobs, CleanupJob(service, d.pullRequest));
      assert before + [] == before;
    }
    forall other
      ensures LastFor(Targets(t.jobs), other) == KindOf(t, other)
    {
      assert LastFor(before, other) == KindOf(s, other);
      if Deploys(d) {
        LastForFurther(before, Target(id, kind == PreviewDeploy), other);
      }
    }
  }

  lemma {:induction false} AllServedTargets(s: Store, d: Delivery, services: seq<Service>)
    requires LastJobWins(s)
    ensures LastJobWins(AllServed(s, d, services))
    ensures Targets(AllServed(s, d, services).jobs) == Targets(s.jobs) + AssignedBy(d, services)
  {
    if services != [] {
      var front := services[..|services| - 1];
      AllServedTargets(s, d, front);
      ServedTargets(AllServed(s, d, front), d, services[|services| - 1].id);
      RegroupTargets(Targets(s.jobs), AssignedBy(d, front), AssignedTo(d, services[|services| - 1].id));
    }
  }

  lemma RegroupTargets(a: seq<Target>, b: seq<Target>, c: seq<Target>)
    ensures (a + b) + c == a + (b + c)
  {
  }

  lemma HandledTargets(s: Store, d: Delivery)
    requires LastJobWins(s)
    ensures LastJobWins(Handled(s, d))
    ensures Targets(Handled(s, d).jobs) == Targets(s.jobs)
         + if AnswerTo(s, d) == Accepted then AssignedBy(d, Matching(s.services, d.repository.value)) else []
  {
    if AnswerTo(s, d) == Accepted {
      var marked := s.(seen := s.seen + {d.id});
      assert forall id :: KindOf(marked, id) == KindOf(s, id);
      AllServedTargets(marked, d, Matching(s.services, d.repository.value));
    }
  }

  /** What the first delivery adds to the computed ids. */
  lemma EffectiveHead(s: Store, ds: seq<Delivery>)
    requires ds != []
    ensures forall d :: d in Effective(ds, s.seen) ==> d.repository.Some?
    ensures forall d :: d in Effective(ds[1..], Handled(s, ds[0]).seen) ==> d.repository.Some?
    ensures Handled(s, ds[0]).services == s.services
    ensures Assigned(s.services, Effective(ds, s.seen))
         == (if AnswerTo(s, ds[0]) == Accepted then AssignedBy(ds[0], Matching(s.services, ds[0].repository.value)) else [])
            + Assigned(s.services, Effective(ds[1..], Handled(s, ds[0]).seen))
  {
    EffectiveIsAcceptable(ds, s.seen);
    EffectiveIsAcceptable(ds[1..], Handled(s, ds[0]).seen);
    if AnswerTo(s, ds[0]) == Accepted {
      AllServedFrame(s.(seen := s.seen + {ds[0].id}), ds[0], Matching(s.services, ds[0].repository.value));
      var rest := Effective(ds[1..], s.seen + {ds[0].id});
      assert Effective(ds, s.seen) == [ds[0]] + rest && ([ds[0]] + rest)[1..] == rest;
    } else {
      var rest := Assigned(s.services, Effective(ds[1..], s.seen));
      assert [] + rest == rest;
    }
  }

  lemma {:induction false} RunTargets(s: Store, ds: seq<Delivery>)
    requires LastJobWins(s)
    ensures forall d :: d in Effective(ds, s.seen) ==> d.repository.Some?
    ensures LastJobWins(Run(s, ds))
    ensures Targets(Run(s, ds).jobs) == Targets(s.jobs) + Assigned(s.services, Effective(ds, s.seen))
    decreases |ds|
  {
    hide DeploymentId, PlanKind;
    if ds == [] {
      assert Targets(s.jobs) + [] == Targets(s.jobs);
    } else {
      var t := Handled(s, ds[0]);
      HandledTargets(s, ds[0]);
      EffectiveHead(s, ds);
      RunTargets(t, ds[1..]);
      RegroupTargets(
        Targets(s.jobs),
        if AnswerTo(s, ds[0]) == Accepted then AssignedBy(ds[0], Matching(s.services, ds[0].repository.value)) else [],
        Assigned(s.services, Effective(ds[1..], t.seen)));
    }
  }

  /**
   Over every sequence of deliveries the deployments are exactly those with jobs, each of the kind of its latest job.
   Each has exactly one job exactly when no id is computed twice: by two of the distinct deliveries that deploy, or by
   one of them and an earlier job.
   */
  lemma EveryDeploymentHasOneJobExactly(s: Store, ds: seq<Delivery>)
    requires LastJobWins(s)
    ensures LastJobWins(Run(s, ds))
    ensures forall d :: d in Effective(ds, s.seen) ==> d.repository.Some?
    ensures OneJobEach(Run(s, ds)) <==> NoIdTwice(Targets(s.jobs) + Assigned(s.services, Effective(ds, s.seen)))
  {
    RunTargets(s, ds);
    OneJobEachExactly(Run(s, ds));
  }

  /** The delivery makes a deployment for the service. */
  predicate Reaches(d: Delivery, x: Service) {
    Deploys(d) && d.repository == Some(x.repository)
  }

  /** The two deliveries compute different ids for all services they reach. */
  ghost predicate Apart(services: seq<Service>, d: Delivery, e: Delivery) {
    forall x, y :: x in services && y in services && Reaches(d, x) && Reaches(e, y) ==> DeploymentId(x.id, d) != DeploymentId(y.id, e)
  }

  /** One delivery computes different ids for the services it reaches. */
  ghost predicate SpreadOut(services: seq<Service>, d: Delivery) {
    forall x, y :: 0 <= x < y < |services| && Reaches(d, services[x]) && Reaches(d, services[y]) ==>
      DeploymentId(services[x].id, d) != DeploymentId(services[y].id, d)
  }

  ghost predicate AllApart(services: seq<Service>, ds: seq<Delivery>) {
    && (forall i :: 0 <= i < |ds| ==> SpreadOut(services, ds[i]))
    && (forall i, j :: 0 <= i < j < |ds| ==> Apart(services, ds[i], ds[j]))
  }

  function Block(services: seq<Service>, d: Delivery): seq<Target>
    requires d.repository.Some?
  {
    AssignedBy(d, Matching(services, d.repository.value))
  }

  lemma BlockFurther(services: seq<Service>, x: Service, d: Delivery)
    requires d.repository.Some?
    ensures Block(services + [x], d) == Block(services, d) + if Reaches(d, x) then AssignedTo(d, x.id) else []
  {
    var all, front := services + [x], Matching(services, d.repository.value);
    assert all[..|services|] == services;
    if x.repository == d.repository.value {
      assert (front + [x])[..|front|] == front;
    } else {
      assert front + [] == front;
    }
  }

  lemma {:induction false} BlockMembers(services: seq<Service>, d: Delivery, id: Id)
    requires d.repository.Some?
    ensures (exists t :: t in Block(services, d) && t.id == id) <==> exists x :: x in services && Reaches(d, x) && DeploymentId(x.id, d) == id
  {
    if services != [] {
      var front, last := services[..|services| - 1], services[|services| - 1];
      assert services == front + [last];
      BlockFurther(front, last, d);
      BlockMembers(front, d, id);
      var t := Target(DeploymentId(last.id, d), PlanKind(d.event, d.action) == PreviewDeploy);
      assert forall r :: r in Block(services, d) <==> r in Block(front, d) || (Reaches(d, last) && r == t);
      assert forall x :: x in services <==> x in front || x == last;
    }
  }

  lemma NoIdTwiceJoined(a: seq<Target>, b: seq<Target>)
    ensures NoIdTwice(a + b) <==> NoIdTwice(a) && NoIdTwice(b) && forall x, y :: x in a && y in b ==> x.id != y.id
  {
    var all := a + b;
    if NoIdTwice(all) {
      forall i, j | 0 <= i < j < |a|
        ensures a[i].id != a[j].id
      {
        assert all[i] == a[i] && all[j] == a[j];
      }
      forall i, j | 0 <= i < j < |b|
        ensures b[i].id != b[j].id
      {
        assert all[|a| + i] == b[i] && all[|a| + j] == b[j];
      }
      forall x, y | x in a && y in b
        ensures x.id != y.id
      {
        var i :| 0 <= i < |a| && a[i] == x;
        var j :| 0 <= j < |b| && b[j] == y;
        assert all[i] == x && all[|a| + j] == y;
      }
    }
  }

  lemma {:induction false} BlockSpreadOut(services: seq<Service>, d: Delivery)
    requires d.repository.Some?
    ensures NoIdTwice(Block(services, d)) <==> SpreadOut(services, d)
  {
    hide DeploymentId, PlanKind;
    if services != [] {
      var front, last := services[..|services| - 1], services[|services| - 1];
      assert services == front + [last];
      BlockFurther(front, last, d);
      BlockSpreadOut(front, d);
      NoIdTwiceJoined(Block(front, d), if Reaches(d, last) then AssignedTo(d, last.id) else []);
      BlockMembers(front, d, DeploymentId(last.id, d));
      SpreadOutFurther(front, last, d);
    }
  }

  lemma SpreadOutFurther(front: seq<Service>, last: Service, d: Delivery)
    ensures SpreadOut(front + [last], d)
        <==> (SpreadOut(front, d)
              && (Reaches(d, last) ==> forall x :: x in front && Reaches(d, x) ==> DeploymentId(x.id, d) != DeploymentId(last.id, d)))
  {
    var all := front + [last];
    if SpreadOut(all, d) {
      forall x, y | 0 <= x < y < |front| && Reaches(d, front[x]) && Reaches(d, front[y])
        ensures DeploymentId(front[x].id, d) != DeploymentId(front[y].id, d)
      {
        assert all[x] == front[x] && all[y] == front[y];
      }
      forall x | x in front && Reaches(d, x) && Reaches(d, last)
        ensures DeploymentId(x.id, d) != DeploymentId(last.id, d)
      {
        var i :| 0 <= i < |front| && front[i] == x;
        assert all[i] == x && all[|front|] == last;
      }
    }
  }

  lemma {:induction false} AssignedMembers(services: seq<Service>, ds: seq<Delivery>, id: Id)
    requires forall d :: d in ds ==> d.repository.Some?
    ensures (exists t :: t in Assigned(services, ds) && t.id == id)
        <==> exists e, x :: e in ds && x in services && Reaches(e, x) && DeploymentId(x.id, e) == id
    decreases |ds|
  {
    if ds != [] {
      var block, more := Block(services, ds[0]), Assigned(services, ds[1..]);
      BlockMembers(services, ds[0], id);
      AssignedMembers(services, ds[1..], id);
      assert forall t :: t in Assigned(services, ds) <==> t in block || t in more;
      assert forall e :: e in ds <==> e == ds[0] || e in ds[1..];
    }
  }

  lemma BlockApart(services: seq<Service>, d: Delivery, ds: seq<Delivery>)
    requires d.repository.Some? && forall e :: e in ds ==> e.repository.Some?
    ensures (forall t, u :: t in Block(services, d) && u in Assigned(services, ds) ==> t.id != u.id)
        <==> forall e :: e in ds ==> Apart(services, d, e)
  {
    if t, u :| t in Block(services, d) && u in Assigned(services, ds) && t.id == u.id {
      BlockMembers(services, d, t.id);
      AssignedMembers(services, ds, t.id);
    } else if e :| e in ds && !Apart(services, d, e) {
      var x, y :| x in services && y in services && Reaches(d, x) && Reaches(e, y) && DeploymentId(x.id, d) == DeploymentId(y.id, e);
      BlockMembers(services, d, DeploymentId(x.id, d));
      AssignedMembers(services, ds, DeploymentId(x.id, d));
    }
  }

  /** No id is computed twice exactly when the deliveries, and the services of each, are apart. */
  lemma {:induction false} NoIdTwiceExactly(services: seq<Service>, ds: seq<Delivery>)
    requires forall d :: d in ds ==> d.repository.Some?
    ensures NoIdTwice(Assigned(services, ds)) <==> AllApart(services, ds)
    decreases |ds|
  {
    if ds != [] {
      var d, rest := ds[0], ds[1..];
      NoIdTwiceJoined(Block(services, d), Assigned(services, rest));
      BlockSpreadOut(services, d);
      BlockApart(services, d, rest);
      NoIdTwiceExactly(services, rest);
      AllApartHead(services, ds);
    }
  }

  lemma AllApartHead(services: seq<Service>, ds: seq<Delivery>)
    requires ds != []
    ensures AllApart(services, ds) <==>
      SpreadOut(services, ds[0]) && AllApart(services, ds[1..]) && forall e :: e in ds[1..] ==> Apart(services, ds[0], e)
  {
    hide Apart, SpreadOut;
    var rest := ds[1..];
    if AllApart(services, ds) {
      assert forall i :: 0 <= i < |rest| ==> rest[i] == ds[i + 1];
      forall e | e in rest
        ensures Apart(services, ds[0], e)
      {
        var i :| 0 <= i < |rest| && rest[i] == e;
        assert ds[i + 1] == e;
      }
    } else if AllApart(services, rest) && SpreadOut(services, ds[0]) && forall e :: e in rest ==> Apart(services, ds[0], e) {
      forall i | 0 <= i < |ds|
        ensures SpreadOut(services, ds[i])
      {
        assert i > 0 ==> ds[i] == rest[i - 1];
      }
      forall i, j | 0 <= i < j < |ds|
        ensures Apart(services, ds[i], ds[j])
      {
        assert ds[j] == rest[j - 1] && ds[j] in rest && (i > 0 ==> ds[i] == rest[i - 1]);
      }
    }
  }

  /**
   From a store without deployments: every deployment has exactly one job exactly when no two of the distinct deliveries
   that deploy compute the same id, which for one service means the same commit, nor one of them for two services.
   */
  lemma OneJobEachFromScratchExactly(s: Store, ds: seq<Delivery>)
    requires s.deployments == map[] && s.jobs == []
    ensures OneJobEach(Run(s, ds)) <==> AllApart(s.services, Effective(ds, s.seen))
  {
    assert forall id :: LastFor(Targets(s.jobs), id) == KindOf(s, id);
    EveryDeploymentHasOneJobExactly(s, ds);
    var computed := Assigned(s.services, Effective(ds, s.seen));
    assert Targets(s.jobs) + computed == computed;
    NoIdTwiceExactly(s.services, Effective(ds, s.seen));
  }

  lemma {:induction false} AssignedByMatching(d: Delivery, services: seq<Service>, x: Service)
    requires Deploys(d) && x in services
    ensures Target(DeploymentId(x.id, d), PlanKind(d.event, d.action) == PreviewDeploy) in AssignedBy(d, services)
  {
    var front, last := services[..|services| - 1], services[|services| - 1];
    if x != last {
      assert services == front + [last];
      AssignedByMatching(d, front, x);
    }
  }

  lemma {:induction false} AssignedByKind(d: Delivery, services: seq<Service>)
    ensures forall a :: a in AssignedBy(d, services) ==> a.preview == (PlanKind(d.event, d.action) == PreviewDeploy)
  {
    if services != [] {
      AssignedByKind(d, services[..|services| - 1]);
    }
  }

  lemma DeliveryAssigns(s: Store, d: Delivery, x: Service) returns (added: seq<Target>)
    requires LastJobWins(s) && AnswerTo(s, d) == Accepted && Deploys(d)
    requires x in s.services && Some(x.repository) == d.repository
    ensures LastJobWins(Handled(s, d)) && Handled(s, d).services == s.services && Handled(s, d).seen == s.seen + {d.id}
    ensures Targets(Handled(s, d).jobs) == Targets(s.jobs) + added
    ensures Target(DeploymentId(x.id, d), PlanKind(d.event, d.action) == PreviewDeploy) in added
    ensures forall a :: a in added ==> a.preview == (PlanKind(d.event, d.action) == PreviewDeploy)
  {
    var matching := Matching(s.services, x.repository);
    added := AssignedBy(d, matching);
    MatchingMembers(s.services, x.repository);
    AllServedFrame(s.(seen := s.seen + {d.id}), d, matching);
    HandledTargets(s, d);
    AssignedByMatching(d, matching, x);
    AssignedByKind(d, matching);
  }

  lemma {:induction false} LatestIsPreview(front: seq<Target>, back: seq<Target>, id: Id)
    requires Target(id, true) in back && forall a :: a in back ==> a.preview
    ensures LastFor(front + back, id) == Some(true)
  {
    var all, rest := front + back, back[..|back| - 1];
    assert all[|all| - 1] == back[|back| - 1] && back[|back| - 1] in back;
    if back[|back| - 1].id != id {
      assert all[..|all| - 1] == front + rest;
      assert back == rest + [back[|back| - 1]];
      LatestIsPreview(front, rest, id);
    }
  }

  lemma {:induction false} JobsForAppend(front: seq<Target>, back: seq<Target>, id: Id)
    ensures JobsFor(front + back, id) == JobsFor(front, id) + JobsFor(back, id)
  {
    if back == [] {
      assert front + back == front;
    } else {
      assert (front + back)[..|front| + |back| - 1] == front + back[..|back| - 1];
      JobsForAppend(front, back[..|back| - 1], id);
    }
  }

  lemma TwiceCounted(front: seq<Target>, back: seq<Target>, x: Target, y: Target)
    requires x in front && y in back && x.id == y.id
    ensures JobsFor(front + back, x.id) >= 2
  {
    JobsForAppend(front, back, x.id);
    JobsForExactly(front, x.id);
    JobsForExactly(back, x.id);
  }

  /**
   One push to the branch of a pull request sends a push and a synchronize with the same commit. Each service of the
   repository then has two jobs for one deployment, and the preview has replaced the production row.
   */
  lemma PushAndSynchronizeShareARow(s: Store, push: Delivery, sync: Delivery, x: Service)
    requires LastJobWins(s) && AnswerTo(s, push) == Accepted && AnswerTo(s, sync) == Accepted && push.id != sync.id
    requires push.event == "push" && sync.event == "pull_request" && sync.action == "synchronize"
    requires push.commit == sync.commit != "" && x in s.services && Some(x.repository) == push.repository == sync.repository
    ensures var t := Run(s, [push, sync]);
            var id := DeploymentId(x.id, push);
            id in t.deployments && t.deployments[id].preview && JobsFor(Targets(t.jobs), id) >= 2 && !OneJobEach(t)
  {
    var id, middle, end := DeploymentId(x.id, push), Handled(s, push), Handled(Handled(s, push), sync);
    TwoDeliveries(s, push, sync);
    var first := DeliveryAssigns(s, push, x);
    var second := DeliveryAssigns(middle, sync, x);
    assert Target(id, true) in second;
    LatestIsPreview(Targets(middle.jobs), second, id);
    TwiceCounted(Targets(middle.jobs), second, Target(id, false), Target(id, true));
    assert LastFor(Targets(end.jobs), id) == KindOf(end, id);
  }

  lemma TwoDeliveries(s: Store, d: Delivery, e: Delivery)
    ensures Run(s, [d, e]) == Handled(Handled(s, d), e)
  {
    assert [d, e][1..] == [e] && [e][1..] == [];
    assert Run(Handled(s, d), [e]) == Run(Handled(Handled(s, d), e), []);
  }

  /**
   Two deliveries get the same deployment id for a service exactly when the slugs of their commits, or of their times
   without a commit, agree as far as the cut leaves them: for a service id whose slug has 58 characters or more every
   delivery writes the same row.
   */
  lemma DeploymentIdsAgreeExactly(service: Id, d: Delivery, e: Delivery)
    ensures var room := 58 - |Part(service)|;
            DeploymentId(service, d) == DeploymentId(service, e) <==>
              Left(Part(if d.commit != "" then d.commit else d.clock), room) == Left(Part(if e.commit != "" then e.commit else e.clock), room)
  {
    hide Part, StableId;
    PrefixesAreClean();
    StableIdsAgreeExactly("dep", service, Mark(d), Mark(e));
  }
}
