/**
 The Go orchestrator's reconciler over the deployment rows of its state file. One call takes the least-id
 deployment that asks for work and brings it to an end, whatever kubectl answers.
 */
module Reconciler {
  import opened Wrappers
  import opened Sorting
  import Rows

  type Id = int

  /** Upper-cased statuses; the cleanup request has two spellings. */
  datatype Status =
    | ImageReady
    | RollbackRequested
    | CleanupRequested
    | ShortCleanupRequested
    | Deploying
    | Ready
    | Failed
    | CleanedUp
    | Other(raw: string)

  /** A missing project id falls back to the service's project. */
  datatype Row = Row(id: Id, service: Id, project: Option<Id>, status: Status, image: string, previousImage: string)

  datatype State = State(rows: seq<Row>, services: map<Id, Id>, projects: set<Id>)

  /** Whether the manifest file was written, and whether the first and second kubectl commands succeeded. */
  datatype Weather = Weather(manifest: bool, first: bool, second: bool)

  datatype Result = Idle | Blocked | Processed(id: Id, status: Status)

  predicate IsCleanup(status: Status) {
    status == CleanupRequested || status == ShortCleanupRequested
  }

  predicate WantsWork(row: Row) {
    row.status == ImageReady || row.status == RollbackRequested || IsCleanup(row.status)
  }

  function Worklist(rows: seq<Row>): (entries: seq<Entry>)
    ensures forall e :: e in entries <==> e.index < |rows| && WantsWork(rows[e.index]) && e.key == rows[e.index].id
    ensures InListOrder(entries)
  {
    if rows == [] then []
    else
      var last := |rows| - 1;
      Worklist(rows[..last]) + (if WantsWork(rows[last]) then [Entry(rows[last].id, last)] else [])
  }

  /** The position of the deployment the next call takes. */
  function Head(rows: seq<Row>): (i: Option<nat>)
    ensures i.Some? ==> i.value < |rows| && WantsWork(rows[i.value])
    ensures i.Some? ==> forall j :: 0 <= j < |rows| && WantsWork(rows[j]) ==>
      rows[i.value].id < rows[j].id || (rows[i.value].id == rows[j].id && i.value <= j)
    ensures i.None? ==> forall j :: 0 <= j < |rows| ==> !WantsWork(rows[j])
  {
    StableSortSorts(Worklist(rows));
    var sorted := StableSort(Worklist(rows));
    assert forall j :: 0 <= j < |rows| && WantsWork(rows[j]) ==> Entry(rows[j].id, j) in sorted;
    assert sorted != [] ==> sorted[0] in Worklist(rows);
    assert forall e :: e in sorted ==> e == sorted[0] || Before(sorted[0], e);
    if sorted == [] then None else Some(sorted[0].index)
  }

  function ProjectOf(s: State, row: Row): Option<Id> {
    if row.service !in s.services then None
    else if row.project.Some? then row.project
    else Some(s.services[row.service])
  }

  predicate Present(s: State, row: Row) {
    ProjectOf(s, row).Some? && ProjectOf(s, row).value in s.projects
  }

  /** What reconciling makes of a row, if its manifest can be written when one is needed. */
  function Effect(row: Row, w: Weather): Option<Row> {
    if IsCleanup(row.status) then
      if w.manifest then Some(row.(status := if w.first then CleanedUp else Failed)) else None
    else
      var image := if row.status == RollbackRequested then row.previousImage else row.image;
      if image == "" then Some(row.(status := Failed))
      else if w.manifest then Some(row.(image := image, status := if w.first && w.second then Ready else Failed))
      else None
  }

  function FirstWithId(rows: seq<Row>, id: Id): (i: Option<nat>)
    ensures i.Some? ==> i.value < |rows| && rows[i.value].id == id && forall j :: 0 <= j < i.value ==> rows[j].id != id
    ensures i.None? ==> forall j :: 0 <= j < |rows| ==> rows[j].id != id
  {
    Rows.FirstWithId(rows, (row: Row) => row.id, id)
  }

  predicate UniqueIds(rows: seq<Row>) {
    Rows.UniqueIds(rows, (row: Row) => row.id)
  }

  /** Whether reconciling the row stores the image it applies. */
  predicate StoresImage(row: Row) {
    !IsCleanup(row.status) && (if row.status == RollbackRequested then row.previousImage else row.image) != ""
  }

  /** The taken row is found again by its id, so an earlier row with the same id is written in its place. */
  function AfterRun(s: State, w: Weather): State {
    match Head(s.rows)
    case None => s
    case Some(i) =>
      var row := s.rows[i];
      if !Present(s, row) || Effect(row, w).None? then s
      else
        var k, end := FirstWithId(s.rows, row.id).value, Effect(row, w).value;
        s.(rows := s.rows[k := s.rows[k].(status := end.status, image := if StoresImage(row) then end.image else s.rows[k].image)])
  }

  function ResultOf(s: State, w: Weather): Result {
    match Head(s.rows)
    case None => Idle
    case Some(i) =>
      var row := s.rows[i];
      if !Present(s, row) || Effect(row, w).None? then Blocked else Processed(row.id, Effect(row, w).value.status)
  }

  class ServiceReconciler {
    var rows: seq<Row>
    const services: map<Id, Id>
    const projects: set<Id>

    function Contents(): State
      reads this
    {
      State(rows, services, projects)
    }

    constructor (rows: seq<Row>, services: map<Id, Id>, projects: set<Id>)
      ensures Contents() == State(rows, services, projects)
    {
      this.rows, this.services, this.projects := rows, services, projects;
    }

    /** Writes to the first row with the id; without an image the stored one stays. */
    method UpdateDeployment(id: Id, status: Status, image: Option<string>)
      modifies this
      ensures match FirstWithId(old(rows), id)
              case None => rows == old(rows)
              case Some(i) =>
                rows == old(rows)[i := old(rows)[i].(status := status, image := if image.Some? then image.value else old(rows)[i].image)]
    {
      var index := FirstWithId(rows, id);
      if index.Some? {
        var row := rows[index.value].(status := status);
        rows := rows[index.value := if image.Some? then row.(image := image.value) else row];
      }
    }

    method RunOnce(w: Weather) returns (result: Result)
      modifies this
      ensures result == ResultOf(old(Contents()), w)
      ensures Contents() == AfterRun(old(Contents()), w)
    {
      var head := Head(rows);
      if head.None? {
        return Idle;
      }
      var deployment := rows[head.value];
      if !Present(Contents(), deployment) {
        return Blocked;
      }
      if IsCleanup(deployment.status) {
        result := CleanupPreview(deployment, w);
        return;
      }
      if deployment.status == RollbackRequested {
        if deployment.previousImage == "" {
          UpdateDeployment(deployment.id, Failed, None);
          return Processed(deployment.id, Failed);
        }
        deployment := deployment.(image := deployment.previousImage);
      }
      result := ApplyAndWatch(deployment, w);
    }

    method CleanupPreview(deployment: Row, w: Weather) returns (result: Result)
      requires FirstWithId(rows, deployment.id).Some?
      modifies this
      ensures result == if w.manifest then Processed(deployment.id, if w.first then CleanedUp else Failed) else Blocked
      ensures var i := FirstWithId(old(rows), deployment.id).value;
              rows == if w.manifest then old(rows)[i := old(rows)[i].(status := if w.first then CleanedUp else Failed)] else old(rows)
    {
      if !w.manifest {
        return Blocked;
      }
      if !w.first {
        UpdateDeployment(deployment.id, Failed, None);
        return Processed(deployment.id, Failed);
      }
      UpdateDeployment(deployment.id, CleanedUp, None);
      result := Processed(deployment.id, CleanedUp);
    }

    /** The row passes through the deploying status, which also stores the image being applied. */
    method ApplyAndWatch(deployment: Row, w: Weather) returns (result: Result)
      requires FirstWithId(rows, deployment.id).Some?
      modifies this
      ensures result == if deployment.image == "" then Processed(deployment.id, Failed)
                        else if !w.manifest then Blocked
                        else Processed(deployment.id, if w.first && w.second then Ready else Failed)
      ensures var i := FirstWithId(old(rows), deployment.id).value;
              rows == if deployment.image == "" then old(rows)[i := old(rows)[i].(status := Failed)]
                      else if !w.manifest then old(rows)
                      else old(rows)[i := old(rows)[i].(image := deployment.image, status := if w.first && w.second then Ready else Failed)]
    {
      if deployment.image == "" {
        UpdateDeployment(deployment.id, Failed, None);
        return Processed(deployment.id, Failed);
      }
      if !w.manifest {
        return Blocked;
      }
      ghost var start := rows;
      UpdateDeployment(deployment.id, Deploying, Some(deployment.image));
      SameFirst(start, rows, deployment.id);
      if !w.first || !w.second {
        UpdateDeployment(deployment.id, Failed, None);
        return Processed(deployment.id, Failed);
      }
      UpdateDeployment(deployment.id, Ready, None);
      result := Processed(deployment.id, Ready);
    }
  }

  lemma SameFirst(a: seq<Row>, b: seq<Row>, id: Id)
    requires |a| == |b| && forall i :: 0 <= i < |a| ==> a[i].id == b[i].id
    ensures FirstWithId(a, id) == FirstWithId(b, id)
  {
  }

  // ---- Runs ----

  function Open(rows: seq<Row>): nat {
    if rows == [] then 0 else Open(rows[..|rows| - 1]) + (if WantsWork(rows[|rows| - 1]) then 1 else 0)
  }

  lemma {:induction false} OpenUpdate(rows: seq<Row>, i: nat, row: Row)
    requires i < |rows| && WantsWork(rows[i]) && !WantsWork(row)
    ensures Open(rows[i := row]) == Open(rows) - 1
  {
    var last := |rows| - 1;
    if i == last {
      assert rows[i := row][..last] == rows[..last];
    } else {
      assert rows[i := row][..last] == rows[..last][i := row];
      OpenUpdate(rows[..last], i, row);
    }
  }

  lemma {:induction false} OpenSame(rows: seq<Row>, i: nat, row: Row)
    requires i < |rows| && !WantsWork(rows[i]) && !WantsWork(row)
    ensures Open(rows[i := row]) == Open(rows)
  {
    var last := |rows| - 1;
    if i == last {
      assert rows[i := row][..last] == rows[..last];
    } else {
      assert rows[i := row][..last] == rows[..last][i := row];
      OpenSame(rows[..last], i, row);
    }
  }

  lemma {:induction false} OpenNone(rows: seq<Row>)
    requires Open(rows) == 0
    ensures Head(rows) == None
  {
    if i :| 0 <= i < |rows| && WantsWork(rows[i]) {
      OpenUpdate(rows, i, rows[i].(status := Ready));
    }
  }

  /**
   One call shortens the worklist by exactly one, if and only if the head's service and project exist, its manifest is
   written when one is needed, and no earlier row shares its id. Otherwise the worklist stays as long as it was.
   */
  lemma ProgressExactly(s: State, w: Weather)
    requires Head(s.rows).Some?
    ensures var i := Head(s.rows).value;
            var row := s.rows[i];
            var progress := Present(s, row) && Effect(row, w).Some? && FirstWithId(s.rows, row.id) == Some(i);
            && Open(AfterRun(s, w).rows) == Open(s.rows) - (if progress then 1 else 0)
            && (progress ==> AfterRun(s, w) == s.(rows := s.rows[i := Effect(row, w).value]))
  {
    var i := Head(s.rows).value;
    if Present(s, s.rows[i]) && Effect(s.rows[i], w).Some? {
      var k, after := FirstWithId(s.rows, s.rows[i].id).value, AfterRun(s, w).rows;
      if k == i {
        OpenUpdate(s.rows, i, Effect(s.rows[i], w).value);
      } else {
        OpenSame(s.rows, k, after[k]);
      }
    }
  }

  /** The next row is image-ready or asks for a rollback or a cleanup in either spelling, and no such row has a lesser id. */
  lemma HeadByStatus(rows: seq<Row>, i: nat)
    ensures Head(rows) == Some(i) <==>
      && i < |rows| && rows[i].status in {ImageReady, RollbackRequested, CleanupRequested, ShortCleanupRequested}
      && forall j :: 0 <= j < |rows| && rows[j].status in {ImageReady, RollbackRequested, CleanupRequested, ShortCleanupRequested} ==>
           rows[i].id < rows[j].id || (rows[i].id == rows[j].id && i <= j)
  {
    assert forall j :: 0 <= j < |rows| ==>
      (WantsWork(rows[j]) <==> rows[j].status in {ImageReady, RollbackRequested, CleanupRequested, ShortCleanupRequested});
    if i < |rows| && WantsWork(rows[i]) && Head(rows) != Some(i) {
      var n := Head(rows).value;
      assert WantsWork(rows[n]) && n != i;
    }
  }

  /**
   One call, column by column. It is blocked exactly if the service row is missing, or the row of the deployment's project or,
   without one, of the service's, or if it cannot write the manifest that a cleanup or an image needs. Otherwise it ends the
   row it took and changes no other.
   */
  lemma OneCallByColumns(s: State, w: Weather, i: nat)
    requires Head(s.rows) == Some(i) && forall j :: 0 <= j < i < |s.rows| ==> s.rows[j].id != s.rows[i].id
    ensures i < |s.rows| == |AfterRun(s, w).rows|
    ensures var row, next := s.rows[i], AfterRun(s, w);
            var cleanup := row.status == CleanupRequested || row.status == ShortCleanupRequested;
            var image := if row.status == RollbackRequested then row.previousImage else row.image;
            var project := if row.project == None && row.service in s.services then Some(s.services[row.service]) else row.project;
            var found := row.service in s.services && project.value in s.projects;
            if !found || (!w.manifest && (cleanup || image != "")) then ResultOf(s, w) == Blocked && next == s
            else
              && ResultOf(s, w) == Processed(row.id, next.rows[i].status) && next == s.(rows := s.rows[i := next.rows[i]])
              && next.rows[i] == row.(status := next.rows[i].status, image := next.rows[i].image)
              && next.rows[i].image == (if cleanup || image == "" then row.image else image)
              && next.rows[i].status == if cleanup then (if w.first then CleanedUp else Failed)
                                        else if image != "" && w.first && w.second then Ready else Failed
  {
    assert FirstWithId(s.rows, s.rows[i].id) == Some(i);
  }

  function After(s: State, ws: seq<Weather>): State
    decreases |ws|
  {
    if ws == [] then s else After(AfterRun(s, ws[0]), ws[1..])
  }

  /** A head whose service or project row is missing blocks the whole worklist for good. */
  lemma {:induction false} MissingRowsBlockEverything(s: State, ws: seq<Weather>)
    requires Head(s.rows).Some? && !Present(s, s.rows[Head(s.rows).value])
    ensures After(s, ws) == s
    decreases |ws|
  {
    if ws != [] {
      MissingRowsBlockEverything(s, ws[1..]);
    }
  }

  /** The row is either untouched or finished in some weather. */
  ghost predicate Follows(before: Row, after: Row) {
    after == before || (WantsWork(before) && exists w :: Effect(before, w) == Some(after))
  }

  ghost predicate AllPresent(s: State) {
    forall i :: 0 <= i < |s.rows| && WantsWork(s.rows[i]) ==> Present(s, s.rows[i])
  }

  lemma UniqueFirst(rows: seq<Row>, i: nat)
    requires UniqueIds(rows) && i < |rows|
    ensures FirstWithId(rows, rows[i].id) == Some(i)
  {
  }

  lemma FinishingKeeps(s: State, i: nat, end: Row)
    requires UniqueIds(s.rows) && AllPresent(s) && i < |s.rows|
    requires end.id == s.rows[i].id && !WantsWork(end)
    ensures UniqueIds(s.rows[i := end]) && AllPresent(s.(rows := s.rows[i := end]))
  {
    var t := s.(rows := s.rows[i := end]);
    forall j | 0 <= j < |t.rows| && WantsWork(t.rows[j])
      ensures Present(t, t.rows[j])
    {
      assert Present(s, s.rows[j]);
    }
  }

  lemma OneCall(s: State, w: Weather) returns (i: nat, end: Row)
    requires UniqueIds(s.rows) && AllPresent(s) && Head(s.rows).Some? && w.manifest
    ensures i < |s.rows| && WantsWork(s.rows[i]) && Effect(s.rows[i], w) == Some(end)
    ensures !WantsWork(end) && Follows(s.rows[i], end)
    ensures AfterRun(s, w) == s.(rows := s.rows[i := end])
    ensures UniqueIds(AfterRun(s, w).rows) && AllPresent(AfterRun(s, w)) && Open(AfterRun(s, w).rows) == Open(s.rows) - 1
  {
    i := Head(s.rows).value;
    end := Effect(s.rows[i], w).value;
    FinishingKeeps(s, i, end);
    UniqueFirst(s.rows, i);
    ProgressExactly(s, w);
  }

  /** With rows present and manifests written, as many calls as there are open deployments finish them all. */
  lemma {:induction false} WorklistDrains(s: State, ws: seq<Weather>)
    requires UniqueIds(s.rows) && AllPresent(s) && |ws| >= Open(s.rows) && forall w :: w in ws ==> w.manifest
    ensures |After(s, ws).rows| == |s.rows| && Head(After(s, ws).rows) == None
    ensures forall i :: 0 <= i < |s.rows| ==> Follows(s.rows[i], After(s, ws).rows[i])
    decreases |ws|
  {
    if Head(s.rows).None? {
      IdleStays(s, ws);
    } else if ws == [] {
      OpenNone(s.rows);
    } else {
      assert ws[0] in ws && forall x :: x in ws[1..] ==> x in ws;
      var i, end := OneCall(s, ws[0]);
      var t := AfterRun(s, ws[0]);
      WorklistDrains(t, ws[1..]);
      forall j | 0 <= j < |s.rows|
        ensures Follows(s.rows[j], After(s, ws).rows[j])
      {
        assert Follows(t.rows[j], After(t, ws[1..]).rows[j]);
      }
    }
  }

  /** A row that asks for work and misses its service or project is never changed. */
  lemma {:induction false} AbsentStays(s: State, ws: seq<Weather>, i: nat)
    requires UniqueIds(s.rows) && i < |s.rows| && WantsWork(s.rows[i]) && !Present(s, s.rows[i])
    ensures |After(s, ws).rows| == |s.rows| && After(s, ws).rows[i] == s.rows[i]
    decreases |ws|
  {
    if ws != [] {
      var t := AfterRun(s, ws[0]);
      OneCallKeepsAbsent(s, ws[0], i);
      AbsentStays(t, ws[1..], i);
    }
  }

  lemma OneCallKeepsAbsent(s: State, w: Weather, i: nat)
    requires UniqueIds(s.rows) && i < |s.rows| && WantsWork(s.rows[i]) && !Present(s, s.rows[i])
    ensures var t := AfterRun(s, w);
            UniqueIds(t.rows) && |t.rows| == |s.rows| && t.rows[i] == s.rows[i] && !Present(t, t.rows[i])
  {
    if Head(s.rows).Some? {
      UniqueFirst(s.rows, Head(s.rows).value);
    }
  }

  /** With manifests written, as many calls as there are open deployments empty the worklist exactly when none misses its service or project. */
  lemma WorklistDrainsExactly(s: State, ws: seq<Weather>)
    requires UniqueIds(s.rows) && |ws| >= Open(s.rows) && forall w :: w in ws ==> w.manifest
    ensures Head(After(s, ws).rows) == None <==> AllPresent(s)
  {
    if AllPresent(s) {
      WorklistDrains(s, ws);
    } else {
      var i :| 0 <= i < |s.rows| && WantsWork(s.rows[i]) && !Present(s, s.rows[i]);
      AbsentStays(s, ws, i);
    }
  }

  lemma {:induction false} IdleStays(s: State, ws: seq<Weather>)
    requires Head(s.rows).None?
    ensures After(s, ws) == s
    decreases |ws|
  {
    if ws != [] {
      IdleStays(s, ws[1..]);
    }
  }

  /**
   What a finished row looks like: ready, failed or cleaned up; ready only with an image, which after a rollback is the
   previous one; cleaned up only if that was asked for.
   */
  lemma FinishedRows(before: Row, after: Row)
    requires Follows(before, after) && WantsWork(before) && !WantsWork(after)
    ensures after.status == Ready || after.status == Failed || after.status == CleanedUp
    ensures after.status == Ready ==>
      after.image != "" && after.image == if before.status == RollbackRequested then before.previousImage else before.image
    ensures after.status == CleanedUp ==> IsCleanup(before.status)
    ensures after.id == before.id && after.service == before.service
  {
  }

  /**
   Every deployment that asked for work at the start has come to an end after as many calls as there were of them,
   whatever kubectl answered, and one that became ready runs the image it asked for.
   */
  lemma EveryOpenRowEnds(s: State, ws: seq<Weather>, i: nat)
    requires UniqueIds(s.rows) && AllPresent(s) && |ws| >= Open(s.rows) && forall w :: w in ws ==> w.manifest
    requires i < |s.rows| && WantsWork(s.rows[i])
    ensures |After(s, ws).rows| == |s.rows|
    ensures var before, after := s.rows[i], After(s, ws).rows[i];
            && after.id == before.id && (after.status == Ready || after.status == Failed || after.status == CleanedUp)
            && (after.status == Ready ==>
                  after.image != "" && after.image == if before.status == RollbackRequested then before.previousImage else before.image)
  {
    WorklistDrains(s, ws);
    FinishedRows(s.rows[i], After(s, ws).rows[i]);
  }
}
