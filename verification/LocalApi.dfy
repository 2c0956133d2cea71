/** The local API: `internal/localapi/protocol.go` and `projection.go`, and the responses that
    `internal/agent/local_dispatch.go` builds for it. */
module LocalApi {
  import opened Wrappers
  import opened LineProbe

  /** The controller's states, and what the API calls them. */
  datatype ConnectionState = Preparing | Prepared | Disconnected | Connecting | Connected | Restoring | FailedSafe | Failed

  datatype ApiState = ApiIdle | ApiPreparing | ApiConnecting | ApiConnected | ApiRestoring | ApiNeedsAction | ApiOther(text: string)

  datatype Quality = NoQuality | Unknown | Good | Slow | Bad | OtherQuality(text: string)

  datatype Status = Status(state: ApiState, quality: Quality, errorCode: string, connectedAt: Option<int>, generation: nat)

  datatype Response = Response(id: string, status: Status, errorCode: string, probeGeneration: nat, probeHistorical: bool, probeResults: seq<Result>)

  datatype Action = StatusAction | ConnectAction | DisconnectAction | ProbeAction | DiagnosticAction

  datatype Request = Request(id: string, action: Action, minutes: int)

  /** What the controller shows at one moment. */
  datatype LocalStatus = LocalStatus(state: ConnectionState, quality: Quality, errorCode: string, generation: nat, connectedAt: Option<int>)

  function ProjectState(s: ConnectionState): ApiState {
    match s
    case Prepared => ApiIdle
    case Disconnected => ApiIdle
    case FailedSafe => ApiNeedsAction
    case Failed => ApiNeedsAction
    case Preparing => ApiPreparing
    case Connecting => ApiConnecting
    case Connected => ApiConnected
    case Restoring => ApiRestoring
  }

  function ProjectStatus(s: LocalStatus): Status {
    Status(ProjectState(s.state), if s.quality == NoQuality then Unknown else s.quality, s.errorCode, s.connectedAt, s.generation)
  }

  predicate ValidStatus(s: Status) {
    !s.state.ApiOther? && (s.quality == Unknown || s.quality == Good || s.quality == Slow || s.quality == Bad)
  }

  // ---- Valid probe results ----

  /** Results only of known targets, at most one of each, in range, and of a generation that the
      status has reached: the present one while connected, otherwise marked as historical. */
  predicate AcceptableResults(r: Response, targets: seq<string>) {
    if r.probeResults == [] then r.probeGeneration == 0 && !r.probeHistorical
    else
      && |r.probeResults| <= |targets| && r.probeGeneration <= r.status.generation
      && (if r.status.state == ApiConnected then !r.probeHistorical && r.probeGeneration == r.status.generation else r.probeHistorical)
      && (forall i: nat :: i < |r.probeResults| ==> r.probeResults[i].id in targets && AcceptableResult(r.probeResults[i]))
      && (forall i: nat, j: nat :: i < j < |r.probeResults| ==> r.probeResults[i].id != r.probeResults[j].id)
  }

  predicate AcceptableResult(r: Result) {
    InRange(r) && (r.failures.Some? ==> 0 <= r.failures.value <= 3)
  }

  /** validProbeResults; each target found is struck off the set. */
  method ValidProbeResults(r: Response, targets: seq<string>) returns (ok: bool)
    ensures ok <==> AcceptableResults(r, targets)
  {
    if |r.probeResults| == 0 { return r.probeGeneration == 0 && !r.probeHistorical; }
    if |r.probeResults| > |targets| || r.probeGeneration > r.status.generation { return false; }
    if r.status.state == ApiConnected {
      if r.probeHistorical || r.probeGeneration != r.status.generation { return false; }
    } else if !r.probeHistorical { return false; }
    var ids := set t | t in targets;
    for i := 0 to |r.probeResults|
      invariant forall t :: t in ids <==> t in targets && forall j: nat :: j < i ==> r.probeResults[j].id != t
      invariant forall j: nat :: j < i ==> r.probeResults[j].id in targets && AcceptableResult(r.probeResults[j])
      invariant forall j: nat, k: nat :: j < k < i ==> r.probeResults[j].id != r.probeResults[k].id
    {
      var p := r.probeResults[i];
      if p.id !in ids || p.latency < 0 || p.latency > 5000 || p.httpStatus < 0 || p.httpStatus > 599 || p.checkedAt == 0 {
        return false;
      }
      ids := ids - {p.id};
      if p.failures.Some? && (p.failures.value < 0 || p.failures.value > 3) { return false; }
      if p.error.Other? { return false; }
    }
    ok := true;
  }

  // ---- Dispatch ----

  /** The response built from the controller's status and, if there is one, the scheduler. */
  class LocalHandler {
    const scheduler: Scheduler?
    const diagnostics: bool

    constructor (scheduler: Scheduler?, diagnostics: bool)
      ensures this.scheduler == scheduler && this.diagnostics == diagnostics
    {
      this.scheduler, this.diagnostics := scheduler, diagnostics;
    }

    method AttachProbes(empty: Response, after: LocalStatus) returns (r: Response)
      requires scheduler != null && scheduler.Valid() && empty.probeResults == [] && empty.probeGeneration == 0 && !empty.probeHistorical
      requires empty.status == ProjectStatus(after)
      ensures r == empty || (r == empty.(probeGeneration := scheduler.last.generation, probeResults := scheduler.last.results,
                                         probeHistorical := after.state != Connected) && r.probeResults != [])
      ensures AcceptableResults(r, scheduler.ids)
      ensures scheduler.last.results != [] && after.state == Connected && scheduler.last.generation == after.generation ==>
                r.probeResults == scheduler.last.results
    {
      r := empty;
      var probes := scheduler.Show();
      var connected := after.state == Connected;
      if |probes.results| > 0 && probes.generation <= after.generation && (!connected || probes.generation == after.generation) {
        ShownIsAcceptable(probes.results, scheduler.ids);
        r := r.(probeGeneration := probes.generation, probeResults := probes.results, probeHistorical := !connected);
      }
    }

    /** `before` is what a probe request finds, `after` the status read once the action is done;
        the controller and the scheduler may have moved in between and since. `enabled` says
        whether diagnostics could be switched on. */
    method Dispatch(request: Request, administrator: bool, before: LocalStatus, after: LocalStatus, enabled: bool) returns (r: Response)
      requires scheduler != null ==> scheduler.Valid()
      ensures r.id == request.id && r.status == ProjectStatus(after)
      ensures scheduler != null ==> AcceptableResults(r, scheduler.ids)
      ensures scheduler == null ==> r.probeResults == [] && r.probeGeneration == 0 && !r.probeHistorical
      ensures r.probeResults != [] ==>
                r.probeResults == scheduler.last.results && r.probeGeneration == scheduler.last.generation
                && after.state != Connecting && r.probeHistorical == (after.state != Connected)
      ensures scheduler != null && scheduler.last.results != [] && after.state == Connected && scheduler.last.generation == after.generation ==>
                r.probeResults == scheduler.last.results
      ensures r.errorCode == (
        if request.action == ProbeAction && (scheduler == null || before.state != Connected || r.probeResults == []) then "probe_unavailable"
        else if request.action == DiagnosticAction && !administrator then "permission_denied"
        else if request.action == DiagnosticAction && !(diagnostics && enabled) then "diagnostic_unavailable"
        else "")
    {
      var error := "";
      match request.action {
        case ProbeAction =>
          if scheduler == null || before.state != Connected { error := "probe_unavailable"; }
        case DiagnosticAction =>
          if !administrator { error := "permission_denied"; }
          else if !diagnostics || !enabled { error := "diagnostic_unavailable"; }
        case _ =>
      }
      r := Response(request.id, ProjectStatus(after), error, 0, false, []);
      if scheduler != null && after.state != Connecting { r := AttachProbes(r, after); }
      if request.action == ProbeAction && |r.probeResults| == 0 { r := r.(errorCode := "probe_unavailable"); }
    }
  }

  lemma ShownIsAcceptable(results: seq<Result>, ids: seq<string>)
    requires Shown(results, ids) && Distinct(ids) && results != []
    ensures |results| == |ids|
    ensures forall i: nat :: i < |results| ==> results[i].id in ids && AcceptableResult(results[i])
    ensures forall i: nat, j: nat :: i < j < |results| ==> results[i].id != results[j].id
  {
  }

  /** The targets are pairwise different, as the scheduler needs them. */
  lemma TargetsAreDistinct()
    ensures Distinct(TARGETS)
  {
  }

  // ---- The reader's cache ----

  class StatusCache {
    var status: Status
    var present: bool

    constructor ()
      ensures !present
    {
      status, present := Status(ApiIdle, Unknown, "", None, 0), false;
    }

    method Apply(s: Status) returns (applied: bool)
      modifies this
      ensures applied <==> ValidStatus(s) && (old(present) ==> s.generation >= old(status.generation))
      ensures if applied then present && status == s else present == old(present) && status == old(status)
    {
      if !ValidStatus(s) { return false; }
      if present && s.generation < status.generation { return false; }
      status, present := s, true;
      applied := true;
    }
  }

  /** What the cache holds after a list of statuses arrived in any order: of the valid ones, one
      of the newest generation, and of those the last. */
  function Latest(arrived: seq<Status>): Option<Status> {
    if arrived == [] then None else
      var rest, s := Latest(arrived[..|arrived| - 1]), arrived[|arrived| - 1];
      if ValidStatus(s) && (rest.Some? ==> s.generation >= rest.value.generation) then Some(s) else rest
  }

  /** The i-th status is valid, of the newest generation among the valid ones, and the last such. */
  predicate IsNewest(arrived: seq<Status>, i: nat)
    requires i < |arrived|
  {
    && ValidStatus(arrived[i])
    && (forall j: nat :: j < |arrived| && ValidStatus(arrived[j]) ==> arrived[j].generation <= arrived[i].generation)
    && (forall j: nat :: i < j < |arrived| && ValidStatus(arrived[j]) ==> arrived[j].generation < arrived[i].generation)
  }

  lemma {:induction false} LatestIsNewest(arrived: seq<Status>)
    ensures Latest(arrived).None? <==> forall i: nat :: i < |arrived| ==> !ValidStatus(arrived[i])
    ensures Latest(arrived).Some? ==> exists i: nat :: i < |arrived| && IsNewest(arrived, i) && arrived[i] == Latest(arrived).value
  {
    if arrived != [] {
      var front, last := arrived[..|arrived| - 1], |arrived| - 1;
      LatestIsNewest(front);
      forall j: nat | j < last ensures front[j] == arrived[j] {}
      if Latest(front).Some? {
        var i: nat :| i < |front| && IsNewest(front, i) && front[i] == Latest(front).value;
        NewestOfMore(front, arrived[last], i);
        assert front + [arrived[last]] == arrived;
      } else {
        assert ValidStatus(arrived[last]) ==> IsNewest(arrived, last);
      }
    }
  }

  lemma NewestOfMore(arrived: seq<Status>, s: Status, i: nat)
    requires i < |arrived| && IsNewest(arrived, i)
    ensures if ValidStatus(s) && s.generation >= arrived[i].generation then IsNewest(arrived + [s], |arrived|) else IsNewest(arrived + [s], i)
  {
  }

  method ApplyAll(cache: StatusCache, arrived: seq<Status>)
    requires !cache.present
    modifies cache
    ensures (if cache.present then Some(cache.status) else None) == Latest(arrived)
  {
    for i := 0 to |arrived|
      invariant (if cache.present then Some(cache.status) else None) == Latest(arrived[..i])
    {
      assert arrived[..i + 1][..i] == arrived[..i];
      var applied := cache.Apply(arrived[i]);
    }
    assert arrived[..|arrived|] == arrived;
  }
}
