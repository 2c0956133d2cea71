/** Any number of Connect, Disconnect and Recover calls, runtime monitors and automatic
    restores interleaved against a nondeterministic network manager and process supervisor.

    One step is one mutex-protected section or one call into a dependency. `Choice` holds
    what the environment decides in that step. The record `Known` watches only the calls
    made and their results; it is written without looking at the controller. */
module ControllerRuns {
  import opened Wrappers
  import opened ControllerState

  // ---- What the dependencies observed ----

  datatype Call =
    | Captured(snapshot: nat)
    | Started(instance: Option<nat>, terminated: bool)
    | Stopped(target: nat, proven: bool)
    | Restored(snapshot: nat, ok: bool)
    | Reconciled(ok: bool)
    | ResidueRead(zero: bool)

  /** `started` and `proven`: every instance ever started, and those whose termination was
      proven. `outstanding`: the snapshot of the last successful Capture until a Restore of
      it succeeded (`undone`) and, where the manager reports residue, zero was then read.
      `violated`: Restore, Reconcile or Start was called while some instance was unproven. */
  datatype Known = Known(
    reports: bool,
    started: set<nat>,
    proven: set<nat>,
    outstanding: Option<nat>,
    undone: bool,
    violated: bool)

  function Unproven(k: Known): set<nat> { k.started - k.proven }

  function Observe(k: Known, call: Call): Known {
    match call
    case Captured(snapshot) => k.(outstanding := Some(snapshot), undone := false)
    case Started(instance, terminated) =>
      var launched := if instance.Some? then {instance.value} else {};
      k.(violated := k.violated || Unproven(k) != {},
         started := k.started + launched,
         proven := if terminated then k.proven + launched else k.proven)
    case Stopped(instance, proven) =>
      if proven then k.(proven := k.proven + {instance}) else k
    case Restored(snapshot, ok) =>
      var checked := k.(violated := k.violated || Unproven(k) != {});
      if k.outstanding != Some(snapshot) then checked
      else if ok && !k.reports then checked.(outstanding := None, undone := false)
      else checked.(undone := ok)
    case Reconciled(ok) => k.(violated := k.violated || Unproven(k) != {})
    case ResidueRead(zero) =>
      if zero && k.undone then k.(outstanding := None, undone := false) else k
  }

  // ---- Threads ----

  datatype Request = ConnectRequest | DisconnectRequest | RecoverRequest

  /** The arguments of restoreTransaction. */
  datatype Undo = Undo(started: bool, instance: Option<nat>, snapshot: Option<nat>)

  /** Who runs the transaction; an automatic restore may run inside a monitor whose done
      channel closes when it returns. */
  datatype Role = ConnectRole | DisconnectRole | RestoreRole(closes: bool)

  datatype Pc =
    | CheckContext
    | ReadProcess
    | Validate
    | PrepareNetwork
    | CaptureNetwork
    | KeepSnapshot(snapshot: nat)
    | EnableProtection(snapshot: nat)
    | RenderConfig(snapshot: nat)
    | StartCore(snapshot: nat)
    | AwaitReady(snapshot: nat, instance: nat)
    | AwaitTun(snapshot: nat, instance: nat)
    | ActivateRoutes(snapshot: nat, instance: nat)
    | ReadFields
    | CancelOwnMonitor(undo: Undo, own: nat)
    | Detach(undo: Undo)
    | CancelMonitor(undo: Undo, cancel: Option<nat>, done: Option<nat>)
    | AwaitMonitor(undo: Undo, awaited: nat)
    | StopCore(undo: Undo)
    | RestoreNetwork(undo: Undo)
    | CheckResidue(undo: Undo)
    | Commit(outcome: Outcome)

  datatype Thread =
    | Entering(request: Request)
    | Waiting(request: Request, owner: nat, joined: bool)
    | Owner(role: Role, generation: nat, pc: Pc)
    | StartingMonitor(generation: nat)
    | Monitoring(generation: nat)
    | AutoEnter(generation: nat, closes: bool)
    | Closing(generation: nat)
    | Returned

  /** `cancelled` and `closed`: the generations whose monitor context was cancelled and
      whose done channel was closed. `orphaned`: the generations whose StartMonitor failed. */
  datatype Sys = Sys(
    c: Fields,
    threads: map<nat, Thread>,
    cancelled: set<nat>,
    closed: set<nat>,
    orphaned: set<nat>,
    known: Known)

  datatype Choice = Choice(ok: bool, proven: bool, present: bool, id: nat, now: int)

  datatype Action =
    | Arrive(tid: nat, request: Request)
    | Run(tid: nat, choice: Choice)
    | Probe(generation: nat, quality: string)

  // ---- Steps ----

  /** The state and thread after the reverse-order restoration ended. */
  function UndoOutcome(role: Role, u: Undo, restored: bool): Outcome {
    if restored then Outcome(Prepared, true, None, false, None)
    else if role.ConnectRole? then
      Outcome(FailedSafe, false, u.instance, u.started && u.instance.Some?, u.snapshot)
    else Outcome(FailedSafe, false, None, false, None)
  }

  /** A pre-check failure reports a safe machine without restoring anything. */
  const PRECHECK := Outcome(Prepared, false, None, false, None)

  function Free(c: Fields, owner: nat): bool {
    c.transition.None? || c.transition.value.owner != owner
  }

  /** What one step of the slot owner may need from the environment. */
  predicate PcEnabled(s: Sys, pc: Pc, ch: Choice) {
    match pc
    case AwaitMonitor(_, done) => done in s.closed
    case StartCore(_) => ch.id !in s.known.started
    case _ => true
  }

  /** The step is possible with this choice. Spawned goroutines get a fresh identity. */
  predicate RunEnabled(s: Sys, tid: nat, ch: Choice) {
    && tid in s.threads
    && match s.threads[tid]
       case Waiting(_, owner, _) => Free(s.c, owner) || !ch.ok
       case Owner(_, _, pc) => PcEnabled(s, pc, ch)
       case StartingMonitor(_) => ch.id !in s.threads
       case Monitoring(g) => g in s.cancelled || ch.ok
       case Returned => false
       case _ => true
  }

  predicate Enabled(s: Sys, a: Action) {
    match a
    case Arrive(tid, _) => tid !in s.threads
    case Run(tid, ch) => RunEnabled(s, tid, ch)
    case Probe(_, _) => true
  }

  function Put(s: Sys, tid: nat, thread: Thread): Sys {
    s.(threads := s.threads[tid := thread])
  }

  /** The top of the Connect and disconnect loops. */
  function EnterStep(s: Sys, tid: nat, request: Request): Sys {
    var (c, entry) :=
      if request.ConnectRequest? then ConnectEnter(s.c, tid)
      else DisconnectEnter(s.c, tid, request.RecoverRequest?);
    var t := s.(c := c);
    match entry
    case Finish(_) => Put(t, tid, Returned)
    case Join(owner) => Put(t, tid, Waiting(request, owner, true))
    case Await(owner) => Put(t, tid, Waiting(request, owner, false))
    case Begin =>
      if request.ConnectRequest?
      then Put(t, tid, Owner(ConnectRole, c.generation, CheckContext))
      else Put(t, tid, Owner(DisconnectRole, c.generation, ReadFields))
  }

  /** What a step of the slot owner changes: the fields, what was observed, the monitor
      contexts it cancels, and where it goes on. */
  datatype Move = Move(c: Fields, known: Known, cancels: set<nat>, pc: Pc)

  /** A failed step of the connection transaction enters the restoration. */
  function Failed(started: bool, instance: Option<nat>, snapshot: Option<nat>): Pc {
    Detach(Undo(started, instance, snapshot))
  }

  /** runConnect, one section or call at a time. */
  function ConnectMove(c: Fields, k: Known, pc: Pc, ch: Choice): Move {
    match pc
    case CheckContext => Move(c, k, {}, if ch.ok then ReadProcess else Commit(PRECHECK))
    case ReadProcess =>
      Move(c, k, {}, if c.processStarted then Failed(true, c.instance, None) else Validate)
    case Validate => Move(c, k, {}, if ch.ok then PrepareNetwork else Commit(PRECHECK))
    case PrepareNetwork =>
      Move(c, k, {}, if ch.ok then CaptureNetwork else Failed(false, None, None))
    case CaptureNetwork =>
      if ch.ok then Move(c, Observe(k, Captured(ch.id)), {}, KeepSnapshot(ch.id))
      else Move(c, k, {}, Failed(false, None, None))
    case KeepSnapshot(snapshot) =>
      Move(StoreSnapshot(c, snapshot), k, {}, EnableProtection(snapshot))
    case EnableProtection(snapshot) =>
      Move(c, k, {}, if ch.ok then RenderConfig(snapshot) else Failed(false, None, Some(snapshot)))
    case RenderConfig(snapshot) =>
      Move(c, k, {}, if ch.ok then StartCore(snapshot) else Failed(false, None, Some(snapshot)))
    case StartCore(snapshot) =>
      // A nil error, or unproven termination, comes with an instance (lines 138-143).
      var instance := if ch.ok || !ch.proven || ch.present then Some(ch.id) else None;
      Move(c, Observe(k, Started(instance, !ch.ok && ch.proven)), {},
           if ch.ok then AwaitReady(snapshot, ch.id) else Failed(!ch.proven, instance, Some(snapshot)))
    case AwaitReady(snapshot, instance) =>
      Move(c, k, {}, if ch.ok then AwaitTun(snapshot, instance) else Failed(true, Some(instance), Some(snapshot)))
    case AwaitTun(snapshot, instance) =>
      Move(c, k, {}, if ch.ok then ActivateRoutes(snapshot, instance) else Failed(true, Some(instance), Some(snapshot)))
    case ActivateRoutes(snapshot, instance) =>
      Move(c, k, {},
           if ch.ok then Commit(Outcome(Connected, false, Some(instance), true, Some(snapshot)))
           else Failed(true, Some(instance), Some(snapshot)))
    case _ => Move(c, k, {}, pc)
  }

  predicate IsUndoPc(pc: Pc) {
    pc.Detach? || pc.CancelMonitor? || pc.AwaitMonitor? || pc.StopCore? || pc.RestoreNetwork? || pc.CheckResidue?
  }

  /** restoreTransaction, one section or call at a time, after the first section of
      runDisconnect and of automaticRestore. */
  function UndoMove(c: Fields, k: Known, role: Role, pc: Pc, ch: Choice): Move {
    match pc
    case ReadFields =>
      Move(c, k, {},
           if c.snapshot.None? && !c.processStarted && c.reconciled
           then Commit(UndoOutcome(role, Undo(false, None, None), true))
           else Detach(Undo(c.processStarted, c.instance, c.snapshot)))
    case CancelOwnMonitor(u, own) => Move(c, k, {own}, Detach(u))
    case Detach(u) => Move(DetachMonitor(c), k, {}, CancelMonitor(u, c.monitorCancel, c.monitorDone))
    case CancelMonitor(u, cancel, done) =>
      Move(c, k, if cancel.Some? then {cancel.value} else {},
           if done.Some? then AwaitMonitor(u, done.value) else StopCore(u))
    case AwaitMonitor(u, _) => Move(c, k, {}, StopCore(u))
    case StopCore(u) =>
      if u.started && u.instance.Some? then
        Move(c, Observe(k, Stopped(u.instance.value, ch.proven)), {},
             if ch.proven then RestoreNetwork(u) else Commit(UndoOutcome(role, u, false)))
      else Move(c, k, {}, RestoreNetwork(u))
    case RestoreNetwork(u) =>
      var call := if u.snapshot.Some? then Restored(u.snapshot.value, ch.ok) else Reconciled(ch.ok);
      Move(c, Observe(k, call), {},
           if !ch.ok then Commit(UndoOutcome(role, u, false))
           else if k.reports then CheckResidue(u)
           else Commit(UndoOutcome(role, u, true)))
    case CheckResidue(u) =>
      Move(c, Observe(k, ResidueRead(ch.ok)), {}, Commit(UndoOutcome(role, u, ch.ok)))
    case _ => Move(c, k, {}, pc)
  }

  function OwnerMove(c: Fields, k: Known, role: Role, pc: Pc, ch: Choice): Move {
    if IsUndoPc(pc) || pc.ReadFields? || pc.CancelOwnMonitor? then UndoMove(c, k, role, pc, ch)
    else ConnectMove(c, k, pc, ch)
  }

  /** The final section of Connect, disconnect and automaticRestore. On the modelled fields
      the last two agree. */
  function CommitStep(s: Sys, tid: nat, ch: Choice): Sys
    requires tid in s.threads && s.threads[tid].Owner? && s.threads[tid].pc.Commit?
  {
    var Owner(role, generation, Commit(outcome)) := s.threads[tid];
    match role
    case ConnectRole =>
      var t := s.(c := ConnectCommit(s.c, generation, outcome, ch.now));
      if outcome.state == Connected && s.c.generation == generation
      then Put(t, tid, StartingMonitor(generation))
      else Put(t, tid, Returned)
    case DisconnectRole => Put(s.(c := DisconnectCommit(s.c, generation, outcome)), tid, Returned)
    case RestoreRole(closes) =>
      Put(s.(c := DisconnectCommit(s.c, generation, outcome)), tid,
          if closes then Closing(generation) else Returned)
  }

  function OwnerStep(s: Sys, tid: nat, ch: Choice): Sys
    requires tid in s.threads && s.threads[tid].Owner?
  {
    var Owner(role, _, pc) := s.threads[tid];
    if pc.Commit? then CommitStep(s, tid, ch)
    else
      var m := OwnerMove(s.c, s.known, role, pc, ch);
      Put(s.(c := m.c, known := m.known, cancelled := s.cancelled + m.cancels), tid, s.threads[tid].(pc := m.pc))
  }

  function RunStep(s: Sys, tid: nat, ch: Choice): Sys
    requires RunEnabled(s, tid, ch)
  {
    match s.threads[tid]
    case Entering(request) => EnterStep(s, tid, request)
    case Waiting(request, owner, joined) =>
      if !Free(s.c, owner) || joined then Put(s, tid, Returned) else Put(s, tid, Entering(request))
    case Owner(_, _, _) => OwnerStep(s, tid, ch)
    case StartingMonitor(g) =>
      // The client returns; the monitor, or the restore after a failed start, is a new goroutine.
      var t := Put(s, tid, Returned);
      if ch.ok then Put(t, ch.id, Monitoring(g))
      else Put(t.(orphaned := t.orphaned + {g}), ch.id, AutoEnter(g, false))
    case Monitoring(g) =>
      if ch.ok then Put(s, tid, AutoEnter(g, true)) else Put(s, tid, Closing(g))
    case AutoEnter(g, closes) =>
      if MayRestore(s.c, g) then
        var u := Undo(s.c.processStarted, s.c.instance, s.c.snapshot);
        var pc := if s.c.monitorCancel.Some? then CancelOwnMonitor(u, s.c.monitorCancel.value) else Detach(u);
        Put(s.(c := RestoreEnter(s.c, tid)), tid, Owner(RestoreRole(closes), g, pc))
      else Put(s, tid, if closes then Closing(g) else Returned)
    case Closing(g) => Put(s.(closed := s.closed + {g}), tid, Returned)
    case Returned => s
  }

  function Next(s: Sys, a: Action): Sys
    requires Enabled(s, a)
  {
    match a
    case Arrive(tid, request) => Put(s, tid, Entering(request))
    case Run(tid, ch) => RunStep(s, tid, ch)
    case Probe(generation, quality) => s.(c := PublishQuality(s.c, generation, quality).0)
  }

  function Initial(reports: bool): Sys {
    Sys(INITIAL, map[], {}, {}, {}, Known(reports, {}, {}, None, false, false))
  }

  /** A run: states and the actions between them. */
  ghost predicate IsRun(states: seq<Sys>, actions: seq<Action>) {
    && |states| == |actions| + 1
    && states[0] == Initial(states[0].known.reports)
    && forall i {:trigger actions[i]} :: 0 <= i < |actions| ==> Enabled(states[i], actions[i]) && states[i + 1] == Next(states[i], actions[i])
  }
}
