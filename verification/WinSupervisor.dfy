/** The teardown of a supervised Windows process: `internal/supervisor/process_windows.go` after
    a successful Start.

    waitLoop, any number of Stop calls and any number of Ready calls interleave with the
    processes of the job. Each mutex-protected section and each native call is one step. */
module WinSupervisor {
  import opened Wrappers

  datatype Cleanup = NotBegun | Begun | Finished

  /** Who tears down: waitLoop after the root exited, or a failing Ready or Stop. */
  datatype Kind = AfterExit | ForFailure

  datatype Stage = Terminate | CloseEarly | WaitRoot | WaitEmpty | Close | Publish

  /** The local variables of the owner of the cleanup. */
  datatype Teardown = Teardown(kind: Kind, stage: Stage, hasJob: bool, closed: bool, terminated: bool, rootGone: bool, empty: bool, failed: bool)

  /** Why a thread waits for nothing but `done` (or its own context). */
  datatype Reason = BeforeCleanup | CleanupSucceeded | RootExitSeen

  datatype Pc =
    | Waiting                  // waitLoop, until the root process ends
    | Probing                  // Ready
    | Grace                    // the first Stop, after the break signal
    | Acquiring(kind: Kind)
    | Owning(teardown: Teardown)
    | AwaitCleanup(kind: Kind)
    | AwaitEither              // a later Stop that saw a cleanup in progress
    | AwaitDone(reason: Reason)
    | Draining                 // waitLoop, after the cleanup
    | Returned

  datatype Event = CleanupClosed | DoneClosed

  datatype State = State(
    threads: map<nat, Pc>,     // thread 0 is waitLoop
    cleanup: Cleanup,
    owner: Option<nat>,
    jobHeld: bool,
    jobCloses: nat,
    cleanupErr: bool,
    stopping: bool,
    ready: bool,
    rootExited: bool,
    proven: bool,
    root: bool,                // the root process lives
    others: nat,               // other live processes of the job
    log: seq<Event>)

  const LOOP: nat := 0

  /** What Start leaves behind. */
  const STARTED := State(map[LOOP := Waiting], NotBegun, None, true, 0, false, false, false, false, false, true, 0, [])

  datatype Action =
    | RootDies | OtherDies | Forks
    | LoopReturns(ok: bool) | Acquire(id: nat) | OwnerStep(ok: bool) | SeesCleanup(id: nat) | Drained
    | StopEnters(id: nat) | GraceEnds(id: nat) | GraceSeesDone(id: nat) | WaiterSeesDone(id: nat) | WaiterSeesCleanup(id: nat)
    | Cancelled(id: nat)
    | ReadyEnters(id: nat) | ProbeSucceeds(id: nat) | ProbeTimesOut(id: nat) | ProbeSeesDone(id: nat)

  predicate At(s: State, id: nat, pc: Pc) { id in s.threads && s.threads[id] == pc }

  predicate Done(s: State) { DoneClosed in s.log }

  predicate JobEmpty(s: State) { !s.root && s.others == 0 }

  /** A wait of the owner succeeds only if what it waits for is so; every call may fail. */
  predicate OwnerReady(s: State, ok: bool) {
    && s.owner.Some? && s.owner.value in s.threads && s.threads[s.owner.value].Owning?
    && (s.threads[s.owner.value].teardown.stage == WaitRoot && ok ==> !s.root)
    && (s.threads[s.owner.value].teardown.stage == WaitEmpty && ok ==> JobEmpty(s))
  }

  predicate Enabled(s: State, a: Action) {
    match a
    case RootDies => s.root
    case OtherDies => s.others > 0
    case Forks => !JobEmpty(s)
    case LoopReturns(ok) => At(s, LOOP, Waiting) && (ok ==> !s.root)
    case Acquire(id) => id in s.threads && s.threads[id].Acquiring?
    case OwnerStep(ok) => OwnerReady(s, ok)
    case SeesCleanup(id) => id in s.threads && s.threads[id].AwaitCleanup? && s.cleanup == Finished
    case Drained => At(s, LOOP, Draining)
    case StopEnters(id) => id !in s.threads
    case GraceEnds(id) => At(s, id, Grace)
    case GraceSeesDone(id) => At(s, id, Grace) && Done(s)
    case WaiterSeesDone(id) => id in s.threads && (s.threads[id] == AwaitEither || s.threads[id].AwaitDone?) && Done(s)
    case WaiterSeesCleanup(id) => At(s, id, AwaitEither) && s.cleanup == Finished
    case Cancelled(id) => id in s.threads && (s.threads[id] == AwaitEither || (s.threads[id].AwaitDone? && s.threads[id].reason != RootExitSeen))
    case ReadyEnters(id) => id !in s.threads
    case ProbeSucceeds(id) => At(s, id, Probing)
    case ProbeTimesOut(id) => At(s, id, Probing)
    case ProbeSeesDone(id) => At(s, id, Probing) && Done(s)
  }

  function Move(s: State, id: nat, pc: Pc): State { s.(threads := s.threads[id := pc]) }

  /** The first mutex section of Stop. */
  function EnterStop(s: State, id: nat): State {
    if s.stopping then Move(s, id, if s.cleanup == NotBegun then AwaitDone(BeforeCleanup) else AwaitEither)
    else if Done(s) then Move(s, id, Returned)
    else Move(s.(stopping := true), id, Grace)
  }

  /** Without the handle there is only the root process to wait for, and that counts as a failure. */
  function FirstTeardown(kind: Kind, hasJob: bool): Teardown {
    Teardown(kind, if hasJob then Terminate else if kind == ForFailure then WaitRoot else Publish, hasJob, false, false, false, false, !hasJob)
  }

  /** The job was seen empty and, unless the root had already exited, the root gone. */
  predicate Proves(t: Teardown) { t.empty && (t.kind == AfterExit || t.rootGone) }

  /** acquireCleanup. */
  function TakeCleanup(s: State, id: nat, kind: Kind): State {
    var marked := s.(stopping := s.stopping || kind == ForFailure);
    if s.cleanup == NotBegun then
      Move(marked.(cleanup := Begun, owner := Some(id), jobHeld := false), id, Owning(FirstTeardown(kind, s.jobHeld)))
    else Move(marked, id, AwaitCleanup(kind))
  }

  /** terminateForFailure and cleanupJobAfterRootExit, one native call at a time. */
  function NextTeardown(t: Teardown, ok: bool): Teardown {
    match t.stage
    case Terminate => t.(terminated := ok, failed := t.failed || !ok,
                         stage := if !ok then CloseEarly else if t.kind == ForFailure then WaitRoot else WaitEmpty)
    case CloseEarly => t.(closed := true, failed := t.failed || !ok, stage := if t.kind == ForFailure then WaitRoot else Publish)
    case WaitRoot => t.(rootGone := ok, failed := t.failed || !ok,
                        stage := if t.terminated then WaitEmpty else if t.hasJob && !t.closed then Close else Publish)
    case WaitEmpty => t.(empty := ok, failed := t.failed || !ok, stage := Close)
    case Close => t.(closed := true, failed := t.failed || !ok, stage := Publish)
    case Publish => t
  }

  predicate ClosesJob(t: Teardown) { t.stage == CloseEarly || t.stage == Close }

  /** finishCleanup. */
  function FinishCleanup(s: State, id: nat, t: Teardown): State {
    Move(s.(cleanup := Finished, owner := None, cleanupErr := s.cleanupErr || t.failed,
            proven := s.proven || Proves(t), log := s.log + [CleanupClosed]),
         id, if t.kind == AfterExit then Draining else Returned)
  }

  function AfterOwner(s: State, ok: bool): State
    requires OwnerReady(s, ok)
  {
    var id, t := s.owner.value, s.threads[s.owner.value].teardown;
    if t.stage == Publish then FinishCleanup(s, id, t)
    else Move(s.(jobCloses := s.jobCloses + if ClosesJob(t) then 1 else 0), id, Owning(NextTeardown(t, ok)))
  }

  function Apply(s: State, a: Action): State
    requires Enabled(s, a)
  {
    match a
    case RootDies => s.(root := false)
    case OtherDies => s.(others := s.others - 1)
    case Forks => s.(others := s.others + 1)
    case LoopReturns(ok) => Move(s.(rootExited := true), LOOP, Acquiring(AfterExit))
    case Acquire(id) => TakeCleanup(s, id, s.threads[id].kind)
    case OwnerStep(ok) => AfterOwner(s, ok)
    case SeesCleanup(id) => Move(s, id, if s.threads[id].kind == AfterExit then Draining else Returned)
    case Drained => Move(s.(log := s.log + [DoneClosed]), LOOP, Returned)
    case StopEnters(id) => EnterStop(s, id)
    case GraceEnds(id) => Move(s, id, Acquiring(ForFailure))
    case GraceSeesDone(id) => Move(s, id, Returned)
    case WaiterSeesDone(id) => Move(s, id, Returned)
    case WaiterSeesCleanup(id) => Move(s, id, if s.cleanupErr then Returned else AwaitDone(CleanupSucceeded))
    case Cancelled(id) => Move(s, id, Returned)
    case ReadyEnters(id) => Move(s, id, if s.ready then Returned else Probing)
    case ProbeSucceeds(id) => if s.rootExited then Move(s, id, AwaitDone(RootExitSeen)) else Move(s.(ready := true), id, Returned)
    case ProbeTimesOut(id) => Move(s, id, Acquiring(ForFailure))
    case ProbeSeesDone(id) => Move(s, id, Returned)
  }

  predicate IsRun(s: State, actions: seq<Action>, t: State)
    decreases |actions|
  {
    if actions == [] then s == t else Enabled(s, actions[0]) && IsRun(Apply(s, actions[0]), actions[1..], t)
  }

  // ---- Invariant ----

  /** What the owner knows is true of the job, and it always has the handle. */
  predicate TeardownAgrees(t: Teardown, s: State) {
    && t.hasJob
    && (t.rootGone ==> !s.root) && (t.empty ==> JobEmpty(s)) && (t.empty ==> t.terminated)
    && s.jobCloses == (if t.closed then 1 else 0)
    && (t.terminated ==> !t.closed || t.stage == Publish)
    && match t.stage
       case Terminate => !t.closed && !t.failed && !t.terminated
       case CloseEarly => !t.closed && !t.terminated && t.failed
       case WaitRoot => t.kind == ForFailure && (t.terminated || (t.closed && t.failed))
       case WaitEmpty => t.terminated && (t.kind == ForFailure && !t.failed ==> t.rootGone)
       case Close => t.terminated && (!t.failed ==> t.empty && (t.kind == AfterExit || t.rootGone))
       case Publish => t.closed && (!t.failed ==> t.empty && (t.kind == AfterExit || t.rootGone))
  }

  predicate LoopStage(s: State) {
    && LOOP in s.threads
    && match s.threads[LOOP]
       case Waiting => !s.rootExited && !Done(s)
       case Acquiring(k) => k == AfterExit && s.rootExited && !Done(s)
       case Owning(t) => t.kind == AfterExit && s.rootExited && !Done(s)
       case AwaitCleanup(k) => k == AfterExit && s.rootExited && s.cleanup != NotBegun && !Done(s)
       case Draining => s.rootExited && s.cleanup == Finished && !Done(s)
       case Returned => s.rootExited && s.cleanup == Finished && Done(s)
       case _ => false
  }

  predicate ThreadAgrees(s: State, id: nat)
    requires id in s.threads
  {
    && (s.threads[id].Owning? <==> s.owner == Some(id))
    && (id != LOOP ==>
          match s.threads[id]
          case Waiting => false
          case Draining => false
          case Acquiring(k) => k == ForFailure
          case Owning(t) => t.kind == ForFailure
          case AwaitCleanup(k) => k == ForFailure && s.cleanup != NotBegun
          case AwaitEither => s.cleanup != NotBegun
          case AwaitDone(r) =>
            (r == CleanupSucceeded ==> s.cleanup == Finished && !s.root) && (r == RootExitSeen ==> s.rootExited)
          case _ => true)
  }

  predicate CleanupAgrees(s: State) {
    match s.cleanup
    case NotBegun => s.owner == None && s.jobHeld && s.jobCloses == 0 && s.log == [] && !s.cleanupErr && !s.proven
    case Begun =>
      && s.owner.Some? && s.owner.value in s.threads && s.threads[s.owner.value].Owning?
      && TeardownAgrees(s.threads[s.owner.value].teardown, s) && s.log == [] && !s.cleanupErr && !s.proven
    case Finished =>
      && s.owner == None && s.jobCloses == 1 && (s.log == [CleanupClosed] || s.log == [CleanupClosed, DoneClosed])
      && (!s.cleanupErr ==> s.proven) && (s.proven ==> JobEmpty(s))
  }

  predicate Inv(s: State) {
    CleanupAgrees(s) && LoopStage(s) && forall id :: id in s.threads ==> ThreadAgrees(s, id)
  }

  // ---- Every step keeps it ----

  lemma StepKeeps(s: State, a: Action)
    requires Inv(s) && Enabled(s, a)
    ensures Inv(Apply(s, a))
  {
    match a
    case OwnerStep(ok) =>
      if s.threads[s.owner.value].teardown.stage == Publish { PublishKeeps(s); } else { OwnerKeeps(s, ok); }
    case Acquire(id) => AcquireKeeps(s, id);
    case LoopReturns(_) => LoopKeeps(s, a);
    case Drained => LoopKeeps(s, a);
    case _ => OthersKeep(s, a);
  }

  lemma TeardownKeeps(s: State, t: Teardown, ok: bool)
    requires TeardownAgrees(t, s) && t.stage != Publish
    requires (t.stage == WaitRoot && ok ==> !s.root) && (t.stage == WaitEmpty && ok ==> JobEmpty(s))
    ensures TeardownAgrees(NextTeardown(t, ok), s.(jobCloses := s.jobCloses + if ClosesJob(t) then 1 else 0))
  {
  }

  lemma OwnerKeeps(s: State, ok: bool)
    requires Inv(s) && Enabled(s, OwnerStep(ok)) && s.threads[s.owner.value].teardown.stage != Publish
    ensures Inv(Apply(s, OwnerStep(ok)))
  {
    var id, teardown := s.owner.value, s.threads[s.owner.value].teardown;
    TeardownKeeps(s, teardown, ok);
    OwnerMoves(s, id, NextTeardown(teardown, ok), Apply(s, OwnerStep(ok)));
  }

  lemma OwnerMoves(s: State, id: nat, teardown: Teardown, t: State)
    requires Inv(s) && s.owner == Some(id) && s.threads[id].Owning? && teardown.kind == s.threads[id].teardown.kind
    requires t == Move(s.(jobCloses := t.jobCloses), id, Owning(teardown)) && TeardownAgrees(teardown, t)
    ensures Inv(t)
  {
  }

  lemma PublishKeeps(s: State)
    requires Inv(s) && Enabled(s, OwnerStep(true)) && s.threads[s.owner.value].teardown.stage == Publish
    ensures Inv(FinishCleanup(s, s.owner.value, s.threads[s.owner.value].teardown))
  {
  }

  lemma AcquireKeeps(s: State, id: nat)
    requires Inv(s) && Enabled(s, Acquire(id))
    ensures Inv(Apply(s, Acquire(id)))
  {
    assert ThreadAgrees(s, id);
    if s.cleanup == NotBegun { FirstTakes(s, id); } else { LaterAwaits(s, id); }
  }

  lemma FirstTakes(s: State, id: nat)
    requires Inv(s) && Enabled(s, Acquire(id)) && s.cleanup == NotBegun
    ensures Inv(TakeCleanup(s, id, s.threads[id].kind))
  {
  }

  lemma LaterAwaits(s: State, id: nat)
    requires Inv(s) && Enabled(s, Acquire(id)) && s.cleanup != NotBegun
    ensures Inv(TakeCleanup(s, id, s.threads[id].kind))
  {
  }

  lemma LoopKeeps(s: State, a: Action)
    requires Inv(s) && Enabled(s, a) && (a.LoopReturns? || a.Drained?)
    ensures Inv(Apply(s, a))
  {
  }

  lemma OthersKeep(s: State, a: Action)
    requires Inv(s) && Enabled(s, a) && !a.OwnerStep? && !a.Acquire? && !a.LoopReturns? && !a.Drained?
    ensures Inv(Apply(s, a))
  {
    if a.RootDies? || a.OtherDies? || a.Forks? {
      ProcessesKeep(s, a);
    } else if a == SeesCleanup(LOOP) {
      LoopSeesCleanup(s);
    } else {
      assert a.id in s.threads ==> ThreadAgrees(s, a.id);
      SucceededMeansDead(s);
      MoverAgrees(s, a);
      MoveKeeps(s, a.id, Apply(s, a));
    }
  }

  predicate IsMove(a: Action) {
    a.SeesCleanup? || a.StopEnters? || a.GraceEnds? || a.GraceSeesDone? || a.WaiterSeesDone? || a.WaiterSeesCleanup?
    || a.Cancelled? || a.ReadyEnters? || a.ProbeSucceeds? || a.ProbeTimesOut? || a.ProbeSeesDone?
  }

  lemma SucceededMeansDead(s: State)
    requires CleanupAgrees(s)
    ensures s.cleanup == Finished && !s.cleanupErr ==> !s.root
  {
  }

  lemma MoverAgrees(s: State, a: Action)
    requires Enabled(s, a) && IsMove(a) && a != SeesCleanup(LOOP)
    requires LoopStage(s) && (a.id in s.threads ==> ThreadAgrees(s, a.id)) && (s.owner.Some? ==> s.owner.value in s.threads)
    requires s.cleanup == Finished && !s.cleanupErr ==> !s.root
    ensures a.id != LOOP && s.owner != Some(a.id) && a.id in Apply(s, a).threads && ThreadAgrees(Apply(s, a), a.id)
    ensures Apply(s, a) == Move(s, a.id, Apply(s, a).threads[a.id]).(stopping := Apply(s, a).stopping, ready := Apply(s, a).ready)
  {
    if a.StopEnters? { StopperAgrees(s, a); }
    else if a.ReadyEnters? { ProberAgrees(s, a); }
    else if a.WaiterSeesDone? || a.WaiterSeesCleanup? || a.Cancelled? { WaiterAgrees(s, a); }
    else { WorkerAgrees(s, a); }
  }

  lemma StopperAgrees(s: State, a: Action)
    requires Enabled(s, a) && a.StopEnters?
    requires LoopStage(s) && (a.id in s.threads ==> ThreadAgrees(s, a.id)) && (s.owner.Some? ==> s.owner.value in s.threads)
    ensures a.id != LOOP && s.owner != Some(a.id) && a.id in Apply(s, a).threads && ThreadAgrees(Apply(s, a), a.id)
    ensures Apply(s, a) == Move(s, a.id, Apply(s, a).threads[a.id]).(stopping := Apply(s, a).stopping, ready := Apply(s, a).ready)
  {
  }

  lemma ProberAgrees(s: State, a: Action)
    requires Enabled(s, a) && a.ReadyEnters?
    requires LoopStage(s) && (a.id in s.threads ==> ThreadAgrees(s, a.id)) && (s.owner.Some? ==> s.owner.value in s.threads)
    ensures a.id != LOOP && s.owner != Some(a.id) && a.id in Apply(s, a).threads && ThreadAgrees(Apply(s, a), a.id)
    ensures Apply(s, a) == Move(s, a.id, Apply(s, a).threads[a.id]).(stopping := Apply(s, a).stopping, ready := Apply(s, a).ready)
  {
  }

  lemma WaiterAgrees(s: State, a: Action)
    requires Enabled(s, a) && (a.WaiterSeesDone? || a.WaiterSeesCleanup? || a.Cancelled?)
    requires LoopStage(s) && (a.id in s.threads ==> ThreadAgrees(s, a.id)) && (s.owner.Some? ==> s.owner.value in s.threads)
    requires s.cleanup == Finished && !s.cleanupErr ==> !s.root
    ensures a.id != LOOP && s.owner != Some(a.id) && a.id in Apply(s, a).threads && ThreadAgrees(Apply(s, a), a.id)
    ensures Apply(s, a) == Move(s, a.id, Apply(s, a).threads[a.id]).(stopping := Apply(s, a).stopping, ready := Apply(s, a).ready)
  {
  }

  lemma WorkerAgrees(s: State, a: Action)
    requires Enabled(s, a) && a != SeesCleanup(LOOP)
    requires a.SeesCleanup? || a.GraceEnds? || a.GraceSeesDone? || a.ProbeSucceeds? || a.ProbeTimesOut? || a.ProbeSeesDone?
    requires LoopStage(s) && (a.id in s.threads ==> ThreadAgrees(s, a.id)) && (s.owner.Some? ==> s.owner.value in s.threads)
    ensures a.id != LOOP && s.owner != Some(a.id) && a.id in Apply(s, a).threads && ThreadAgrees(Apply(s, a), a.id)
    ensures Apply(s, a) == Move(s, a.id, Apply(s, a).threads[a.id]).(stopping := Apply(s, a).stopping, ready := Apply(s, a).ready)
  {
  }

  lemma ProcessesKeep(s: State, a: Action)
    requires Inv(s) && Enabled(s, a) && (a.RootDies? || a.OtherDies? || a.Forks?)
    ensures Inv(Apply(s, a))
  {
  }

  lemma LoopSeesCleanup(s: State)
    requires Inv(s) && Enabled(s, SeesCleanup(LOOP))
    ensures Inv(Move(s, LOOP, Draining))
  {
  }

  /** Moving one thread that owns nothing. */
  lemma MoveKeeps(s: State, id: nat, t: State)
    requires Inv(s) && id != LOOP && s.owner != Some(id) && id in t.threads
    requires t == Move(s, id, t.threads[id]).(stopping := t.stopping, ready := t.ready)
    requires ThreadAgrees(t, id)
    ensures Inv(t)
  {
  }

  // ---- What it means ----

  lemma {:induction false} RunKeeps(s: State, actions: seq<Action>, t: State)
    requires Inv(s) && IsRun(s, actions, t)
    ensures Inv(t)
    decreases |actions|
  {
    if actions != [] {
      StepKeeps(s, actions[0]);
      RunKeeps(Apply(s, actions[0]), actions[1..], t);
    }
  }

  /** In every run: there is never a second owner and the owner always has the handle; the job is
      closed at most once, and once by the time the cleanup is over; cleanupDone and done are
      closed at most once each, in this order. */
  lemma RunIsSafe(actions: seq<Action>, s: State)
    requires IsRun(STARTED, actions, s)
    ensures Inv(s)
    ensures forall i, j :: i in s.threads && j in s.threads && s.threads[i].Owning? && s.threads[j].Owning? ==> i == j
    ensures forall i :: i in s.threads && s.threads[i].Owning? ==> s.threads[i].teardown.hasJob
    ensures s.jobCloses <= 1 && (s.cleanup == Finished ==> s.jobCloses == 1)
    ensures s.log == [] || s.log == [CleanupClosed] || s.log == [CleanupClosed, DoneClosed]
    ensures s.log != [] <==> s.cleanup == Finished
  {
    RunKeeps(STARTED, actions, s);
    forall i | i in s.threads && s.threads[i].Owning? ensures s.owner == Some(i) { assert ThreadAgrees(s, i); }
  }

  /** Proof of termination is given only for a tree without processes, which it stays; and a
      cleanup that reports no error has given it. */
  lemma ProofMeansEmpty(actions: seq<Action>, s: State, more: seq<Action>, t: State)
    requires IsRun(STARTED, actions, s) && IsRun(s, more, t)
    ensures s.proven ==> JobEmpty(s) && JobEmpty(t)
    ensures s.cleanup == Finished && !s.cleanupErr ==> s.proven
  {
    RunKeeps(STARTED, actions, s);
    if s.proven { EmptyStays(s, more, t); }
  }

  lemma {:induction false} EmptyStays(s: State, actions: seq<Action>, t: State)
    requires IsRun(s, actions, t) && JobEmpty(s)
    ensures JobEmpty(t)
    decreases |actions|
  {
    if actions != [] {
      EmptyStep(s, actions[0]);
      EmptyStays(Apply(s, actions[0]), actions[1..], t);
    }
  }

  lemma EmptyStep(s: State, a: Action)
    requires Enabled(s, a) && JobEmpty(s)
    ensures JobEmpty(Apply(s, a))
  {
  }

  // ---- Who may wait forever ----

  /** The thread has no step of its own until somebody else does something; no context ends. */
  predicate Blocked(s: State, id: nat)
    requires id in s.threads
  {
    match s.threads[id]
    case Waiting => s.root
    case AwaitCleanup(_) => s.cleanup != Finished
    case AwaitEither => s.cleanup != Finished && !Done(s)
    case AwaitDone(_) => !Done(s)
    case _ => false
  }

  /** Nobody can move any more, as long as the job's processes do nothing. */
  predicate Quiet(s: State) {
    forall id :: id in s.threads ==> s.threads[id] == Returned || Blocked(s, id)
  }

  /** What an unblocked thread can do without anybody's help. */
  function OwnMove(s: State, id: nat): Action
    requires id in s.threads
  {
    match s.threads[id]
    case Waiting => LoopReturns(true)
    case Probing => ProbeTimesOut(id)
    case Grace => GraceEnds(id)
    case Acquiring(_) => Acquire(id)
    case Owning(_) => OwnerStep(false)
    case AwaitCleanup(_) => SeesCleanup(id)
    case AwaitEither => if Done(s) then WaiterSeesDone(id) else WaiterSeesCleanup(id)
    case AwaitDone(_) => WaiterSeesDone(id)
    case _ => Drained
  }

  lemma UnblockedMoves(s: State, id: nat)
    requires Inv(s) && id in s.threads && s.threads[id] != Returned && !Blocked(s, id)
    ensures Enabled(s, OwnMove(s, id))
    ensures id in Apply(s, OwnMove(s, id)).threads && Apply(s, OwnMove(s, id)).threads[id] != s.threads[id]
  {
    assert ThreadAgrees(s, id);
    if s.threads[id].Owning? { OwnerMayFail(s, id); } else { NonOwnerMoves(s, id); }
  }

  lemma NonOwnerMoves(s: State, id: nat)
    requires LoopStage(s) && id in s.threads && ThreadAgrees(s, id)
    requires s.threads[id] != Returned && !Blocked(s, id) && !s.threads[id].Owning?
    ensures Enabled(s, OwnMove(s, id))
    ensures id in Apply(s, OwnMove(s, id)).threads && Apply(s, OwnMove(s, id)).threads[id] != s.threads[id]
  {
    if s.threads[id].AwaitDone? || s.threads[id].AwaitCleanup? || s.threads[id] == AwaitEither {
      WaiterMoves(s, id);
    } else {
      WorkerMoves(s, id);
    }
  }

  lemma WaiterMoves(s: State, id: nat)
    requires id in s.threads && !Blocked(s, id)
    requires s.threads[id].AwaitDone? || s.threads[id].AwaitCleanup? || s.threads[id] == AwaitEither
    ensures Enabled(s, OwnMove(s, id))
    ensures id in Apply(s, OwnMove(s, id)).threads && Apply(s, OwnMove(s, id)).threads[id] != s.threads[id]
  {
  }

  lemma WorkerMoves(s: State, id: nat)
    requires LoopStage(s) && id in s.threads && ThreadAgrees(s, id) && !Blocked(s, id)
    requires s.threads[id].Waiting? || s.threads[id].Probing? || s.threads[id].Grace? || s.threads[id].Acquiring? || s.threads[id].Draining?
    ensures Enabled(s, OwnMove(s, id))
    ensures id in Apply(s, OwnMove(s, id)).threads && Apply(s, OwnMove(s, id)).threads[id] != s.threads[id]
  {
  }

  /** Every native call of the owner ends, if only with an error. */
  lemma OwnerMayFail(s: State, id: nat)
    requires s.owner == Some(id) && id in s.threads && s.threads[id].Owning?
    ensures OwnerReady(s, false) && id in AfterOwner(s, false).threads && AfterOwner(s, false).threads[id] != s.threads[id]
  {
    TeardownMoves(s.threads[id].teardown);
  }

  lemma TeardownMoves(t: Teardown)
    ensures t.stage != Publish ==> NextTeardown(t, false) != t
  {
  }

  lemma OwnerIsOwning(s: State)
    requires CleanupAgrees(s)
    ensures s.owner.Some? ==> s.owner.value in s.threads && s.threads[s.owner.value].Owning?
  {
  }

  lemma QuietHasNoOwner(s: State)
    requires Inv(s) && Quiet(s)
    ensures s.owner == None
  {
    OwnerIsOwning(s);
  }

  /** When nothing moves, either everybody has returned, or the root process survived and all who
      wait are waitLoop and Stop calls that came after another Stop call but before the cleanup. */
  lemma QuietMeans(s: State)
    requires Inv(s) && Quiet(s)
    ensures forall id :: id in s.threads && s.threads[id] != Returned ==>
              s.root && s.threads[LOOP] == Waiting && (id == LOOP || s.threads[id] == AwaitDone(BeforeCleanup))
  {
    assert ThreadAgrees(s, LOOP);
    QuietHasNoOwner(s);
    forall id | id in s.threads && s.threads[id] != Returned
      ensures s.root && s.threads[LOOP] == Waiting && (id == LOOP || s.threads[id] == AwaitDone(BeforeCleanup))
    {
      assert ThreadAgrees(s, id);
      assert Blocked(s, id);
    }
  }

  /** Once the root process is gone, nobody waits forever. */
  lemma EverybodyReturns(s: State)
    requires Inv(s) && Quiet(s) && !s.root
    ensures forall id :: id in s.threads ==> s.threads[id] == Returned
    ensures Done(s) && s.jobCloses == 1
  {
    QuietMeans(s);
    assert s.threads[LOOP] == Returned;
  }

  /** Two Stop calls have come, and the grace of the first is over. */
  const TWO_STOPS := STARTED.(threads := map[LOOP := Waiting, 1 := Acquiring(ForFailure), 2 := AwaitDone(BeforeCleanup)],
                              stopping := true)

  /** The cleanup is over, but the root process still lives. */
  const HANGING := TWO_STOPS.(threads := map[LOOP := Waiting, 1 := Returned, 2 := AwaitDone(BeforeCleanup)],
                              cleanup := Finished, jobHeld := false, jobCloses := 1, cleanupErr := true, log := [CleanupClosed])

  ghost predicate Reaches(s: State, t: State) { exists actions :: IsRun(s, actions, t) }

  /** The second of two Stop calls can indeed wait forever: it came during the first one's grace
      period, and the first one failed to end the root process. */
  lemma SecondStopCanHang()
    ensures Reaches(STARTED, HANGING) && Quiet(HANGING)
    ensures At(HANGING, 1, Returned) && At(HANGING, 2, AwaitDone(BeforeCleanup))
  {
    CleanupFails();
    var s1 := Move(STARTED.(stopping := true), 1, Grace);
    var s2 := Move(s1, 2, AwaitDone(BeforeCleanup));
    assert s2.threads[1 := Acquiring(ForFailure)] == TWO_STOPS.threads;
    OneMore(s2, GraceEnds(1), HANGING);
    OneMore(s1, StopEnters(2), HANGING);
    OneMore(STARTED, StopEnters(1), HANGING);
  }

  function Owned(t: Teardown, closes: nat): State {
    TWO_STOPS.(threads := map[LOOP := Waiting, 1 := Owning(t), 2 := AwaitDone(BeforeCleanup)],
               cleanup := Begun, owner := Some(1), jobHeld := false, jobCloses := closes)
  }

  lemma OwnedStep(t: Teardown, closes: nat, ok: bool)
    requires t.stage != Publish && !(ok && (t.stage == WaitRoot || t.stage == WaitEmpty))
    ensures OwnerReady(Owned(t, closes), ok)
    ensures AfterOwner(Owned(t, closes), ok) == Owned(NextTeardown(t, ok), closes + if ClosesJob(t) then 1 else 0)
  {
    var s, n := Owned(t, closes), NextTeardown(t, ok);
    assert s.threads[1 := Owning(n)] == map[LOOP := Waiting, 1 := Owning(n), 2 := AwaitDone(BeforeCleanup)];
  }

  lemma FirstStopTakes()
    ensures Enabled(TWO_STOPS, Acquire(1))
    ensures Apply(TWO_STOPS, Acquire(1)) == Owned(Teardown(ForFailure, Terminate, true, false, false, false, false, false), 0)
  {
    var pc := Owning(Teardown(ForFailure, Terminate, true, false, false, false, false, false));
    assert TWO_STOPS.threads[1 := pc] == map[LOOP := Waiting, 1 := pc, 2 := AwaitDone(BeforeCleanup)];
  }

  lemma FailedTeardownEnds(t: Teardown)
    requires t.stage == Publish && t.kind == ForFailure && t.failed && !t.empty
    ensures OwnerReady(Owned(t, 1), true) && AfterOwner(Owned(t, 1), true) == HANGING
  {
    assert Owned(t, 1).threads[1 := Returned] == HANGING.threads;
  }

  lemma CleanupFails()
    ensures Reaches(TWO_STOPS, HANGING)
  {
    var t := Teardown(ForFailure, Terminate, true, false, false, false, false, false);
    OwnerHangs(NextTeardown(t, true));
    OwnedStep(t, 0, true);
    OneMore(Owned(t, 0), OwnerStep(true), HANGING);
    FirstStopTakes();
    OneMore(TWO_STOPS, Acquire(1), HANGING);
  }

  lemma OwnerHangs(t2: Teardown)
    requires t2 == Teardown(ForFailure, WaitRoot, true, false, true, false, false, false)
    ensures Reaches(Owned(t2, 0), HANGING)
  {
    var t3 := NextTeardown(t2, false);
    var t4 := NextTeardown(t3, false);
    var t5 := NextTeardown(t4, true);
    FailedTeardownEnds(t5);
    assert IsRun(HANGING, [], HANGING);
    OneMore(Owned(t5, 1), OwnerStep(true), HANGING);
    OwnedStep(t4, 0, true);
    OneMore(Owned(t4, 0), OwnerStep(true), HANGING);
    OwnedStep(t3, 0, false);
    OneMore(Owned(t3, 0), OwnerStep(false), HANGING);
    OwnedStep(t2, 0, false);
    OneMore(Owned(t2, 0), OwnerStep(false), HANGING);
  }

  lemma OneMore(s: State, a: Action, t: State)
    requires Enabled(s, a) && Reaches(Apply(s, a), t)
    ensures Reaches(s, t)
  {
    var rest :| IsRun(Apply(s, a), rest, t);
    assert ([a] + rest)[1..] == rest;
    assert IsRun(s, [a] + rest, t);
  }

  // ---- Exactly which Stop calls can wait forever ----

  /** How many own steps a thread has left at most when every call fails. */
  function Cost(pc: Pc): nat {
    match pc
    case Waiting => 13
    case Probing => 12
    case Grace => 12
    case Acquiring(_) => 11
    case Owning(t) => 2 + Ahead(t.stage)
    case AwaitCleanup(_) => 2
    case AwaitEither => 2
    case AwaitDone(_) => 1
    case Draining => 1
    case Returned => 0
  }

  function Ahead(stage: Stage): nat {
    match stage
    case Terminate => 6
    case CloseEarly => 5
    case WaitRoot => 4
    case WaitEmpty => 3
    case Close => 2
    case Publish => 1
  }

  ghost function Total(threads: map<nat, Pc>, ids: set<nat>): nat
    requires ids <= threads.Keys
  {
    if ids == {} then 0 else
      var id :| id in ids;
      Cost(threads[id]) + Total(threads, ids - {id})
  }

  lemma {:induction false} TotalWithout(threads: map<nat, Pc>, ids: set<nat>, id: nat)
    requires ids <= threads.Keys && id in ids
    ensures Total(threads, ids) == Cost(threads[id]) + Total(threads, ids - {id})
    decreases ids
  {
    var first :| first in ids && Total(threads, ids) == Cost(threads[first]) + Total(threads, ids - {first});
    if first != id {
      TotalWithout(threads, ids - {first}, id);
      TotalWithout(threads, ids - {id}, first);
      assert ids - {first} - {id} == ids - {id} - {first};
    }
  }

  lemma {:induction false} TotalElsewhere(threads: map<nat, Pc>, ids: set<nat>, id: nat, pc: Pc)
    requires ids <= threads.Keys && id !in ids
    ensures ids <= threads[id := pc].Keys && Total(threads[id := pc], ids) == Total(threads, ids)
    decreases ids
  {
    if ids != {} {
      var first :| first in ids;
      TotalElsewhere(threads, ids - {first}, id, pc);
      TotalWithout(threads, ids, first);
      TotalWithout(threads[id := pc], ids, first);
    }
  }

  lemma TotalFalls(threads: map<nat, Pc>, id: nat, pc: Pc)
    requires id in threads && Cost(pc) < Cost(threads[id])
    ensures Total(threads[id := pc], threads[id := pc].Keys) < Total(threads, threads.Keys)
  {
    assert threads[id := pc].Keys == threads.Keys;
    TotalWithout(threads, threads.Keys, id);
    TotalWithout(threads[id := pc], threads.Keys, id);
    TotalElsewhere(threads, threads.Keys - {id}, id, pc);
  }

  /** The own step of a thread brings it nearer to its end and leaves the processes alone. */
  lemma OwnMoveIsCheaper(s: State, id: nat)
    requires Inv(s) && id in s.threads && id != LOOP && s.threads[id] != Returned && !Blocked(s, id)
    ensures Enabled(s, OwnMove(s, id))
    ensures var t := Apply(s, OwnMove(s, id));
            && id in t.threads && t.threads == s.threads[id := t.threads[id]] && Cost(t.threads[id]) < Cost(s.threads[id])
            && t.root == s.root && t.rootExited == s.rootExited
  {
    assert ThreadAgrees(s, id);
    if s.threads[id].Owning? {
      OwnerMayFail(s, id);
      FailingOwnerIsCheaper(s, id);
    } else {
      NonOwnerMoves(s, id);
      NonOwnerIsCheaper(s, id);
    }
  }

  lemma FailingOwnerIsCheaper(s: State, id: nat)
    requires s.owner == Some(id) && id in s.threads && s.threads[id].Owning?
    ensures OwnerReady(s, false)
    ensures var t := AfterOwner(s, false);
            && id in t.threads && t.threads == s.threads[id := t.threads[id]] && Cost(t.threads[id]) < Cost(s.threads[id])
            && t.root == s.root && t.rootExited == s.rootExited
  {
    NextIsNearer(s.threads[id].teardown);
  }

  lemma NextIsNearer(t: Teardown)
    ensures t.stage != Publish ==> Ahead(NextTeardown(t, false).stage) < Ahead(t.stage)
  {
  }

  lemma NonOwnerIsCheaper(s: State, id: nat)
    requires id in s.threads && id != LOOP && ThreadAgrees(s, id) && !s.threads[id].Owning? && s.threads[id] != Returned
    requires Enabled(s, OwnMove(s, id))
    ensures var t := Apply(s, OwnMove(s, id));
            && id in t.threads && t.threads == s.threads[id := t.threads[id]] && Cost(t.threads[id]) < Cost(s.threads[id])
            && t.root == s.root && t.rootExited == s.rootExited
  {
    if s.threads[id].AwaitDone? || s.threads[id].AwaitCleanup? || s.threads[id] == AwaitEither {
      WaiterIsCheaper(s, id);
    } else {
      WorkerIsCheaper(s, id);
    }
  }

  lemma WaiterIsCheaper(s: State, id: nat)
    requires id in s.threads && Enabled(s, OwnMove(s, id))
    requires s.threads[id].AwaitDone? || s.threads[id].AwaitCleanup? || s.threads[id] == AwaitEither
    ensures var t := Apply(s, OwnMove(s, id));
            && id in t.threads && t.threads == s.threads[id := t.threads[id]] && Cost(t.threads[id]) < Cost(s.threads[id])
            && t.root == s.root && t.rootExited == s.rootExited
  {
    var pc := WaiterNext(s, id);
    assert Apply(s, OwnMove(s, id)) == Move(s, id, pc);
  }

  function WaiterNext(s: State, id: nat): Pc
    requires id in s.threads
  {
    match s.threads[id]
    case AwaitCleanup(kind) => if kind == AfterExit then Draining else Returned
    case AwaitEither => if Done(s) || s.cleanupErr then Returned else AwaitDone(CleanupSucceeded)
    case _ => Returned
  }

  lemma WorkerIsCheaper(s: State, id: nat)
    requires id in s.threads && id != LOOP && Enabled(s, OwnMove(s, id))
    requires s.threads[id].Probing? || s.threads[id].Grace? || s.threads[id].Acquiring?
    ensures var t := Apply(s, OwnMove(s, id));
            && id in t.threads && t.threads == s.threads[id := t.threads[id]] && Cost(t.threads[id]) < Cost(s.threads[id])
            && t.root == s.root && t.rootExited == s.rootExited
  {
  }

  /** While the root lives and waitLoop waits, everybody else can come to rest, with every call
      failing; who waits for `done` alone then still waits. */
  lemma {:induction false} RunDown(s: State, id: nat) returns (t: State)
    requires Inv(s) && s.root && !s.rootExited && At(s, id, AwaitDone(BeforeCleanup))
    ensures Reaches(s, t) && Quiet(t) && At(t, id, AwaitDone(BeforeCleanup))
    decreases Total(s.threads, s.threads.Keys)
  {
    if Quiet(s) {
      assert IsRun(s, [], s);
      return s;
    }
    var mover :| mover in s.threads && s.threads[mover] != Returned && !Blocked(s, mover);
    NotTheOnesThatWait(s, id, mover);
    OwnMoveIsCheaper(s, mover);
    var a := OwnMove(s, mover);
    StepKeeps(s, a);
    TotalFalls(s.threads, mover, Apply(s, a).threads[mover]);
    t := RunDown(Apply(s, a), id);
    OneMore(s, a, t);
  }

  lemma NotTheOnesThatWait(s: State, id: nat, mover: nat)
    requires Inv(s) && s.root && !s.rootExited && At(s, id, AwaitDone(BeforeCleanup))
    requires mover in s.threads && !Blocked(s, mover)
    ensures mover != LOOP && mover != id
  {
  }

  /** In every continuation in which nothing moves any more, this thread has returned. */
  ghost predicate AlwaysReturns(s: State, id: nat) {
    forall t {:trigger Reaches(s, t)} :: Reaches(s, t) && Quiet(t) ==> id in t.threads && t.threads[id] == Returned
  }

  /** What the first section of Stop finds when its caller may wait forever: another Stop came before
      it, the cleanup has not begun, waitLoop still waits, and the root process is not gone. */
  predicate MayHang(s: State) { s.stopping && s.cleanup == NotBegun && !s.rootExited && s.root }

  /** What stays true of a Stop call that did not find this. */
  predicate WillReturn(s: State, id: nat) {
    id in s.threads && id != LOOP && (s.threads[id] == AwaitDone(BeforeCleanup) ==> !s.root || s.rootExited)
  }

  lemma WillReturnStep(s: State, a: Action, id: nat)
    requires Enabled(s, a) && WillReturn(s, id)
    ensures WillReturn(Apply(s, a), id)
  {
    if a.OwnerStep? { OwnerChangesOnlyItself(s, a.ok); } else if IsMove(a) { MoveWillReturn(s, a, id); }
  }

  lemma MoveWillReturn(s: State, a: Action, id: nat)
    requires Enabled(s, a) && WillReturn(s, id) && IsMove(a)
    ensures WillReturn(Apply(s, a), id)
  {
  }

  lemma OwnerChangesOnlyItself(s: State, ok: bool)
    requires OwnerReady(s, ok)
    ensures var t := AfterOwner(s, ok);
            && s.owner.value in t.threads && t.threads == s.threads[s.owner.value := t.threads[s.owner.value]]
            && !t.threads[s.owner.value].AwaitDone? && t.root == s.root && t.rootExited == s.rootExited
  {
  }

  lemma {:induction false} WillReturnStays(s: State, actions: seq<Action>, t: State, id: nat)
    requires IsRun(s, actions, t) && WillReturn(s, id)
    ensures WillReturn(t, id)
    decreases |actions|
  {
    if actions != [] {
      WillReturnStep(s, actions[0], id);
      WillReturnStays(Apply(s, actions[0]), actions[1..], t, id);
    }
  }

  /** In every reachable state: a Stop call that comes there can wait forever, with everybody else
      at rest, if and only if it finds that situation. */
  lemma StopHangsIff(before: seq<Action>, s: State, id: nat)
    requires IsRun(STARTED, before, s) && id !in s.threads
    ensures !AlwaysReturns(Apply(s, StopEnters(id)), id) <==> MayHang(s)
  {
    RunKeeps(STARTED, before, s);
    var u := Apply(s, StopEnters(id));
    StepKeeps(s, StopEnters(id));
    if MayHang(s) {
      var t := RunDown(u, id);
    } else {
      assert WillReturn(u, id);
      forall t {:trigger Reaches(u, t)} | Reaches(u, t) && Quiet(t) ensures id in t.threads && t.threads[id] == Returned {
        var actions :| IsRun(u, actions, t);
        RunKeeps(u, actions, t);
        WillReturnStays(u, actions, t, id);
        QuietMeans(t);
      }
    }
  }

  // ---- The owner's code ----

  /** The native calls of the owner, each of which may fail. `teardown` follows them, so a call is
      possible only where the teardown has come to it. */
  class NativeJob {
    var closes: nat
    ghost var teardown: Teardown

    method Call(ghost stage: Stage) returns (ok: bool)
      requires teardown.stage == stage && !ClosesJob(teardown) && stage != Publish
      modifies this`teardown
      ensures teardown == NextTeardown(old(teardown), ok)
    {
      ok := *;
      teardown := NextTeardown(teardown, ok);
    }

    method CloseHandle() returns (ok: bool)
      requires ClosesJob(teardown)
      modifies this
      ensures teardown == NextTeardown(old(teardown), ok) && closes == old(closes) + 1
    {
      ok := *;
      closes := closes + 1;
      teardown := NextTeardown(teardown, ok);
    }
  }

  /** terminateForFailure as its owner: its calls are exactly the steps of the teardown, and it
      publishes what the teardown knows; a handle is closed exactly once. */
  method TerminateForFailure(job: NativeJob, hasJob: bool) returns (failed: bool, proven: bool)
    requires job.teardown == FirstTeardown(ForFailure, hasJob)
    modifies job
    ensures job.teardown.stage == Publish && failed == job.teardown.failed && proven == Proves(job.teardown)
    ensures job.closes == old(job.closes) + if hasJob then 1 else 0
  {
    var jobClosed, jobTerminated, jobEmpty := false, false, false;
    failed := false;
    if !hasJob {
      failed := true;
    } else {
      jobTerminated := job.Call(Terminate);
      if !jobTerminated {
        failed := true;
        var closed := job.CloseHandle();
        jobClosed := true;
      }
    }
    var rootTerminated := job.Call(WaitRoot);
    if !rootTerminated { failed := true; }
    if jobTerminated {
      jobEmpty := job.Call(WaitEmpty);
      if !jobEmpty { failed := true; }
    }
    if hasJob && !jobClosed {
      var closed := job.CloseHandle();
      if !closed { failed := true; }
    }
    proven := rootTerminated && jobEmpty;
  }

  /** cleanupJobAfterRootExit likewise. */
  method CleanupJobAfterRootExit(job: NativeJob, hasJob: bool) returns (failed: bool, proven: bool)
    requires job.teardown == FirstTeardown(AfterExit, hasJob)
    modifies job
    ensures job.teardown.stage == Publish && failed == job.teardown.failed && proven == Proves(job.teardown)
    ensures job.closes == old(job.closes) + if hasJob then 1 else 0
  {
    var jobClosed, jobEmpty := false, false;
    failed := false;
    if !hasJob {
      failed := true;
    } else {
      var terminated := job.Call(Terminate);
      if !terminated {
        failed := true;
        var closed := job.CloseHandle();
        jobClosed := true;
      } else {
        jobEmpty := job.Call(WaitEmpty);
        if !jobEmpty { failed := true; }
      }
    }
    if hasJob && !jobClosed {
      var closed := job.CloseHandle();
      if !closed { failed := true; }
    }
    proven := jobEmpty;
  }
}
