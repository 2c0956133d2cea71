/** Three runs that show what the controller does not promise, each beside the exact
    condition under which it happens. */
module ControllerWitness {
  import opened Wrappers
  import opened ControllerState
  import opened ControllerRuns
  import opened ControllerSafety
  import opened ControllerProgress

  /** A run as the list of its actions, newest first. */
  datatype Path = Start(reports: bool) | Then(before: Path, action: Action)

  function End(p: Path): Option<Sys> {
    match p
    case Start(reports) => Some(Initial(reports))
    case Then(before, a) =>
      var s := End(before);
      if s.Some? && Enabled(s.value, a) then Some(Next(s.value, a)) else None
  }

  lemma {:induction false} PathIsRun(p: Path) returns (states: seq<Sys>, actions: seq<Action>)
    requires End(p).Some?
    ensures IsRun(states, actions) && states[|actions|] == End(p).value
  {
    match p
    case Start(reports) => return [Initial(reports)], [];
    case Then(before, a) =>
      states, actions := PathIsRun(before);
      states, actions := Extended(states, actions, a, End(p).value);
  }

  lemma Extended(states: seq<Sys>, actions: seq<Action>, a: Action, t: Sys) returns (ss: seq<Sys>, as': seq<Action>)
    requires IsRun(states, actions) && Enabled(states[|actions|], a) && Next(states[|actions|], a) == t
    ensures ss == states + [t] && as' == actions + [a] && IsRun(ss, as')
  {
    ss, as' := states + [t], actions + [a];
  }

  const YES := Choice(true, true, true, 7, 0)
  const NO := Choice(false, true, true, 7, 0)

  /** Thread `tid` runs the only transaction. */
  function Alone(tid: nat, role: Role, pc: Pc, c: Fields, threads: map<nat, Thread>, k: Known): Sys {
    Sys(c.(transition := Some(Slot(KindOf(role), tid))), threads[tid := Owner(role, c.generation, pc)], {}, {}, {}, k)
  }

  lemma Moved(p: Path, tid: nat, role: Role, pc: Pc, c: Fields, threads: map<nat, Thread>, k: Known, ch: Choice, pc': Pc, c': Fields, k': Known) returns (q: Path)
    requires End(p) == Some(Alone(tid, role, pc, c, threads, k)) && !pc.Commit? && !pc.AwaitMonitor?
    requires pc.StartCore? ==> ch.id !in k.started
    requires c'.generation == c.generation
    requires var slot := Some(Slot(KindOf(role), tid));
             OwnerMove(c.(transition := slot), k, role, pc, ch) == Move(c'.(transition := slot), k', {}, pc')
    ensures End(q) == Some(Alone(tid, role, pc', c', threads, k'))
  {
    q := Then(p, Run(tid, ch));
    assert threads[tid := Owner(role, c.generation, pc)][tid := Owner(role, c.generation, pc')]
        == threads[tid := Owner(role, c.generation, pc')];
    var s, t := Alone(tid, role, pc, c, threads, k), Alone(tid, role, pc', c', threads, k');
    var none: set<nat> := {};
    assert none + none == none;
    assert OwnerStep(s, tid, ch) == t;
  }

  lemma Stepped(p: Path, s: Sys, a: Action, t: Sys) returns (q: Path)
    requires End(p) == Some(s) && Enabled(s, a) && Next(s, a) == t
    ensures End(q) == Some(t)
  {
    q := Then(p, a);
  }

  // ---- A disconnect that waits forever ----

  const CONNECTING := INITIAL.(state := Connecting, generation := 1)
  const WITH_SNAPSHOT := CONNECTING.(snapshot := Some(7))
  const QUIET := Known(true, {}, {}, None, false, false)
  const CAPTURED := QUIET.(outstanding := Some(7))
  const RUNNING := CAPTURED.(started := {7})
  const CONNECTED := WITH_SNAPSHOT.(state := Connected, processStarted := true, instance := Some(7),
                                    monitorCancel := Some(1), monitorDone := Some(1), connectedAt := Some(0))

  lemma ConnectingPath() returns (p: Path)
    ensures End(p) == Some(Alone(0, ConnectRole, CaptureNetwork, CONNECTING, map[], QUIET))
  {
    p := Start(true);
    var s := Sys(INITIAL, map[0 := Entering(ConnectRequest)], {}, {}, {}, QUIET);
    p := Stepped(p, Initial(true), Arrive(0, ConnectRequest), s);
    assert s.threads[0 := Owner(ConnectRole, 1, CheckContext)] == map[][0 := Owner(ConnectRole, 1, CheckContext)];
    p := Stepped(p, s, Run(0, YES), Alone(0, ConnectRole, CheckContext, CONNECTING, map[], QUIET));
    p := Moved(p, 0, ConnectRole, CheckContext, CONNECTING, map[], QUIET, YES, ReadProcess, CONNECTING, QUIET);
    p := Moved(p, 0, ConnectRole, ReadProcess, CONNECTING, map[], QUIET, YES, Validate, CONNECTING, QUIET);
    p := Moved(p, 0, ConnectRole, Validate, CONNECTING, map[], QUIET, YES, PrepareNetwork, CONNECTING, QUIET);
    p := Moved(p, 0, ConnectRole, PrepareNetwork, CONNECTING, map[], QUIET, YES, CaptureNetwork, CONNECTING, QUIET);
  }

  lemma StartedPath() returns (p: Path)
    ensures End(p) == Some(Alone(0, ConnectRole, AwaitReady(7, 7), WITH_SNAPSHOT, map[], RUNNING))
  {
    p := ConnectingPath();
    p := Moved(p, 0, ConnectRole, CaptureNetwork, CONNECTING, map[], QUIET, YES, KeepSnapshot(7), CONNECTING, CAPTURED);
    p := Moved(p, 0, ConnectRole, KeepSnapshot(7), CONNECTING, map[], CAPTURED, YES, EnableProtection(7), WITH_SNAPSHOT, CAPTURED);
    p := Moved(p, 0, ConnectRole, EnableProtection(7), WITH_SNAPSHOT, map[], CAPTURED, YES, RenderConfig(7), WITH_SNAPSHOT, CAPTURED);
    p := Moved(p, 0, ConnectRole, RenderConfig(7), WITH_SNAPSHOT, map[], CAPTURED, YES, StartCore(7), WITH_SNAPSHOT, CAPTURED);
    p := Moved(p, 0, ConnectRole, StartCore(7), WITH_SNAPSHOT, map[], CAPTURED, YES, AwaitReady(7, 7), WITH_SNAPSHOT, RUNNING);
  }

  lemma ConnectedPath() returns (p: Path)
    ensures End(p) == Some(Sys(CONNECTED, map[0 := StartingMonitor(1)], {}, {}, {}, RUNNING))
  {
    p := StartedPath();
    p := Moved(p, 0, ConnectRole, AwaitReady(7, 7), WITH_SNAPSHOT, map[], RUNNING, YES, AwaitTun(7, 7), WITH_SNAPSHOT, RUNNING);
    p := Moved(p, 0, ConnectRole, AwaitTun(7, 7), WITH_SNAPSHOT, map[], RUNNING, YES, ActivateRoutes(7, 7), WITH_SNAPSHOT, RUNNING);
    var done := Commit(Outcome(Connected, false, Some(7), true, Some(7)));
    p := Moved(p, 0, ConnectRole, ActivateRoutes(7, 7), WITH_SNAPSHOT, map[], RUNNING, YES, done, WITH_SNAPSHOT, RUNNING);
    var s := Alone(0, ConnectRole, done, WITH_SNAPSHOT, map[], RUNNING);
    assert s.threads[0 := StartingMonitor(1)] == map[0 := StartingMonitor(1)];
    p := Stepped(p, s, Run(0, YES), Sys(CONNECTED, map[0 := StartingMonitor(1)], {}, {}, {}, RUNNING));
  }

  const DETACHING := CONNECTED.(state := Restoring, generation := 2, connectedAt := None)
  const HELD := Undo(true, Some(7), Some(7))

  lemma DetachedPath() returns (p: Path)
    ensures End(p) == Some(Alone(1, DisconnectRole, CancelMonitor(HELD, Some(1), Some(1)),
                                 DetachMonitor(DETACHING), map[0 := StartingMonitor(1)], RUNNING))
  {
    p := ConnectedPath();
    var others := map[0 := StartingMonitor(1)];
    var s0 := Sys(CONNECTED, others, {}, {}, {}, RUNNING);
    var s1 := s0.(threads := others[1 := Entering(DisconnectRequest)]);
    p := Stepped(p, s0, Arrive(1, DisconnectRequest), s1);
    assert s1.threads[1 := Owner(DisconnectRole, 2, ReadFields)] == others[1 := Owner(DisconnectRole, 2, ReadFields)];
    p := Stepped(p, s1, Run(1, YES), Alone(1, DisconnectRole, ReadFields, DETACHING, others, RUNNING));
    p := Moved(p, 1, DisconnectRole, ReadFields, DETACHING, others, RUNNING, YES, Detach(HELD), DETACHING, RUNNING);
    p := Moved(p, 1, DisconnectRole, Detach(HELD), DETACHING, others, RUNNING, YES, CancelMonitor(HELD, Some(1), Some(1)), DetachMonitor(DETACHING), RUNNING);
  }

  /** A Disconnect detaches the monitor of generation 1 before its StartMonitor fails: the
      Disconnect keeps the slot and waits for a channel that nobody will ever close. */
  lemma StuckRun() returns (states: seq<Sys>, actions: seq<Action>)
    ensures IsRun(states, actions)
    ensures Stuck(states[|actions|], 1, 1) && states[|actions|].c.state == Restoring
  {
    var p := DetachedPath();
    var others := map[0 := StartingMonitor(1)];
    var s := Alone(1, DisconnectRole, CancelMonitor(HELD, Some(1), Some(1)), DetachMonitor(DETACHING), others, RUNNING);
    var waiting := others[1 := Owner(DisconnectRole, 2, AwaitMonitor(HELD, 1))];
    assert s.threads[1 := Owner(DisconnectRole, 2, AwaitMonitor(HELD, 1))] == waiting;
    var t := s.(threads := waiting, cancelled := {1});
    p := Stepped(p, s, Run(1, YES), t);
    var u := t.(threads := map[0 := Returned, 1 := Owner(DisconnectRole, 2, AwaitMonitor(HELD, 1)), 7 := AutoEnter(1, false)], orphaned := {1});
    assert waiting[0 := Returned][7 := AutoEnter(1, false)] == u.threads;
    p := Stepped(p, t, Run(0, NO), u);
    states, actions := PathIsRun(p);
  }

  // ---- Prepared without a restoration ----

  const RECOVERED := INITIAL.(state := Prepared, generation := 1, reconciled := true)
  const RECOVERING := INITIAL.(state := Restoring, generation := 1)
  const RETRYING := RECOVERED.(state := Connecting, generation := 2)
  const CLOSING := RECOVERED.(state := Restoring, generation := 3)
  const NOTHING := Undo(false, None, None)

  lemma UndoPathStart(before: Path, tid: nat, role: Role, c: Fields, threads: map<nat, Thread>) returns (p: Path)
    requires End(before) == Some(Alone(tid, role, Detach(NOTHING), c, threads, QUIET)) && NoMonitor(c)
    ensures End(p) == Some(Alone(tid, role, RestoreNetwork(NOTHING), c, threads, QUIET))
  {
    p := Moved(before, tid, role, Detach(NOTHING), c, threads, QUIET, YES, CancelMonitor(NOTHING, None, None), c, QUIET);
    p := Moved(p, tid, role, CancelMonitor(NOTHING, None, None), c, threads, QUIET, YES, StopCore(NOTHING), c, QUIET);
    p := Moved(p, tid, role, StopCore(NOTHING), c, threads, QUIET, YES, RestoreNetwork(NOTHING), c, QUIET);
  }

  /** A restoration with nothing captured and no core: Reconcile succeeds and zero residue is
      read, or Reconcile fails. */
  lemma UndoPath(before: Path, tid: nat, role: Role, c: Fields, threads: map<nat, Thread>, ok: bool) returns (p: Path)
    requires End(before) == Some(Alone(tid, role, Detach(NOTHING), c, threads, QUIET)) && NoMonitor(c)
    ensures End(p) == Some(Alone(tid, role, Commit(UndoOutcome(role, NOTHING, ok)), c, threads, QUIET))
  {
    p := UndoPathStart(before, tid, role, c, threads);
    if ok {
      p := Moved(p, tid, role, RestoreNetwork(NOTHING), c, threads, QUIET, YES, CheckResidue(NOTHING), c, QUIET);
      p := Moved(p, tid, role, CheckResidue(NOTHING), c, threads, QUIET, YES, Commit(UndoOutcome(role, NOTHING, true)), c, QUIET);
    } else {
      p := Moved(p, tid, role, RestoreNetwork(NOTHING), c, threads, QUIET, NO, Commit(UndoOutcome(role, NOTHING, false)), c, QUIET);
    }
  }

  lemma RecoveredPath() returns (p: Path)
    ensures End(p) == Some(Sys(RECOVERED, map[0 := Returned], {}, {}, {}, QUIET))
  {
    p := Start(true);
    var s := Sys(INITIAL, map[0 := Entering(RecoverRequest)], {}, {}, {}, QUIET);
    p := Stepped(p, Initial(true), Arrive(0, RecoverRequest), s);
    assert s.threads[0 := Owner(DisconnectRole, 1, ReadFields)] == map[][0 := Owner(DisconnectRole, 1, ReadFields)];
    p := Stepped(p, s, Run(0, YES), Alone(0, DisconnectRole, ReadFields, RECOVERING, map[], QUIET));
    p := Moved(p, 0, DisconnectRole, ReadFields, RECOVERING, map[], QUIET, YES, Detach(NOTHING), RECOVERING, QUIET);
    p := UndoPath(p, 0, DisconnectRole, RECOVERING, map[], true);
    var t := Alone(0, DisconnectRole, Commit(UndoOutcome(DisconnectRole, NOTHING, true)), RECOVERING, map[], QUIET);
    assert t.threads[0 := Returned] == map[0 := Returned];
    p := Stepped(p, t, Run(0, YES), Sys(RECOVERED, map[0 := Returned], {}, {}, {}, QUIET));
  }

  const FAILED_CONNECT := Sys(RECOVERED.(state := FailedSafe, generation := 2), map[0 := Returned, 1 := Returned], {}, {}, {}, QUIET)

  lemma FailedPath() returns (p: Path)
    ensures End(p) == Some(FAILED_CONNECT)
  {
    p := RecoveredPath();
    var idle := map[0 := Returned];
    var s0 := Sys(RECOVERED, idle, {}, {}, {}, QUIET);
    var s1 := s0.(threads := idle[1 := Entering(ConnectRequest)]);
    p := Stepped(p, s0, Arrive(1, ConnectRequest), s1);
    assert s1.threads[1 := Owner(ConnectRole, 2, CheckContext)] == idle[1 := Owner(ConnectRole, 2, CheckContext)];
    p := Stepped(p, s1, Run(1, YES), Alone(1, ConnectRole, CheckContext, RETRYING, idle, QUIET));
    p := Moved(p, 1, ConnectRole, CheckContext, RETRYING, idle, QUIET, YES, ReadProcess, RETRYING, QUIET);
    p := Moved(p, 1, ConnectRole, ReadProcess, RETRYING, idle, QUIET, YES, Validate, RETRYING, QUIET);
    p := Moved(p, 1, ConnectRole, Validate, RETRYING, idle, QUIET, YES, PrepareNetwork, RETRYING, QUIET);
    p := Moved(p, 1, ConnectRole, PrepareNetwork, RETRYING, idle, QUIET, NO, Detach(NOTHING), RETRYING, QUIET);
    p := UndoPath(p, 1, ConnectRole, RETRYING, idle, false);
    var s2 := Alone(1, ConnectRole, Commit(UndoOutcome(ConnectRole, NOTHING, false)), RETRYING, idle, QUIET);
    assert s2.threads[1 := Returned] == FAILED_CONNECT.threads;
    p := Stepped(p, s2, Run(1, YES), FAILED_CONNECT);
  }

  const ENTERED := FAILED_CONNECT.(threads := FAILED_CONNECT.threads[2 := Entering(DisconnectRequest)])
  const READING := Alone(2, DisconnectRole, ReadFields, CLOSING, FAILED_CONNECT.threads, QUIET)
  const SHORTCUT := Alone(2, DisconnectRole, Commit(UndoOutcome(DisconnectRole, NOTHING, true)), CLOSING, FAILED_CONNECT.threads, QUIET)
  const REPORTED := Sys(CLOSING.(state := Prepared), FAILED_CONNECT.threads[2 := Returned], {}, {}, {}, QUIET)

  predicate SilentStep(s: Sys, a: Action, t: Sys) {
    Enabled(s, a) && Next(s, a) == t && CallOf(s, a).None?
  }

  lemma DisconnectSteps()
    ensures SilentStep(FAILED_CONNECT, Arrive(2, DisconnectRequest), ENTERED)
    ensures SilentStep(ENTERED, Run(2, YES), READING)
  {
    assert ENTERED.threads[2 := Owner(DisconnectRole, 3, ReadFields)] == READING.threads;
  }

  lemma ShortcutSteps()
    ensures SilentStep(READING, Run(2, YES), SHORTCUT)
    ensures SilentStep(SHORTCUT, Run(2, YES), REPORTED)
  {
    assert READING.threads[2 := Owner(DisconnectRole, 3, Commit(UndoOutcome(DisconnectRole, NOTHING, true)))] == SHORTCUT.threads;
    assert SHORTCUT.threads[2 := Returned] == REPORTED.threads;
    var none: set<nat> := {};
    assert none + none == none;
  }

  /** After one successful Recover, a Connect whose Prepare fails and whose Reconcile fails
      leaves failed_safe; the next Disconnect reports prepared without another call. */
  lemma PreparedWithoutReconcileRun() returns (states: seq<Sys>, actions: seq<Action>, n: nat)
    ensures IsRun(states, actions) && |actions| == n + 4
    ensures states[n].c.state == FailedSafe
    ensures states[n + 4].c.state == Prepared && states[n + 4].c.transition.None?
    ensures Silent(states, actions, n)
  {
    var p := FailedPath();
    states, actions := PathIsRun(p);
    n := |actions|;
    DisconnectSteps();
    ShortcutSteps();
    states, actions := ExtendedSilently(states, actions, n, Arrive(2, DisconnectRequest), ENTERED);
    states, actions := ExtendedSilently(states, actions, n, Run(2, YES), READING);
    states, actions := ExtendedSilently(states, actions, n, Run(2, YES), SHORTCUT);
    states, actions := ExtendedSilently(states, actions, n, Run(2, YES), REPORTED);
  }

  /** No dependency was called since the n-th step. */
  predicate Silent(states: seq<Sys>, actions: seq<Action>, n: nat)
    requires |states| == |actions| + 1
  {
    forall i: nat :: n <= i < |actions| ==> CallOf(states[i], actions[i]).None?
  }

  lemma ExtendedSilently(states: seq<Sys>, actions: seq<Action>, n: nat, a: Action, t: Sys) returns (ss: seq<Sys>, as': seq<Action>)
    requires IsRun(states, actions) && n <= |actions| && Silent(states, actions, n) && SilentStep(states[|actions|], a, t)
    ensures ss == states + [t] && as' == actions + [a] && IsRun(ss, as') && Silent(ss, as', n)
    ensures ss[n] == states[n]
  {
    ss, as' := Extended(states, actions, a, t);
  }

  const REFUSED := Sys(INITIAL.(state := Prepared, generation := 1), map[0 := Returned], {}, {}, {}, QUIET)

  /** A first Connect whose context has ended: the status is prepared, no dependency was ever
      called, and nothing was ever restored. */
  lemma PreparedAfterPrecheckRun() returns (states: seq<Sys>, actions: seq<Action>)
    ensures IsRun(states, actions) && |actions| == 4 && Silent(states, actions, 0)
    ensures states[4] == REFUSED && !states[4].c.reconciled
  {
    var entered := Sys(INITIAL, map[0 := Entering(ConnectRequest)], {}, {}, {}, QUIET);
    var checking := Alone(0, ConnectRole, CheckContext, CONNECTING, map[], QUIET);
    var failing := Alone(0, ConnectRole, Commit(PRECHECK), CONNECTING, map[], QUIET);
    RefusedSteps(entered, checking, failing);
    states, actions := [Initial(true)], [];
    states, actions := ExtendedSilently(states, actions, 0, Arrive(0, ConnectRequest), entered);
    states, actions := ExtendedSilently(states, actions, 0, Run(0, YES), checking);
    states, actions := ExtendedSilently(states, actions, 0, Run(0, NO), failing);
    states, actions := ExtendedSilently(states, actions, 0, Run(0, YES), REFUSED);
  }

  lemma RefusedSteps(entered: Sys, checking: Sys, failing: Sys)
    requires entered == Sys(INITIAL, map[0 := Entering(ConnectRequest)], {}, {}, {}, QUIET)
    requires checking == Alone(0, ConnectRole, CheckContext, CONNECTING, map[], QUIET)
    requires failing == Alone(0, ConnectRole, Commit(PRECHECK), CONNECTING, map[], QUIET)
    ensures SilentStep(Initial(true), Arrive(0, ConnectRequest), entered) && SilentStep(entered, Run(0, YES), checking)
    ensures SilentStep(checking, Run(0, NO), failing) && SilentStep(failing, Run(0, YES), REFUSED)
  {
    assert entered.threads[0 := Owner(ConnectRole, 1, CheckContext)] == checking.threads;
    assert checking.threads[0 := Owner(ConnectRole, 1, Commit(PRECHECK))] == failing.threads;
    assert failing.threads[0 := Returned] == REFUSED.threads;
    var none: set<nat> := {};
    assert none + none == none;
  }

  /** Exactly when a Disconnect or Recover that took the slot takes the shortcut: nothing is held
      and `reconciled` is set, which ControllerRestores.ReconciledIff explains. */
  lemma ShortcutIff(states: seq<Sys>, actions: seq<Action>, i: nat, t: nat, ch: Choice)
    requires IsRun(states, actions) && i < |states|
    requires t in states[i].threads && states[i].threads[t].Owner? && states[i].threads[t].pc.ReadFields?
    ensures var s := states[i];
            && RunEnabled(s, t, ch)
            && var next := RunStep(s, t, ch).threads[t].pc;
               && (next.Commit? <==> s.c.snapshot.None? && !s.c.processStarted && s.c.reconciled)
               && (next.Commit? ==> next.outcome.state == Prepared && s.known.outstanding.None? && Unproven(s.known) == {})
  {
    RunIsSafe(states, actions, i);
    SlotFacts(states[i]);
  }
}
