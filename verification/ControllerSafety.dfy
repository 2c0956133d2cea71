/** Safety of every run of the controller: what is restored only when, what the stored
    status promises, and what each idle state holds. */
module ControllerSafety {
  import opened Wrappers
  import opened ControllerState
  import opened ControllerRuns

  // ---- The invariant ----

  /** At most the one instance the controller can still name is unproven. */
  predicate OnlyUnproven(k: Known, held: bool, instance: Option<nat>) {
    && (held ==> instance.Some?)
    && Unproven(k) <= (if held then {instance.value} else {})
  }

  predicate Tracks(k: Known, u: Undo) {
    && OnlyUnproven(k, u.started, u.instance)
    && (k.outstanding.Some? ==> u.snapshot == k.outstanding)
  }

  predicate Clean(k: Known) {
    Unproven(k) == {} && k.outstanding.None?
  }

  predicate HoldsNothing(c: Fields) {
    !c.processStarted && c.instance.None? && c.snapshot.None?
  }

  /** What the controller fields say an undo would be given. */
  function Stored(c: Fields): Undo { Undo(c.processStarted, c.instance, c.snapshot) }

  predicate IdleOk(c: Fields, k: Known) {
    match c.state
    case Disconnected | Prepared => HoldsNothing(c) && Clean(k) && NoMonitor(c)
    case Connected =>
      && c.processStarted && c.instance.Some? && c.snapshot.Some?
      && Tracks(k, Stored(c)) && k.outstanding == c.snapshot
      && c.monitorDone == Some(c.generation) == c.monitorCancel
    case FailedSafe => Tracks(k, Stored(c)) && NoMonitor(c)
    case Connecting | Restoring => false
  }

  predicate NoMonitor(c: Fields) { c.monitorDone.None? && c.monitorCancel.None? }

  predicate ConnectPcOk(c: Fields, k: Known, pc: Pc) {
    && c.state == Connecting
    && !c.processStarted && c.instance.None? && NoMonitor(c)
    && match pc
       case CheckContext | ReadProcess | Validate | PrepareNetwork | CaptureNetwork =>
         c.snapshot.None? && Clean(k)
       case KeepSnapshot(s) =>
         Unproven(k) == {} && k.outstanding == Some(s)
       case EnableProtection(s) => Unproven(k) == {} && k.outstanding == c.snapshot == Some(s)
       case RenderConfig(s) => Unproven(k) == {} && k.outstanding == c.snapshot == Some(s)
       case StartCore(s) => Unproven(k) == {} && k.outstanding == c.snapshot == Some(s)
       case AwaitReady(s, i) => Unproven(k) <= {i} && k.outstanding == Some(s)
       case AwaitTun(s, i) => Unproven(k) <= {i} && k.outstanding == Some(s)
       case ActivateRoutes(s, i) => Unproven(k) <= {i} && k.outstanding == Some(s)
       case Commit(o) =>
         if o.state == Connected then
           && !o.restored && o.processStarted && o.instance.Some? && o.snapshot.Some?
           && Unproven(k) <= {o.instance.value} && k.outstanding == o.snapshot
         else if o.state == Prepared then
           o.instance.None? && !o.processStarted && o.snapshot.None? && Clean(k)
         else
           && o.state == FailedSafe && !o.restored
           && Tracks(k, Undo(o.processStarted, o.instance, o.snapshot))
       case _ => UndoPcOk(k, pc)
  }

  predicate RestorePcOk(c: Fields, k: Known, role: Role, pc: Pc) {
    && c.state == Restoring
    && match pc
       case ReadFields => role.DisconnectRole? && Tracks(k, Stored(c))
       case CancelOwnMonitor(u, own) => role.RestoreRole? && NoMonitor(c) && u == Stored(c) && Tracks(k, u)
       case Commit(o) =>
         && NoMonitor(c)
         && (o.restored ==> o.state == Prepared && Clean(k))
         && (!o.restored ==> o.state == FailedSafe && Tracks(k, Stored(c)))
       case _ => UndoPcOk(k, pc) && PcUndo(pc) == Stored(c)
  }

  function PcUndo(pc: Pc): Undo {
    if IsUndoPc(pc) then pc.undo else Undo(false, None, None)
  }

  predicate UndoPcOk(k: Known, pc: Pc) {
    && IsUndoPc(pc)
    && Tracks(k, pc.undo)
    && (pc.RestoreNetwork? || pc.CheckResidue? ==> Unproven(k) == {})
    && (pc.CheckResidue? && k.outstanding.Some? ==> k.undone)
  }

  /** Monitor handles: both are set together, and detached before an undo goes on. */
  predicate MonitorPcOk(c: Fields, role: Role, pc: Pc) {
    && (role.RestoreRole? ==> NoMonitor(c) && !pc.AwaitMonitor? && (pc.CancelMonitor? ==> pc.done.None?))
    && (pc.CancelMonitor? ==> pc.cancel == pc.done)
    && (pc.CancelMonitor? || pc.AwaitMonitor? || pc.StopCore? || pc.RestoreNetwork? || pc.CheckResidue? ==> NoMonitor(c))
  }

  /** A disconnect commits its shortcut without having detached a monitor, which is sound
      because nothing is connected then. */
  predicate OwnerOk(c: Fields, k: Known, thread: Thread)
    requires thread.Owner?
  {
    && thread.generation == c.generation
    && (if thread.role.ConnectRole? then ConnectPcOk(c, k, thread.pc)
        else RestorePcOk(c, k, thread.role, thread.pc))
    && MonitorPcOk(c, thread.role, thread.pc)
    && (thread.pc.ReadFields? && c.snapshot.None? && !c.processStarted ==> NoMonitor(c))
  }

  function KindOf(role: Role): Kind {
    match role
    case ConnectRole => ConnectKind
    case DisconnectRole => DisconnectKind
    case RestoreRole(_) => RestoreKind
  }

  predicate SlotOk(s: Sys) {
    && (forall t :: t in s.threads && s.threads[t].Owner? ==> s.c.transition == Some(Slot(KindOf(s.threads[t].role), t)))
    && (s.c.transition.Some? ==>
          s.c.transition.value.owner in s.threads && s.threads[s.c.transition.value.owner].Owner?)
  }

  predicate Inv(s: Sys) {
    && SlotOk(s)
    && !s.known.violated
    && (s.c.connectedAt.Some? <==> s.c.state == Connected)
    && (s.c.quality != UNKNOWN ==> s.c.state == Connected)
    && s.c.monitorCancel == s.c.monitorDone
    && (s.c.transition.None? ==> IdleOk(s.c, s.known))
    && (s.c.transition.Some? ==> OwnerOk(s.c, s.known, s.threads[s.c.transition.value.owner]))
  }

  // ---- Every step keeps the invariant ----

  /** What Inv says of the fields alone. */
  predicate FieldsOk(c: Fields) {
    && (c.connectedAt.Some? <==> c.state == Connected)
    && (c.quality != UNKNOWN ==> c.state == Connected)
    && c.monitorCancel == c.monitorDone
  }

  /** A step in which one thread takes the free slot. */
  lemma SlotTaken(s: Sys, t: Sys, tid: nat)
    requires Inv(s) && s.c.transition.None? && tid in t.threads && t.threads[tid].Owner?
    requires t.threads == s.threads[tid := t.threads[tid]] && t.known == s.known
    requires t.c.transition == Some(Slot(KindOf(t.threads[tid].role), tid))
    requires FieldsOk(t.c) && OwnerOk(t.c, t.known, t.threads[tid])
    ensures Inv(t)
  {
  }

  /** A step in which the owner gives the slot back. */
  lemma SlotReleased(s: Sys, t: Sys, tid: nat)
    requires Inv(s) && tid in s.threads && s.threads[tid].Owner?
    requires tid in t.threads && !t.threads[tid].Owner?
    requires t.threads == s.threads[tid := t.threads[tid]] && t.known == s.known
    requires t.c.transition.None? && FieldsOk(t.c) && IdleOk(t.c, t.known)
    ensures Inv(t)
  {
  }

  lemma EnterKeeps(s: Sys, tid: nat, request: Request)
    requires Inv(s) && tid in s.threads && s.threads[tid] == Entering(request)
    ensures Inv(EnterStep(s, tid, request))
  {
    var t := EnterStep(s, tid, request);
    if t.threads[tid].Owner? { SlotTaken(s, t, tid); }
  }

  /** A step that only moves the owner's program counter and keeps the slot. */
  lemma OwnerMoves(s: Sys, t: Sys, tid: nat)
    requires Inv(s) && tid in s.threads && s.threads[tid].Owner?
    requires tid in t.threads && t.threads[tid].Owner? && t.threads == s.threads[tid := t.threads[tid]]
    requires t.threads[tid].role == s.threads[tid].role
    requires t.c.transition == s.c.transition
    requires OwnerOk(t.c, t.known, t.threads[tid]) && !t.known.violated
    requires t.c.state == s.c.state && t.c.connectedAt == s.c.connectedAt && t.c.quality == s.c.quality
    requires t.c.monitorCancel == t.c.monitorDone
    ensures Inv(t)
  {
    assert t.c.transition.value.owner == tid;
  }

  lemma CallsKeepUnproven(k: Known, call: Call)
    requires Unproven(k) == {} && !k.violated
    ensures !Observe(k, call).violated
    ensures call.Restored? || call.Reconciled? || call.Stopped? || call.ResidueRead? ==> Unproven(Observe(k, call)) == {}
    ensures call.Started? && call.instance.Some? ==> Unproven(Observe(k, call)) <= {call.instance.value}
    ensures call.Started? && (call.terminated || call.instance.None?) ==> Unproven(Observe(k, call)) == {}
  {
  }

  /** One call or section of runConnect, up to its commit. */
  lemma ConnectMoveKeeps(c: Fields, k: Known, pc: Pc, ch: Choice)
    requires ConnectPcOk(c, k, pc) && !IsUndoPc(pc) && !pc.Commit? && !k.violated
    requires pc.StartCore? ==> ch.id !in k.started
    ensures var m := ConnectMove(c, k, pc, ch);
            ConnectPcOk(m.c, m.known, m.pc) && !m.known.violated
  {
    match pc
    case StartCore(_) =>
      var instance := if ch.ok || !ch.proven || ch.present then Some(ch.id) else None;
      CallsKeepUnproven(k, Started(instance, !ch.ok && ch.proven));
    case _ =>
  }

  lemma StopKeeps(k: Known, u: Undo, proven: bool)
    requires Tracks(k, u) && u.started
    ensures var k' := Observe(k, Stopped(u.instance.value, proven));
            Tracks(k', u) && (proven ==> Unproven(k') == {}) && k'.violated == k.violated
  {
  }

  /** One call or section of restoreTransaction. */
  lemma UndoMoveKeeps(c: Fields, k: Known, role: Role, pc: Pc, ch: Choice)
    requires UndoPcOk(k, pc) && !k.violated
    ensures var m := UndoMove(c, k, role, pc, ch);
            && !m.known.violated
            && (IsUndoPc(m.pc) ==> UndoPcOk(m.known, m.pc) && m.pc.undo == pc.undo)
            && (!IsUndoPc(m.pc) ==>
                  exists restored :: m.pc == Commit(UndoOutcome(role, pc.undo, restored))
                    && Tracks(m.known, pc.undo) && (restored ==> Clean(m.known)))
  {
    match pc
    case StopCore(u) =>
      if u.started { StopKeeps(k, u, ch.proven); }
    case RestoreNetwork(u) =>
      CallsKeepUnproven(k, if u.snapshot.Some? then Restored(u.snapshot.value, ch.ok) else Reconciled(ch.ok));
    case CheckResidue(_) => CallsKeepUnproven(k, ResidueRead(ch.ok));
    case _ =>
  }

  /** What no move of the slot owner touches. */
  predicate SameFrame(c: Fields, d: Fields) {
    && d.transition == c.transition && d.state == c.state && d.generation == c.generation
    && d.connectedAt == c.connectedAt && d.quality == c.quality
    && (c.monitorCancel == c.monitorDone ==> d.monitorCancel == d.monitorDone)
  }

  lemma MovesKeepFrame(c: Fields, k: Known, role: Role, pc: Pc, ch: Choice)
    ensures SameFrame(c, OwnerMove(c, k, role, pc, ch).c)
  {
  }

  lemma UndoOwnerKeeps(c: Fields, k: Known, thread: Thread, ch: Choice)
    requires thread.Owner? && OwnerOk(c, k, thread) && IsUndoPc(thread.pc) && !k.violated
    requires c.monitorCancel == c.monitorDone
    ensures var m := UndoMove(c, k, thread.role, thread.pc, ch);
            OwnerOk(m.c, m.known, thread.(pc := m.pc)) && !m.known.violated
  {
    UndoMoveKeeps(c, k, thread.role, thread.pc, ch);
    var m := UndoMove(c, k, thread.role, thread.pc, ch);
    if IsUndoPc(m.pc) {
      assert MonitorPcOk(m.c, thread.role, m.pc);
    } else {
      assert m.c == c && NoMonitor(c);
    }
  }

  lemma OwnerMoveKeeps(c: Fields, k: Known, thread: Thread, ch: Choice)
    requires thread.Owner? && OwnerOk(c, k, thread) && !thread.pc.Commit? && !k.violated
    requires c.monitorCancel == c.monitorDone
    requires thread.pc.StartCore? ==> ch.id !in k.started
    ensures var m := OwnerMove(c, k, thread.role, thread.pc, ch);
            OwnerOk(m.c, m.known, thread.(pc := m.pc)) && !m.known.violated
  {
    if IsUndoPc(thread.pc) {
      UndoOwnerKeeps(c, k, thread, ch);
    } else if thread.role.ConnectRole? {
      ConnectMoveKeeps(c, k, thread.pc, ch);
      var m := ConnectMove(c, k, thread.pc, ch);
      assert OwnerMove(c, k, thread.role, thread.pc, ch) == m;
      assert NoMonitor(m.c);
    }
  }

  lemma CommitIsIdle(c: Fields, k: Known, thread: Thread, now: int)
    requires thread.Owner? && thread.pc.Commit? && OwnerOk(c, k, thread) && FieldsOk(c)
    ensures thread.role.ConnectRole? ==>
              var d := ConnectCommit(c, thread.generation, thread.pc.outcome, now);
              FieldsOk(d) && IdleOk(d, k)
    ensures !thread.role.ConnectRole? ==>
              var d := DisconnectCommit(c, thread.generation, thread.pc.outcome);
              FieldsOk(d) && IdleOk(d, k)
  {
  }

  lemma CommitKeeps(s: Sys, tid: nat, ch: Choice)
    requires Inv(s) && tid in s.threads && s.threads[tid].Owner? && s.threads[tid].pc.Commit?
    ensures Inv(CommitStep(s, tid, ch))
  {
    CommitIsIdle(s.c, s.known, s.threads[tid], ch.now);
    SlotReleased(s, CommitStep(s, tid, ch), tid);
  }

  lemma OwnerRunKeeps(s: Sys, tid: nat, ch: Choice)
    requires Inv(s) && RunEnabled(s, tid, ch) && s.threads[tid].Owner? && !s.threads[tid].pc.Commit?
    ensures Inv(RunStep(s, tid, ch))
  {
    OwnerMoveKeeps(s.c, s.known, s.threads[tid], ch);
    MovesKeepFrame(s.c, s.known, s.threads[tid].role, s.threads[tid].pc, ch);
    OwnerMoves(s, OwnerStep(s, tid, ch), tid);
  }

  lemma RunKeeps(s: Sys, tid: nat, ch: Choice)
    requires Inv(s) && RunEnabled(s, tid, ch)
    ensures Inv(RunStep(s, tid, ch))
  {
    var thread := s.threads[tid];
    match thread
    case Entering(request) => EnterKeeps(s, tid, request);
    case Owner(_, _, pc) => if pc.Commit? { CommitKeeps(s, tid, ch); } else { OwnerRunKeeps(s, tid, ch); }
    case AutoEnter(g, _) =>
      if MayRestore(s.c, g) { SlotTaken(s, RunStep(s, tid, ch), tid); }
    case _ =>
  }

  lemma StepKeeps(s: Sys, a: Action)
    requires Inv(s) && Enabled(s, a)
    ensures Inv(Next(s, a))
  {
    if a.Run? { RunKeeps(s, a.tid, a.choice); }
  }

  /** Every state of every run is safe. */
  lemma {:induction false} RunIsSafe(states: seq<Sys>, actions: seq<Action>, i: nat)
    requires IsRun(states, actions) && i < |states|
    ensures Inv(states[i])
  {
    if i > 0 {
      RunIsSafe(states, actions, i - 1);
      assert Enabled(states[i - 1], actions[i - 1]) && states[i - 1 + 1] == Next(states[i - 1], actions[i - 1]);
      StepKeeps(states[i - 1], actions[i - 1]);
    }
  }

  /** What the slot says about its owner and the status. */
  lemma SlotFacts(s: Sys)
    requires Inv(s)
    ensures s.c.transition.Some? <==> s.c.state == Connecting || s.c.state == Restoring
    ensures forall t :: t in s.threads && s.threads[t].Owner? ==>
              OwnerOk(s.c, s.known, s.threads[t]) && s.threads[t].generation == s.c.generation
  {
  }

  // ---- Calls made along a run ----

  /** The dependency call that a step makes, with its result. */
  function CallOf(s: Sys, a: Action): Option<Call> {
    if a.Run? && a.tid in s.threads && s.threads[a.tid].Owner? then
      var ch := a.choice;
      match s.threads[a.tid].pc
      case CaptureNetwork => if ch.ok then Some(Captured(ch.id)) else None
      case StartCore(_) =>
        Some(Started(if ch.ok || !ch.proven || ch.present then Some(ch.id) else None, !ch.ok && ch.proven))
      case StopCore(u) =>
        if u.started && u.instance.Some? then Some(Stopped(u.instance.value, ch.proven)) else None
      case RestoreNetwork(u) =>
        Some(if u.snapshot.Some? then Restored(u.snapshot.value, ch.ok) else Reconciled(ch.ok))
      case CheckResidue(_) => Some(ResidueRead(ch.ok))
      case _ => None
    else None
  }

  predicate Mutates(call: Call) {
    call.Started? || call.Restored? || call.Reconciled?
  }

  lemma KnownFollowsCalls(s: Sys, a: Action)
    requires Enabled(s, a)
    ensures Next(s, a).known ==
            match CallOf(s, a) case Some(call) => Observe(s.known, call) case None => s.known
  {
  }

  /** The network is restored, and a core started, only when every core ever started is
      proven terminated. */
  lemma NoMutationBesideACore(states: seq<Sys>, actions: seq<Action>, i: nat)
    requires IsRun(states, actions) && i < |actions|
    requires CallOf(states[i], actions[i]).Some? && Mutates(CallOf(states[i], actions[i]).value)
    ensures Unproven(states[i].known) == {}
  {
    RunIsSafe(states, actions, i + 1);
    assert Enabled(states[i], actions[i]) && states[i + 1] == Next(states[i], actions[i]);
    KnownFollowsCalls(states[i], actions[i]);
  }

  /** At no time is more than one core not proven terminated. */
  lemma AtMostOneCore(states: seq<Sys>, actions: seq<Action>, i: nat, x: nat, y: nat)
    requires IsRun(states, actions) && i < |states|
    requires x in Unproven(states[i].known) && y in Unproven(states[i].known)
    ensures x == y
  {
    RunIsSafe(states, actions, i);
    SlotFacts(states[i]);
  }

  // ---- Prepared again only after the captured snapshot was restored ----

  predicate Safe(state: State) { state == Prepared || state == Disconnected }

  lemma OutstandingNeverLooksSafe(s: Sys)
    requires Inv(s) && s.known.outstanding.Some?
    ensures !Safe(s.c.state)
  {
  }

  predicate Calls(states: seq<Sys>, actions: seq<Action>, i: nat, call: Call)
    requires |states| == |actions| + 1
  {
    i < |actions| && CallOf(states[i], actions[i]) == Some(call)
  }

  /** Between i and j, `snapshot` was restored successfully. */
  ghost predicate RestoredBetween(states: seq<Sys>, actions: seq<Action>, i: nat, j: nat, snapshot: nat)
    requires |states| == |actions| + 1
  {
    exists r: nat :: i < r < j && Calls(states, actions, r, Restored(snapshot, true))
  }

  /** Between i and j, `snapshot` was restored successfully and then, where the manager
      reports residue, zero residue was read. */
  ghost predicate UndoneBetween(states: seq<Sys>, actions: seq<Action>, i: nat, j: nat, snapshot: nat)
    requires |states| == |actions| + 1 && i < |states|
  {
    exists r: nat ::
      && i < r < j && Calls(states, actions, r, Restored(snapshot, true))
      && (states[i].known.reports ==> exists z: nat :: r < z < j && Calls(states, actions, z, ResidueRead(true)))
  }

  lemma CaptureStartsClean(s: Sys, a: Action)
    requires Inv(s) && Enabled(s, a)
    ensures CallOf(s, a).Some? && CallOf(s, a).value.Captured? ==> s.known.outstanding.None?
  {
  }

  lemma RestoredBetweenGrows(states: seq<Sys>, actions: seq<Action>, i: nat, k: nat, snapshot: nat)
    requires |states| == |actions| + 1 && RestoredBetween(states, actions, i, k, snapshot)
    ensures RestoredBetween(states, actions, i, k + 1, snapshot)
  {
    var r: nat :| i < r < k && Calls(states, actions, r, Restored(snapshot, true));
    assert i < r < k + 1;
  }

  lemma UndoneBetweenGrows(states: seq<Sys>, actions: seq<Action>, i: nat, k: nat, snapshot: nat)
    requires |states| == |actions| + 1 && i < |states| && UndoneBetween(states, actions, i, k, snapshot)
    ensures UndoneBetween(states, actions, i, k + 1, snapshot)
  {
    var r: nat :| i < r < k && Calls(states, actions, r, Restored(snapshot, true))
      && (states[i].known.reports ==> exists z: nat :: r < z < k && Calls(states, actions, z, ResidueRead(true)));
    if states[i].known.reports {
      var z: nat :| r < z < k && Calls(states, actions, z, ResidueRead(true));
      assert r < z < k + 1;
    }
  }

  /** While a captured snapshot is outstanding and not yet undone. */
  ghost predicate StillOutstanding(states: seq<Sys>, actions: seq<Action>, i: nat, j: nat, snapshot: nat)
    requires |states| == |actions| + 1 && j < |states|
  {
    && states[j].known.outstanding == Some(snapshot)
    && (states[j].known.undone ==> RestoredBetween(states, actions, i, j, snapshot))
  }

  lemma ObserveKeepsReports(k: Known, call: Call)
    ensures Observe(k, call).reports == k.reports
  {
  }

  lemma {:induction false} OutstandingUntilUndone(states: seq<Sys>, actions: seq<Action>, i: nat, j: nat, snapshot: nat)
    requires IsRun(states, actions) && i < j < |states|
    requires Calls(states, actions, i, Captured(snapshot))
    ensures states[j].known.reports == states[i].known.reports
    ensures UndoneBetween(states, actions, i, j, snapshot) || StillOutstanding(states, actions, i, j, snapshot)
  {
    var k := j - 1;
    assert Enabled(states[k], actions[k]) && states[k + 1] == Next(states[k], actions[k]);
    KnownFollowsCalls(states[k], actions[k]);
    if k > i {
      OutstandingUntilUndone(states, actions, i, k, snapshot);
      if CallOf(states[k], actions[k]).Some? {
        ObserveKeepsReports(states[k].known, CallOf(states[k], actions[k]).value);
      }
      if UndoneBetween(states, actions, i, k, snapshot) {
        UndoneBetweenGrows(states, actions, i, k, snapshot);
      } else {
        OutstandingStep(states, actions, i, k, snapshot);
      }
    }
  }

  lemma OutstandingStep(states: seq<Sys>, actions: seq<Action>, i: nat, k: nat, snapshot: nat)
    requires IsRun(states, actions) && i < k < |actions|
    requires StillOutstanding(states, actions, i, k, snapshot)
    requires states[k].known.reports == states[i].known.reports
    ensures UndoneBetween(states, actions, i, k + 1, snapshot) || StillOutstanding(states, actions, i, k + 1, snapshot)
  {
    RunIsSafe(states, actions, k);
    assert Enabled(states[k], actions[k]) && states[k + 1] == Next(states[k], actions[k]);
    KnownFollowsCalls(states[k], actions[k]);
    if states[k].known.undone { RestoredBetweenGrows(states, actions, i, k, snapshot); }
    var call := CallOf(states[k], actions[k]);
    if call.Some? {
      CaptureStartsClean(states[k], actions[k]);
      if call.value == Restored(snapshot, true) {
        assert Calls(states, actions, k, Restored(snapshot, true));
      } else if call.value == ResidueRead(true) && states[k].known.undone {
        var r: nat :| i < r < k && Calls(states, actions, r, Restored(snapshot, true));
        assert r < k < k + 1 && Calls(states, actions, k, ResidueRead(true));
      }
    }
  }

  /** After a successful Capture the stored status is prepared (or disconnected) again only
      once that snapshot was restored and, where reported, zero residue was read. */
  lemma PreparedOnlyAfterUndo(states: seq<Sys>, actions: seq<Action>, i: nat, j: nat, snapshot: nat)
    requires IsRun(states, actions) && i < j < |states|
    requires Calls(states, actions, i, Captured(snapshot))
    requires Safe(states[j].c.state)
    ensures UndoneBetween(states, actions, i, j, snapshot)
  {
    RunIsSafe(states, actions, j);
    OutstandingUntilUndone(states, actions, i, j, snapshot);
  }

  /** failed_safe is left only through the first section of a Disconnect or Recover. */
  lemma OnlyDisconnectLeavesFailedSafe(s: Sys, a: Action)
    requires Inv(s) && Enabled(s, a) && s.c.state == FailedSafe && Next(s, a).c.state != FailedSafe
    ensures a.Run? && s.threads[a.tid].Entering? && !s.threads[a.tid].request.ConnectRequest?
    ensures Next(s, a).c.state == Restoring
  {
    SlotFacts(s);
  }

  // ---- Idle states, the generation guard, stale monitors ----

  /** With no active transition the status says exactly what is held. */
  lemma IdleStatesHoldWhatTheySay(states: seq<Sys>, actions: seq<Action>, i: nat)
    requires IsRun(states, actions) && i < |states|
    ensures var c := states[i].c;
            && (c.connectedAt.Some? <==> c.state == Connected)
            && (c.quality != UNKNOWN ==> c.state == Connected)
            && (c.transition.None? ==>
                  && (c.state == Connected ==> c.processStarted && c.instance.Some? && c.snapshot.Some?)
                  && (Safe(c.state) ==> !c.processStarted && c.instance.None? && c.snapshot.None?))
            && (c.transition.Some? <==> c.state == Connecting || c.state == Restoring)
  {
    RunIsSafe(states, actions, i);
    SlotFacts(states[i]);
  }

  /** The owner of the slot always passes its generation guard, and only taking the free
      slot changes the generation. */
  lemma GenerationGuardHolds(states: seq<Sys>, actions: seq<Action>, i: nat)
    requires IsRun(states, actions) && i < |actions|
    ensures forall t :: t in states[i].threads && states[i].threads[t].Owner? ==>
              states[i].threads[t].generation == states[i].c.generation
    ensures states[i + 1].c.generation != states[i].c.generation ==>
              && states[i].c.transition.None? && actions[i].Run?
              && states[i + 1].c.transition.Some? && states[i + 1].c.transition.value.owner == actions[i].tid
              && states[i + 1].c.generation == states[i].c.generation + 1
  {
    RunIsSafe(states, actions, i);
    var s, a := states[i], actions[i];
    SlotFacts(s);
    assert Enabled(s, a) && states[i + 1] == Next(s, a);
    if a.Run? && s.threads[a.tid].Owner? && !s.threads[a.tid].pc.Commit? {
      MovesKeepFrame(s.c, s.known, s.threads[a.tid].role, s.threads[a.tid].pc, a.choice);
    }
  }

  /** A runtime monitor, or a restore it wants, of an older generation changes no field. */
  lemma StaleMonitorChangesNothing(s: Sys, tid: nat, ch: Choice)
    requires Inv(s) && RunEnabled(s, tid, ch)
    requires !s.threads[tid].Entering? && !s.threads[tid].Waiting? && !s.threads[tid].Returned?
    requires s.threads[tid].generation < s.c.generation
    ensures RunStep(s, tid, ch).c == s.c
    ensures !s.threads[tid].Owner?
  {
    SlotFacts(s);
  }

  /** The dead check of lines 488-497: no Connect that took the slot ever finds a core that
      may still be running. */
  lemma ConnectNeverFindsARunningCore(states: seq<Sys>, actions: seq<Action>, i: nat, t: nat)
    requires IsRun(states, actions) && i < |states|
    requires t in states[i].threads && states[i].threads[t].Owner? && states[i].threads[t].pc.ReadProcess?
    requires states[i].threads[t].role.ConnectRole?
    ensures !states[i].c.processStarted
  {
    RunIsSafe(states, actions, i);
    SlotFacts(states[i]);
  }

  // ---- A captured snapshot is kept before anything else ----

  /** Only its own steps move the slot owner, and while it has the slot only they change what
      the fields hold. */
  lemma OnlyOwnerMoves(s: Sys, a: Action, t: nat)
    requires Inv(s) && Enabled(s, a) && t in s.threads && s.threads[t].Owner? && !(a.Run? && a.tid == t)
    ensures t in Next(s, a).threads && Next(s, a).threads[t] == s.threads[t]
    ensures Next(s, a).c.snapshot == s.c.snapshot && Next(s, a).known == s.known
  {
    SlotFacts(s);
  }

  lemma {:induction false} OwnerRests(states: seq<Sys>, actions: seq<Action>, i: nat, j: nat, t: nat)
    requires IsRun(states, actions) && i <= j < |states|
    requires t in states[i].threads && states[i].threads[t].Owner?
    requires forall k: nat :: i <= k < j ==> !(actions[k].Run? && actions[k].tid == t)
    ensures t in states[j].threads && states[j].threads[t] == states[i].threads[t]
    ensures states[j].c.snapshot == states[i].c.snapshot && states[j].known == states[i].known
  {
    if i < j {
      OwnerRests(states, actions, i, j - 1, t);
      RunIsSafe(states, actions, j - 1);
      assert Enabled(states[j - 1], actions[j - 1]) && states[j - 1 + 1] == Next(states[j - 1], actions[j - 1]);
      OnlyOwnerMoves(states[j - 1], actions[j - 1], t);
    }
  }

  /** The goroutine that captured a snapshot stores it in its very next step, before any other
      call of its own, and whatever runs in between leaves the fields without a snapshot: from
      that step on the outstanding snapshot is the stored one. */
  lemma CapturedIsKeptNext(states: seq<Sys>, actions: seq<Action>, i: nat, j: nat, snapshot: nat)
    requires IsRun(states, actions) && i < j < |actions|
    requires Calls(states, actions, i, Captured(snapshot))
    requires actions[j].Run? && actions[j].tid == actions[i].tid
    requires forall k: nat :: i < k < j ==> !(actions[k].Run? && actions[k].tid == actions[i].tid)
    ensures CallOf(states[j], actions[j]).None?
    ensures states[j].c.snapshot.None? && states[j].known.outstanding == Some(snapshot)
    ensures states[j + 1].c.snapshot == Some(snapshot) == states[j + 1].known.outstanding
  {
    RunIsSafe(states, actions, i);
    SlotFacts(states[i]);
    assert Enabled(states[i], actions[i]) && states[i + 1] == Next(states[i], actions[i]);
    OwnerRests(states, actions, i + 1, j, actions[i].tid);
    assert Enabled(states[j], actions[j]) && states[j + 1] == Next(states[j], actions[j]);
  }
}
