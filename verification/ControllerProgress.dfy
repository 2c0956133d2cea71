/** Who waits for whom. Where every StartMonitor succeeded nobody is blocked forever among
    the mutex, `transition.done` and `monitorDone`; where one failed, a disconnect that had
    already detached that monitor is stuck for good. */
module ControllerProgress {
  import opened Wrappers
  import opened ControllerState
  import opened ControllerRuns
  import opened ControllerSafety

  /** This goroutine will close the done channel of generation g, or is about to start the
      goroutine that will. */
  predicate Carries(thread: Thread, g: nat) {
    match thread
    case StartingMonitor(x) => x == g
    case Monitoring(x) => x == g
    case AutoEnter(x, closes) => closes && x == g
    case Closing(x) => x == g
    case Owner(role, x, _) => role == RestoreRole(true) && x == g
    case _ => false
  }

  ghost predicate Carried(s: Sys, g: nat) {
    exists t: nat :: t in s.threads && Carries(s.threads[t], g)
  }

  /** What the slot owner still has to wait for. */
  predicate PcAwaits(pc: Pc, g: nat) {
    (pc.CancelMonitor? && pc.done == Some(g)) || (pc.AwaitMonitor? && pc.awaited == g)
  }

  /** The done channel of generation g is still held by the controller or by the slot owner. */
  ghost predicate Awaited(s: Sys, g: nat) {
    || s.c.monitorDone == Some(g)
    || (exists t: nat :: t in s.threads && s.threads[t].Owner? && PcAwaits(s.threads[t].pc, g))
  }

  /** Generations that no later commit can use again. */
  predicate Spent(c: Fields, g: nat) {
    g < c.generation || (g == c.generation && (c.transition.Some? ==> c.transition.value.kind != ConnectKind))
  }

  predicate Settled(s: Sys, g: nat) { g in s.closed || g in s.orphaned }

  ghost predicate MonitorsOk(s: Sys) {
    && (forall g: nat :: Awaited(s, g) ==> Settled(s, g) || Carried(s, g))
    && (forall t: nat :: t in s.threads && s.threads[t].Owner? && s.threads[t].pc.AwaitMonitor? ==> s.threads[t].pc.awaited in s.cancelled)
    && (forall t: nat, u: nat, g: nat :: t in s.threads && u in s.threads && Carries(s.threads[t], g) && Carries(s.threads[u], g) ==> t == u)
    && (forall t: nat, g: nat :: t in s.threads && Carries(s.threads[t], g) ==> Spent(s.c, g) && !Settled(s, g))
    && (forall g: nat :: Settled(s, g) ==> Spent(s.c, g))
    && s.closed !! s.orphaned
  }

  /** A step that settles no channel, in which one thread keeps what it carries. */
  lemma QuietStep(s: Sys, t: Sys, tid: nat)
    requires MonitorsOk(s) && tid in t.threads && t.threads == s.threads[tid := t.threads[tid]]
    requires t.closed == s.closed && t.orphaned == s.orphaned && s.cancelled <= t.cancelled
    requires forall g: nat :: Carries(t.threads[tid], g) <==> tid in s.threads && Carries(s.threads[tid], g)
    requires forall g: nat :: Spent(s.c, g) ==> Spent(t.c, g)
    requires t.c.monitorDone == s.c.monitorDone || t.c.monitorDone.None?
    requires t.threads[tid].Owner? ==>
               forall g: nat :: PcAwaits(t.threads[tid].pc, g) ==> Awaited(s, g) && (t.threads[tid].pc.AwaitMonitor? ==> g in t.cancelled)
    ensures MonitorsOk(t)
  {
    forall g: nat | Carried(s, g) ensures Carried(t, g) {
      var u: nat :| u in s.threads && Carries(s.threads[u], g);
      assert Carries(t.threads[u], g);
    }
    forall g: nat | Awaited(t, g) ensures Awaited(s, g) {
      if t.c.monitorDone != Some(g) {
        var u: nat :| u in t.threads && t.threads[u].Owner? && PcAwaits(t.threads[u].pc, g);
        if u != tid { assert u in s.threads; }
      }
    }
    if t.threads[tid].Owner? && t.threads[tid].pc.AwaitMonitor? {
      assert PcAwaits(t.threads[tid].pc, t.threads[tid].pc.awaited);
    }
    forall u: nat, g: nat | u in t.threads && Carries(t.threads[u], g) ensures Spent(t.c, g) && !Settled(t, g) {
      assert u in s.threads && Carries(s.threads[u], g);
      assert Spent(s.c, g) && !Settled(s, g);
    }
  }

  lemma OwnerMoveKeepsMonitors(s: Sys, tid: nat, ch: Choice)
    requires Inv(s) && MonitorsOk(s) && RunEnabled(s, tid, ch) && s.threads[tid].Owner? && !s.threads[tid].pc.Commit?
    ensures MonitorsOk(OwnerStep(s, tid, ch))
  {
    var t := OwnerStep(s, tid, ch);
    var pc := s.threads[tid].pc;
    MovesKeepFrame(s.c, s.known, s.threads[tid].role, pc, ch);
    SlotFacts(s);
    assert MonitorPcOk(s.c, s.threads[tid].role, pc);
    forall g: nat | PcAwaits(t.threads[tid].pc, g)
      ensures Awaited(s, g) && (t.threads[tid].pc.AwaitMonitor? ==> g in t.cancelled)
    {
      if !pc.Detach? { assert PcAwaits(pc, g); }
    }
    QuietStep(s, t, tid);
  }

  lemma CommitKeepsMonitors(s: Sys, tid: nat, ch: Choice)
    requires Inv(s) && MonitorsOk(s) && RunEnabled(s, tid, ch) && s.threads[tid].Owner? && s.threads[tid].pc.Commit?
    ensures MonitorsOk(CommitStep(s, tid, ch))
  {
    var t := CommitStep(s, tid, ch);
    SlotFacts(s);
    var g := s.c.generation;
    if t.threads[tid].StartingMonitor? {
      assert Carries(t.threads[tid], g) && !Spent(s.c, g);
      forall h: nat | Carried(s, h) ensures Carried(t, h) {
        var u: nat :| u in s.threads && Carries(s.threads[u], h);
        assert Carries(t.threads[u], h);
      }
      forall u: nat, h: nat | u in t.threads && Carries(t.threads[u], h) ensures Spent(t.c, h) && !Settled(t, h) {
        if u != tid {
          assert u in s.threads && Carries(s.threads[u], h);
          assert Spent(s.c, h) && !Settled(s, h);
        }
      }
      forall h: nat | Settled(t, h) ensures Spent(t.c, h) { assert Settled(s, h) && Spent(s.c, h); }
      assert forall u: nat :: u in t.threads ==> !t.threads[u].Owner?;
      assert forall h: nat :: Awaited(t, h) ==> h == g;
    } else {
      QuietStep(s, t, tid);
    }
  }

  lemma EnterKeepsMonitors(s: Sys, tid: nat, request: Request)
    requires Inv(s) && MonitorsOk(s) && tid in s.threads && s.threads[tid] == Entering(request)
    ensures MonitorsOk(EnterStep(s, tid, request))
  {
    QuietStep(s, EnterStep(s, tid, request), tid);
  }

  /** A runtime monitor is started: another goroutine carries the channel, or nobody does. */
  lemma StartKeepsMonitors(s: Sys, tid: nat, ch: Choice)
    requires Inv(s) && MonitorsOk(s) && RunEnabled(s, tid, ch) && s.threads[tid].StartingMonitor?
    ensures MonitorsOk(RunStep(s, tid, ch))
  {
    var t := RunStep(s, tid, ch);
    var g := s.threads[tid].generation;
    assert Carries(s.threads[tid], g) && Spent(s.c, g) && !Settled(s, g);
    forall h: nat | Settled(t, h) ensures Spent(t.c, h) { assert h == g || Settled(s, h); }
    if ch.ok { assert Carries(t.threads[ch.id], g); }
    forall h: nat | Carried(s, h) && h != g ensures Carried(t, h) {
      var u: nat :| u in s.threads && Carries(s.threads[u], h);
      assert Carries(t.threads[u], h);
    }
    forall u: nat, h: nat | u in t.threads && Carries(t.threads[u], h) ensures Spent(t.c, h) && !Settled(t, h) {
      var v := if u in s.threads then u else tid;
      assert v in s.threads && Carries(s.threads[v], h);
      assert Spent(s.c, h) && !Settled(s, h);
    }
    forall h: nat | Awaited(t, h) ensures Awaited(s, h) {
      if t.c.monitorDone != Some(h) {
        var u: nat :| u in t.threads && t.threads[u].Owner? && PcAwaits(t.threads[u].pc, h);
        assert u in s.threads && s.threads[u].Owner?;
      }
    }
  }

  lemma CloseKeepsMonitors(s: Sys, tid: nat, ch: Choice)
    requires Inv(s) && MonitorsOk(s) && RunEnabled(s, tid, ch) && s.threads[tid].Closing?
    ensures MonitorsOk(RunStep(s, tid, ch))
  {
    var t := RunStep(s, tid, ch);
    var g := s.threads[tid].generation;
    assert Carries(s.threads[tid], g) && Spent(s.c, g) && !Settled(s, g);
    forall h: nat | Settled(t, h) ensures Spent(t.c, h) { assert h == g || Settled(s, h); }
    forall h: nat | Carried(s, h) && h != g ensures Carried(t, h) {
      var u: nat :| u in s.threads && Carries(s.threads[u], h);
      assert Carries(t.threads[u], h);
    }
    forall u: nat, h: nat | u in t.threads && Carries(t.threads[u], h) ensures Spent(t.c, h) && !Settled(t, h) {
      var v := if u in s.threads then u else tid;
      assert v in s.threads && Carries(s.threads[v], h);
      assert Spent(s.c, h) && !Settled(s, h);
    }
    forall h: nat | Awaited(t, h) ensures Awaited(s, h) {
      if t.c.monitorDone != Some(h) {
        var u: nat :| u in t.threads && t.threads[u].Owner? && PcAwaits(t.threads[u].pc, h);
        assert u in s.threads && s.threads[u].Owner?;
      }
    }
  }

  lemma RunKeepsMonitorsOk(s: Sys, tid: nat, ch: Choice)
    requires Inv(s) && MonitorsOk(s) && RunEnabled(s, tid, ch)
    ensures MonitorsOk(RunStep(s, tid, ch))
  {
    match s.threads[tid]
    case Entering(request) => EnterKeepsMonitors(s, tid, request);
    case Owner(_, _, pc) =>
      if pc.Commit? { CommitKeepsMonitors(s, tid, ch); } else { OwnerMoveKeepsMonitors(s, tid, ch); }
    case StartingMonitor(_) => StartKeepsMonitors(s, tid, ch);
    case Closing(_) => CloseKeepsMonitors(s, tid, ch);
    case Returned =>
    case _ => QuietStep(s, RunStep(s, tid, ch), tid);
  }

  lemma StepKeepsMonitors(s: Sys, a: Action)
    requires Inv(s) && MonitorsOk(s) && Enabled(s, a)
    ensures Inv(Next(s, a)) && MonitorsOk(Next(s, a))
  {
    StepKeeps(s, a);
    match a
    case Arrive(tid, _) => QuietStep(s, Next(s, a), tid);
    case Probe(_, _) =>
      var t := Next(s, a);
      assert t == s.(c := t.c) && t.c == s.c.(quality := t.c.quality);
      forall g: nat | Carried(s, g) ensures Carried(t, g) {}
      forall g: nat | Awaited(t, g) ensures Awaited(s, g) {}
      forall u: nat, g: nat | u in t.threads && Carries(t.threads[u], g) ensures Spent(t.c, g) && !Settled(t, g) {
        assert Spent(s.c, g) && !Settled(s, g);
      }
      forall g: nat | Settled(t, g) ensures Spent(t.c, g) { assert Settled(s, g) && Spent(s.c, g); }
    case Run(tid, ch) => RunKeepsMonitorsOk(s, tid, ch);
  }

  lemma {:induction false} RunKeepsMonitors(states: seq<Sys>, actions: seq<Action>, i: nat)
    requires IsRun(states, actions) && i < |states|
    ensures Inv(states[i]) && MonitorsOk(states[i])
  {
    if i > 0 {
      RunKeepsMonitors(states, actions, i - 1);
      assert Enabled(states[i - 1], actions[i - 1]) && states[i - 1 + 1] == Next(states[i - 1], actions[i - 1]);
      StepKeepsMonitors(states[i - 1], actions[i - 1]);
    }
  }

  // ---- No thread is blocked forever ----

  /** The thread can step without the environment deciding in its favour; dependency calls
      return. A monitor only has to step once its context was cancelled. */
  predicate Ready(s: Sys, t: nat) {
    && t in s.threads
    && match s.threads[t]
       case Waiting(_, owner, _) => Free(s.c, owner)
       case Owner(_, _, pc) => pc.AwaitMonitor? ==> pc.awaited in s.closed
       case Monitoring(g) => g in s.cancelled
       case Returned => false
       case _ => true
  }

  lemma FreshId(xs: set<nat>) returns (x: nat)
    ensures forall y :: y in xs ==> y < x
  {
    if xs == {} { return 0; }
    var z :| z in xs;
    var below := FreshId(xs - {z});
    x := if z < below then below else z + 1;
    assert forall y :: y in xs ==> y == z || y in xs - {z};
  }

  lemma ReadyCanRun(s: Sys, t: nat) returns (ch: Choice)
    requires Ready(s, t)
    ensures RunEnabled(s, t, ch)
  {
    var x := FreshId(s.threads.Keys + s.known.started);
    return Choice(true, true, true, x, 0);
  }

  /** The slot owner waits for the monitor of a generation whose StartMonitor failed. */
  predicate AwaitsOrphan(s: Sys) {
    && s.c.transition.Some? && s.c.transition.value.owner in s.threads
    && var owner := s.threads[s.c.transition.value.owner];
       owner.Owner? && owner.pc.AwaitMonitor? && owner.pc.awaited in s.orphaned
  }

  /** Every blocked thread waits, directly or through the slot owner, on a thread that is
      ready: a blocked client on the slot owner, a blocked owner on the goroutine that will
      close the detached monitor's done channel. */
  lemma NobodyBlockedForever(states: seq<Sys>, actions: seq<Action>, i: nat, t: nat) returns (u: nat, ch: Choice)
    requires IsRun(states, actions) && i < |states|
    requires !AwaitsOrphan(states[i])
    requires t in states[i].threads && !states[i].threads[t].Returned? && !states[i].threads[t].Monitoring?
    ensures var s := states[i];
            && Ready(s, u) && RunEnabled(s, u, ch)
            && (|| u == t
                || (s.c.transition.Some? && s.c.transition.value.owner == u)
                || (&& s.c.transition.Some? && s.c.transition.value.owner in s.threads
                    && s.threads[s.c.transition.value.owner].Owner?
                    && (s.threads[t].Owner? ==> s.c.transition.value.owner == t)
                    && var pc := s.threads[s.c.transition.value.owner].pc;
                       pc.AwaitMonitor? && Carries(s.threads[u], pc.awaited)))
  {
    RunKeepsMonitors(states, actions, i);
    var s := states[i];
    SlotFacts(s);
    u := t;
    if !Ready(s, t) {
      assert s.c.transition.Some?;
      u := s.c.transition.value.owner;
      if !Ready(s, u) {
        var g := s.threads[u].pc.awaited;
        assert s.threads[u].Owner? && PcAwaits(s.threads[u].pc, g);
        assert Awaited(s, g);
        u :| u in s.threads && Carries(s.threads[u], g);
      }
    }
    ch := ReadyCanRun(s, u);
  }

  /** A monitor, and the restore it runs, never waits for a monitor's done channel. */
  lemma MonitorNeverAwaitsAMonitor(states: seq<Sys>, actions: seq<Action>, i: nat, t: nat)
    requires IsRun(states, actions) && i < |states|
    requires t in states[i].threads && states[i].threads[t].Owner? && states[i].threads[t].role.RestoreRole?
    ensures !states[i].threads[t].pc.AwaitMonitor?
  {
    RunIsSafe(states, actions, i);
    SlotFacts(states[i]);
  }

  /** stopLifecycleMonitor hands the monitor over: while the slot owner holds its handle the
      fields hold none, and it is cancelled before it is awaited. */
  lemma DetachedMonitorIsHeldOnce(states: seq<Sys>, actions: seq<Action>, i: nat, t: nat)
    requires IsRun(states, actions) && i < |states|
    requires t in states[i].threads && states[i].threads[t].Owner?
    ensures var s, pc := states[i], states[i].threads[t].pc;
            && (pc.CancelMonitor? || pc.AwaitMonitor? ==> NoMonitor(s.c))
            && (pc.CancelMonitor? ==> pc.cancel == pc.done)
            && (pc.AwaitMonitor? ==> pc.awaited in s.cancelled && (pc.awaited in s.closed || pc.awaited in s.orphaned || Carried(s, pc.awaited)))
  {
    RunKeepsMonitors(states, actions, i);
    SlotFacts(states[i]);
    var s, pc := states[i], states[i].threads[t].pc;
    if pc.AwaitMonitor? {
      assert PcAwaits(pc, pc.awaited);
      assert Awaited(s, pc.awaited);
    }
  }

  /** How many own steps a slot owner has left at most, waiting aside. */
  function Remaining(pc: Pc): nat {
    match pc
    case CheckContext => 20
    case ReadProcess => 19
    case Validate => 18
    case PrepareNetwork => 17
    case CaptureNetwork => 16
    case KeepSnapshot(_) => 15
    case EnableProtection(_) => 14
    case RenderConfig(_) => 13
    case StartCore(_) => 12
    case AwaitReady(_, _) => 11
    case AwaitTun(_, _) => 10
    case ActivateRoutes(_, _) => 9
    case ReadFields => 9
    case CancelOwnMonitor(_, _) => 9
    case Detach(_) => 8
    case CancelMonitor(_, _, _) => 7
    case AwaitMonitor(_, _) => 6
    case StopCore(_) => 5
    case RestoreNetwork(_) => 4
    case CheckResidue(_) => 3
    case Commit(_) => 2
  }

  lemma MovesGoOn(c: Fields, k: Known, role: Role, pc: Pc, ch: Choice)
    requires !pc.Commit?
    ensures Remaining(OwnerMove(c, k, role, pc, ch).pc) < Remaining(pc)
  {
  }

  /** A transition ends: each step of its owner frees the slot or brings the owner closer to
      freeing it, and no other step moves the owner or takes its slot. */
  lemma OwnerMovesOn(s: Sys, a: Action, owner: nat)
    requires Inv(s) && Enabled(s, a) && owner in s.threads && s.threads[owner].Owner?
    ensures var t := Next(s, a);
            if a.Run? && a.tid == owner then
              || t.c.transition.None?
              || (t.threads[owner].Owner? && Remaining(t.threads[owner].pc) < Remaining(s.threads[owner].pc))
            else owner in t.threads && t.threads[owner] == s.threads[owner] && t.c.transition == s.c.transition
  {
    SlotFacts(s);
    if a.Run? && a.tid == owner && !s.threads[owner].pc.Commit? {
      var thread := s.threads[owner];
      MovesKeepFrame(s.c, s.known, thread.role, thread.pc, a.choice);
      MovesGoOn(s.c, s.known, thread.role, thread.pc, a.choice);
    }
  }

  /** The goroutine a slot owner waits for closes the channel within four of its own steps. */
  function Distance(thread: Thread): nat {
    match thread
    case StartingMonitor(_) => 4
    case Monitoring(_) => 3
    case AutoEnter(_, _) => 2
    case Closing(_) => 1
    case _ => 0
  }

  lemma CarrierMovesOn(s: Sys, u: nat, ch: Choice, g: nat)
    requires Inv(s) && MonitorsOk(s) && RunEnabled(s, u, ch) && Carries(s.threads[u], g)
    requires s.c.transition.Some? && s.threads[s.c.transition.value.owner].pc.AwaitMonitor?
    ensures var t := RunStep(s, u, ch);
            || g in t.closed || g in t.orphaned
            || (exists v: nat :: v in t.threads && Carries(t.threads[v], g) && Distance(t.threads[v]) < Distance(s.threads[u]))
  {
    SlotFacts(s);
    var t := RunStep(s, u, ch);
    match s.threads[u]
    case StartingMonitor(_) => if ch.ok { assert Carries(t.threads[ch.id], g); }
    case Monitoring(_) => assert Carries(t.threads[u], g);
    case AutoEnter(_, _) => assert Carries(t.threads[u], g);
    case _ =>
  }

  // ---- The stuck disconnect ----

  /** The slot owner waits for a channel that nobody will close. */
  ghost predicate Stuck(s: Sys, owner: nat, g: nat) {
    && owner in s.threads && s.threads[owner].Owner?
    && s.threads[owner].pc.AwaitMonitor? && s.threads[owner].pc.awaited == g
    && g !in s.closed && !Carried(s, g)
  }

  /** Exactly the failed StartMonitor of that generation makes the wait endless. */
  lemma StuckIffStartMonitorFailed(states: seq<Sys>, actions: seq<Action>, i: nat, owner: nat)
    requires IsRun(states, actions) && i < |states|
    requires owner in states[i].threads && states[i].threads[owner].Owner? && states[i].threads[owner].pc.AwaitMonitor?
    ensures var g := states[i].threads[owner].pc.awaited;
            Stuck(states[i], owner, g) <==> g in states[i].orphaned
  {
    RunKeepsMonitors(states, actions, i);
    var s, g := states[i], states[i].threads[owner].pc.awaited;
    assert PcAwaits(s.threads[owner].pc, g);
    assert Awaited(s, g);
    assert forall u: nat :: u in s.threads && Carries(s.threads[u], g) ==> !Settled(s, g);
    assert Settled(s, g) <==> g in s.closed || g in s.orphaned;
  }

  lemma StuckStays(s: Sys, a: Action, owner: nat, g: nat)
    requires Inv(s) && MonitorsOk(s) && Stuck(s, owner, g) && Enabled(s, a)
    ensures Stuck(Next(s, a), owner, g) && Next(s, a).c.transition == s.c.transition
  {
    SlotFacts(s);
    var t := Next(s, a);
    forall u: nat | u in t.threads ensures !Carries(t.threads[u], g) {
      if u in s.threads { assert !Carries(s.threads[u], g); }
      if a.Run? { assert !Carries(s.threads[a.tid], g); }
    }
  }

  lemma StuckNext(states: seq<Sys>, actions: seq<Action>, j: nat, owner: nat, g: nat)
    requires IsRun(states, actions) && j < |actions| && Stuck(states[j], owner, g)
    ensures Stuck(states[j + 1], owner, g) && states[j + 1].c.transition == states[j].c.transition
  {
    RunKeepsMonitors(states, actions, j);
    assert Enabled(states[j], actions[j]) && states[j + 1] == Next(states[j], actions[j]);
    StuckStays(states[j], actions[j], owner, g);
  }

  /** No continuation of the run ever frees the slot again. */
  lemma {:induction false} StuckForever(states: seq<Sys>, actions: seq<Action>, i: nat, j: nat, owner: nat, g: nat)
    requires IsRun(states, actions) && i <= j < |states| && Stuck(states[i], owner, g)
    ensures Stuck(states[j], owner, g) && states[j].c.transition == states[i].c.transition
  {
    if i < j {
      StuckForever(states, actions, i, j - 1, owner, g);
      StuckNext(states, actions, j - 1, owner, g);
    }
  }
}
