/** The mutex-guarded state of the connection controller and its critical sections.

    Every section of `internal/agent/controller.go` between `c.mu.Lock()` and
    `c.mu.Unlock()` is one atomic step. Each appears twice: as a function on the value
    `Fields`, used by the interleaving model in `ControllerRuns`, and as a method of the
    class `Controller` that updates the fields in place and is proved equal to it. */
module ControllerState {
  import opened Wrappers

  datatype State = Disconnected | Prepared | Connecting | Connected | Restoring | FailedSafe

  datatype Kind = ConnectKind | DisconnectKind | RestoreKind

  /** The active transition. Its `done` channel is identified by the goroutine that
      opened it: a goroutine opens at most one transition in its life. */
  datatype Slot = Slot(kind: Kind, owner: nat)

  const UNKNOWN := "unknown"
  const GOOD := "good"
  const SLOW := "slow"
  const FAILED := "failed"

  /** `snapshot` stands for the pair (snapshot, hasSnapshot). A runtime monitor's context
      and done channel are identified by the generation that created them. */
  datatype Fields = Fields(
    state: State,
    generation: nat,
    transition: Option<Slot>,
    snapshot: Option<nat>,
    processStarted: bool,
    instance: Option<nat>,
    monitorCancel: Option<nat>,
    monitorDone: Option<nat>,
    reconciled: bool,
    quality: string,
    connectedAt: Option<int>)

  const INITIAL := Fields(Disconnected, 0, None, None, false, None, None, None, false, UNKNOWN, None)

  /** What the section at the top of the Connect and disconnect loops decides. */
  datatype Entry =
    | Finish(state: State)
    | Join(owner: nat)
    | Await(owner: nat)
    | Begin

  /** What a connect, disconnect or restore transaction hands to its final section. */
  datatype Outcome = Outcome(
    state: State,
    restored: bool,
    instance: Option<nat>,
    processStarted: bool,
    snapshot: Option<nat>)

  function ConnectEnter(f: Fields, me: nat): (Fields, Entry) {
    if f.state == Connected && f.transition.None? then (f, Finish(Connected))
    else if f.state == FailedSafe && f.transition.None? then (f, Finish(FailedSafe))
    else if f.transition.Some? then
      var active := f.transition.value;
      (f, if active.kind == ConnectKind then Join(active.owner) else Await(active.owner))
    else
      (f.(generation := f.generation + 1, quality := UNKNOWN, connectedAt := None,
          transition := Some(Slot(ConnectKind, me)), state := Connecting), Begin)
  }

  function DisconnectEnter(f: Fields, me: nat, recovery: bool): (Fields, Entry) {
    if f.transition.Some? then (f, Await(f.transition.value.owner))
    else if recovery && f.reconciled && f.snapshot.None? && !f.processStarted then (f, Finish(f.state))
    else
      (f.(generation := f.generation + 1, quality := UNKNOWN, connectedAt := None,
          transition := Some(Slot(DisconnectKind, me)), state := Restoring), Begin)
  }

  function ConnectCommit(f: Fields, generation: nat, outcome: Outcome, now: int): Fields {
    var stored :=
      if f.generation == generation then
        f.(state := outcome.state,
           connectedAt := if outcome.state == Connected then Some(now) else f.connectedAt,
           processStarted := outcome.processStarted,
           instance := outcome.instance,
           snapshot := outcome.snapshot,
           reconciled := f.reconciled || outcome.restored)
      else f;
    var watched :=
      if outcome.state == Connected && f.generation == generation then
        stored.(monitorCancel := Some(generation), monitorDone := Some(generation))
      else stored;
    watched.(transition := None)
  }

  function DisconnectCommit(f: Fields, generation: nat, outcome: Outcome): Fields {
    var stored :=
      if f.generation == generation then
        var g := f.(state := outcome.state);
        if outcome.restored then
          g.(snapshot := None, processStarted := false, instance := None, reconciled := true)
        else g
      else f;
    stored.(transition := None)
  }

  /** Whether an automatic restore for `generation` may take the slot. */
  predicate MayRestore(f: Fields, generation: nat) {
    f.generation == generation && f.state == Connected && f.transition.None?
  }

  function RestoreEnter(f: Fields, me: nat): Fields {
    f.(transition := Some(Slot(RestoreKind, me)), state := Restoring, quality := UNKNOWN,
       connectedAt := None, monitorCancel := None, monitorDone := None)
  }

  function StoreSnapshot(f: Fields, snapshot: nat): Fields {
    f.(snapshot := Some(snapshot))
  }

  function DetachMonitor(f: Fields): Fields {
    f.(monitorCancel := None, monitorDone := None)
  }

  predicate KnownQuality(quality: string) {
    quality == UNKNOWN || quality == GOOD || quality == SLOW || quality == FAILED
  }

  function PublishQuality(f: Fields, generation: nat, quality: string): (Fields, bool) {
    if KnownQuality(quality) && generation == f.generation && f.state == Connected
    then (f.(quality := quality), true)
    else (f, false)
  }

  class Controller {
    var state: State
    var generation: nat
    var transition: Option<Slot>
    var snapshot: Option<nat>
    var processStarted: bool
    var instance: Option<nat>
    var monitorCancel: Option<nat>
    var monitorDone: Option<nat>
    var reconciled: bool
    var quality: string
    var connectedAt: Option<int>

    ghost function View(): Fields
      reads this
    {
      Fields(state, generation, transition, snapshot, processStarted, instance,
             monitorCancel, monitorDone, reconciled, quality, connectedAt)
    }

    constructor ()
      ensures View() == INITIAL
    {
      state, generation, transition, snapshot := Disconnected, 0, None, None;
      processStarted, instance, monitorCancel, monitorDone := false, None, None, None;
      reconciled, quality, connectedAt := false, UNKNOWN, None;
    }

    method EnterConnect(me: nat) returns (entry: Entry)
      modifies this
      ensures (View(), entry) == ConnectEnter(old(View()), me)
    {
      if state == Connected && transition.None? { return Finish(state); }
      if state == FailedSafe && transition.None? { return Finish(state); }
      if transition.Some? {
        var active := transition.value;
        if active.kind == ConnectKind { return Join(active.owner); }
        return Await(active.owner);
      }
      generation := generation + 1;
      quality := UNKNOWN;
      connectedAt := None;
      transition := Some(Slot(ConnectKind, me));
      state := Connecting;
      return Begin;
    }

    method EnterDisconnect(me: nat, recovery: bool) returns (entry: Entry)
      modifies this
      ensures (View(), entry) == DisconnectEnter(old(View()), me, recovery)
    {
      if transition.Some? { return Await(transition.value.owner); }
      if recovery && reconciled && snapshot.None? && !processStarted { return Finish(state); }
      generation := generation + 1;
      quality := UNKNOWN;
      connectedAt := None;
      transition := Some(Slot(DisconnectKind, me));
      state := Restoring;
      return Begin;
    }

    method CommitConnect(owned: nat, outcome: Outcome, now: int)
      modifies this
      ensures View() == ConnectCommit(old(View()), owned, outcome, now)
    {
      if generation == owned {
        state := outcome.state;
        if outcome.state == Connected { connectedAt := Some(now); }
        processStarted := outcome.processStarted;
        instance := outcome.instance;
        snapshot := outcome.snapshot;
        if outcome.restored { reconciled := true; }
      }
      if outcome.state == Connected && generation == owned {
        monitorCancel := Some(owned);
        monitorDone := Some(owned);
      }
      transition := None;
    }

    method CommitDisconnect(owned: nat, outcome: Outcome)
      modifies this
      ensures View() == DisconnectCommit(old(View()), owned, outcome)
    {
      if generation == owned {
        state := outcome.state;
        if outcome.restored {
          snapshot := None;
          processStarted := false;
          instance := None;
          reconciled := true;
        }
      }
      transition := None;
    }

    method EnterAutomaticRestore(me: nat, owned: nat) returns (taken: bool, cancel: Option<nat>)
      modifies this
      ensures taken == MayRestore(old(View()), owned)
      ensures View() == if taken then RestoreEnter(old(View()), me) else old(View())
      ensures taken ==> cancel == old(monitorCancel)
    {
      cancel := None;
      if generation != owned || state != Connected { return false, cancel; }
      if transition.Some? { return false, cancel; }
      transition := Some(Slot(RestoreKind, me));
      state := Restoring;
      quality := UNKNOWN;
      connectedAt := None;
      cancel := monitorCancel;
      monitorCancel := None;
      monitorDone := None;
      return true, cancel;
    }

    method KeepSnapshot(captured: nat)
      modifies this
      ensures View() == StoreSnapshot(old(View()), captured)
    {
      snapshot := Some(captured);
    }

    method StopLifecycleMonitor() returns (cancel: Option<nat>, done: Option<nat>)
      modifies this
      ensures View() == DetachMonitor(old(View()))
      ensures cancel == old(monitorCancel) && done == old(monitorDone)
    {
      cancel, done := monitorCancel, monitorDone;
      monitorCancel, monitorDone := None, None;
    }

    method UpdateLineQuality(owned: nat, value: string) returns (accepted: bool)
      modifies this
      ensures (View(), accepted) == PublishQuality(old(View()), owned, value)
    {
      if value != UNKNOWN && value != GOOD && value != SLOW && value != FAILED { return false; }
      if owned != generation || state != Connected { return false; }
      quality := value;
      return true;
    }
  }
}
