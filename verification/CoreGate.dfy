/** The ownership gate of the macOS core: `internal/platform/darwin/process_recovery_darwin.go`
    and the supervisor of `process_darwin.go`.

    One agent at a time (it holds the daemon lock) recovers the core of its predecessor, then
    starts and stops cores of its own. Processes, other programs, crashes of the agent and
    reboots interleave with its steps. A failing step may have taken effect. */
module CoreGate {
  import opened Wrappers

  /** The durable record, and what the kernel reports of a process. */
  datatype Record = Record(boot: nat, pid: int, start: nat)

  /** A helper waits at its gate; it becomes the core by exec. */
  datatype Image = Helper | Core | Foreign

  /** `released` says the byte is in the gate, `writer` that its write end is open. A process
      that is not live is a zombie. */
  datatype Proc = Proc(start: nat, group: int, image: Image, live: bool, released: bool, writer: bool)

  datatype Agent =
    | Down
    | Startup
    | Loaded(who: Record)     // recovery read this record
    | SameBoot(who: Record)
    | Matched(who: Record)
    | Rematched(who: Record)
    | Signaled(who: Record)
    | Removing(who: Record)   // recovery may remove it
    | Idle
    | Checked                 // Start found no record
    | Spawned(who: Record)
    | Inspected(who: Record)
    | Saving(who: Record)     // no record was there just before
    | Saved(who: Record)
    | Watching(who: Record)   // the supervising goroutine runs
    | Emptied(who: Record)    // it found the group without live members
    | Reaped(who: Record)
    | Unproven(who: Record)

  datatype Event = BootMatched(who: Record) | IdentityMatched(who: Record) | Signal(who: Record)

  datatype State = State(boot: nat, clock: nat, procs: map<int, Proc>, record: Option<Record>, agent: Agent, log: seq<Event>)

  datatype Action =
    // other programs, processes and the machine
    | ForeignStarts(pid: int) | CoreForks(pid: int, child: int) | Exits(pid: int) | IsReaped(pid: int)
    | Execs(pid: int) | SeesEof(pid: int) | Crash | Reboot | Restart
    // recovery
    | LoadRecord | CompareBoot | LookFirst | LookAgain | SendKill | FindEmpty | RemoveRecord(done: bool, ok: bool) | GiveUp
    // starting
    | CheckRecord | Spawn(pid: int) | Inspect | CheckAgain | Rename(done: bool, ok: bool) | Release(done: bool, ok: bool) | FailStart
    // supervising
    | CloseGate | SignalOwn | Audit | Wait | StopFails | RemoveProven(done: bool, ok: bool)

  // ---- What the agent can observe ----

  predicate GroupEmpty(s: State, group: int) {
    forall p :: p in s.procs && s.procs[p].live ==> s.procs[p].group != group
  }

  /** inspectCore: only a live leader of its own group that runs the helper or the core has an
      identity; for a missing process it is None. */
  predicate IdentityIs(s: State, who: Record) {
    && who.pid in s.procs && s.procs[who.pid].live
    && s.procs[who.pid].group == who.pid && s.procs[who.pid].image != Foreign
    && who == Record(s.boot, who.pid, s.procs[who.pid].start)
  }

  predicate Missing(s: State, pid: int) { pid !in s.procs }

  predicate Unused(s: State, pid: int) {
    pid > 1 && pid !in s.procs && forall p :: p in s.procs ==> s.procs[p].group != pid
  }

  /** The agent has not waited for this child yet, so its number is not used again. */
  predicate HasChild(a: Agent) {
    a.Spawned? || a.Inspected? || a.Saving? || a.Saved? || a.Watching? || a.Emptied?
  }

  predicate Reserves(a: Agent, pid: int) { HasChild(a) && a.who.pid == pid }

  predicate Supervising(a: Agent) { a.Watching? || a.Emptied? || a.Reaped? || a.Unproven? }

  // ---- Steps ----

  predicate Enabled(s: State, a: Action) {
    match a
    case ForeignStarts(pid) => Unused(s, pid)
    case CoreForks(pid, child) => pid in s.procs && s.procs[pid].live && s.procs[pid].image == Core && Unused(s, child)
    case Exits(pid) => pid in s.procs && s.procs[pid].live
    case IsReaped(pid) => pid in s.procs && !s.procs[pid].live && !Reserves(s.agent, pid)
    case Execs(pid) => pid in s.procs && s.procs[pid].live && s.procs[pid].image == Helper && s.procs[pid].released
    case SeesEof(pid) => pid in s.procs && s.procs[pid].live && s.procs[pid].image == Helper && !s.procs[pid].released && !s.procs[pid].writer
    case Crash => s.agent != Down
    case Reboot => true
    case Restart => s.agent == Down
    case LoadRecord => s.agent == Startup
    case CompareBoot => s.agent.Loaded?
    case LookFirst => s.agent.SameBoot? && (IdentityIs(s, s.agent.who) || (Missing(s, s.agent.who.pid) && GroupEmpty(s, s.agent.who.pid)))
    case LookAgain => s.agent.Matched? && IdentityIs(s, s.agent.who)
    case SendKill => s.agent.Rematched?
    case FindEmpty => s.agent.Signaled? && GroupEmpty(s, s.agent.who.pid)
    case RemoveRecord(done, ok) => s.agent.Removing? && (ok ==> done)
    case GiveUp => s.agent.Startup? || s.agent.Loaded? || s.agent.SameBoot? || s.agent.Matched? || s.agent.Rematched? || s.agent.Signaled?
    case CheckRecord => s.agent == Idle && s.record == None
    case Spawn(pid) => s.agent == Checked && Unused(s, pid)
    case Inspect => s.agent.Spawned? && IdentityIs(s, Record(s.boot, s.agent.who.pid, if s.agent.who.pid in s.procs then s.procs[s.agent.who.pid].start else 0))
    case CheckAgain => s.agent.Inspected? && s.record == None
    case Rename(done, ok) => s.agent.Saving? && (ok ==> done)
    case Release(done, ok) => s.agent.Saved? && (ok ==> done)
    case FailStart => s.agent.Checked? || s.agent.Spawned? || s.agent.Inspected?
    case CloseGate => Supervising(s.agent) && s.agent.who.pid in s.procs
    case SignalOwn => s.agent.Watching?
    case Audit => s.agent.Watching? && GroupEmpty(s, s.agent.who.pid)
    case Wait => s.agent.Emptied?
    case StopFails => s.agent.Watching? || s.agent.Emptied?
    case RemoveProven(done, ok) => s.agent.Reaped? && (ok ==> done)
  }

  function CloseWriters(procs: map<int, Proc>): map<int, Proc> {
    map p | p in procs :: procs[p].(writer := false)
  }

  function Apply(s: State, a: Action): State
    requires Enabled(s, a)
  {
    match a
    case ForeignStarts(pid) => s.(procs := s.procs[pid := Proc(s.clock, pid, Foreign, true, false, false)], clock := s.clock + 1)
    case CoreForks(pid, child) =>
      s.(procs := s.procs[child := Proc(s.clock, s.procs[pid].group, Core, true, false, false)], clock := s.clock + 1)
    case Exits(pid) => s.(procs := s.procs[pid := s.procs[pid].(live := false)])
    case IsReaped(pid) => s.(procs := s.procs - {pid})
    case Execs(pid) => s.(procs := s.procs[pid := s.procs[pid].(image := Core)])
    case SeesEof(pid) => s.(procs := s.procs[pid := s.procs[pid].(live := false)])
    case Crash => s.(agent := Down, procs := CloseWriters(s.procs))
    case Reboot => s.(boot := s.boot + 1, procs := map[], agent := Down)
    case Restart => s.(agent := Startup)
    case LoadRecord => s.(agent := match s.record case Some(r) => Loaded(r) case None => Idle)
    case CompareBoot =>
      if s.boot == s.agent.who.boot then s.(agent := SameBoot(s.agent.who), log := s.log + [BootMatched(s.agent.who)])
      else s.(agent := Removing(s.agent.who))
    case LookFirst =>
      if Missing(s, s.agent.who.pid) then s.(agent := Removing(s.agent.who))
      else s.(agent := Matched(s.agent.who), log := s.log + [IdentityMatched(s.agent.who)])
    case LookAgain => s.(agent := Rematched(s.agent.who), log := s.log + [IdentityMatched(s.agent.who)])
    case SendKill => s.(agent := Signaled(s.agent.who), log := s.log + [Signal(s.agent.who)])
    case FindEmpty => s.(agent := Removing(s.agent.who))
    case RemoveRecord(done, ok) => s.(record := if done then None else s.record, agent := if ok then Idle else Down)
    case GiveUp => s.(agent := Down)
    case CheckRecord => s.(agent := Checked)
    case Spawn(pid) =>
      s.(procs := s.procs[pid := Proc(s.clock, pid, Helper, true, false, true)], clock := s.clock + 1,
         agent := Spawned(Record(s.boot, pid, s.clock)))
    case Inspect => s.(agent := Inspected(Record(s.boot, s.agent.who.pid, s.procs[s.agent.who.pid].start)))
    case CheckAgain => s.(agent := Saving(s.agent.who))
    case Rename(done, ok) =>
      s.(record := if done then Some(s.agent.who) else s.record, agent := if ok then Saved(s.agent.who) else Watching(s.agent.who))
    case Release(done, ok) =>
      s.(procs := if s.agent.who.pid in s.procs
                  then s.procs[s.agent.who.pid := s.procs[s.agent.who.pid].(released := done, writer := false)] else s.procs,
         agent := Watching(s.agent.who))
    case FailStart => s.(agent := if s.agent.Checked? then Idle else Watching(s.agent.who))
    case CloseGate => s.(procs := s.procs[s.agent.who.pid := s.procs[s.agent.who.pid].(writer := false)])
    case SignalOwn => s
    case Audit => s.(agent := Emptied(s.agent.who))
    case Wait => s.(procs := s.procs - {s.agent.who.pid}, agent := Reaped(s.agent.who))
    case StopFails => s.(agent := Unproven(s.agent.who))
    case RemoveProven(done, ok) => s.(record := if done then None else s.record, agent := if ok then Idle else Unproven(s.agent.who))
  }

  const FIRST := State(0, 0, map[], None, Down, [])

  predicate IsRun(s: State, actions: seq<Action>, t: State)
    decreases |actions|
  {
    if actions == [] then s == t else Enabled(s, actions[0]) && IsRun(Apply(s, actions[0]), actions[1..], t)
  }

  // ---- Invariant ----

  /** A process that runs the core, or that its gate lets run it. */
  predicate MayRunCore(p: Proc) { p.live && p.image != Foreign && (p.image == Core || p.released) }

  predicate NoCore(s: State) { forall p :: p in s.procs ==> !MayRunCore(s.procs[p]) }

  /** The record names this process's boot and group, and its start if it leads the group. */
  predicate NamedBy(s: State, p: int, r: Option<Record>)
    requires p in s.procs
  {
    r.Some? && r.value.boot == s.boot && r.value.pid == s.procs[p].group && (p == r.value.pid ==> s.procs[p].start == r.value.start)
  }

  predicate CoresAreRecorded(s: State) {
    forall p :: p in s.procs && MayRunCore(s.procs[p]) ==> NamedBy(s, p, s.record)
  }

  /** The agent's own child keeps its number until the agent has waited for it. */
  predicate ChildIsReserved(s: State) {
    HasChild(s.agent) ==> IsOwnChild(s, s.agent.who)
  }

  predicate IsOwnChild(s: State, who: Record) {
    && who.boot == s.boot && who.pid in s.procs && s.procs[who.pid].start == who.start
    && s.procs[who.pid].group == who.pid && s.procs[who.pid].image != Foreign
  }

  predicate AgentAgrees(s: State) {
    match s.agent
    case Loaded(r) => s.record == Some(r)
    case SameBoot(r) => s.record == Some(r) && EndsWithMatches(s.log, r, 0)
    case Matched(r) => s.record == Some(r) && EndsWithMatches(s.log, r, 1)
    case Rematched(r) => s.record == Some(r) && EndsWithMatches(s.log, r, 2)
    case Signaled(r) => s.record == Some(r)
    case Removing(r) => NoCore(s)
    case Checked => s.record == None
    case Spawned(r) => s.record == None
    case Inspected(r) => s.record == None
    case Saving(r) => s.record == None
    case Saved(r) => s.record == Some(r)
    case Watching(r) => s.record.Some? ==> s.record.value == r
    case Emptied(r) => (s.record.Some? ==> s.record.value == r) && GroupEmpty(s, r.pid)
    case Reaped(r) => NoCore(s)
    case _ => true
  }

  /** The log ends with a boot check of r and n matches of it. */
  predicate EndsWithMatches(log: seq<Event>, r: Record, n: nat) {
    && |log| > n && log[|log| - n - 1] == BootMatched(r)
    && forall i: nat :: |log| - n <= i < |log| ==> log[i] == IdentityMatched(r)
  }

  /** Each signal of a recovery directly follows a boot check and two matches of its target. */
  predicate SignalsAreJustified(log: seq<Event>) {
    forall i: nat :: i < |log| && log[i].Signal? ==> EndsWithMatches(log[..i], log[i].who, 2)
  }

  predicate Inv(s: State) {
    && CoresAreRecorded(s) && ChildIsReserved(s) && AgentAgrees(s) && SignalsAreJustified(s.log)
    && (forall p :: p in s.procs && s.procs[p].image == Helper ==> s.procs[p].group == p)
    && (forall p :: p in s.procs ==> s.procs[p].start < s.clock)
  }

  lemma JustifiedOneMore(log: seq<Event>, e: Event)
    requires SignalsAreJustified(log) && (e.Signal? ==> EndsWithMatches(log, e.who, 2))
    ensures SignalsAreJustified(log + [e])
  {
    forall i: nat | i < |log + [e]| && (log + [e])[i].Signal? ensures EndsWithMatches((log + [e])[..i], (log + [e])[i].who, 2) {
      assert (log + [e])[..i] == log[..i];
    }
  }

  // ---- Every step keeps it ----

  lemma StepKeeps(s: State, a: Action)
    requires Inv(s) && Enabled(s, a)
    ensures Inv(Apply(s, a))
  {
    if IsProcessStep(a) { ProcessStepKeeps(s, a); }
    else if IsLook(a) { LookKeeps(s, a); }
    else if IsStartStep(a) { StartStepKeeps(s, a); }
    else if IsStopStep(a) { StopStepKeeps(s, a); }
    else { OtherStepKeeps(s, a); }
  }

  predicate IsProcessStep(a: Action) {
    a.ForeignStarts? || a.CoreForks? || a.Exits? || a.IsReaped? || a.Execs? || a.SeesEof?
  }

  predicate IsLook(a: Action) { a.CompareBoot? || a.LookFirst? || a.LookAgain? || a.SendKill? }

  predicate IsStartStep(a: Action) {
    a.CheckRecord? || a.Spawn? || a.Inspect? || a.CheckAgain? || a.Rename? || a.Release? || a.FailStart?
  }

  predicate IsStopStep(a: Action) {
    a.CloseGate? || a.SignalOwn? || a.Audit? || a.Wait? || a.StopFails? || a.RemoveProven?
  }

  lemma ProcessStepKeeps(s: State, a: Action)
    requires Inv(s) && Enabled(s, a) && IsProcessStep(a)
    ensures Inv(Apply(s, a))
  {
  }

  /** The steps of a recovery that the log shows. */
  lemma LookKeeps(s: State, a: Action)
    requires Inv(s) && Enabled(s, a) && IsLook(a)
    ensures Inv(Apply(s, a))
  {
    LookIsLogged(s, a);
  }

  lemma LookIsLogged(s: State, a: Action)
    requires AgentAgrees(s) && CoresAreRecorded(s) && SignalsAreJustified(s.log) && Enabled(s, a) && IsLook(a)
    ensures AgentAgrees(Apply(s, a)) && SignalsAreJustified(Apply(s, a).log)
  {
    var t := Apply(s, a);
    if |t.log| > |s.log| {
      JustifiedOneMore(s.log, t.log[|s.log|]);
    }
  }

  lemma OtherStepKeeps(s: State, a: Action)
    requires Inv(s) && Enabled(s, a) && !IsProcessStep(a) && !IsLook(a) && !IsStartStep(a) && !IsStopStep(a)
    ensures Inv(Apply(s, a))
  {
  }

  lemma StartStepKeeps(s: State, a: Action)
    requires Inv(s) && Enabled(s, a) && IsStartStep(a)
    ensures Inv(Apply(s, a))
  {
  }

  lemma StopStepKeeps(s: State, a: Action)
    requires Inv(s) && Enabled(s, a) && IsStopStep(a)
    ensures Inv(Apply(s, a))
  {
  }

  // ---- What it means ----

  predicate IsLiveCore(s: State, p: int) { p in s.procs && s.procs[p].live && s.procs[p].image == Core }

  lemma {:induction false} RunKeeps(s: State, actions: seq<Action>, t: State)
    requires Inv(s) && IsRun(s, actions, t)
    ensures Inv(t)
    decreases |actions|
  {
    if actions != [] {
      StepKeeps(s, actions[0]);
      RunKeeps(Apply(s, actions[0]), actions[1..], t);
    }
  }

  /** In every run: each live core is named by the durable record, all live cores are one group,
      and no recovery sent a signal without a boot check and two matches just before it. */
  lemma RunIsSafe(actions: seq<Action>, s: State)
    requires IsRun(FIRST, actions, s)
    ensures Inv(s)
    ensures forall p :: IsLiveCore(s, p) ==> NamedBy(s, p, s.record)
    ensures forall p, q :: IsLiveCore(s, p) && IsLiveCore(s, q) ==> s.procs[p].group == s.procs[q].group
    ensures SignalsAreJustified(s.log)
  {
    RunKeeps(FIRST, actions, s);
    forall p | IsLiveCore(s, p) ensures NamedBy(s, p, s.record) {
      assert MayRunCore(s.procs[p]);
    }
  }

  /** A helper becomes the core only when the durable record names exactly it. */
  lemma ExecsOnlyWhenRecorded(actions: seq<Action>, s: State, pid: int)
    requires IsRun(FIRST, actions, s) && Enabled(s, Execs(pid))
    ensures s.record == Some(Record(s.boot, pid, s.procs[pid].start))
  {
    RunKeeps(FIRST, actions, s);
    assert MayRunCore(s.procs[pid]);
  }

  /** The record goes only when no core lives: after a proven stop of the very child it names,
      or in a recovery. It is never overwritten. */
  lemma RecordGoesOnlyWhenSafe(actions: seq<Action>, s: State, a: Action)
    requires IsRun(FIRST, actions, s) && Enabled(s, a) && s.record.Some? && Apply(s, a).record != s.record
    ensures Apply(s, a).record == None && NoCore(s)
    ensures a.RemoveProven? || (a.RemoveRecord? && s.agent.Removing?)
  {
    RunKeeps(FIRST, actions, s);
  }

  /** A recovery comes to the removal only when the boot changed or the recorded group has no
      live member; a supervisor only after it saw its child's group empty and reaped the child. */
  lemma RemovalIsEarned(actions: seq<Action>, s: State, a: Action)
    requires IsRun(FIRST, actions, s) && Enabled(s, a)
    requires Apply(s, a).agent.Removing? || Apply(s, a).agent.Reaped?
    requires !s.agent.Removing? && !s.agent.Reaped?
    ensures GroupEmpty(s, s.agent.who.pid) || s.boot != s.agent.who.boot
    ensures Apply(s, a).agent.Reaped? ==> IsOwnChild(s, s.agent.who) && (s.record.Some? ==> s.record.value == s.agent.who)
    ensures Apply(s, a).agent.Removing? ==> s.record == Some(s.agent.who)
  {
    RunKeeps(FIRST, actions, s);
  }

  /** Nothing lives that could run the core while another one is being started. */
  lemma StartsAlone(actions: seq<Action>, s: State)
    requires IsRun(FIRST, actions, s)
    requires s.agent.Checked? || s.agent.Spawned? || s.agent.Inspected? || s.agent.Saving?
    ensures NoCore(s)
  {
    RunKeeps(FIRST, actions, s);
  }

  /** The supervisor signals the group of its own unreaped child, never of a recycled number. */
  lemma SupervisorSignalsItsOwn(actions: seq<Action>, s: State)
    requires IsRun(FIRST, actions, s) && Enabled(s, SignalOwn)
    ensures IsOwnChild(s, s.agent.who)
  {
    RunKeeps(FIRST, actions, s);
  }

  /** When somebody else has the recorded number, recovery can only give up. */
  lemma StrangersAreLeftAlone(s: State, a: Action)
    requires s.agent.SameBoot? || s.agent.Matched?
    requires !Missing(s, s.agent.who.pid) && !IdentityIs(s, s.agent.who) && Enabled(s, a)
    ensures Apply(s, a).log == s.log && Apply(s, a).record == s.record
  {
  }

  // ---- A helper whose agent died ----

  /** The process (pid, start), as long as it is there, waits at a gate nobody can open. */
  predicate Abandoned(s: State, pid: int, start: nat, boot: nat) {
    start < s.clock && boot <= s.boot &&
    (s.boot == boot && pid in s.procs && s.procs[pid].start == start ==>
       s.procs[pid].image == Helper && !s.procs[pid].released && !s.procs[pid].writer && !Reserves(s.agent, pid))
  }

  lemma AbandonedStays(s: State, a: Action, pid: int, start: nat, boot: nat)
    requires Inv(s) && Abandoned(s, pid, start, boot) && Enabled(s, a)
    ensures Abandoned(Apply(s, a), pid, start, boot)
  {
    if IsProcessStep(a) { AbandonedByProcesses(s, a, pid, start, boot); }
    else if IsStartStep(a) { AbandonedByStarts(s, a, pid, start, boot); }
  }

  lemma AbandonedByProcesses(s: State, a: Action, pid: int, start: nat, boot: nat)
    requires Abandoned(s, pid, start, boot) && Enabled(s, a) && IsProcessStep(a)
    ensures Abandoned(Apply(s, a), pid, start, boot)
  {
  }

  lemma AbandonedByStarts(s: State, a: Action, pid: int, start: nat, boot: nat)
    requires Abandoned(s, pid, start, boot) && Enabled(s, a) && IsStartStep(a)
    ensures Abandoned(Apply(s, a), pid, start, boot)
  {
  }

  /** If the agent dies before it released the gate, its helper never becomes the core. */
  lemma {:induction false} EofMeansNeverCore(s: State, actions: seq<Action>, t: State, pid: int, start: nat, boot: nat)
    requires Inv(s) && Abandoned(s, pid, start, boot) && IsRun(s, actions, t)
    ensures Abandoned(t, pid, start, boot)
    decreases |actions|
  {
    if actions != [] {
      StepKeeps(s, actions[0]);
      AbandonedStays(s, actions[0], pid, start, boot);
      EofMeansNeverCore(Apply(s, actions[0]), actions[1..], t, pid, start, boot);
    }
  }

  lemma DeathAbandonsTheHelper(s: State, pid: int)
    requires Inv(s) && s.agent != Down && pid in s.procs && s.procs[pid].image == Helper && !s.procs[pid].released
    ensures Abandoned(Apply(s, Crash), pid, s.procs[pid].start, s.boot)
  {
  }

  /** The durable record is of an earlier boot session. */
  predicate Stale(s: State) {
    && s.record.Some? && s.record.value.boot < s.boot
    && match s.agent
       case Down => true
       case Startup => true
       case Loaded(r) => r == s.record.value
       case Removing(r) => r == s.record.value
       case _ => false
  }

  lemma StaleStep(s: State, a: Action)
    requires Stale(s) && Enabled(s, a)
    ensures Apply(s, a).log == s.log && (Stale(Apply(s, a)) || Apply(s, a).record == None)
  {
  }

  /** In every run, until a record of an earlier boot session is removed nothing is inspected and
      nothing signaled on its account, whoever has its number now. */
  lemma {:induction false} StaleRecordIsNeverFollowed(s: State, actions: seq<Action>, t: State)
    requires Stale(s) && IsRun(s, actions, t)
    ensures (Stale(t) && t.log == s.log)
         || exists k: nat, u: State :: k <= |actions| && IsRun(s, actions[..k], u) && u.record == None && u.log == s.log
    decreases |actions|
  {
    if actions != [] {
      var n := Apply(s, actions[0]);
      StaleStep(s, actions[0]);
      if n.record == None {
        assert actions[..1] == [actions[0]];
        OneMore(s, actions[0], [], n);
        assert [actions[0]] + [] == actions[..1];
      } else {
        StaleRecordIsNeverFollowed(n, actions[1..], t);
        if k: nat, u: State :| k <= |actions[1..]| && IsRun(n, actions[1..][..k], u) && u.record == None && u.log == n.log {
          OneMore(s, actions[0], actions[1..][..k], u);
          assert [actions[0]] + actions[1..][..k] == actions[..k + 1];
        }
      }
    }
  }

  /** And while it is there, an agent that has started is never stuck with it: its next step is
      always possible and leads to the removal. */
  function StaleMove(s: State): Action {
    match s.agent
    case Down => Restart
    case Startup => LoadRecord
    case Loaded(_) => CompareBoot
    case _ => RemoveRecord(true, true)
  }

  lemma StaleRecordNeverBlocks(s: State)
    requires Stale(s)
    ensures Enabled(s, StaleMove(s))
    ensures s.agent.Removing? ==> Apply(s, StaleMove(s)).record == None && Apply(s, StaleMove(s)).agent == Idle
    ensures !s.agent.Removing? ==> Stale(Apply(s, StaleMove(s)))
  {
  }

  /** No record is of a later boot session than the present one. */
  predicate NotAhead(s: State) {
    && (s.record.Some? ==> s.record.value.boot <= s.boot)
    && (s.agent.Spawned? || s.agent.Inspected? || s.agent.Saving? ==> s.agent.who.boot <= s.boot)
  }

  lemma NotAheadStep(s: State, a: Action)
    requires NotAhead(s) && Enabled(s, a)
    ensures NotAhead(Apply(s, a))
  {
  }

  lemma {:induction false} NotAheadRun(s: State, actions: seq<Action>, t: State)
    requires NotAhead(s) && IsRun(s, actions, t)
    ensures NotAhead(t)
    decreases |actions|
  {
    if actions != [] {
      NotAheadStep(s, actions[0]);
      NotAheadRun(Apply(s, actions[0]), actions[1..], t);
    }
  }

  /** After any run a reboot leaves a record, if there is one, that is of an earlier boot session. */
  lemma RebootMakesStale(actions: seq<Action>, s: State)
    requires IsRun(FIRST, actions, s) && s.record.Some?
    ensures Stale(Apply(s, Reboot))
  {
    NotAheadRun(FIRST, actions, s);
  }

  /** A record of an earlier boot never stands in the way: recovery drops it without looking at
      any process, and the next start goes ahead. */
  lemma StaleRecordIsDropped(s: State)
    requires s.agent == Startup && s.record.Some? && s.record.value.boot != s.boot
    ensures IsRun(s, [LoadRecord, CompareBoot, RemoveRecord(true, true), CheckRecord], s.(agent := Checked, record := None))
  {
    var r := s.record.value;
    var loaded, removing, idle := s.(agent := Loaded(r)), s.(agent := Removing(r)), s.(agent := Idle, record := None);
    OneMore(idle, CheckRecord, [], s.(agent := Checked, record := None));
    OneMore(removing, RemoveRecord(true, true), [CheckRecord], s.(agent := Checked, record := None));
    OneMore(loaded, CompareBoot, [RemoveRecord(true, true)] + [CheckRecord], s.(agent := Checked, record := None));
    OneMore(s, LoadRecord, [CompareBoot] + ([RemoveRecord(true, true)] + [CheckRecord]), s.(agent := Checked, record := None));
    assert [LoadRecord] + ([CompareBoot] + ([RemoveRecord(true, true)] + [CheckRecord]))
        == [LoadRecord, CompareBoot, RemoveRecord(true, true), CheckRecord];
  }

  lemma OneMore(s: State, a: Action, rest: seq<Action>, t: State)
    requires Enabled(s, a) && IsRun(Apply(s, a), rest, t)
    ensures IsRun(s, [a] + rest, t)
  {
    assert ([a] + rest)[1..] == rest;
  }
}
