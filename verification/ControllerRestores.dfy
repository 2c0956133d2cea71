/** When the controller reports prepared, and what `reconciled` remembers, over every run:
    `internal/agent/controller.go`. */
module ControllerRestores {
  import opened Wrappers
  import opened ControllerState
  import opened ControllerRuns
  import opened ControllerSafety

  // ---- One goroutine, one transaction ----

  /** Before, during and after its transaction. */
  function Rank(thread: Thread): nat {
    match thread
    case Owner(_, _, _) => 1
    case StartingMonitor(_) => 2
    case Closing(_) => 2
    case Returned => 2
    case _ => 0
  }

  function RankIn(s: Sys, t: nat): nat { if t in s.threads then Rank(s.threads[t]) else 0 }

  lemma StepRaisesRank(s: Sys, a: Action, t: nat)
    requires Enabled(s, a)
    ensures RankIn(s, t) <= RankIn(Next(s, a), t)
  {
  }

  /** A goroutine runs at most one transaction, so all its owner steps belong to the same one. */
  lemma {:induction false} OneTransaction(states: seq<Sys>, actions: seq<Action>, i: nat, j: nat, t: nat)
    requires IsRun(states, actions) && i <= j < |states|
    ensures RankIn(states[i], t) <= RankIn(states[j], t)
  {
    if i < j {
      OneTransaction(states, actions, i, j - 1, t);
      assert Enabled(states[j - 1], actions[j - 1]) && states[j - 1 + 1] == Next(states[j - 1], actions[j - 1]);
      StepRaisesRank(states[j - 1], actions[j - 1], t);
    }
  }

  // ---- What a goroutine did in its transaction ----

  predicate OwnStep(s: Sys, a: Action, t: nat) {
    a.Run? && a.tid == t && t in s.threads && s.threads[t].Owner?
  }

  /** Restore or Reconcile succeeded. */
  predicate Restores(s: Sys, a: Action, t: nat) {
    OwnStep(s, a, t) && s.threads[t].pc.RestoreNetwork? && a.choice.ok
  }

  predicate ReadsZeroResidue(s: Sys, a: Action, t: nat) {
    OwnStep(s, a, t) && s.threads[t].pc.CheckResidue? && a.choice.ok
  }

  /** Connect found its context ended, or its policy or executable wanting. */
  predicate FailsPrecheck(s: Sys, a: Action, t: nat) {
    OwnStep(s, a, t) && (s.threads[t].pc.CheckContext? || s.threads[t].pc.Validate?) && !a.choice.ok
  }

  /** runDisconnect found nothing held and `reconciled` set. */
  predicate TakesShortcut(s: Sys, a: Action, t: nat) {
    OwnStep(s, a, t) && s.threads[t].pc.ReadFields? && s.c.snapshot.None? && !s.c.processStarted && s.c.reconciled
  }

  predicate Commits(s: Sys, a: Action, t: nat) { OwnStep(s, a, t) && s.threads[t].pc.Commit? }

  /** Before step j, goroutine t restored the network and, where the manager reports residue,
      then read that none is left. */
  ghost predicate RestoredBy(states: seq<Sys>, actions: seq<Action>, j: nat, t: nat)
    requires |states| == |actions| + 1 && j <= |actions|
  {
    exists r: nat :: r < j && Restores(states[r], actions[r], t)
      && (states[0].known.reports ==> exists z: nat :: r < z < j && ReadsZeroResidue(states[z], actions[z], t))
  }

  ghost predicate PrecheckFailedBy(states: seq<Sys>, actions: seq<Action>, j: nat, t: nat)
    requires |states| == |actions| + 1 && j <= |actions|
  {
    exists q: nat :: q < j && FailsPrecheck(states[q], actions[q], t)
  }

  ghost predicate ShortcutBy(states: seq<Sys>, actions: seq<Action>, j: nat, t: nat)
    requires |states| == |actions| + 1 && j <= |actions|
  {
    exists q: nat :: q < j && TakesShortcut(states[q], actions[q], t)
  }

  /** The same, collected along the run. */
  datatype Trail = Trail(called: bool, restored: bool, failed: bool, shortcut: bool)

  const NO_TRAIL := Trail(false, false, false, false)

  function Extend(trail: Trail, reports: bool, s: Sys, a: Action, t: nat): Trail {
    var called := Restores(s, a, t);
    Trail(trail.called || called,
          trail.restored || (called && !reports) || (reports && trail.called && ReadsZeroResidue(s, a, t)),
          trail.failed || FailsPrecheck(s, a, t),
          trail.shortcut || TakesShortcut(s, a, t))
  }

  function TrailOf(states: seq<Sys>, actions: seq<Action>, j: nat, t: nat): Trail
    requires |states| == |actions| + 1 && j <= |actions|
  {
    if j == 0 then NO_TRAIL else Extend(TrailOf(states, actions, j - 1, t), states[0].known.reports, states[j - 1], actions[j - 1], t)
  }

  lemma {:induction false} CalledMeans(states: seq<Sys>, actions: seq<Action>, j: nat, t: nat)
    requires |states| == |actions| + 1 && j <= |actions|
    ensures TrailOf(states, actions, j, t).called <==> exists r: nat :: r < j && Restores(states[r], actions[r], t)
  {
    if j > 0 { CalledMeans(states, actions, j - 1, t); }
  }

  lemma {:induction false} RestoredMeans(states: seq<Sys>, actions: seq<Action>, j: nat, t: nat)
    requires |states| == |actions| + 1 && j <= |actions|
    ensures TrailOf(states, actions, j, t).restored <==> RestoredBy(states, actions, j, t)
  {
    if j > 0 {
      RestoredMeans(states, actions, j - 1, t);
      CalledMeans(states, actions, j - 1, t);
      var reports := states[0].known.reports;
      if TrailOf(states, actions, j, t).restored {
        if TrailOf(states, actions, j - 1, t).restored {
          var r: nat :| r < j - 1 && Restores(states[r], actions[r], t)
            && (reports ==> exists z: nat :: r < z < j - 1 && ReadsZeroResidue(states[z], actions[z], t));
          assert r < j;
        } else if !reports {
          assert Restores(states[j - 1], actions[j - 1], t);
        } else {
          var r: nat :| r < j - 1 && Restores(states[r], actions[r], t);
          assert r < j - 1 < j && ReadsZeroResidue(states[j - 1], actions[j - 1], t);
        }
      }
      if RestoredBy(states, actions, j, t) {
        var r: nat :| r < j && Restores(states[r], actions[r], t)
          && (reports ==> exists z: nat :: r < z < j && ReadsZeroResidue(states[z], actions[z], t));
        if reports {
          var z: nat :| r < z < j && ReadsZeroResidue(states[z], actions[z], t);
          if z < j - 1 { assert RestoredBy(states, actions, j - 1, t); }
        } else if r < j - 1 {
          assert RestoredBy(states, actions, j - 1, t);
        }
      }
    }
  }

  lemma {:induction false} FailedMeans(states: seq<Sys>, actions: seq<Action>, j: nat, t: nat)
    requires |states| == |actions| + 1 && j <= |actions|
    ensures TrailOf(states, actions, j, t).failed <==> PrecheckFailedBy(states, actions, j, t)
    ensures TrailOf(states, actions, j, t).shortcut <==> ShortcutBy(states, actions, j, t)
  {
    if j > 0 { FailedMeans(states, actions, j - 1, t); }
  }

  /** What the program counter of a transaction says about its trail. */
  predicate Agrees(thread: Thread, trail: Trail, reports: bool) {
    match thread
    case Owner(_, _, Commit(o)) =>
      && (o.state == Prepared <==> trail.restored || trail.failed || trail.shortcut)
      && (o.restored <==> trail.restored || trail.shortcut)
      && !(trail.restored && trail.failed) && !(trail.restored && trail.shortcut) && !(trail.failed && trail.shortcut)
    case Owner(_, _, CheckResidue(_)) => reports && trail == NO_TRAIL.(called := true)
    case Owner(_, _, _) => trail == NO_TRAIL
    case _ => Rank(thread) == 0 ==> trail == NO_TRAIL
  }

  predicate AgreesIn(s: Sys, t: nat, trail: Trail, reports: bool) {
    if t in s.threads then Agrees(s.threads[t], trail, reports) else trail == NO_TRAIL
  }

  lemma StepAgrees(s: Sys, a: Action, t: nat, trail: Trail)
    requires Inv(s) && Enabled(s, a) && AgreesIn(s, t, trail, s.known.reports)
    ensures AgreesIn(Next(s, a), t, Extend(trail, s.known.reports, s, a, t), s.known.reports)
  {
    if a.Run? && a.tid == t && s.threads[t].Owner? {
      OwnStepAgrees(s, a, t, trail);
    } else {
      OtherStepAgrees(s, a, t, trail);
    }
  }

  lemma OtherStepAgrees(s: Sys, a: Action, t: nat, trail: Trail)
    requires Enabled(s, a) && !OwnStep(s, a, t) && AgreesIn(s, t, trail, s.known.reports)
    ensures AgreesIn(Next(s, a), t, trail, s.known.reports)
  {
  }

  lemma OwnStepAgrees(s: Sys, a: Action, t: nat, trail: Trail)
    requires Inv(s) && Enabled(s, a) && OwnStep(s, a, t) && AgreesIn(s, t, trail, s.known.reports)
    ensures AgreesIn(Next(s, a), t, Extend(trail, s.known.reports, s, a, t), s.known.reports)
  {
    SlotFacts(s);
    if !s.threads[t].pc.Commit? { MoveAgrees(s.c, s.known, s.threads[t], a.choice, trail); }
  }

  /** One move of the slot owner, up to its commit. */
  lemma MoveAgrees(c: Fields, k: Known, thread: Thread, ch: Choice, trail: Trail)
    requires thread.Owner? && !thread.pc.Commit? && OwnerOk(c, k, thread) && Agrees(thread, trail, k.reports)
    ensures var undo := thread.pc.RestoreNetwork? && ch.ok;
            var zero := thread.pc.CheckResidue? && ch.ok;
            var failed := (thread.pc.CheckContext? || thread.pc.Validate?) && !ch.ok;
            var shortcut := thread.pc.ReadFields? && c.snapshot.None? && !c.processStarted && c.reconciled;
            Agrees(thread.(pc := OwnerMove(c, k, thread.role, thread.pc, ch).pc),
                   Trail(trail.called || undo, trail.restored || (undo && !k.reports) || (k.reports && trail.called && zero),
                         trail.failed || failed, trail.shortcut || shortcut), k.reports)
  {
  }

  lemma {:induction false} RunAgrees(states: seq<Sys>, actions: seq<Action>, j: nat, t: nat)
    requires IsRun(states, actions) && j <= |actions|
    ensures states[j].known.reports == states[0].known.reports
    ensures AgreesIn(states[j], t, TrailOf(states, actions, j, t), states[0].known.reports)
  {
    if j > 0 {
      RunAgrees(states, actions, j - 1, t);
      RunIsSafe(states, actions, j - 1);
      assert Enabled(states[j - 1], actions[j - 1]) && states[j - 1 + 1] == Next(states[j - 1], actions[j - 1]);
      KnownFollowsCalls(states[j - 1], actions[j - 1]);
      StepAgrees(states[j - 1], actions[j - 1], t, TrailOf(states, actions, j - 1, t));
    }
  }

  // ---- Prepared without a restoration ----

  /** A commit makes the status prepared without a successful restoration in its own transaction
      if and only if the transaction is a Connect that failed a pre-check, or a Disconnect or
      Recover that took the shortcut. */
  lemma PreparedWithoutRestorationIff(states: seq<Sys>, actions: seq<Action>, i: nat, t: nat)
    requires IsRun(states, actions) && i < |actions| && Commits(states[i], actions[i], t)
    ensures states[i + 1].c.state == Prepared && !RestoredBy(states, actions, i, t)
       <==> PrecheckFailedBy(states, actions, i, t) || ShortcutBy(states, actions, i, t)
    ensures PrecheckFailedBy(states, actions, i, t) ==> states[i].threads[t].role.ConnectRole?
    ensures ShortcutBy(states, actions, i, t) ==> states[i].threads[t].role.DisconnectRole?
  {
    RunAgrees(states, actions, i, t);
    RunIsSafe(states, actions, i);
    SlotFacts(states[i]);
    assert Enabled(states[i], actions[i]) && states[i + 1] == Next(states[i], actions[i]);
    RestoredMeans(states, actions, i, t);
    FailedMeans(states, actions, i, t);
    RolesOfTrail(states, actions, i, t);
  }

  /** Only Connect has pre-checks, and only Disconnect and Recover the shortcut. */
  lemma {:induction false} RolesOfTrail(states: seq<Sys>, actions: seq<Action>, j: nat, t: nat)
    requires IsRun(states, actions) && j <= |actions|
    ensures t in states[j].threads && states[j].threads[t].Owner? ==>
              && (TrailOf(states, actions, j, t).failed ==> states[j].threads[t].role.ConnectRole?)
              && (TrailOf(states, actions, j, t).shortcut ==> states[j].threads[t].role.DisconnectRole?)
  {
    if j > 0 {
      RolesOfTrail(states, actions, j - 1, t);
      RunAgrees(states, actions, j - 1, t);
      RunIsSafe(states, actions, j - 1);
      SlotFacts(states[j - 1]);
      assert Enabled(states[j - 1], actions[j - 1]) && states[j - 1 + 1] == Next(states[j - 1], actions[j - 1]);
      RoleStep(states[j - 1], actions[j - 1], t, TrailOf(states, actions, j - 1, t));
    }
  }

  lemma RoleStep(s: Sys, a: Action, t: nat, trail: Trail)
    requires Inv(s) && Enabled(s, a) && AgreesIn(s, t, trail, s.known.reports)
    requires t in s.threads && s.threads[t].Owner? ==>
               (trail.failed ==> s.threads[t].role.ConnectRole?) && (trail.shortcut ==> s.threads[t].role.DisconnectRole?)
    ensures var u, later := Next(s, a), Extend(trail, s.known.reports, s, a, t);
            t in u.threads && u.threads[t].Owner? ==>
              (later.failed ==> u.threads[t].role.ConnectRole?) && (later.shortcut ==> u.threads[t].role.DisconnectRole?)
  {
    SlotFacts(s);
  }

  // ---- What `reconciled` remembers ----

  /** Step k commits a transaction in which the network was restored. */
  ghost predicate CommitsRestoration(states: seq<Sys>, actions: seq<Action>, k: nat)
    requires |states| == |actions| + 1 && k < |actions|
  {
    actions[k].Run? && Commits(states[k], actions[k], actions[k].tid) && RestoredBy(states, actions, k, actions[k].tid)
  }

  ghost predicate RestorationCommitted(states: seq<Sys>, actions: seq<Action>, i: nat)
    requires |states| == |actions| + 1 && i <= |actions|
  {
    exists k: nat :: k < i && CommitsRestoration(states, actions, k)
  }

  /** `reconciled` is set if and only if an earlier transaction of the run restored the network
      successfully and committed. */
  lemma {:induction false} ReconciledIff(states: seq<Sys>, actions: seq<Action>, i: nat)
    requires IsRun(states, actions) && i <= |actions|
    ensures states[i].c.reconciled <==> RestorationCommitted(states, actions, i)
  {
    if i > 0 {
      ReconciledIff(states, actions, i - 1);
      ReconciledStep(states, actions, i - 1);
      CommittedMore(states, actions, i - 1);
    }
  }

  lemma CommittedMore(states: seq<Sys>, actions: seq<Action>, k: nat)
    requires |states| == |actions| + 1 && k < |actions|
    ensures RestorationCommitted(states, actions, k + 1)
       <==> RestorationCommitted(states, actions, k) || CommitsRestoration(states, actions, k)
  {
    if RestorationCommitted(states, actions, k) {
      var m: nat :| m < k && CommitsRestoration(states, actions, m);
      assert m < k + 1;
    }
  }

  lemma ReconciledStep(states: seq<Sys>, actions: seq<Action>, k: nat)
    requires IsRun(states, actions) && k < |actions|
    ensures states[k + 1].c.reconciled <==> states[k].c.reconciled || CommitsRestoration(states, actions, k)
  {
    assert Enabled(states[k], actions[k]) && states[k + 1] == Next(states[k], actions[k]);
    RunIsSafe(states, actions, k);
    if actions[k].Run? && Commits(states[k], actions[k], actions[k].tid) {
      CommitReconciles(states, actions, k);
    } else {
      OnlyCommitsReconcile(states[k], actions[k]);
    }
  }

  lemma CommitReconciles(states: seq<Sys>, actions: seq<Action>, k: nat)
    requires IsRun(states, actions) && k < |actions| && actions[k].Run? && Commits(states[k], actions[k], actions[k].tid)
    ensures states[k + 1].c.reconciled <==> states[k].c.reconciled || RestoredBy(states, actions, k, actions[k].tid)
  {
    var t := actions[k].tid;
    RunAgrees(states, actions, k, t);
    RestoredMeans(states, actions, k, t);
    FailedMeans(states, actions, k, t);
    RunIsSafe(states, actions, k);
    SlotFacts(states[k]);
    assert Enabled(states[k], actions[k]) && states[k + 1] == Next(states[k], actions[k]);
    if ShortcutBy(states, actions, k, t) {
      var q: nat :| q < k && TakesShortcut(states[q], actions[q], t);
      ReconciledStays(states, actions, q, k);
    }
  }

  lemma OnlyCommitsReconcile(s: Sys, a: Action)
    requires Inv(s) && Enabled(s, a) && !(a.Run? && Commits(s, a, a.tid))
    ensures Next(s, a).c.reconciled == s.c.reconciled
  {
  }

  lemma ReconciledKept(s: Sys, a: Action)
    requires Enabled(s, a) && s.c.reconciled
    ensures Next(s, a).c.reconciled
  {
  }

  lemma {:induction false} ReconciledStays(states: seq<Sys>, actions: seq<Action>, i: nat, j: nat)
    requires IsRun(states, actions) && i <= j < |states| && states[i].c.reconciled
    ensures states[j].c.reconciled
  {
    if i < j {
      ReconciledStays(states, actions, i, j - 1);
      assert Enabled(states[j - 1], actions[j - 1]) && states[j - 1 + 1] == Next(states[j - 1], actions[j - 1]);
      ReconciledKept(states[j - 1], actions[j - 1]);
    }
  }
}
