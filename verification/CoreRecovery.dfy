/** The recovery of an owned core as the agent runs it: recoverCore and RecoverOwnedCore of
    `internal/platform/darwin/process_recovery_darwin.go`, call by call.

    `Host` answers every call freely and records it; what the recovery concludes is compared
    with `Concludes`, which reads the record of its calls alone. */
module CoreRecovery {
  import opened Wrappers
  import CoreGate

  type Record = CoreGate.Record

  /** A call and its answer; `ok` is false for an error. */
  datatype Call =
    | BootRead(ok: bool, boot: nat)
    | Inspected(ok: bool, identity: Option<Record>)
    | GroupSeen(ok: bool, empty: bool)
    | Killed(ok: bool, pid: int)

  class Host {
    /** The durable record, and the calls made so far. */
    var record: Option<Record>
    ghost var calls: seq<Call>

    method Boot() returns (ok: bool, boot: nat)
      modifies this`calls
      ensures calls == old(calls) + [BootRead(ok, boot)]
    {
      ok, boot := *, *;
      calls := calls + [BootRead(ok, boot)];
    }

    method Identity(pid: int) returns (ok: bool, identity: Option<Record>)
      modifies this`calls
      ensures calls == old(calls) + [Inspected(ok, identity)]
    {
      ok, identity := *, *;
      calls := calls + [Inspected(ok, identity)];
    }

    method Empty(pid: int) returns (ok: bool, empty: bool)
      modifies this`calls
      ensures calls == old(calls) + [GroupSeen(ok, empty)]
    {
      ok, empty := *, *;
      calls := calls + [GroupSeen(ok, empty)];
    }

    method Kill(pid: int) returns (ok: bool)
      modifies this`calls
      ensures calls == old(calls) + [Killed(ok, pid)]
    {
      ok := *;
      calls := calls + [Killed(ok, pid)];
    }

    method Load() returns (ok: bool, r: Option<Record>)
      ensures ok ==> r == record
    {
      if * { ok, r := true, record; } else { ok, r := false, None; }
    }

    /** The directory sync after the removal may fail. */
    method Remove() returns (ok: bool)
      modifies this`record
      ensures record == None || (!ok && record == old(record))
    {
      ok := false;
      if * {
        record := None;
        if * { ok := true; }
      }
    }
  }

  predicate Confirmed(c: Call, r: Record) { c == Inspected(true, Some(r)) }

  /** The calls prove that the recorded core is gone: another boot session; no leader and an
      empty group; or an authorized signal, and the group seen empty after it. */
  predicate Concludes(calls: seq<Call>, r: Record) {
    || (|calls| == 1 && calls[0].BootRead? && calls[0].ok && calls[0].boot != r.boot)
    || (|calls| == 3 && calls[0] == BootRead(true, r.boot) && calls[1] == Inspected(true, None) && calls[2] == GroupSeen(true, true))
    || (MayKill(calls, r) && |calls| > 4 && calls[3] == Killed(true, r.pid) && EmptyAtLast(calls[4..]))
  }

  /** recoverCore; `polls` is how long the context lasts, `canceled` whether it ended before the
      recheck. It succeeds exactly when the calls it made prove the core gone, and it signals only
      the recorded number, once, as its fourth call, after the boot session and two inspections. */
  method RecoverCore(host: Host, r: Record, canceled: bool, polls: nat) returns (ok: bool, ghost made: seq<Call>)
    modifies host`calls
    ensures host.calls == old(host.calls) + made
    ensures ok <==> Concludes(made, r)
    ensures forall i: nat :: i < |made| && made[i].Killed? ==> i == 3 && MayKill(made, r) && made[3].pid == r.pid
  {
    var boot: nat;
    ok, boot := host.Boot();
    made := [BootRead(ok, boot)];
    if !ok { return; }
    if boot != r.boot { return; }
    var identity: Option<Record>;
    ok, identity := host.Identity(r.pid);
    made := made + [Inspected(ok, identity)];
    if !ok { return; }
    if identity.None? {
      var empty: bool;
      ok, empty := host.Empty(r.pid);
      made := made + [GroupSeen(ok, empty)];
      ok := ok && empty;
      return;
    }
    if identity.value != r || canceled { return false, made; }
    ok, identity := host.Identity(r.pid);
    made := made + [Inspected(ok, identity)];
    if !ok { return; }
    if identity.None? || identity.value != r { return false, made; }
    ok := host.Kill(r.pid);
    made := made + [Killed(ok, r.pid)];
    if !ok { return; }
    ghost var waited;
    ok, waited := AwaitEmpty(host, r, polls);
    ConcludesAfterKill(made, waited, r);
    made := made + waited;
  }

  /** The boot session is the recorded one, and two inspections in a row found the recorded core. */
  predicate MayKill(calls: seq<Call>, r: Record) {
    |calls| >= 3 && calls[0] == BootRead(true, r.boot) && Confirmed(calls[1], r) && Confirmed(calls[2], r)
  }

  predicate EmptyAtLast(seen: seq<Call>) {
    && seen != [] && seen[|seen| - 1] == GroupSeen(true, true)
    && forall k: nat :: k < |seen| - 1 ==> seen[k] == GroupSeen(true, false)
  }

  lemma ConcludesAfterKill(calls: seq<Call>, seen: seq<Call>, r: Record)
    requires |calls| == 4 && MayKill(calls, r) && calls[3] == Killed(true, r.pid)
    ensures Concludes(calls + seen, r) <==> EmptyAtLast(seen)
  {
    assert (calls + seen)[4..] == seen;
  }

  /** The polling loop after the signal. */
  method AwaitEmpty(host: Host, r: Record, polls: nat) returns (ok: bool, ghost made: seq<Call>)
    modifies host`calls
    ensures host.calls == old(host.calls) + made && forall k: nat :: k < |made| ==> made[k].GroupSeen?
    ensures ok <==> EmptyAtLast(made)
  {
    made := [];
    for i := 0 to polls
      invariant host.calls == old(host.calls) + made
      invariant forall k: nat :: k < |made| ==> made[k] == GroupSeen(true, false)
    {
      var empty: bool;
      ok, empty := host.Empty(r.pid);
      made := made + [GroupSeen(ok, empty)];
      if !ok { return; }
      if empty { return; }
    }
    ok := false;
  }

  /** RecoverOwnedCore: the record goes only when the calls prove its core gone; success leaves no
      record. */
  method RecoverOwnedCore(host: Host, canceled: bool, polls: nat) returns (ok: bool, ghost made: seq<Call>)
    modifies host`calls, host`record
    ensures host.calls == old(host.calls) + made
    ensures host.record == old(host.record) || host.record == None
    ensures host.record != old(host.record) ==> Concludes(made, old(host.record).value)
    ensures ok ==> host.record == None
    ensures ok && old(host.record).Some? ==> Concludes(made, old(host.record).value)
  {
    var r: Option<Record>;
    ok, r := host.Load();
    made := [];
    if !ok || r.None? { return; }
    ok, made := RecoverCore(host, r.value, canceled, polls);
    if !ok { return; }
    ok := host.Remove();
  }
}
