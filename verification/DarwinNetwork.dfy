/** The journaled macOS network manager: `internal/platform/darwin/snapshot.go` over the
    system and journal of `network_darwin.go`.

    Every system call may fail, and a failing mutation may have happened or not. `System`
    records the state of the machine after every mutation in `history`, so a property of all
    its entries holds at every point where the agent may crash or the machine lose power. */
module DarwinNetwork {
  import opened Wrappers

  const TUN_NAME := "utun9"
  const TUN_ADDRESS := "172.19.0.1/30"
  const TUN_DNS := "172.19.0.2"
  const DIRECT := "172.20.0.0/16"
  const LOW := "0.0.0.0/1"
  const HIGH := "128.0.0.0/1"

  datatype Baseline = Baseline(iface: string, index: int, gateway: string, service: string, dns: seq<string>)

  datatype Tun = Tun(name: string, index: int, address: string)

  const NO_TUN := Tun("", 0, "")

  /** A next hop is an address or the text "link#<index>". */
  datatype Hop = Via(address: string) | Link(index: int)

  datatype Route = Route(destination: string, hop: Hop, iface: string, index: int)

  datatype Snapshot = Snapshot(boot: string, baseline: Baseline, tun: Tun, routes: seq<Route>, dnsIntended: bool)

  predicate Planned(destination: string) {
    destination == LOW || destination == HIGH || destination == DIRECT
  }

  function DirectRoute(b: Baseline): Route { Route(DIRECT, Via(b.gateway), b.iface, b.index) }

  function TunRoute(destination: string, index: int): Route {
    Route(destination, Link(index), TUN_NAME, index)
  }

  /** The parts of validateSnapshot that do not parse addresses; a malformed address makes
      Save fail, as any of its calls may. */
  predicate ValidSnapshot(s: Snapshot) {
    && s.boot != "" && |s.boot| <= 128
    && "en" <= s.baseline.iface && s.baseline.index > 0 && s.baseline.service != ""
    && (s.tun == NO_TUN || (s.tun.name == TUN_NAME && s.tun.index > 0 && s.tun.address == TUN_ADDRESS))
    && |s.routes| <= 3
    && (forall r :: r in s.routes ==> Planned(r.destination))
    && (forall i, j :: 0 <= i < j < |s.routes| ==> s.routes[i].destination != s.routes[j].destination)
    && (forall r :: r in s.routes ==>
          if r.destination == DIRECT then r == DirectRoute(s.baseline)
          else r == TunRoute(r.destination, s.tun.index) && r.index > 0)
    && (s.dnsIntended ==> s.tun.index > 0)
  }

  // ---- The machine ----

  /** What survives a crash of the agent: the machine and the durable journal. */
  datatype World = World(boot: string, routes: set<Route>, dns: map<string, seq<string>>, journal: Option<Snapshot>)

  function Dns(dns: map<string, seq<string>>, service: string): seq<string> {
    if service in dns then dns[service] else []
  }

  /** The calls Restore makes; a table is listed on behalf of one journaled route. */
  datatype Op = Loaded(ok: bool) | BootRead(ok: bool) | DnsRead(ok: bool) | DnsSet(ok: bool)
              | Listed(purpose: Option<Route>, ok: bool) | Deleted(route: Route, ok: bool) | Removed(ok: bool)

  class System {
    var boot: string
    var routes: set<Route>
    var dns: map<string, seq<string>>
    var tun: Tun
    var journal: Option<Snapshot>
    var history: seq<World>
    ghost var log: seq<Op>

    function Now(): World
      reads this
    {
      World(boot, routes, dns, journal)
    }

    method BootSession() returns (ok: bool, id: string)
      modifies this`log
      ensures ok ==> id == boot
      ensures log == old(log) + [BootRead(ok)]
    {
      if * { ok, id := true, boot; } else { ok, id := false, ""; }
      log := log + [BootRead(ok)];
    }

    /** Any physical network the machine may report; its resolvers are read truthfully. */
    method Discover(reported: Baseline) returns (ok: bool, b: Baseline)
      ensures ok ==> b == reported.(dns := Dns(dns, reported.service))
    {
      b := reported.(dns := if reported.service in dns then dns[reported.service] else []);
      if * { ok := true; } else { ok := false; }
    }

    method ReadTun() returns (ok: bool, t: Tun)
      ensures ok ==> t == tun
    {
      if * { ok, t := true, tun; } else { ok, t := false, NO_TUN; }
    }

    method Routes(ghost purpose: Option<Route>) returns (ok: bool, list: set<Route>)
      modifies this`log
      ensures ok ==> list == routes
      ensures log == old(log) + [Listed(purpose, ok)]
    {
      if * { ok, list := true, routes; } else { ok, list := false, {}; }
      log := log + [Listed(purpose, ok)];
    }

    method ReadDns(service: string) returns (ok: bool, servers: seq<string>)
      modifies this`log
      ensures ok ==> servers == Dns(dns, service)
      ensures log == old(log) + [DnsRead(ok)]
    {
      servers := if service in dns then dns[service] else [];
      if * { ok := true; } else { ok := false; }
      log := log + [DnsRead(ok)];
    }

    /** The setter re-reads the resolvers, so success means they are set. */
    method SetDns(service: string, servers: seq<string>) returns (ok: bool)
      modifies this`dns, this`history, this`log
      ensures log == old(log) + [DnsSet(ok)]
      ensures dns == old(dns) || dns == old(dns)[service := servers]
      ensures ok ==> dns == old(dns)[service := servers]
      ensures history == old(history) + [Now()]
    {
      if * {
        dns := dns[service := servers];
        if * { ok := true; } else { ok := false; }
      } else { ok := false; }
      history := history + [Now()];
      log := log + [DnsSet(ok)];
    }

    /** A failing command may have added the route, or another one to the same destination. */
    method AddRoute(r: Route) returns (ok: bool)
      modifies this`routes, this`history
      ensures old(routes) <= routes
      ensures forall v :: v in routes - old(routes) ==> v.destination == r.destination
      ensures ok ==> r in routes
      ensures history == old(history) + [Now()]
    {
      ok := false;
      if * {
        routes := routes + {r};
        if * { ok := true; }
      } else if * {
        var v: Route :| v.destination == r.destination;
        routes := routes + {v};
      }
      history := history + [Now()];
    }

    /** The scoped removal re-reads the table, so success means no such destination is left. */
    method DeleteRoute(r: Route) returns (ok: bool)
      modifies this`routes, this`history, this`log
      ensures routes == old(routes) || routes == old(routes) - {r}
      ensures ok ==> forall v :: v in routes ==> v.destination != r.destination
      ensures history == old(history) + [Now()]
      ensures log == old(log) + [Deleted(r, ok)]
    {
      if * { routes := routes - {r}; }
      ok := false;
      if * {
        ok := forall v :: v in routes ==> v.destination != r.destination;
      }
      history := history + [Now()];
      log := log + [Deleted(r, ok)];
    }

    method Load() returns (ok: bool, s: Option<Snapshot>)
      modifies this`log
      ensures ok ==> s == journal
      ensures log == old(log) + [Loaded(ok)]
    {
      if * { ok, s := true, journal; } else { ok, s := false, None; }
      log := log + [Loaded(ok)];
    }

    /** The rename is atomic; the directory sync after it may still fail. */
    method Save(s: Snapshot) returns (ok: bool)
      modifies this`journal, this`history
      ensures journal == old(journal) || (journal == Some(s) && ValidSnapshot(s))
      ensures ok ==> journal == Some(s) && ValidSnapshot(s)
      ensures history == old(history) + [Now()]
    {
      ok := false;
      if ValidSnapshot(s) {
        if * {
          journal := Some(s);
          if * { ok := true; }
        }
      }
      history := history + [Now()];
    }

    method Remove() returns (ok: bool)
      modifies this`journal, this`history, this`log
      ensures journal == old(journal) || journal.None?
      ensures ok ==> journal.None?
      ensures log == old(log) + [Removed(ok)]
      ensures history == old(history) + [Now()]
    {
      ok := false;
      if * {
        journal := None;
        if * { ok := true; }
      }
      history := history + [Now()];
      log := log + [Removed(ok)];
    }

    /** The agent or the machine stopped right after the mutation recorded at `k`. */
    method StopAt(k: nat)
      requires k < |history|
      modifies this`boot, this`routes, this`dns, this`journal
      ensures Now() == history[k]
    {
      var w := history[k];
      boot, routes, dns, journal := w.boot, w.routes, w.dns, w.journal;
    }

    /** The interface of the core comes, goes or changes; its routes may go with it. */
    method TunChanges(t: Tun, lost: set<Route>)
      modifies this`tun, this`routes, this`history
      ensures routes == old(routes) - lost && tun == t
      ensures history == old(history) + [Now()]
    {
      tun := t;
      routes := routes - lost;
      history := history + [Now()];
    }

    /** A reboot ends the boot session; product routes do not survive it, settings do. */
    method Reboot(session: string, lost: set<Route>)
      modifies this`boot, this`tun, this`routes, this`history
      ensures boot == session && routes == old(routes) - lost
      ensures history == old(history) + [Now()]
    {
      boot, tun := session, NO_TUN;
      routes := routes - lost;
      history := history + [Now()];
    }
  }

  // ---- What the journal covers ----

  /** Each route that was not there before shares its destination with a named one. */
  ghost predicate RoutesCovered(routes: set<Route>, named: seq<Route>, before: set<Route>) {
    && before <= routes
    && (forall r :: r in before ==> !Planned(r.destination))
    && (forall r :: r in named ==> Planned(r.destination))
    && (forall r :: r in routes && r !in before ==> Names(named, r.destination))
  }

  ghost predicate Names(named: seq<Route>, destination: string) {
    exists o :: o in named && o.destination == destination
  }

  /** Only the resolvers of the baseline's service may differ, and then they are the product's. */
  ghost predicate DnsCovered(dns: map<string, seq<string>>, b: Baseline, intended: bool, before: map<string, seq<string>>) {
    && b.dns == Dns(before, b.service)
    && (forall service {:trigger Dns(dns, service)} :: Dns(dns, service) == Dns(before, service)
          || (intended && service == b.service && Dns(dns, service) == [TUN_DNS]))
  }

  /** The snapshot names everything the product changed, so that undoing it leads back to `before`. */
  ghost predicate CoveredBy(routes: set<Route>, dns: map<string, seq<string>>, s: Snapshot, before: World) {
    RoutesCovered(routes, s.routes, before.routes) && DnsCovered(dns, s.baseline, s.dnsIntended, before.dns)
  }

  ghost predicate SameDns(dns: map<string, seq<string>>, before: map<string, seq<string>>) {
    forall service {:trigger Dns(dns, service)} :: Dns(dns, service) == Dns(before, service)
  }

  ghost predicate Untouched(w: World, before: World) {
    w.routes == before.routes && SameDns(w.dns, before.dns)
  }

  /** Everything the product changed is covered by the durable journal; without a journal
      nothing is changed. */
  ghost predicate Covered(w: World, before: World) {
    match w.journal
    case Some(s) => ValidSnapshot(s) && CoveredBy(w.routes, w.dns, s, before)
    case None => Untouched(w, before)
  }

  ghost predicate AllCovered(history: seq<World>, before: World) {
    forall w :: w in history ==> Covered(w, before)
  }

  lemma AllCoveredAppend(history: seq<World>, w: World, before: World)
    requires AllCovered(history, before) && Covered(w, before)
    ensures AllCovered(history + [w], before)
  {
  }

  /** Naming one more planned route, before it is in the table. */
  lemma NameRoute(routes: set<Route>, named: seq<Route>, r: Route, before: set<Route>)
    requires RoutesCovered(routes, named, before) && Planned(r.destination)
    ensures RoutesCovered(routes, named + [r], before) && Names(named + [r], r.destination)
  {
    assert r in named + [r];
    forall v | v in routes && v !in before ensures Names(named + [r], v.destination) {
      var o :| o in named && o.destination == v.destination;
      assert o in named + [r];
    }
  }

  /** A named destination may gain routes. */
  lemma GainRoutes(routes: set<Route>, later: set<Route>, named: seq<Route>, r: Route, before: set<Route>)
    requires RoutesCovered(routes, named, before) && routes <= later && Names(named, r.destination)
    requires forall v :: v in later - routes ==> v.destination == r.destination
    ensures RoutesCovered(later, named, before)
  {
    forall v | v in later && v !in before ensures Names(named, v.destination) {
      if v !in routes { assert v in later - routes; }
    }
  }

  /** A planned route is not one of the routes before, so it may be lost. */
  lemma LoseRoute(routes: set<Route>, named: seq<Route>, r: Route, before: set<Route>)
    requires RoutesCovered(routes, named, before) && Planned(r.destination)
    ensures RoutesCovered(routes - {r}, named, before)
  {
  }

  lemma SetProductDns(dns: map<string, seq<string>>, b: Baseline, before: map<string, seq<string>>)
    requires DnsCovered(dns, b, true, before)
    ensures DnsCovered(dns[b.service := [TUN_DNS]], b, true, before)
  {
    var later := dns[b.service := [TUN_DNS]];
    forall service ensures Dns(later, service) == Dns(if service == b.service then later else dns, service) {}
    forall service {:trigger Dns(later, service)}
      ensures Dns(later, service) == Dns(before, service) || (service == b.service && Dns(later, service) == [TUN_DNS])
    {
      if service != b.service { assert Dns(later, service) == Dns(dns, service); }
    }
  }

  /** Writing back the resolvers of one service as they were before. */
  lemma WriteBackDns(dns: map<string, seq<string>>, service: string, b: Baseline, intended: bool, before: map<string, seq<string>>)
    requires DnsCovered(dns, b, intended, before)
    ensures DnsCovered(dns[service := Dns(before, service)], b, intended, before)
  {
    var later := dns[service := Dns(before, service)];
    forall other {:trigger Dns(later, other)}
      ensures Dns(later, other) == Dns(before, other) || (intended && other == b.service && Dns(later, other) == [TUN_DNS])
    {
      if other != service { assert Dns(later, other) == Dns(dns, other); }
    }
  }

  /** Nothing that the snapshot names is left. */
  predicate Cleared(w: World, s: Snapshot) {
    && (forall r, v :: r in s.routes && v in w.routes ==> v.destination != r.destination)
    && (s.dnsIntended ==> Dns(w.dns, s.baseline.service) == s.baseline.dns)
  }

  lemma ClearedIsUntouched(w: World, s: Snapshot, before: World)
    requires CoveredBy(w.routes, w.dns, s, before) && Cleared(w, s)
    ensures Untouched(w, before)
  {
    forall r | r in w.routes ensures r in before.routes {}
    assert w.routes == before.routes;
  }

  /** The routes activated in a connection: the direct one and the two halves over the TUN. */
  function Targets(b: Baseline, tun: Tun): seq<Route> {
    [DirectRoute(b), TunRoute(LOW, tun.index), TunRoute(HIGH, tun.index)]
  }

  function Activated(s: Snapshot): Snapshot {
    s.(routes := s.routes + Targets(s.baseline, s.tun), dnsIntended := true)
  }

  // ---- The manager ----

  class NetworkManager {
    const sys: System
    var prepared: Baseline
    var generation: nat
    var active: Option<Snapshot>

    /** The journal covers the product's footprint now and covered it at every step, and so
        does the snapshot held in memory. */
    ghost predicate Safe(before: World)
      reads this, sys
    {
      && AllCovered(sys.history, before) && Covered(sys.Now(), before)
      && (active.Some? ==> CoveredBy(sys.routes, sys.dns, active.value, before))
    }

    constructor (machine: System)
      ensures sys == machine && active.None? && generation == 0
    {
      sys, prepared, generation, active := machine, Baseline("", 0, "", "", []), 0, None;
    }

    method Preflight(reported: Baseline) returns (ok: bool, b: Baseline)
      modifies sys`log
      ensures ok ==> b == reported.(dns := Dns(sys.dns, reported.service))
      ensures ok ==> b.iface != "" && b.index > 0 && b.gateway != "" && b.service != ""
      ensures ok ==> sys.tun.name == "" && forall r :: r in sys.routes ==> !Planned(r.destination)
    {
      ok, b := sys.Discover(reported);
      if !ok { return; }
      if b.iface == "" || b.index <= 0 || b.gateway == "" || b.service == "" { return false, b; }
      var t: Tun;
      ok, t := sys.ReadTun();
      if !ok || t.name != "" { return false, b; }
      var list: set<Route>;
      ok, list := sys.Routes(None);
      if !ok || exists r :: r in list && Planned(r.destination) { return false, b; }
      // A foreign route on another utun interface is refused as well.
      if * { ok := false; }
    }

    method Prepare(reported: Baseline) returns (ok: bool, g: nat)
      modifies this`prepared, this`generation, sys`log
      ensures ok ==> sys.journal.None? && active.None? && g == generation > 0
      ensures !ok ==> prepared == old(prepared) && generation == old(generation)
    {
      g := 0;
      var s: Option<Snapshot>;
      ok, s := sys.Load();
      if !ok || s.Some? || active.Some? { return false, g; }
      var b: Baseline;
      ok, b := Preflight(reported);
      if !ok { return; }
      generation := generation + 1;
      prepared := b;
      g := generation;
    }

    /** `g` and `fingerprint` are what Prepare returned; the fingerprint identifies the baseline. */
    method Capture(g: nat, fingerprint: Baseline, reported: Baseline, ghost before: World) returns (ok: bool)
      requires Safe(before)
      modifies this`active, sys
      ensures Safe(before)
      ensures sys.routes == old(sys.routes) && sys.dns == old(sys.dns)
      ensures ok ==> old(active).None? && old(sys.journal).None? && active.Some? && sys.journal == active
      ensures ok ==> active.value == Snapshot(sys.boot, prepared, NO_TUN, [], false) && fingerprint == prepared
      ensures !ok ==> active == old(active)
    {
      if active.Some? || g != generation || g == 0 { return false; }
      var existing: Option<Snapshot>;
      ok, existing := sys.Load();
      if !ok || existing.Some? { return false; }
      var b: Baseline;
      ok, b := Preflight(reported);
      if !ok { return; }
      if b != prepared || fingerprint != b { return false; }
      var boot: string;
      ok, boot := sys.BootSession();
      if !ok || boot == "" { return false; }
      var s := Snapshot(boot, b, NO_TUN, [], false);
      assert CoveredBy(sys.routes, sys.dns, s, before);
      ok := sys.Save(s);
      if !ok { return; }
      active := Some(s);
    }

    /** One poll of WaitTUNReady, under the mutex. Between two polls the mutex is free, and each poll
        reads the active snapshot anew, so other calls may come in between. */
    method PollTun(ghost before: World) returns (done: bool, ok: bool)
      requires Safe(before)
      modifies this`active, sys`journal, sys`history
      ensures Safe(before)
      ensures ok ==> done && old(active).Some? && active == sys.journal
      ensures ok ==> active == Some(old(active).value.(tun := sys.tun)) && sys.tun.name == TUN_NAME && sys.tun.index > 0
      ensures !ok ==> active == old(active)
      ensures !done ==> sys.journal == old(sys.journal) && active.Some?
    {
      if active.None? { return true, false; }
      var t: Tun;
      ok, t := sys.ReadTun();
      if !ok { return true, false; }
      if t.name != TUN_NAME || t.index <= 0 || t.address != TUN_ADDRESS { return false, false; }
      var s := active.value.(tun := t);
      ok := sys.Save(s);
      AllCoveredAppend(old(sys.history), sys.Now(), before);
      if ok { active := Some(s); }
      done := true;
    }

    /** The whole wait, when no other call comes in between. */
    method WaitTunReady(polls: nat, ghost before: World) returns (ok: bool)
      requires Safe(before)
      modifies this`active, sys
      ensures Safe(before)
      ensures sys.routes == old(sys.routes) && sys.dns == old(sys.dns)
      ensures ok ==> old(active).Some? && active == sys.journal
      ensures ok ==> active == Some(old(active).value.(tun := sys.tun)) && sys.tun.name == TUN_NAME && sys.tun.index > 0
      ensures !ok ==> active == old(active)
    {
      for i := 0 to polls
        invariant Safe(before) && active == old(active)
        invariant sys.routes == old(sys.routes) && sys.dns == old(sys.dns)
      {
        var done: bool;
        done, ok := PollTun(before);
        if done { return; }
        if * { return false; }
        // The core may create the interface while the manager sleeps.
        label Sleeping:
        var t': Tun := *;
        sys.TunChanges(t', {});
        AllCoveredAppend(old@Sleeping(sys.history), sys.Now(), before);
      }
      ok := false;
    }

    /** Unless it is calm, the core's interface may change at this moment, and its routes may go. */
    method Interfere(calm: bool, ghost before: World)
      requires Safe(before) && active.Some?
      modifies sys`tun, sys`routes, sys`history
      ensures Safe(before) && sys.routes <= old(sys.routes) && old(sys.history) <= sys.history
      ensures calm ==> sys.tun == old(sys.tun) && sys.routes == old(sys.routes)
    {
      var t: Tun, lost: set<Route> := *, *;
      if calm { return; }
      sys.TunChanges(t, set r | r in lost && Planned(r.destination));
      assert before.routes <= sys.routes;
      AllCoveredAppend(old(sys.history), sys.Now(), before);
    }

    /** The interface may change, and lose its routes, between any two steps unless it is calm. */
    method ActivateTunRoutes(reported: Baseline, calm: bool, ghost before: World) returns (ok: bool)
      requires Safe(before)
      modifies this`active, sys
      ensures Safe(before)
      ensures ok ==> old(active).Some? && active == sys.journal == Some(Activated(old(active).value))
      ensures ok && calm ==> sys.tun == old(active).value.tun
      ensures ok && calm ==> forall r :: r in Targets(old(active).value.baseline, sys.tun) ==> r in sys.routes
      ensures ok ==> Dns(sys.dns, old(active).value.baseline.service) == [TUN_DNS]
    {
      if active.None? || active.value.tun.index <= 0 { return false; }
      var first := active.value;
      var t: Tun;
      ok, t := sys.ReadTun();
      if !ok || t != first.tun { return false; }
      var physical: Baseline;
      ok, physical := sys.Discover(reported);
      if !ok || physical != first.baseline { return false; }
      ok := ActivateRoutes(Targets(first.baseline, t), calm, before);
      if !ok { return; }
      Interfere(calm, before);
      ok := ActivateDns(before);
    }

    method ActivateRoutes(targets: seq<Route>, calm: bool, ghost before: World) returns (ok: bool)
      requires active.Some? && Safe(before) && (forall r :: r in targets ==> Planned(r.destination))
      modifies this`active, sys`tun, sys`routes, sys`journal, sys`history, sys`log
      ensures Safe(before)
      ensures ok ==> active == Some(old(active).value.(routes := old(active).value.routes + targets))
      ensures calm ==> sys.tun == old(sys.tun)
      ensures ok && calm ==> forall r :: r in targets ==> r in sys.routes
    {
      ghost var first := active.value;
      assert first.(routes := first.routes + targets[..0]) == first;
      for i := 0 to |targets|
        invariant Safe(before)
        invariant active == Some(first.(routes := first.routes + targets[..i]))
        invariant calm ==> sys.tun == old(sys.tun) && forall r :: r in targets[..i] ==> r in sys.routes
      {
        assert first.routes + targets[..i] + [targets[i]] == first.routes + targets[..i + 1];
        Interfere(calm, before);
        ok := ActivateRoute(targets[i], calm, before);
        if !ok { return; }
      }
      assert targets[..|targets|] == targets;
      ok := true;
    }

    /** The resolvers come last; the journal says so first. */
    method ActivateDns(ghost before: World) returns (ok: bool)
      requires active.Some? && Safe(before)
      modifies this`active, sys`dns, sys`journal, sys`history, sys`log
      ensures Safe(before)
      ensures ok ==> sys.journal == active == Some(old(active).value.(dnsIntended := true))
      ensures ok ==> Dns(sys.dns, active.value.baseline.service) == [TUN_DNS]
    {
      var b := active.value.baseline;
      var servers: seq<string>;
      ok, servers := sys.ReadDns(b.service);
      if !ok || servers != b.dns { return false; }
      active := Some(active.value.(dnsIntended := true));
      label Saving:
      ok := sys.Save(active.value);
      AllCoveredAppend(old@Saving(sys.history), sys.Now(), before);
      if !ok { return; }
      SetProductDns(sys.dns, b, before.dns);
      label Setting:
      ok := sys.SetDns(b.service, [TUN_DNS]);
      AllCoveredAppend(old@Setting(sys.history), sys.Now(), before);
    }

    /** One iteration of the loop: the journal names the route before the table has it. */
    method ActivateRoute(r: Route, calm: bool, ghost before: World) returns (ok: bool)
      requires active.Some? && Safe(before) && Planned(r.destination)
      modifies this`active, sys`tun, sys`routes, sys`journal, sys`history, sys`log
      ensures Safe(before)
      ensures calm ==> old(sys.routes) <= sys.routes && sys.tun == old(sys.tun)
      ensures active == old(active) || active == Some(old(active).value.(routes := old(active).value.routes + [r]))
      ensures !(sys.routes <= old(sys.routes)) ==> sys.journal == active != old(active)
      ensures ok ==> r in sys.routes && sys.journal == active == Some(old(active).value.(routes := old(active).value.routes + [r]))
    {
      var list: set<Route>;
      ok, list := sys.Routes(None);
      if !ok || exists v :: v in list && v.destination == r.destination { return false; }
      NameRoute(sys.routes, active.value.routes, r, before.routes);
      active := Some(active.value.(routes := active.value.routes + [r]));
      label Saving:
      ok := sys.Save(active.value);
      AllCoveredAppend(old@Saving(sys.history), sys.Now(), before);
      if !ok { return; }
      ok := AddNamed(r, calm, before);
    }

    /** The table gets a route that the journal and the snapshot in memory name already. */
    method AddNamed(r: Route, calm: bool, ghost before: World) returns (ok: bool)
      requires active.Some? && sys.journal == active && Safe(before) && Names(active.value.routes, r.destination)
      modifies sys`tun, sys`routes, sys`history
      ensures Safe(before) && (ok ==> r in sys.routes)
      ensures calm ==> old(sys.routes) <= sys.routes && sys.tun == old(sys.tun)
    {
      Interfere(calm, before);
      label Adding:
      ok := sys.AddRoute(r);
      GainRoutes(old@Adding(sys.routes), sys.routes, active.value.routes, r, before.routes);
      AllCoveredAppend(old@Adding(sys.history), sys.Now(), before);
    }

    /** What Restore keeps while it works on snapshot s. */
    ghost predicate SafeWith(s: Snapshot, before: World)
      reads sys
    {
      && AllCovered(sys.history, before) && Covered(sys.Now(), before)
      && CoveredBy(sys.routes, sys.dns, s, before)
    }

    method RestoreDns(s: Snapshot, ghost before: World) returns (failed: bool)
      modifies sys`dns, sys`history, sys`log
      ensures old(sys.log) <= sys.log
      ensures failed ==> FailedSince(|old(sys.log)|, sys.log) || ForeignDns(s, old(sys.Now()))
      ensures sys.dns == old(sys.dns)
           || (s.dnsIntended && Dns(old(sys.dns), s.baseline.service) == [TUN_DNS]
               && sys.dns == old(sys.dns)[s.baseline.service := s.baseline.dns])
      ensures !failed && s.dnsIntended ==> Dns(sys.dns, s.baseline.service) == s.baseline.dns
      ensures old(SafeWith(s, before)) ==> SafeWith(s, before)
    {
      if !s.dnsIntended { return false; }
      var ok, servers := sys.ReadDns(s.baseline.service);
      if !ok { assert !sys.log[|sys.log| - 1].ok; return true; }
      if servers == s.baseline.dns { return false; }
      if servers != [TUN_DNS] { return true; }
      label Setting:
      ok := sys.SetDns(s.baseline.service, s.baseline.dns);
      failed := !ok;
      assert sys.log[|sys.log| - 1] == DnsSet(ok);
      if old(SafeWith(s, before)) {
        WriteBackDns(old@Setting(sys.dns), s.baseline.service, s.baseline, s.dnsIntended, before.dns);
        if sys.journal.Some? {
          var j := sys.journal.value;
          WriteBackDns(old@Setting(sys.dns), s.baseline.service, j.baseline, j.dnsIntended, before.dns);
        }
        AllCoveredAppend(old@Setting(sys.history), sys.Now(), before);
      }
    }

    /** One iteration of the reverse loop: whatever shares the destination of journaled route r. */
    method RemoveRoute(s: Snapshot, r: Route, session: Option<string>, ghost before: World) returns (failed: bool)
      requires r in s.routes
      modifies sys`routes, sys`history, sys`log
      ensures sys.routes == old(sys.routes) || (sys.routes == old(sys.routes) - {r} && session == Some(s.boot))
      ensures !failed ==> forall v :: v in sys.routes ==> v.destination != r.destination
      ensures old(sys.log) <= sys.log
      ensures r in sys.routes ==> session != Some(s.boot) || Attempted(r, sys.log[|old(sys.log)|..])
      ensures failed ==> FailedSince(|old(sys.log)|, sys.log) || ForeignRoute(r, session == Some(s.boot), old(sys.routes))
      ensures old(SafeWith(s, before)) ==> SafeWith(s, before)
    {
      var ok, list := sys.Routes(Some(r));
      if !ok { assert !sys.log[|sys.log| - 1].ok; return true; }
      failed := false;
      var todo := list;
      while todo != {}
        invariant todo <= list == old(sys.routes)
        invariant sys.routes == old(sys.routes) || (sys.routes == old(sys.routes) - {r} && session == Some(s.boot))
        invariant forall v :: v in list - todo && v in sys.routes && v.destination == r.destination ==> failed
        invariant old(sys.log) <= sys.log
        invariant failed ==> FailedSince(|old(sys.log)|, sys.log) || ForeignRoute(r, session == Some(s.boot), old(sys.routes))
        invariant r in list - todo && r in sys.routes ==> session != Some(s.boot) || Attempted(r, sys.log[|old(sys.log)|..])
        invariant old(SafeWith(s, before)) ==> SafeWith(s, before)
        decreases todo
      {
        var v :| v in todo;
        todo := todo - {v};
        if v.destination == r.destination {
          if session != Some(s.boot) || v != r {
            failed := true;
          } else {
            label Deleting:
            ok := DeleteNamed(s, r, before);
            assert sys.log[|old(sys.log)|..] == old@Deleting(sys.log)[|old(sys.log)|..] + [Deleted(r, ok)];
            assert sys.log[|sys.log| - 1] == Deleted(r, ok);
            FailedStays(|old(sys.log)|, old@Deleting(sys.log), sys.log);
            if !ok { failed := true; }
          }
        }
      }
    }

    method DeleteNamed(s: Snapshot, r: Route, ghost before: World) returns (ok: bool)
      requires r in s.routes
      modifies sys`routes, sys`history, sys`log
      ensures sys.routes == old(sys.routes) || sys.routes == old(sys.routes) - {r}
      ensures ok ==> r !in sys.routes
      ensures sys.log == old(sys.log) + [Deleted(r, ok)]
      ensures old(SafeWith(s, before)) ==> SafeWith(s, before)
    {
      ok := sys.DeleteRoute(r);
      if old(SafeWith(s, before)) {
        LoseRoute(old(sys.routes), s.routes, r, before.routes);
        if sys.journal.Some? { LoseRoute(old(sys.routes), sys.journal.value.routes, r, before.routes); }
        AllCoveredAppend(old(sys.history), sys.Now(), before);
      }
    }

    method RestoreRoutes(s: Snapshot, session: Option<string>, ghost before: World) returns (failed: bool)
      modifies sys`routes, sys`history, sys`log
      ensures sys.routes <= old(sys.routes)
      ensures forall r :: r in old(sys.routes) && r !in sys.routes ==> r in s.routes && session == Some(s.boot)
      ensures !failed ==> forall r, v :: r in s.routes && v in sys.routes ==> v.destination != r.destination
      ensures old(sys.log) <= sys.log
      ensures !failed || FailedSince(|old(sys.log)|, sys.log)
                      || exists r :: r in s.routes && ForeignRoute(r, session == Some(s.boot), old(sys.routes))
      ensures forall r :: r in s.routes && r in sys.routes ==> session != Some(s.boot) || Attempted(r, sys.log[|old(sys.log)|..])
      ensures old(SafeWith(s, before)) ==> SafeWith(s, before)
    {
      failed := false;
      var i := |s.routes|;
      while i > 0
        invariant 0 <= i <= |s.routes|
        invariant sys.routes <= old(sys.routes)
        invariant forall r :: r in old(sys.routes) && r !in sys.routes ==> r in s.routes && session == Some(s.boot)
        invariant !failed ==> forall r, v :: r in s.routes[i..] && v in sys.routes ==> v.destination != r.destination
        invariant old(sys.log) <= sys.log
        invariant !failed || FailedSince(|old(sys.log)|, sys.log)
                          || exists r :: r in s.routes && ForeignRoute(r, session == Some(s.boot), old(sys.routes))
        invariant forall r :: r in s.routes[i..] && r in sys.routes ==> session != Some(s.boot) || Attempted(r, sys.log[|old(sys.log)|..])
        invariant old(SafeWith(s, before)) ==> SafeWith(s, before)
      {
        i := i - 1;
        ghost var log := sys.log;
        var bad := RemoveRoute(s, s.routes[i], session, before);
        if bad { failed := true; }
        assert s.routes[i..] == [s.routes[i]] + s.routes[i + 1..];
        assert sys.log[|old(sys.log)|..] == log[|old(sys.log)|..] + sys.log[|log|..];
      }
    }

    /** Everything Restore does between choosing the snapshot and removing the journal. */
    method Undo(s: Snapshot, ghost before: World) returns (failed: bool)
      modifies sys`routes, sys`dns, sys`history, sys`log
      ensures Shrunk(old(sys.Now()), sys.Now(), s)
      ensures !failed ==> Cleared(sys.Now(), s)
      ensures failed ==> FailedSince(|old(sys.log)|, sys.log) || Foreign(s, old(sys.Now()))
      ensures old(sys.log) <= sys.log && AllAttempted(s, sys.Now(), sys.log[|old(sys.log)|..])
      ensures old(SafeWith(s, before)) ==> SafeWith(s, before)
    {
      var badDns := RestoreDns(s, before);
      ghost var log0 := sys.log;
      var known, boot := sys.BootSession();
      var session := if known then Some(boot) else None;
      ghost var log := sys.log;
      assert log[|log| - 1] == BootRead(known);
      var badRoutes := RestoreRoutes(s, session, before);
      assert sys.log[|old(sys.log)|..] == log0[|old(sys.log)|..] + [BootRead(known)] + sys.log[|log|..];
      failed := badDns || badRoutes;
      FailedStays(|old(sys.log)|, log0, sys.log);
      FailedStays(|old(sys.log)|, log, sys.log);
    }

    /** Restore and Reconcile. Only the last guarantee assumes anything of the machine. */
    method Restore(ghost before: World) returns (ok: bool)
      modifies this`active, sys
      ensures match Undoing(old(active), old(sys.journal))
              case Some(s) => Shrunk(old(sys.Now()), sys.Now(), s)
              case None => sys.routes == old(sys.routes) && sys.dns == old(sys.dns) && sys.boot == old(sys.boot)
      ensures old(sys.log) <= sys.log
      ensures active.Some? ==> active == Undoing(old(active), old(sys.journal))
                               && AllAttempted(active.value, sys.Now(), sys.log[|old(sys.log)|..])
      ensures !ok ==> sys.journal == old(sys.journal) || (sys.journal.None? && active.Some? && Cleared(sys.Now(), active.value))
      ensures ok ==> active.None? && sys.journal.None?
      ensures ok || FailedSince(|old(sys.log)|, sys.log)
              || (active.Some? && active == Undoing(old(active), old(sys.journal)) && Foreign(active.value, old(sys.Now())))
      ensures old(Safe(before)) ==> Safe(before) && (ok ==> Untouched(sys.Now(), before))
    {
      var s := active;
      if s.None? {
        var e: bool;
        e, s := sys.Load();
        if !e { assert !sys.log[|sys.log| - 1].ok; return false; }
      }
      if s.None? { return true; }
      active := s;
      var failed := Undo(s.value, before);
      if failed { return false; }
      if old(Safe(before)) { ClearedIsUntouched(sys.Now(), s.value, before); }
      label Removing:
      ok := sys.Remove();
      assert sys.log[|sys.log| - 1] == Removed(ok);
      if old(Safe(before)) { AllCoveredAppend(old@Removing(sys.history), sys.Now(), before); }
      if ok { active := None; }
    }
  }

  /** What undoing s may take from the machine: routes identical to a journaled one, in the
      boot session that journaled them, and exactly the product's resolvers. */
  ghost predicate Shrunk(was: World, now: World, s: Snapshot) {
    && now.boot == was.boot && now.routes <= was.routes
    && (forall r :: r in was.routes - now.routes ==> r in s.routes && s.boot == was.boot)
    && (now.dns != was.dns ==>
          s.dnsIntended && Dns(was.dns, s.baseline.service) == [TUN_DNS] && now.dns == was.dns[s.baseline.service := s.baseline.dns])
  }

  predicate FailedSince(from: nat, log: seq<Op>) {
    exists i: nat :: from <= i < |log| && !log[i].ok
  }

  lemma FailedStays(from: nat, log: seq<Op>, longer: seq<Op>)
    requires log <= longer
    ensures FailedSince(from, log) ==> FailedSince(from, longer)
  {
    if FailedSince(from, log) {
      var i: nat :| from <= i < |log| && !log[i].ok;
      assert !longer[i].ok;
    }
  }

  /** Somebody else changed what s names, or another boot session began. */
  predicate Foreign(s: Snapshot, w: World) {
    ForeignDns(s, w) || exists r :: r in s.routes && ForeignRoute(r, w.boot == s.boot, w.routes)
  }

  predicate ForeignDns(s: Snapshot, w: World) {
    var servers := Dns(w.dns, s.baseline.service);
    s.dnsIntended && servers != s.baseline.dns && servers != [TUN_DNS]
  }

  predicate ForeignRoute(r: Route, sameBoot: bool, routes: set<Route>) {
    exists v :: v in routes && v.destination == r.destination && (v != r || !sameBoot)
  }

  /** No route was skipped: each one that is left belongs to another boot session, or the
      session, the table or the removal could not be had. */
  predicate AllAttempted(s: Snapshot, w: World, log: seq<Op>) {
    forall r :: r in s.routes && r in w.routes ==> w.boot != s.boot || BootRead(false) in log || Attempted(r, log)
  }

  /** Restore did its part for route r: it failed to read the table or to delete the route. */
  predicate Attempted(r: Route, log: seq<Op>) {
    Listed(Some(r), false) in log || Deleted(r, false) in log
  }

  /** The snapshot that Restore works on: the one in memory, else the durable one. */
  function Undoing(active: Option<Snapshot>, journal: Option<Snapshot>): Option<Snapshot> {
    if active.Some? then active else journal
  }

  lemma ShrunkAgain(a: World, b: World, c: World, s: Snapshot)
    requires Shrunk(a, b, s) && Shrunk(b, c, s)
    ensures Shrunk(a, c, s)
  {
    forall r | r in a.routes - c.routes ensures r in s.routes && s.boot == a.boot {
      assert r in a.routes - b.routes || r in b.routes - c.routes;
    }
    assert b.dns != a.dns ==> b.dns[s.baseline.service := s.baseline.dns] == b.dns;
  }

  // ---- Whole runs ----

  /** Any run of agents on a machine: any calls in any order, any of them cut short by a crash
      of the agent, with the core's interface and boot sessions coming and going. Nobody else
      changes what was there before. At every point of it the journal covers the footprint,
      and whichever agent comes last may reconcile. */
  method AnyRun(sys: System, steps: nat) returns (m: NetworkManager, reconciled: bool)
    requires sys.journal.None? && sys.history == []
    modifies sys
    ensures AllCovered(sys.history, old(sys.Now()))
    ensures m.sys == sys && m.Safe(old(sys.Now()))
    ensures reconciled ==> sys.journal.None? && Untouched(sys.Now(), old(sys.Now()))
  {
    var before := sys.Now();
    m := new NetworkManager(sys);
    for i := 0 to steps
      invariant fresh(m) && m.sys == sys && m.Safe(before)
    {
      m := AnyStep(m, before);
    }
    reconciled := m.Restore(before);
  }

  method AnyStep(m: NetworkManager, before: World) returns (next: NetworkManager)
    requires m.Safe(before)
    modifies m, m.sys
    ensures (next == m || fresh(next)) && next.sys == m.sys && next.Safe(before)
  {
    next := m;
    var sys := m.sys;
    var mark := |sys.history|;
    if * {
      AnyCall(m, before);
      var k: int := *;
      if mark <= k < |sys.history| {
        sys.StopAt(k);
        next := new NetworkManager(sys);
      }
    } else if * {
      next := new NetworkManager(sys);
    } else if * {
      AnyChange(sys, before);
      if * { next := new NetworkManager(sys); }
    }
  }

  method AnyCall(m: NetworkManager, ghost before: World)
    requires m.Safe(before)
    modifies m, m.sys
    ensures m.Safe(before)
  {
    var reported: Baseline, fingerprint: Baseline, g: nat, calm: bool, ok: bool := *, *, *, *, *;
    if * {
      ok, g := m.Prepare(reported);
    } else if * {
      ok := m.Capture(g, fingerprint, reported, before);
    } else if * {
      // A wait is a sequence of polls, with any other calls between them.
      var done: bool;
      done, ok := m.PollTun(before);
    } else if * {
      ok := m.ActivateTunRoutes(reported, calm, before);
    } else {
      ok := m.Restore(before);
    }
  }

  /** The core's interface changes, or the machine reboots into another session; routes that
      were not there before may go with it. */
  method AnyChange(sys: System, before: World)
    requires AllCovered(sys.history, before) && Covered(sys.Now(), before)
    modifies sys
    ensures AllCovered(sys.history, before) && Covered(sys.Now(), before)
    ensures forall s {:trigger CoveredBy(sys.routes, sys.dns, s, before)} :: 
              old(CoveredBy(sys.routes, sys.dns, s, before)) ==> CoveredBy(sys.routes, sys.dns, s, before)
  {
    var t: Tun, session: string, lost: set<Route> := *, *, *;
    if * {
      sys.TunChanges(t, lost - before.routes);
    } else {
      sys.Reboot(session, lost - before.routes);
    }
    AllCoveredAppend(old(sys.history), sys.Now(), before);
  }
}
