/** The installer's firewall journal: the install and rollback modes of the script in
    `cmd/installer-verifier/main_windows.go`.

    Every command of the script may fail and end it, with or without having done its work.
    `Machine` records its state after every effect in `history`: the script may be cut short
    at any of them. Nobody else changes the rules of these names meanwhile. */
module FirewallJournal {
  import opened Wrappers
  import opened FirewallState
  import opened FirewallRuns

  class Machine {
    var rules: map<string, Definition>
    var journal: Option<Journal>
    var history: seq<World>
    ghost var faults: nat

    function Now(): World
      reads this
    {
      World(rules, journal)
    }

    method Load(works: bool) returns (j: Option<Journal>)
      modifies this`faults
      ensures works ==> j == journal
      ensures faults == old(faults) + if works then 0 else 1
    {
      j := if works then journal else None;
      if !works { faults := faults + 1; }
    }

    method Write(j: Journal, o: Effect) returns (ok: bool)
      modifies this`journal, this`history, this`faults
      ensures ok == o.Works? && faults == old(faults) + if ok then 0 else 1
      ensures Now() == Written(old(Now()), j, o) && history == old(history) + [Now()]
    {
      ok := o.Works?;
      if !o.Fails? { journal := Some(j); }
      if !ok { faults := faults + 1; }
      history := history + [Now()];
    }

    method RemoveJournal(o: Effect) returns (ok: bool)
      modifies this`journal, this`history, this`faults
      ensures ok == o.Works? && faults == old(faults) + if ok then 0 else 1
      ensures journal == (if o.Fails? then old(journal) else None) && history == old(history) + [Now()]
    {
      ok := o.Works?;
      if !o.Fails? { journal := None; }
      if !ok { faults := faults + 1; }
      history := history + [Now()];
    }

    /** The query by name ignores errors, so a failed query reads as an absent rule. */
    method Find(name: string, hidden: bool) returns (found: bool)
      modifies this`faults
      ensures found == (name in rules && !hidden)
      ensures faults == old(faults) + if hidden then 1 else 0
    {
      found := name in rules && !hidden;
      if hidden { faults := faults + 1; }
    }

    /** Get-ExactFirewallRule fails on a rule of this name that differs from the definition. */
    method FindExact(d: Definition, works: bool) returns (ok: bool, found: bool)
      modifies this`faults
      ensures found == (d.name in rules) && ok == (works && !Differs(rules, d))
      ensures faults == old(faults) + if works then 0 else 1
    {
      found := d.name in rules;
      ok := works && !(found && rules[d.name] != d);
      if !works { faults := faults + 1; }
    }

    method Create(d: Definition, o: Effect) returns (ok: bool)
      modifies this`rules, this`history, this`faults
      ensures ok == (o.Works? && d.name !in old(rules))
      ensures rules == if d.name in old(rules) || o.Fails? then old(rules) else old(rules)[d.name := d]
      ensures faults == old(faults) + if o.Works? then 0 else 1
      ensures history == old(history) + [Now()]
    {
      ok := o.Works? && d.name !in rules;
      if !o.Fails? && d.name !in rules { rules := rules[d.name := d]; }
      if !o.Works? { faults := faults + 1; }
      history := history + [Now()];
    }

    method Delete(name: string, o: Effect) returns (ok: bool)
      modifies this`rules, this`history, this`faults
      ensures ok == o.Works? && faults == old(faults) + if ok then 0 else 1
      ensures rules == if o.Fails? then old(rules) else old(rules) - {name}
      ensures history == old(history) + [Now()]
    {
      ok := o.Works?;
      if !o.Fails? { rules := rules - {name}; }
      if !ok { faults := faults + 1; }
      history := history + [Now()];
    }

    /** The script was cut short after the effect recorded at k. */
    method StopAt(k: nat)
      requires k < |history|
      modifies this`rules, this`journal
      ensures Now() == history[k]
    {
      rules, journal := history[k].rules, history[k].journal;
    }
  }

  // ---- Installation ----

  /** The world in which the iteration would end if the next command failed. */
  ghost predicate IsCut(w: World, p: Progress, d: Definition, st: Step) {
    exists cut: Step :: cut.hidden == st.hidden && OneStep(p, d, cut) == Stopped(w)
  }

  ghost predicate AllCuts(history: seq<World>, from: nat, p: Progress, d: Definition, st: Step) {
    forall k: nat :: from <= k < |history| ==> IsCut(history[k], p, d, st)
  }

  /** One definition of the loop: intent, query, absence, rule and outcome, in this order. */
  method InstallOne(m: Machine, owned: seq<Definition>, es: seq<Entry>, d: Definition, st: Step)
    returns (ok: bool, owned': seq<Definition>, e: Entry)
    modifies m
    ensures OneStep(Progress(old(m.Now()), owned, es), d, st)
         == if ok then Going(Progress(m.Now(), owned', es + [e])) else Stopped(m.Now())
    ensures old(m.history) <= m.history && AllCuts(m.history, |old(m.history)|, Progress(old(m.Now()), owned, es), d, st)
    ensures m.faults >= old(m.faults) && (ok || m.faults > old(m.faults) || NotOurs(old(m.rules), owned, d))
    ensures ok ==> e.def == d && d.name in m.rules && m.rules[d.name] == d && d in owned'
    ensures ok ==> m.rules == old(m.rules) || (d.name !in old(m.rules) && m.rules == old(m.rules)[d.name := d])
    ensures ok ==> owned' == owned || owned' == owned + [d]
  {
    ghost var p := Progress(m.Now(), owned, es);
    e, owned' := Entry(d, Intended, None, false), owned;
    ok := m.Write(Draft(owned, es + [e]), st.intent);
    assert OneStep(p, d, if ok then st.(intent := Late) else st) == Stopped(m.Now());
    if !ok { return; }
    var found := m.Find(d.name, st.hidden);
    if found {
      var present: bool;
      ok, present := m.FindExact(d, st.readable);
      CountedIsOwned(owned, d);
      if !ok || CountOf(owned, d) != 1 { return false, owned', e; }
      e := e.(absentBefore := Some(false), disposition := Preexisting);
      ok := m.Write(Draft(owned, es + [e]), st.recorded);
      assert OneStep(p, d, if ok then st.(recorded := Late) else st) == Stopped(m.Now());
    } else {
      e := e.(absentBefore := Some(true));
      ok, owned', e := InstallAbsent(m, owned, es, e, d, st, p);
    }
  }

  /** The definition seems to be absent: the journal says so before the rule is made. */
  method InstallAbsent(m: Machine, owned: seq<Definition>, es: seq<Entry>, e: Entry, d: Definition, st: Step, ghost p: Progress)
    returns (ok: bool, owned': seq<Definition>, e': Entry)
    requires e == Entry(d, Intended, Some(true), false) && st.intent.Works? && p.owned == owned && p.es == es
    requires m.Now() == p.w.(journal := Some(Draft(owned, es + [Entry(d, Intended, None, false)])))
    requires d.name in m.rules ==> st.hidden
    modifies m`rules, m`journal, m`history, m`faults
    ensures OneStep(p, d, st) == if ok then Going(Progress(m.Now(), owned', es + [e'])) else Stopped(m.Now())
    ensures old(m.history) <= m.history && AllCuts(m.history, |old(m.history)|, p, d, st)
    ensures m.faults >= old(m.faults) && (ok || m.faults > old(m.faults) || d.name in old(m.rules))
    ensures ok ==> e'.def == d && d.name !in old(m.rules) && m.rules == old(m.rules)[d.name := d]
    ensures ok ==> d in owned' && (owned' == owned || owned' == owned + [d])
  {
    owned', e' := owned, e;
    ok := m.Write(Draft(owned, es + [e]), st.absence);
    assert OneStep(p, d, if ok then st.(absence := Late) else st) == Stopped(m.Now());
    if !ok { return; }
    ok := m.Create(d, st.create);
    assert OneStep(p, d, if ok then st.(create := Late) else st) == Stopped(m.Now());
    if !ok { return; }
    ghost var made := m.Now();
    var present: bool;
    ok, present := m.FindExact(d, st.confirmed);
    if !ok { return; }
    e' := e.(disposition := Created);
    CountedIsOwned(owned, d);
    if CountOf(owned, d) != 1 { owned' := owned + [d]; }
    ok := m.Write(Draft(owned', es + [e']), st.recorded);
    MadeThenRecorded(p, d, st, made);
    assert OneStep(p, d, if ok then st.(recorded := Late) else st) == Stopped(m.Now());
  }

  /** When everything up to the rule worked, only recording it is left. */
  lemma MadeThenRecorded(p: Progress, d: Definition, st: Step, made: World)
    requires st.intent.Works? && st.absence.Works? && st.create.Works? && st.confirmed
    requires (d.name in p.w.rules ==> st.hidden) && d.name !in p.w.rules
    requires made == World(p.w.rules[d.name := d], Some(Draft(p.owned, p.es + [Entry(d, Intended, Some(true), false)])))
    ensures OneStep(p, d, st) == After(made, if CountOf(p.owned, d) != 1 then p.owned + [d] else p.owned,
                                       p.es + [Entry(d, Created, Some(true), false)], st.recorded)
    ensures OneStep(p, d, st.(recorded := Late)) == After(made, if CountOf(p.owned, d) != 1 then p.owned + [d] else p.owned,
                                       p.es + [Entry(d, Created, Some(true), false)], Late)
  {
  }

  ghost predicate AllRunEnds(history: seq<World>, from: nat, before: World, defs: seq<Definition>, plan: Plan) {
    forall k: nat :: from <= k < |history| ==> IsRunEnd(history[k], before, defs, plan)
  }

  /** The install mode ends where its run ends, and cut short at any effect where some run with
      the same answers to its queries ends. Success means that every definition is in force and
      owned, and nothing else was touched. */
  method Install(m: Machine, defs: seq<Definition>, plan: Plan) returns (ok: bool)
    requires DistinctNames(defs)
    modifies m
    ensures m.Now() == InstallEnd(old(m.Now()), defs, plan)
    ensures !Startable(old(m.Now()), defs) ==> m.history == old(m.history)
    ensures old(m.history) <= m.history && AllRunEnds(m.history, |old(m.history)|, old(m.Now()), defs, plan)
    ensures ok ==> InForce(m.rules, OwnedIn(m.Now()), old(m.rules), old(OwnedIn(m.Now())), defs, |defs|)
    ensures ok || m.faults > old(m.faults) || Refused(old(m.Now()), defs)
  {
    ghost var before, from := m.Now(), |m.history|;
    var loaded := m.Load(plan.loaded);
    if !plan.loaded || (loaded.Some? && (!Readable(loaded.value, defs)
        || (loaded.value.operation.Some? && loaded.value.operation.value.phase == Applying))) {
      StoppedStays(before, defs, plan, 0, |defs|);
      return false;
    }
    var owned := if loaded.Some? then loaded.value.owned else [];
    ok := m.Write(Draft(owned, []), plan.start);
    StartIsRunEnd(m.Now(), before, defs, plan);
    if !ok {
      StoppedStays(before, defs, plan, 0, |defs|);
      return;
    }
    var es: seq<Entry>;
    ok, owned, es := InstallAll(m, owned, defs, plan, before);
    if !ok {
      ghost var k: nat :| k <= |defs| && StageAt(before, defs, plan, k) == Stopped(m.Now());
      StoppedIsEnd(before, defs, plan, k, m.Now());
      return;
    }
    ok := m.Write(Journal(owned, Some(Operation(Committed, es))), plan.finish);
    FinishIsRunEnd(m.Now(), before, defs, plan);
  }

  lemma StartIsRunEnd(w: World, before: World, defs: seq<Definition>, plan: Plan)
    requires plan.loaded && Startable(before, defs) && w == Written(before, Draft(OwnedIn(before), []), plan.start)
    ensures IsRunEnd(w, before, defs, plan)
  {
    var other := if plan.start.Works? then plan.(start := Late) else plan;
    StoppedStays(before, defs, other, 0, |defs|);
    assert SameAnswers(plan, other, |defs|);
  }

  lemma FinishIsRunEnd(w: World, before: World, defs: seq<Definition>, plan: Plan)
    requires w == InstallEnd(before, defs, plan)
    ensures IsRunEnd(w, before, defs, plan)
  {
    assert SameAnswers(plan, plan, |defs|);
  }

  /** The definitions up to i are in force, and nothing else changed for the later ones. */
  ghost predicate UpTo(rules: map<string, Definition>, owned: seq<Definition>, before: World, defs: seq<Definition>, i: nat)
    requires i <= |defs|
  {
    InForce(rules, owned, before.rules, OwnedIn(before), defs, i) && SameCounts(owned, OwnedIn(before), defs, i)
  }

  /** The i-th iteration, seen from the whole run. */
  method InstallNext(m: Machine, owned: seq<Definition>, es: seq<Entry>, defs: seq<Definition>, i: nat, plan: Plan, ghost before: World)
    returns (ok: bool, owned': seq<Definition>, e: Entry)
    requires DistinctNames(defs) && i < |defs| && StageAt(before, defs, plan, i) == Going(Progress(m.Now(), owned, es))
    requires UpTo(m.rules, owned, before, defs, i)
    modifies m
    ensures StageAt(before, defs, plan, i + 1) == if ok then Going(Progress(m.Now(), owned', es + [e])) else Stopped(m.Now())
    ensures old(m.history) <= m.history && AllRunEnds(m.history, |old(m.history)|, before, defs, plan)
    ensures m.faults >= old(m.faults) && (ok || m.faults > old(m.faults) || Refused(before, defs))
    ensures ok ==> UpTo(m.rules, owned', before, defs, i + 1)
  {
    ghost var rules := m.rules;
    ok, owned', e := InstallOne(m, owned, es, defs[i], plan.steps(i));
    CutsAreRunEnds(m.history, |old(m.history)|, before, defs, plan, i);
    NotOursBefore(rules, owned, before.rules, OwnedIn(before), defs, i);
    assert defs[i] in defs;
    if ok {
      SameCountsAfter(owned, owned', OwnedIn(before), defs, i);
      OneMoreInForce(rules, owned, before.rules, OwnedIn(before), defs, i, m.rules, owned');
    }
  }

  ghost predicate StopsIn(before: World, defs: seq<Definition>, plan: Plan, w: World) {
    exists k: nat :: k <= |defs| && StageAt(before, defs, plan, k) == Stopped(w)
  }

  method Iterate(m: Machine, owned: seq<Definition>, es: seq<Entry>, defs: seq<Definition>, i: nat, plan: Plan, ghost before: World,
                 ghost from: nat)
    returns (ok: bool, owned': seq<Definition>, es': seq<Entry>)
    requires DistinctNames(defs) && i < |defs| && StageAt(before, defs, plan, i) == Going(Progress(m.Now(), owned, es))
    requires UpTo(m.rules, owned, before, defs, i) && from <= |m.history| && AllRunEnds(m.history, from, before, defs, plan)
    modifies m
    ensures ok ==> StageAt(before, defs, plan, i + 1) == Going(Progress(m.Now(), owned', es'))
    ensures !ok ==> StopsIn(before, defs, plan, m.Now())
    ensures old(m.history) <= m.history && AllRunEnds(m.history, from, before, defs, plan)
    ensures m.faults >= old(m.faults) && (ok || m.faults > old(m.faults) || Refused(before, defs))
    ensures ok ==> UpTo(m.rules, owned', before, defs, i + 1)
  {
    var e: Entry;
    ok, owned', e := InstallNext(m, owned, es, defs, i, plan, before);
    es' := es + [e];
    RunEndsThen(old(m.history), m.history, from, before, defs, plan);
  }

  method InstallAll(m: Machine, owned0: seq<Definition>, defs: seq<Definition>, plan: Plan, ghost before: World)
    returns (ok: bool, owned: seq<Definition>, es: seq<Entry>)
    requires DistinctNames(defs) && StageAt(before, defs, plan, 0) == Going(Progress(m.Now(), owned0, []))
    requires m.rules == before.rules && owned0 == OwnedIn(before)
    modifies m
    ensures ok ==> StageAt(before, defs, plan, |defs|) == Going(Progress(m.Now(), owned, es))
    ensures !ok ==> StopsIn(before, defs, plan, m.Now())
    ensures old(m.history) <= m.history && AllRunEnds(m.history, |old(m.history)|, before, defs, plan)
    ensures m.faults >= old(m.faults)
    ensures ok || m.faults > old(m.faults) || Refused(before, defs)
    ensures ok ==> UpTo(m.rules, owned, before, defs, |defs|)
  {
    owned, es := owned0, [];
    for i := 0 to |defs|
      invariant StageAt(before, defs, plan, i) == Going(Progress(m.Now(), owned, es))
      invariant old(m.history) <= m.history && AllRunEnds(m.history, |old(m.history)|, before, defs, plan)
      invariant UpTo(m.rules, owned, before, defs, i) && m.faults >= old(m.faults)
    {
      ok, owned, es := Iterate(m, owned, es, defs, i, plan, before, |old(m.history)|);
      if !ok { return; }
    }
    ok := true;
  }

  lemma CutsAreRunEnds(history: seq<World>, from: nat, before: World, defs: seq<Definition>, plan: Plan, i: nat)
    requires i < |defs| && StageAt(before, defs, plan, i).Going?
    requires AllCuts(history, from, StageAt(before, defs, plan, i).p, defs[i], plan.steps(i))
    ensures AllRunEnds(history, from, before, defs, plan)
  {
    forall k: nat | from <= k < |history| ensures IsRunEnd(history[k], before, defs, plan) {
      assert IsCut(history[k], StageAt(before, defs, plan, i).p, defs[i], plan.steps(i));
      var cut: Step :| cut.hidden == plan.steps(i).hidden && OneStep(StageAt(before, defs, plan, i).p, defs[i], cut) == Stopped(history[k]);
      CutIsRunEnd(before, defs, plan, i, cut, history[k]);
    }
  }

  lemma RunEndsThen(h: seq<World>, later: seq<World>, from: nat, before: World, defs: seq<Definition>, plan: Plan)
    requires h <= later && AllRunEnds(h, from, before, defs, plan) && AllRunEnds(later, |h|, before, defs, plan)
    ensures AllRunEnds(later, from, before, defs, plan)
  {
    forall k: nat | from <= k < |later| ensures IsRunEnd(later[k], before, defs, plan) {
      if k < |h| { assert later[k] == h[k]; }
    }
  }

  // ---- Rollback ----

  /** The outcome of the commands of a rollback: for each entry, and at its two ends. */
  datatype Undo = Undo(readable: bool, deleted: Effect, hidden: bool, written: Effect)

  datatype UndoPlan = UndoPlan(loaded: bool, steps: nat -> Undo, finish: Effect)

  predicate StepWorks(u: Undo) { u.readable && u.deleted.Works? && u.written.Works? }

  ghost predicate AllWorks(plan: UndoPlan) { plan.loaded && plan.finish.Works? && forall i: nat :: StepWorks(plan.steps(i)) }

  /** Every effect kept to the rules that are to go, and left the end of the rollback where it was. */
  ghost predicate AllOnTheWay(history: seq<World>, from: nat, start: World, defs: seq<Definition>) {
    forall k: nat :: from <= k < |history| ==> OnTheWay(history[k], start, defs)
  }

  predicate OnTheWay(w: World, start: World, defs: seq<Definition>) {
    RollbackEnd(w, defs) == RollbackEnd(start, defs) && OnlyExactGo(w, start)
  }

  lemma OnTheWayThen(h: seq<World>, later: seq<World>, from: nat, middle: World, start: World, defs: seq<Definition>)
    requires h <= later && AllOnTheWay(h, from, start, defs) && OnTheWay(middle, start, defs)
    requires AllOnTheWay(later, |h|, middle, defs)
    ensures AllOnTheWay(later, from, start, defs)
  {
    forall k: nat | from <= k < |later| ensures OnTheWay(later[k], start, defs) {
      if k < |h| { assert later[k] == h[k]; } else { OnlyExactAgain(later[k], middle, start); }
    }
  }

  /** The rollback of one entry, all later ones being done. */
  method RollBackEntry(m: Machine, value: Journal, op: Operation, i: nat, u: Undo, defs: seq<Definition>) returns (ok: bool, next: Journal)
    requires i < |op.rules| && m.journal == Some(value) && value.operation == Some(op) && Readable(value, defs)
    requires Pending(op.rules[i]) && forall k: nat :: i < k < |op.rules| ==> !Pending(op.rules[k])
    modifies m
    ensures old(m.history) <= m.history && AllOnTheWay(m.history, |old(m.history)|, old(m.Now()), defs) && OnTheWay(m.Now(), old(m.Now()), defs)
    ensures old(m.faults) <= m.faults && (ok || m.faults > old(m.faults) || Differs(old(m.rules), op.rules[i].def))
    ensures Differs(old(m.rules), op.rules[i].def) ==> !ok && m.Now() == old(m.Now()) && m.history == old(m.history)
    ensures StepWorks(u) && !Differs(old(m.rules), op.rules[i].def) ==> ok
    ensures ok ==> m.Now() == AfterEntry(old(m.Now()), i) && m.journal == Some(next)
  {
    ghost var w := m.Now();
    var d := op.rules[i].def;
    next := value;
    var found: bool;
    ok, found := m.FindExact(d, u.readable);
    if !ok { return; }
    EndAfterEntry(w, i, w, defs);
    EntryGoesExactly(w, i, w);
    ghost var without := w.(rules := w.rules - {d.name});
    EndAfterEntry(w, i, without, defs);
    EntryGoesExactly(w, i, without);
    if found {
      ok := m.Delete(d.name, u.deleted);
      if !ok { return; }
      var still := m.Find(d.name, u.hidden);
      if still { return false, next; }
    }
    assert m.rules == w.rules - {d.name};
    next := Journal(Keep(value.owned, {d}), Some(op.(rules := Resolved(op.rules, i))));
    ok := m.Write(next, u.written);
  }

  /** The loop over the entries, last one first, in the world `start` the rollback found. */
  ghost predicate Rolling(m: Machine, value: Journal, op: Operation, i: nat, start: World, from: nat, defs: seq<Definition>)
    reads m
  {
    && m.journal == Some(value) && value.operation == Some(op) && Readable(value, defs) && HasOperation(start)
    && i <= |op.rules| == |EntriesOf(start)|
    && (forall k: nat :: i <= k < |op.rules| ==> !Pending(op.rules[k]))
    && (forall k: nat :: k < i ==> op.rules[k] == EntriesOf(start)[k])
    && AllOnTheWay(m.history, from, start, defs) && OnTheWay(m.Now(), start, defs)
  }

  /** A changed rule is where the rollback ends. */
  lemma StuckHere(w: World, i: nat, start: World, defs: seq<Definition>)
    requires HasOperation(w) && i < |EntriesOf(w)| && Readable(w.journal.value, defs) && OnTheWay(w, start, defs)
    requires Pending(EntriesOf(w)[i]) && Differs(w.rules, EntriesOf(w)[i].def)
    requires forall k: nat :: i < k < |EntriesOf(w)| ==> !Pending(EntriesOf(w)[k])
    requires HasOperation(start) && i < |EntriesOf(start)| && EntriesOf(start)[i] == EntriesOf(w)[i]
    ensures w == RollbackEnd(start, defs) && Obstructed(start, defs)
  {
    RolledSkips(w, i + 1, |EntriesOf(w)|);
    DifferedBefore(w.rules, start.rules, EntriesOf(w)[i].def);
    assert EntriesOf(start)[i] in EntriesOf(start);
  }

  method RollBackNext(m: Machine, value: Journal, op: Operation, i: nat, u: Undo, defs: seq<Definition>, ghost start: World, ghost from: nat)
    returns (ok: bool, next: Journal)
    requires i < |op.rules| && Pending(op.rules[i]) && from <= |m.history| && Rolling(m, value, op, i + 1, start, from, defs)
    modifies m
    ensures old(m.history) <= m.history && AllOnTheWay(m.history, from, start, defs) && OnTheWay(m.Now(), start, defs)
    ensures old(m.faults) <= m.faults && (ok || m.faults > old(m.faults) || Obstructed(start, defs))
    ensures StepWorks(u) && !ok ==> m.Now() == RollbackEnd(start, defs) && Obstructed(start, defs)
    ensures Differs(old(m.rules), op.rules[i].def) ==> !ok && m.Now() == old(m.Now()) && m.history == old(m.history)
    ensures ok ==> next.operation.Some? && Rolling(m, next, next.operation.value, i, start, from, defs)
  {
    ghost var w := m.Now();
    assert op.rules[i] == EntriesOf(start)[i];
    if Differs(m.rules, op.rules[i].def) { StuckHere(w, i, start, defs); }
    ok, next := RollBackEntry(m, value, op, i, u, defs);
    OnTheWayThen(old(m.history), m.history, from, w, start, defs);
    OnlyExactAgain(m.Now(), w, start);
    if ok { ReadableAfterEntry(w, i, defs); }
  }

  method RollBackAll(m: Machine, loaded: Journal, defs: seq<Definition>, plan: UndoPlan) returns (ok: bool)
    requires m.journal == Some(loaded) && loaded.operation.Some? && Readable(loaded, defs)
    modifies m
    ensures old(m.history) <= m.history && AllOnTheWay(m.history, |old(m.history)|, old(m.Now()), defs) && OnTheWay(m.Now(), old(m.Now()), defs)
    ensures m.faults >= old(m.faults)
    ensures ok ==> m.Now() == RollbackEnd(old(m.Now()), defs) && !HasOperation(m.Now())
    ensures ok || m.faults > old(m.faults) || Obstructed(old(m.Now()), defs)
    ensures AllWorks(plan) && !ok ==> m.Now() == RollbackEnd(old(m.Now()), defs) && Obstructed(old(m.Now()), defs)
    ensures BlockedAtOnce(old(m.Now())) ==> !ok && m.Now() == old(m.Now()) && m.history == old(m.history)
  {
    ghost var start, from := m.Now(), |m.history|;
    var value, op := loaded, loaded.operation.value;
    var i := |op.rules|;
    while i > 0
      invariant 0 <= i && old(m.history) <= m.history && old(m.faults) <= m.faults
      invariant Rolling(m, value, op, i, start, from, defs)
      invariant BlockedAtOnce(start) ==> i == |op.rules| && m.Now() == start && m.history == old(m.history)
    {
      i := i - 1;
      if Pending(op.rules[i]) {
        ok, value := RollBackNext(m, value, op, i, plan.steps(i), defs, start, from);
        if !ok { return; }
        op := value.operation.value;
      }
    }
    RolledSkips(m.Now(), 0, |op.rules|);
    ok := Finish(m, value, plan.finish, defs, start, from);
  }

  /** The operation goes, and the journal with it if nothing is owned. */
  method Finish(m: Machine, value: Journal, o: Effect, defs: seq<Definition>, ghost start: World, ghost from: nat) returns (ok: bool)
    requires m.journal == Some(value) && from <= |m.history| && AllOnTheWay(m.history, from, start, defs) && OnTheWay(m.Now(), start, defs)
    requires RollbackEnd(m.Now(), defs) == Settled(m.rules, value.owned)
    modifies m`journal, m`history, m`faults
    ensures ok == o.Works? && m.faults == old(m.faults) + if ok then 0 else 1
    ensures old(m.history) <= m.history && AllOnTheWay(m.history, from, start, defs) && OnTheWay(m.Now(), start, defs)
    ensures ok ==> m.Now() == RollbackEnd(start, defs) && !HasOperation(m.Now())
  {
    if value.owned == [] {
      ok := m.RemoveJournal(o);
    } else {
      ok := m.Write(value.(operation := None), o);
    }
  }

  /** The rollback mode. At every effect the rollback still leads to the same end, and only rules that
      are exactly those of pending entries are gone, so it may be cut short and repeated. It comes to
      its end unless a command fails or something obstructs it; then the operation is undone. */
  method Rollback(m: Machine, defs: seq<Definition>, plan: UndoPlan) returns (ok: bool)
    requires DistinctNames(defs)
    modifies m
    ensures old(m.history) <= m.history && AllOnTheWay(m.history, |old(m.history)|, old(m.Now()), defs) && OnTheWay(m.Now(), old(m.Now()), defs)
    ensures ok ==> !Obstructed(old(m.Now()), defs) && m.Now() == Undone(old(m.Now()))
    ensures ok || m.faults > old(m.faults) || Obstructed(old(m.Now()), defs)
    ensures AllWorks(plan) ==> m.Now() == RollbackEnd(old(m.Now()), defs) && (ok <==> !Obstructed(old(m.Now()), defs))
    ensures BlockedAtOnce(old(m.Now())) ==> !ok && m.Now() == old(m.Now()) && m.history == old(m.history)
  {
    var loaded := m.Load(plan.loaded);
    if !plan.loaded { return false; }
    if loaded.None? { return true; }
    if !Readable(loaded.value, defs) { return false; }
    if loaded.value.operation.None? { return true; }
    ok := RollBackAll(m, loaded.value, defs, plan);
    RollbackCompletesIff(old(m.Now()), defs);
  }

  // ---- Installation, rollback, and crashes of both ----

  /** An installation cut short at any effect, then rollbacks cut short any number of times, one of
      which may complete, and one without faults at last: it comes to its end if and only if nothing
      obstructs it, and the rules are those from before if and only if the run kept to RulesReturn. An
      obstructed rollback never completed before either. */
  method InstallThenRollBack(m: Machine, defs: seq<Definition>, plan: Plan, undos: seq<UndoPlan>, last: UndoPlan)
    returns (completed: bool, ghost run: Plan)
    requires DistinctNames(defs) && m.history == [] && AllWorks(last)
    modifies m
    ensures SameAnswers(plan, run, |defs|)
    ensures m.Now() == RollbackEnd(InstallEnd(old(m.Now()), defs, run), defs)
    ensures m.rules == old(m.rules) <==> RulesReturn(old(m.Now()), defs, run)
    ensures completed <==> !StaysObstructed(old(m.Now()), defs, run)
    ensures OnlyExactGo(m.Now(), InstallEnd(old(m.Now()), defs, run))
  {
    ghost var before := m.Now();
    var done := Install(m, defs, plan);
    FinishIsRunEnd(m.Now(), before, defs, plan);
    var k: int := *;
    if 0 <= k < |m.history| { m.StopAt(k); }
    run :| SameAnswers(plan, run, |defs|) && InstallEnd(before, defs, run) == m.Now();
    RulesReturnIff(before, defs, run);
    ghost var start := m.Now();
    for i := 0 to |undos|
      invariant OnTheWay(m.Now(), start, defs)
    {
      AnyRollback(m, defs, undos[i], start);
    }
    ghost var middle := m.Now();
    SameObstruction(middle, start, defs);
    completed := Rollback(m, defs, last);
    OnlyExactAgain(m.Now(), middle, start);
  }

  /** A rollback, perhaps cut short at one of its effects. */
  method AnyRollback(m: Machine, defs: seq<Definition>, plan: UndoPlan, ghost start: World)
    requires DistinctNames(defs) && OnTheWay(m.Now(), start, defs)
    modifies m
    ensures OnTheWay(m.Now(), start, defs)
  {
    ghost var middle := m.Now();
    var mark := |m.history|;
    var completed := Rollback(m, defs, plan);
    var k: int := *;
    if mark <= k < |m.history| { m.StopAt(k); }
    OnlyExactAgain(m.Now(), middle, start);
  }

  /** On its way a rollback stays as obstructed as it was. */
  lemma SameObstruction(w: World, start: World, defs: seq<Definition>)
    requires DistinctNames(defs) && OnTheWay(w, start, defs)
    ensures Obstructed(w, defs) <==> Obstructed(start, defs)
  {
    RollbackCompletesIff(w, defs);
    RollbackCompletesIff(start, defs);
  }

  /** After a hidden rule that differs, any rollbacks and installations, cut short or not, change
      nothing at all. */
  method BlockedForGood(m: Machine, defs: seq<Definition>, plans: seq<Plan>, undos: seq<UndoPlan>)
    requires DistinctNames(defs) && BlockedAtOnce(m.Now()) && m.journal.value.operation.value.phase == Applying
    requires |plans| == |undos|
    modifies m
    ensures m.Now() == old(m.Now()) && m.history == old(m.history)
  {
    for i := 0 to |plans|
      invariant m.Now() == old(m.Now()) && m.history == old(m.history)
    {
      if * {
        var ok := Rollback(m, defs, undos[i]);
      } else {
        UnfinishedBlocks(m.Now(), defs, plans[i]);
        var ok := Install(m, defs, plans[i]);
      }
    }
  }
}
