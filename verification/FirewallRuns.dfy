/** Every run of the install mode of the installer's firewall script
    (`cmd/installer-verifier/main_windows.go`), as a function of the world it finds and of the
    outcome of each of its commands; and what a rollback makes of where it ended. */
module FirewallRuns {
  import opened Wrappers
  import opened FirewallState

  // ---- What the environment decides ----

  /** The outcome of the commands of one iteration. `hidden` says that the query by name failed,
      which reads as an absent rule. */
  datatype Step = Step(intent: Effect, hidden: bool, readable: bool, absence: Effect, create: Effect, confirmed: bool, recorded: Effect)

  datatype Plan = Plan(loaded: bool, start: Effect, steps: nat -> Step, finish: Effect)

  // ---- Where a run ends ----

  /** What an iteration finds: the world, and the journal's lists in memory. */
  datatype Progress = Progress(w: World, owned: seq<Definition>, es: seq<Entry>)

  datatype Stage = Stopped(w: World) | Going(p: Progress)

  function Written(w: World, j: Journal, o: Effect): World { if o.Fails? then w else w.(journal := Some(j)) }

  function After(w: World, owned: seq<Definition>, es: seq<Entry>, o: Effect): Stage {
    var next := Written(w, Draft(owned, es), o);
    if o.Works? then Going(Progress(next, owned, es)) else Stopped(next)
  }

  function OneStep(p: Progress, d: Definition, st: Step): Stage {
    match After(p.w, p.owned, p.es + [Entry(d, Intended, None, false)], st.intent)
    case Stopped(w) => Stopped(w)
    case Going(q) => if d.name in q.w.rules && !st.hidden then FoundStep(q.w, p, d, st) else AbsentStep(q.w, p, d, st)
  }

  function FoundStep(w: World, p: Progress, d: Definition, st: Step): Stage
    requires d.name in w.rules
  {
    if !st.readable || w.rules[d.name] != d || CountOf(p.owned, d) != 1 then Stopped(w)
    else After(w, p.owned, p.es + [Entry(d, Preexisting, Some(false), false)], st.recorded)
  }

  function AbsentStep(w: World, p: Progress, d: Definition, st: Step): Stage {
    match After(w, p.owned, p.es + [Entry(d, Intended, Some(true), false)], st.absence)
    case Stopped(v) => Stopped(v)
    case Going(q) =>
      if d.name in q.w.rules || st.create.Fails? then Stopped(q.w)
      else
        var made := q.w.(rules := q.w.rules[d.name := d]);
        if !st.create.Works? || !st.confirmed then Stopped(made)
        else After(made, if CountOf(p.owned, d) != 1 then p.owned + [d] else p.owned, p.es + [Entry(d, Created, Some(true), false)], st.recorded)
  }

  /** No operation is unfinished, and the journal can be read. */
  predicate Startable(w: World, defs: seq<Definition>) {
    w.journal.Some? ==>
      && Readable(w.journal.value, defs)
      && (w.journal.value.operation.Some? ==> w.journal.value.operation.value.phase != Applying)
  }

  /** The run before its i-th iteration. */
  function StageAt(before: World, defs: seq<Definition>, plan: Plan, i: nat): Stage
    requires i <= |defs|
  {
    if i == 0 then
      if !plan.loaded || !Startable(before, defs) then Stopped(before) else After(before, OwnedIn(before), [], plan.start)
    else
      match StageAt(before, defs, plan, i - 1)
      case Stopped(w) => Stopped(w)
      case Going(p) => OneStep(p, defs[i - 1], plan.steps(i - 1))
  }

  function InstallEnd(before: World, defs: seq<Definition>, plan: Plan): World {
    match StageAt(before, defs, plan, |defs|)
    case Stopped(w) => w
    case Going(p) => Written(p.w, Journal(p.owned, Some(Operation(Committed, p.es))), plan.finish)
  }

  /** The run came as far as its first write, which took effect. */
  predicate Begins(before: World, defs: seq<Definition>, plan: Plan) {
    plan.loaded && Startable(before, defs) && !plan.start.Fails?
  }

  /** The run comes to the i-th definition, its query hides a rule that is there, and this answer
      is written down. */
  predicate HidesAt(before: World, defs: seq<Definition>, plan: Plan, i: nat)
    requires i < |defs|
  {
    && StageAt(before, defs, plan, i).Going?
    && var st := plan.steps(i);
       st.intent.Works? && st.hidden && !st.absence.Fails? && defs[i].name in before.rules
  }

  predicate HidesBefore(before: World, defs: seq<Definition>, plan: Plan, n: nat)
    requires n <= |defs|
  {
    exists i: nat :: i < n && HidesAt(before, defs, plan, i)
  }

  // ---- What the journal claims ----

  /** An entry of the operation takes a rule for its own that was there before. */
  predicate Claims(w: World, before: World) {
    exists d :: d in CreatedIn(w) && d.name in before.rules
  }

  /** From here a rollback leads back to `before`, less what is claimed. */
  predicate LeadsBack(w: World, before: World) { Consistent(w, before, before.rules.Keys) }

  predicate StepsAre(es: seq<Entry>, defs: seq<Definition>, n: nat) {
    |es| == n <= |defs| && forall i: nat :: i < n ==> es[i].def == defs[i]
  }

  predicate GoesOn(p: Progress, before: World, defs: seq<Definition>, i: nat) {
    && p.w.journal == Some(Draft(p.owned, p.es)) && LeadsBack(p.w, before) && !Claims(p.w, before) && StepsAre(p.es, defs, i)
  }

  lemma FreshName(p: Progress, before: World, defs: seq<Definition>, i: nat)
    requires DistinctNames(defs) && i < |defs| && GoesOn(p, before, defs, i)
    ensures forall x :: x in p.es ==> x.def.name != defs[i].name
    ensures defs[i].name in before.rules <==> defs[i].name in p.w.rules
  {
    forall x | x in p.es ensures x.def.name != defs[i].name {
      var j: nat :| j < |p.es| && p.es[j] == x;
    }
    assert p.w == World(p.w.rules, Some(Draft(p.owned, p.es)));
    StillThere(p.w.rules, p.owned, p.es, defs[i].name, before, before.rules.Keys);
  }

  /** An entry more leads back as before, and claims a rule if it may have created one that was there. */
  lemma EntryMore(w: World, owned: seq<Definition>, es: seq<Entry>, e: Entry, before: World)
    requires w.journal.Some? && LeadsBack(World(w.rules, Some(Draft(owned, es))), before) && !e.resolved
    ensures LeadsBack(World(w.rules, Some(Draft(owned, es + [e]))), before)
    ensures Claims(World(w.rules, Some(Draft(owned, es + [e]))), before)
       <==> Claims(World(w.rules, Some(Draft(owned, es))), before) || (CreatedNow(e) && e.def.name in before.rules)
  {
    ConsistentIntent(w.rules, owned, es, e, before, before.rules.Keys);
    CreatedByAppend(es, e);
  }

  /** The rule of an entry that may have created it appears, and is owned. */
  lemma RuleMore(w: World, owned: seq<Definition>, es: seq<Entry>, e: Entry, e': Entry, own: bool, before: World)
    requires LeadsBack(World(w.rules, Some(Draft(owned, es + [e]))), before)
    requires CreatedNow(e) && CreatedNow(e') && e'.def == e.def && !e'.resolved
    ensures var later := World(w.rules[e.def.name := e.def], Some(Draft(if own then owned + [e.def] else owned, es + [e'])));
            LeadsBack(later, before) && (Claims(later, before) <==> Claims(World(w.rules, Some(Draft(owned, es + [e]))), before))
  {
    ConsistentOutcome(w.rules, w.rules[e.def.name := e.def], owned, es, e, e', own, before, before.rules.Keys);
    CreatedByAppend(es, e);
    CreatedByAppend(es, e');
  }

  predicate StepHides(d: Definition, st: Step, before: World) {
    st.intent.Works? && st.hidden && !st.absence.Fails? && d.name in before.rules
  }

  predicate StageAgrees(s: Stage, before: World, defs: seq<Definition>, i: nat, hides: bool) {
    match s
    case Stopped(w) => LeadsBack(w, before) && (Claims(w, before) <==> hides)
    case Going(p) => GoesOn(p, before, defs, i) && !hides
  }

  lemma StepAgrees(p: Progress, before: World, defs: seq<Definition>, i: nat, st: Step)
    requires DistinctNames(defs) && i < |defs| && GoesOn(p, before, defs, i)
    ensures StageAgrees(OneStep(p, defs[i], st), before, defs, i + 1, StepHides(defs[i], st, before))
  {
    var d := defs[i];
    FreshName(p, before, defs, i);
    assert p.w == World(p.w.rules, Some(Draft(p.owned, p.es)));
    EntryMore(p.w, p.owned, p.es, Entry(d, Intended, None, false), before);
    if st.intent.Works? {
      var w := p.w.(journal := Some(Draft(p.owned, p.es + [Entry(d, Intended, None, false)])));
      if d.name in w.rules && !st.hidden {
        EntryMore(p.w, p.owned, p.es, Entry(d, Preexisting, Some(false), false), before);
      } else {
        AbsentAgrees(w, p, before, defs, i, st);
      }
    }
  }

  lemma AbsentAgrees(w: World, p: Progress, before: World, defs: seq<Definition>, i: nat, st: Step)
    requires DistinctNames(defs) && i < |defs| && GoesOn(p, before, defs, i)
    requires w == p.w.(journal := Some(Draft(p.owned, p.es + [Entry(defs[i], Intended, None, false)])))
    requires LeadsBack(w, before) && !Claims(w, before)
    requires defs[i].name in p.w.rules ==> st.hidden
    requires defs[i].name in before.rules <==> defs[i].name in p.w.rules
    ensures StageAgrees(AbsentStep(w, p, defs[i], st), before, defs, i + 1, st.hidden && !st.absence.Fails? && defs[i].name in before.rules)
  {
    var d, e := defs[i], Entry(defs[i], Intended, Some(true), false);
    assert p.w == World(p.w.rules, Some(Draft(p.owned, p.es)));
    EntryMore(p.w, p.owned, p.es, e, before);
    RuleMore(p.w, p.owned, p.es, e, e, false, before);
    RuleMore(p.w, p.owned, p.es, e, e.(disposition := Created), CountOf(p.owned, d) != 1, before);
  }

  /** The rollback of this operation will not find a rule that has been changed. */
  predicate Clean(w: World, defs: seq<Definition>) {
    HasOperation(w) && Readable(w.journal.value, defs) && forall e :: e in EntriesOf(w) && Pending(e) ==> !Differs(w.rules, e.def)
  }

  predicate StageIsClean(s: Stage, defs: seq<Definition>) {
    match s
    case Stopped(w) => Clean(w, defs)
    case Going(p) => Clean(p.w, defs)
  }

  lemma StepIsClean(p: Progress, before: World, defs: seq<Definition>, i: nat, st: Step)
    requires DistinctNames(defs) && i < |defs| && GoesOn(p, before, defs, i) && Clean(p.w, defs)
    requires !StepHides(defs[i], st, before)
    ensures StageIsClean(OneStep(p, defs[i], st), defs)
  {
    var d := defs[i];
    FreshName(p, before, defs, i);
    assert p.w == World(p.w.rules, Some(Draft(p.owned, p.es)));
    EntryIsClean(p.w.rules, p.owned, p.es, Entry(d, Intended, None, false), defs);
    if st.intent.Works? {
      if d.name in p.w.rules && !st.hidden {
        EntryIsClean(p.w.rules, p.owned, p.es, Entry(d, Preexisting, Some(false), false), defs);
      } else if !st.absence.Fails? {
        EntryIsClean(p.w.rules, p.owned, p.es, Entry(d, Intended, Some(true), false), defs);
        RuleIsClean(p.w.rules, p.owned, p.es, d, Intended, false, defs);
        RuleIsClean(p.w.rules, p.owned, p.es, d, Created, CountOf(p.owned, d) != 1, defs);
      }
    }
  }

  lemma EntryIsClean(rules: map<string, Definition>, owned: seq<Definition>, es: seq<Entry>, e: Entry, defs: seq<Definition>)
    requires Clean(World(rules, Some(Draft(owned, es))), defs) && e.def in defs && (Pending(e) ==> !Differs(rules, e.def))
    ensures Clean(World(rules, Some(Draft(owned, es + [e]))), defs)
  {
    forall x | x in es ensures x in EntriesOf(World(rules, Some(Draft(owned, es)))) {}
  }

  lemma RuleIsClean(rules: map<string, Definition>, owned: seq<Definition>, es: seq<Entry>, d: Definition, disposition: Disposition,
                    own: bool, defs: seq<Definition>)
    requires Clean(World(rules, Some(Draft(owned, es))), defs) && d in defs && forall x :: x in es ==> x.def.name != d.name
    ensures Clean(World(rules[d.name := d], Some(Draft(if own then owned + [d] else owned, es + [Entry(d, disposition, Some(true), false)]))), defs)
  {
    forall x | x in es ensures x in EntriesOf(World(rules, Some(Draft(owned, es)))) {}
  }

  predicate StageIsSound(s: Stage, before: World, defs: seq<Definition>, i: nat, hides: bool) {
    StageAgrees(s, before, defs, i, hides) && (hides || StageIsClean(s, defs))
  }

  /** A begun run leads back from every stage, and claims a rule that was there exactly when one of
      its queries hid it; otherwise no rollback of it will find a changed rule. */
  lemma {:induction false} RunAgrees(before: World, defs: seq<Definition>, plan: Plan, i: nat)
    requires DistinctNames(defs) && i <= |defs| && Begins(before, defs, plan)
    ensures StageIsSound(StageAt(before, defs, plan, i), before, defs, i, HidesBefore(before, defs, plan, i))
  {
    if i == 0 {
      StartAgrees(before, defs, plan);
    } else {
      RunAgrees(before, defs, plan, i - 1);
      NextAgrees(before, defs, plan, i - 1);
    }
  }

  lemma StartAgrees(before: World, defs: seq<Definition>, plan: Plan)
    requires Begins(before, defs, plan)
    ensures StageIsSound(StageAt(before, defs, plan, 0), before, defs, 0, HidesBefore(before, defs, plan, 0))
  {
    StartIsConsistent(before.rules, OwnedIn(before), before, before.rules.Keys);
    assert CreatedBy([]) == {};
  }

  lemma NextAgrees(before: World, defs: seq<Definition>, plan: Plan, i: nat)
    requires DistinctNames(defs) && i < |defs|
    requires StageIsSound(StageAt(before, defs, plan, i), before, defs, i, HidesBefore(before, defs, plan, i))
    ensures StageIsSound(StageAt(before, defs, plan, i + 1), before, defs, i + 1, HidesBefore(before, defs, plan, i + 1))
  {
    HidesMore(before, defs, plan, i);
    var s, st := StageAt(before, defs, plan, i), plan.steps(i);
    if s.Going? {
      StepAgrees(s.p, before, defs, i, st);
      if !StepHides(defs[i], st, before) { StepIsClean(s.p, before, defs, i, st); }
    }
  }

  lemma HidesMore(before: World, defs: seq<Definition>, plan: Plan, i: nat)
    requires i < |defs|
    ensures HidesBefore(before, defs, plan, i + 1) <==> HidesBefore(before, defs, plan, i) || HidesAt(before, defs, plan, i)
  {
    if HidesBefore(before, defs, plan, i) {
      var j: nat :| j < i && HidesAt(before, defs, plan, j);
      assert j < i + 1;
    }
  }

  // ---- When the rules come back ----

  lemma CleanIsUnobstructed(w: World, defs: seq<Definition>)
    requires Clean(w, defs) && DistinctNames(defs)
    ensures !Obstructed(w, defs) && RollbackEnd(w, defs) == Undone(w)
  {
    RollbackCompletesIff(w, defs);
  }

  /** Where no query hid a rule, a rollback gives back the rules. */
  lemma UnhiddenRunReturns(before: World, defs: seq<Definition>, plan: Plan)
    requires DistinctNames(defs) && Begins(before, defs, plan) && !HidesBefore(before, defs, plan, |defs|)
    ensures var w := InstallEnd(before, defs, plan);
            !Obstructed(w, defs) && RollbackEnd(w, defs).rules == before.rules
  {
    var w := InstallEnd(before, defs, plan);
    RunAgrees(before, defs, plan, |defs|);
    assert LeadsBack(w, before) && !Claims(w, before);
    RulesReturnIfUnclaimed(w, before, before.rules.Keys);
    CleanIsUnobstructed(w, defs);
  }

  /** A hidden rule ends the run: it cannot be made, and its entry is the last one. */
  lemma HiddenStops(before: World, defs: seq<Definition>, plan: Plan, k: nat)
    requires DistinctNames(defs) && k < |defs| && Begins(before, defs, plan) && HidesAt(before, defs, plan, k)
    ensures var p := StageAt(before, defs, plan, k).p;
            InstallEnd(before, defs, plan) == World(p.w.rules, Some(Draft(p.owned, p.es + [Entry(defs[k], Intended, Some(true), false)])))
  {
    RunAgrees(before, defs, plan, k);
    var p := StageAt(before, defs, plan, k).p;
    FreshName(p, before, defs, k);
    HiddenStep(p, defs[k], plan.steps(k));
    StoppedIsEnd(before, defs, plan, k + 1, World(p.w.rules, Some(Draft(p.owned, p.es + [Entry(defs[k], Intended, Some(true), false)]))));
  }

  lemma HiddenStep(p: Progress, d: Definition, st: Step)
    requires d.name in p.w.rules && st.intent.Works? && st.hidden && !st.absence.Fails?
    ensures OneStep(p, d, st) == Stopped(World(p.w.rules, Some(Draft(p.owned, p.es + [Entry(d, Intended, Some(true), false)]))))
  {
  }

  predicate AllThere(before: World, defs: seq<Definition>, n: nat)
    requires n <= |defs|
  {
    forall j: nat :: j < n ==> defs[j].name in before.rules
  }

  /** As long as a run goes on it has added the rules that were not there. */
  lemma {:induction false} StageRules(before: World, defs: seq<Definition>, plan: Plan, i: nat)
    requires DistinctNames(defs) && i <= |defs| && Begins(before, defs, plan) && StageAt(before, defs, plan, i).Going?
    ensures Adds(StageAt(before, defs, plan, i).p.w.rules, before, defs, i)
  {
    if i > 0 {
      StageRules(before, defs, plan, i - 1);
      RunAgrees(before, defs, plan, i - 1);
      var p := StageAt(before, defs, plan, i - 1).p;
      FreshName(p, before, defs, i - 1);
      StepAdds(p, defs[i - 1], plan.steps(i - 1));
      OneMoreAdded(p.w.rules, StageAt(before, defs, plan, i).p.w.rules, before, defs, i - 1);
    }
  }

  predicate Adds(rules: map<string, Definition>, before: World, defs: seq<Definition>, n: nat)
    requires n <= |defs|
  {
    before.rules.Items <= rules.Items && (rules == before.rules <==> AllThere(before, defs, n))
  }

  /** An iteration that goes on leaves the rules alone or adds its own. */
  lemma StepAdds(p: Progress, d: Definition, st: Step)
    ensures var s := OneStep(p, d, st);
            s.Going? ==> s.p.w.rules == if d.name in p.w.rules then p.w.rules else p.w.rules[d.name := d]
  {
  }

  lemma OneMoreAdded(rules: map<string, Definition>, later: map<string, Definition>, before: World, defs: seq<Definition>, i: nat)
    requires i < |defs| && Adds(rules, before, defs, i) && (defs[i].name in before.rules <==> defs[i].name in rules)
    requires later == if defs[i].name in rules then rules else rules[defs[i].name := defs[i]]
    ensures Adds(later, before, defs, i + 1)
  {
    if defs[i].name !in rules {
      assert defs[i].name in later;
      forall x | x in before.rules.Items ensures x in later.Items { assert x in rules.Items; }
    }
  }

  /** What becomes of a rule that a query hid. One that differs from its definition is left alone,
      and with it everything else, by every rollback. One that does not is removed. */
  lemma HiddenRuleDecides(before: World, defs: seq<Definition>, plan: Plan, k: nat)
    requires DistinctNames(defs) && k < |defs| && Begins(before, defs, plan) && HidesAt(before, defs, plan, k)
    ensures var w := InstallEnd(before, defs, plan);
            && before.rules.Items <= w.rules.Items
            && if Differs(before.rules, defs[k])
               then Obstructed(w, defs) && BlockedAtOnce(w) && w.journal.value.operation.value.phase == Applying && RollbackEnd(w, defs) == w && (w.rules == before.rules <==> AllThere(before, defs, k))
               else !Obstructed(w, defs) && RollbackEnd(w, defs).rules == before.rules - {defs[k].name}
  {
    var p, e := StageAt(before, defs, plan, k).p, Entry(defs[k], Intended, Some(true), false);
    var w := World(p.w.rules, Some(Draft(p.owned, p.es + [e])));
    HiddenStops(before, defs, plan, k);
    StageRules(before, defs, plan, k);
    assert Adds(p.w.rules, before, defs, k);
    RunAgrees(before, defs, plan, k);
    FreshName(p, before, defs, k);
    assert p.w == World(p.w.rules, Some(Draft(p.owned, p.es)));
    StillThere(p.w.rules, p.owned, p.es, defs[k].name, before, before.rules.Keys);
    assert EntriesOf(w)[|p.es|] == e && e in EntriesOf(w);
    if !Differs(before.rules, defs[k]) {
      forall x | x in EntriesOf(w) && Pending(x) ensures !Differs(w.rules, x.def) {
        if x in p.es { assert x in EntriesOf(p.w); }
      }
      forall x | x in EntriesOf(w) ensures x.def in defs {
        if x in p.es { assert x in EntriesOf(p.w); }
      }
      CleanIsUnobstructed(w, defs);
      OneIsLost(p, before, defs, k);
    }
  }

  /** The last entry is pending, and its rule has been changed. */
  predicate BlockedAtOnce(w: World) {
    && HasOperation(w) && EntriesOf(w) != []
    && Pending(EntriesOf(w)[|EntriesOf(w)| - 1]) && Differs(w.rules, EntriesOf(w)[|EntriesOf(w)| - 1].def)
  }

  lemma OneIsLost(p: Progress, before: World, defs: seq<Definition>, k: nat)
    requires k < |defs| && GoesOn(p, before, defs, k)
    ensures Undone(World(p.w.rules, Some(Draft(p.owned, p.es + [Entry(defs[k], Intended, Some(true), false)])))).rules
         == before.rules - {defs[k].name}
  {
    var e := Entry(defs[k], Intended, Some(true), false);
    var w := World(p.w.rules, Some(Draft(p.owned, p.es + [e])));
    assert p.w == World(p.w.rules, Some(Draft(p.owned, p.es)));
    EntryMore(p.w, p.owned, p.es, e, before);
    ConsistentLeadsBack(w, before, before.rules.Keys);
    CreatedByAppend(p.es, e);
    NamesOfMore(CreatedBy(p.es), defs[k]);
    var names := NamesOf(CreatedBy(p.es));
    forall n | n in names ensures n !in before.rules {
      var d :| d in CreatedBy(p.es) && d.name == n;
      assert d in CreatedIn(p.w);
    }
    assert before.rules - (names + {defs[k].name}) == before.rules - {defs[k].name};
  }

  /** Whether the rules are again those from before the run once it has ended and a rollback has done
      what it can. After a first write: each hidden rule differed from its definition and the run
      had added nothing before it. Otherwise: no earlier operation left a rule that a rollback
      comes to. */
  predicate RulesReturn(before: World, defs: seq<Definition>, plan: Plan) {
    if Begins(before, defs, plan) then
      forall i: nat :: i < |defs| && HidesAt(before, defs, plan, i) ==> Differs(before.rules, defs[i]) && AllThere(before, defs, i)
    else !LosesLeftover(before, defs)
  }

  /** Whether no rollback after the run can come to its end: a hidden rule differed from its
      definition, or the run wrote nothing and the rollback was obstructed before it. */
  predicate StaysObstructed(before: World, defs: seq<Definition>, plan: Plan) {
    if Begins(before, defs, plan) then exists i: nat :: i < |defs| && HidesAt(before, defs, plan, i) && Differs(before.rules, defs[i])
    else Obstructed(before, defs)
  }

  lemma RulesReturnIff(before: World, defs: seq<Definition>, plan: Plan)
    requires DistinctNames(defs)
    ensures var w := InstallEnd(before, defs, plan);
            && (RollbackEnd(w, defs).rules == before.rules <==> RulesReturn(before, defs, plan))
            && (Obstructed(w, defs) <==> StaysObstructed(before, defs, plan))
  {
    var w := InstallEnd(before, defs, plan);
    if !Begins(before, defs, plan) {
      StoppedStays(before, defs, plan, 0, |defs|);
      RollbackLosesIff(before, defs);
    } else if HidesBefore(before, defs, plan, |defs|) {
      var k: nat :| k < |defs| && HidesAt(before, defs, plan, k);
      HiddenRuleDecides(before, defs, plan, k);
      forall i: nat | i < |defs| && HidesAt(before, defs, plan, i) ensures i == k { HidesOnce(before, defs, plan, i, k); }
    } else {
      UnhiddenRunReturns(before, defs, plan);
    }
  }

  lemma HidesOnce(before: World, defs: seq<Definition>, plan: Plan, i: nat, k: nat)
    requires DistinctNames(defs) && i < |defs| && k < |defs| && Begins(before, defs, plan)
    requires HidesAt(before, defs, plan, i) && HidesAt(before, defs, plan, k)
    ensures i == k
  {
    RunAgrees(before, defs, plan, i);
    RunAgrees(before, defs, plan, k);
  }

  /** An unfinished operation whose rollback is obstructed blocks every later installation as well. */
  lemma UnfinishedBlocks(w: World, defs: seq<Definition>, plan: Plan)
    requires HasOperation(w) && w.journal.value.operation.value.phase == Applying
    ensures InstallEnd(w, defs, plan) == w
  {
    StoppedStays(w, defs, plan, 0, |defs|);
  }

  lemma {:induction false} StoppedStays(before: World, defs: seq<Definition>, plan: Plan, i: nat, j: nat)
    requires i <= j <= |defs| && StageAt(before, defs, plan, i).Stopped?
    ensures StageAt(before, defs, plan, j) == StageAt(before, defs, plan, i)
  {
    if i < j { StoppedStays(before, defs, plan, i, j - 1); }
  }

  predicate Truthful(plan: Plan, n: nat) { forall i: nat :: i < n ==> !plan.steps(i).hidden }

  /** With truthful queries the rules come back wherever the run ends, if and only if no earlier
      operation had left a rule that a rollback comes to; and a rollback can always come to its end if
      and only if nothing obstructed one before. */
  lemma TruthfulRulesReturnIff(before: World, defs: seq<Definition>)
    requires DistinctNames(defs)
    ensures !LosesLeftover(before, defs)
       <==> forall plan {:trigger InstallEnd(before, defs, plan)} ::
              Truthful(plan, |defs|) ==> RollbackEnd(InstallEnd(before, defs, plan), defs).rules == before.rules
    ensures !Obstructed(before, defs)
       <==> forall plan {:trigger InstallEnd(before, defs, plan)} ::
              Truthful(plan, |defs|) ==> !Obstructed(InstallEnd(before, defs, plan), defs)
  {
    forall plan {:trigger InstallEnd(before, defs, plan)} | Truthful(plan, |defs|)
      ensures !LosesLeftover(before, defs) ==> RollbackEnd(InstallEnd(before, defs, plan), defs).rules == before.rules
      ensures !Obstructed(before, defs) ==> !Obstructed(InstallEnd(before, defs, plan), defs)
    {
      RulesReturnIff(before, defs, plan);
    }
    var idle := Plan(false, Fails, (i: nat) => GOOD_STEP, Fails);
    RulesReturnIff(before, defs, idle);
    assert Truthful(idle, |defs|);
  }

  /** After a begun run's rollback no rule the operation may have created is owned, and every other
      one as before. */
  lemma OwnershipReturns(before: World, defs: seq<Definition>, plan: Plan)
    requires DistinctNames(defs) && Begins(before, defs, plan)
    ensures var w := InstallEnd(before, defs, plan);
            forall d :: d in OwnedIn(Undone(w)) <==> d in OwnedIn(before) && d !in CreatedIn(w)
  {
    RunAgrees(before, defs, plan, |defs|);
    OwnershipIsReturned(InstallEnd(before, defs, plan), before, before.rules.Keys);
  }

  // ---- A run cut short is a run ----

  /** The plan with another outcome of the i-th iteration. */
  function With(plan: Plan, i: nat, st: Step): Plan { plan.(steps := (k: nat) => if k == i then st else plan.steps(k)) }

  predicate SameAnswers(plan: Plan, other: Plan, n: nat) { forall i: nat :: i < n ==> plan.steps(i).hidden == other.steps(i).hidden }

  /** The world is where a run ends whose queries are answered the same. */
  ghost predicate IsRunEnd(w: World, before: World, defs: seq<Definition>, plan: Plan) {
    exists other :: SameAnswers(plan, other, |defs|) && InstallEnd(before, defs, other) == w
  }

  lemma {:induction false} SameUntil(before: World, defs: seq<Definition>, plan: Plan, i: nat, st: Step, j: nat)
    requires j <= i < |defs|
    ensures StageAt(before, defs, With(plan, i, st), j) == StageAt(before, defs, plan, j)
  {
    if j > 0 {
      SameUntil(before, defs, plan, i, st, j - 1);
      assert With(plan, i, st).steps(j - 1) == plan.steps(j - 1);
    }
  }

  /** A crash after any effect of the i-th iteration ends like a run in which the next command fails. */
  lemma CutIsRunEnd(before: World, defs: seq<Definition>, plan: Plan, i: nat, cut: Step, w: World)
    requires i < |defs| && StageAt(before, defs, plan, i).Going? && cut.hidden == plan.steps(i).hidden
    requires OneStep(StageAt(before, defs, plan, i).p, defs[i], cut) == Stopped(w)
    ensures IsRunEnd(w, before, defs, plan)
  {
    var other := With(plan, i, cut);
    SameUntil(before, defs, plan, i, cut, i);
    assert other.steps(i) == cut;
    assert StageAt(before, defs, other, i + 1) == Stopped(w);
    StoppedIsEnd(before, defs, other, i + 1, w);
    assert SameAnswers(plan, other, |defs|);
  }

  lemma StoppedIsEnd(before: World, defs: seq<Definition>, plan: Plan, i: nat, w: World)
    requires i <= |defs| && StageAt(before, defs, plan, i) == Stopped(w)
    ensures InstallEnd(before, defs, plan) == w
  {
    StoppedStays(before, defs, plan, i, |defs|);
  }

  // ---- Two runs that lose a rule ----

  const RULE := Definition("AllowAgent", "out")
  const DEFS := [RULE]
  const EMPTY := World(map[], None)
  const GOOD_STEP := Step(Works, false, true, Works, Works, true, Works)
  const GOOD := Plan(true, Works, (i: nat) => GOOD_STEP, Works)

  /** What an installation on an empty machine leaves when everything works. */
  const INSTALLED := World(map[RULE.name := RULE], Some(Journal([RULE], Some(Operation(Committed, [Entry(RULE, Created, Some(true), false)])))))

  lemma InstallationWorks()
    ensures InstallEnd(EMPTY, DEFS, GOOD) == INSTALLED
  {
    var p := Progress(World(map[], Some(Draft([], []))), [], []);
    assert StageAt(EMPTY, DEFS, GOOD, 0) == Going(p);
    var e := Entry(RULE, Created, Some(true), false);
    assert [] + [e] == [e] && [] + [RULE] == [RULE];
    assert OneStep(p, RULE, GOOD_STEP) == Going(Progress(World(map[RULE.name := RULE], Some(Draft([RULE], [e]))), [RULE], [e]));
    assert StageAt(EMPTY, DEFS, GOOD, 1) == OneStep(p, RULE, GOOD_STEP);
  }

  /** A completed installation, and then one that fails before its first write takes effect: the
      rollback takes away the rule of the first. */
  lemma EarlierInstallationIsUndone()
    ensures var second := GOOD.(start := Fails);
            && InstallEnd(InstallEnd(EMPTY, DEFS, GOOD), DEFS, second) == INSTALLED
            && RollbackEnd(INSTALLED, DEFS) == EMPTY && INSTALLED.rules != EMPTY.rules
  {
    InstallationWorks();
    var second := GOOD.(start := Fails);
    assert StageAt(INSTALLED, DEFS, second, 0).Stopped?;
    StoppedStays(INSTALLED, DEFS, second, 0, 1);
    assert EntriesOf(INSTALLED) == [Entry(RULE, Created, Some(true), false)];
    assert Pending(EntriesOf(INSTALLED)[0]) && !Differs(INSTALLED.rules, RULE);
    var next := AfterEntry(INSTALLED, 0);
    assert Keep([RULE], {RULE}) == [] && next.rules == map[];
    assert RolledFrom(INSTALLED, 1) == RolledFrom(next, 0) == EMPTY;
    assert RULE.name in INSTALLED.rules;
  }

  /** A run on a machine that has a rule of this name, and whose query fails. */
  const BLIND := GOOD.(steps := (i: nat) => GOOD_STEP.(hidden := true))

  lemma BlindRunHides(before: World)
    requires Startable(before, DEFS) && RULE.name in before.rules
    ensures Begins(before, DEFS, BLIND) && HidesAt(before, DEFS, BLIND, 0)
  {
    assert StageAt(before, DEFS, BLIND, 0).Going?;
  }

  /** A completed installation, and then one whose query fails: the rollback of the second takes
      away the rule of the first, although the second created nothing. */
  lemma HiddenRuleIsLost()
    ensures var w := InstallEnd(InstallEnd(EMPTY, DEFS, GOOD), DEFS, BLIND);
            w.rules == INSTALLED.rules && RollbackEnd(w, DEFS).rules == map[] && INSTALLED.rules != map[]
  {
    InstallationWorks();
    assert RULE.name in INSTALLED.rules && RULE in DEFS;
    BlindRunHides(INSTALLED);
    HiddenRuleDecides(INSTALLED, DEFS, BLIND, 0);
    HiddenStops(INSTALLED, DEFS, BLIND, 0);
    assert INSTALLED.rules - {RULE.name} == map[];
  }

  const FOREIGN := World(map[RULE.name := Definition(RULE.name, "somebody else's")], None)

  /** An installation whose query fails on somebody else's rule: that rule stays, but no rollback can
      come to its end any more, and no later installation begins. */
  lemma HiddenRuleBlocks(later: Plan)
    ensures var w := InstallEnd(FOREIGN, DEFS, BLIND);
            && w.rules == FOREIGN.rules && w.journal.Some? && Obstructed(w, DEFS)
            && RollbackEnd(w, DEFS) == w && InstallEnd(w, DEFS, later) == w
  {
    assert RULE.name in FOREIGN.rules && Differs(FOREIGN.rules, RULE);
    BlindRunHides(FOREIGN);
    HiddenRuleDecides(FOREIGN, DEFS, BLIND, 0);
    HiddenStops(FOREIGN, DEFS, BLIND, 0);
    UnfinishedBlocks(InstallEnd(FOREIGN, DEFS, BLIND), DEFS, later);
  }
}
