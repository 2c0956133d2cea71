/** The installer's firewall journal as a value: the state of the script in
    `cmd/installer-verifier/main_windows.go`, and what a rollback makes of it. */
module FirewallState {
  import opened Wrappers

  /** A rule as far as the script compares it; the fields beside the name are kept as one text. */
  datatype Definition = Definition(name: string, body: string)

  datatype Disposition = Intended | Created | Preexisting

  datatype Entry = Entry(def: Definition, disposition: Disposition, absentBefore: Option<bool>, resolved: bool)

  datatype Phase = Applying | Committed

  datatype Operation = Operation(phase: Phase, rules: seq<Entry>)

  datatype Journal = Journal(owned: seq<Definition>, operation: Option<Operation>)

  datatype World = World(rules: map<string, Definition>, journal: Option<Journal>)

  /** The rule was, or may have been, made by the operation. */
  predicate CreatedNow(e: Entry) {
    e.disposition == Created || (e.disposition == Intended && e.absentBefore == Some(true))
  }

  // ---- What a rollback is to lead to ----

  function Keep(owned: seq<Definition>, gone: set<Definition>): seq<Definition> {
    if owned == [] then [] else (if owned[0] in gone then [] else [owned[0]]) + Keep(owned[1..], gone)
  }

  function NamesOf(defs: set<Definition>): set<string> { set d | d in defs :: d.name }

  function PendingCreated(entries: seq<Entry>): set<Definition> {
    set i | 0 <= i < |entries| && CreatedNow(entries[i]) && !entries[i].resolved :: entries[i].def
  }

  function CreatedBy(entries: seq<Entry>): set<Definition> {
    set i | 0 <= i < |entries| && CreatedNow(entries[i]) :: entries[i].def
  }

  /** The world with these rules and this ownership, and no operation. */
  function Settled(rules: map<string, Definition>, owned: seq<Definition>): World {
    World(rules, if owned == [] then None else Some(Journal(owned, None)))
  }

  /** The world without what the current operation still may have created. */
  function Undone(w: World): World {
    match w.journal
    case None => w
    case Some(j) =>
      match j.operation
      case None => w
      case Some(op) =>
        var gone := PendingCreated(op.rules);
        Settled(w.rules - NamesOf(gone), Keep(j.owned, gone))
  }

  function OwnedIn(w: World): seq<Definition> {
    match w.journal case None => [] case Some(j) => j.owned
  }

  /** The world before the installation, less the rules it took for its own. */
  function Reverted(before: World, created: set<Definition>): World {
    Settled(before.rules - NamesOf(created), Keep(OwnedIn(before), created))
  }

  predicate DistinctNames(defs: seq<Definition>) {
    forall i: nat, j: nat :: i < j < |defs| ==> defs[i].name != defs[j].name
  }

  /** The validation of Read-FirewallJournal. */
  predicate Readable(j: Journal, defs: seq<Definition>) {
    && (forall d :: d in j.owned ==> d in defs)
    && (j.operation.Some? ==> forall e :: e in j.operation.value.rules ==> e.def in defs)
  }

  /** There is a rule of this name, but not this one. */
  predicate Differs(rules: map<string, Definition>, d: Definition) {
    d.name in rules && rules[d.name] != d
  }

  // ---- Facts about sets of definitions ----

  lemma {:induction false} KeepMembers(owned: seq<Definition>, gone: set<Definition>)
    ensures forall d :: d in Keep(owned, gone) <==> d in owned && d !in gone
  {
    if owned != [] { KeepMembers(owned[1..], gone); }
  }

  lemma {:induction false} KeepKeep(owned: seq<Definition>, a: set<Definition>, b: set<Definition>)
    ensures Keep(Keep(owned, a), b) == Keep(owned, a + b)
  {
    if owned != [] {
      KeepKeep(owned[1..], a, b);
      var rest := Keep(owned[1..], a);
      if owned[0] in a { assert Keep(owned, a) == rest; } else { assert ([owned[0]] + rest)[1..] == rest; }
    }
  }

  lemma {:induction false} KeepAppend(owned: seq<Definition>, d: Definition, gone: set<Definition>)
    ensures Keep(owned + [d], gone) == Keep(owned, gone) + if d in gone then [] else [d]
  {
    if owned != [] {
      assert (owned + [d])[1..] == owned[1..] + [d];
      KeepAppend(owned[1..], d, gone);
    }
  }

  lemma {:induction false} KeepNothing(owned: seq<Definition>)
    ensures Keep(owned, {}) == owned
  {
    if owned != [] { KeepNothing(owned[1..]); }
  }

  // ---- Rolling back one entry ----

  function Resolved(entries: seq<Entry>, i: nat): seq<Entry>
    requires i < |entries|
  {
    entries[i := entries[i].(resolved := true)]
  }

  lemma PendingWithout(entries: seq<Entry>, i: nat)
    requires i < |entries| && CreatedNow(entries[i]) && !entries[i].resolved
    ensures PendingCreated(Resolved(entries, i)) + {entries[i].def} == PendingCreated(entries)
  {
    var r := Resolved(entries, i);
    forall d | d in PendingCreated(entries) ensures d in PendingCreated(r) + {entries[i].def} {
      var j :| 0 <= j < |entries| && CreatedNow(entries[j]) && !entries[j].resolved && entries[j].def == d;
      if j != i { assert r[j] == entries[j]; }
    }
    forall d | d in PendingCreated(r) ensures d in PendingCreated(entries) {
      var j :| 0 <= j < |r| && CreatedNow(r[j]) && !r[j].resolved && r[j].def == d;
      assert j != i && r[j] == entries[j];
    }
    assert entries[i].def in PendingCreated(entries);
  }

  /** Removing the rule of a pending entry changes nothing of what the rollback leads to. */
  lemma UndoneAfterDelete(w: World, j: Journal, op: Operation, i: nat, rules: map<string, Definition>)
    requires w.journal == Some(j) && j.operation == Some(op) && i < |op.rules|
    requires CreatedNow(op.rules[i]) && !op.rules[i].resolved
    requires rules == w.rules || rules == w.rules - {op.rules[i].def.name}
    ensures Undone(w.(rules := rules)) == Undone(w)
  {
    assert op.rules[i].def in PendingCreated(op.rules);
    assert op.rules[i].def.name in NamesOf(PendingCreated(op.rules));
    assert rules - NamesOf(PendingCreated(op.rules)) == w.rules - NamesOf(PendingCreated(op.rules));
  }

  /** Nor does disowning it and marking the entry, once the rule is gone. */
  lemma UndoneAfterResolve(w: World, j: Journal, op: Operation, i: nat)
    requires w.journal == Some(j) && j.operation == Some(op) && i < |op.rules|
    requires CreatedNow(op.rules[i]) && !op.rules[i].resolved && op.rules[i].def.name !in w.rules
    ensures Undone(w.(journal := Some(Journal(Keep(j.owned, {op.rules[i].def}), Some(op.(rules := Resolved(op.rules, i))))))) == Undone(w)
  {
    var d, rest, gone := op.rules[i].def, PendingCreated(Resolved(op.rules, i)), PendingCreated(op.rules);
    PendingWithout(op.rules, i);
    assert {d} + rest == gone;
    KeepKeep(j.owned, {d}, rest);
    forall n ensures n in NamesOf(gone) <==> n in NamesOf(rest) || n == d.name {
      if n in NamesOf(gone) { var x :| x in gone && x.name == n; assert x in rest || x == d; }
      if n in NamesOf(rest) { var x :| x in rest && x.name == n; assert x in gone; }
      assert d in gone;
    }
    assert w.rules - NamesOf(rest) == w.rules - NamesOf(gone);
  }

  lemma NothingPending(w: World, j: Journal, op: Operation)
    requires w.journal == Some(j) && j.operation == Some(op)
    requires forall e: nat :: e < |op.rules| ==> !CreatedNow(op.rules[e]) || op.rules[e].resolved
    ensures Undone(w) == Settled(w.rules, j.owned)
  {
    assert PendingCreated(op.rules) == {};
    KeepNothing(j.owned);
    assert w.rules - NamesOf({}) == w.rules;
  }

  /** The journal cannot be read, or the rule of an entry to be rolled back has been changed. */
  predicate Obstructed(w: World, defs: seq<Definition>) {
    w.journal.Some? && (!Readable(w.journal.value, defs)
      || (w.journal.value.operation.Some?
          && exists e :: e in w.journal.value.operation.value.rules && CreatedNow(e) && !e.resolved && Differs(w.rules, e.def)))
  }

  lemma DifferedBefore(rules: map<string, Definition>, before: map<string, Definition>, d: Definition)
    requires rules.Items <= before.Items && Differs(rules, d)
    ensures Differs(before, d)
  {
    assert (d.name, rules[d.name]) in rules.Items;
  }

  // ---- Where a rollback ends ----

  predicate HasOperation(w: World) { w.journal.Some? && w.journal.value.operation.Some? }

  function EntriesOf(w: World): seq<Entry>
    requires HasOperation(w)
  {
    w.journal.value.operation.value.rules
  }

  predicate Pending(e: Entry) { CreatedNow(e) && !e.resolved }

  /** The rule of entry i gone, disowned, and the entry marked. */
  function AfterEntry(w: World, i: nat): World
    requires HasOperation(w) && i < |EntriesOf(w)|
  {
    var j, op, d := w.journal.value, w.journal.value.operation.value, EntriesOf(w)[i].def;
    World(w.rules - {d.name}, Some(Journal(Keep(j.owned, {d}), Some(op.(rules := Resolved(op.rules, i))))))
  }

  /** The loop of the rollback over the entries before i, last one first, when no command fails: it
      ends at a rule that has been changed. */
  function RolledFrom(w: World, i: nat): World
    requires HasOperation(w) && i <= |EntriesOf(w)|
    decreases i
  {
    if i == 0 then Settled(w.rules, w.journal.value.owned)
    else if !Pending(EntriesOf(w)[i - 1]) then RolledFrom(w, i - 1)
    else if Differs(w.rules, EntriesOf(w)[i - 1].def) then w
    else RolledFrom(AfterEntry(w, i - 1), i - 1)
  }

  /** Where a rollback ends when no command fails. */
  function RollbackEnd(w: World, defs: seq<Definition>): World {
    if !HasOperation(w) || !Readable(w.journal.value, defs) then w else RolledFrom(w, |EntriesOf(w)|)
  }

  lemma {:induction false} RolledSkips(w: World, i: nat, n: nat)
    requires HasOperation(w) && i <= n <= |EntriesOf(w)|
    requires forall k: nat :: i <= k < n ==> !Pending(EntriesOf(w)[k])
    ensures RolledFrom(w, n) == RolledFrom(w, i)
    decreases n
  {
    if i < n { RolledSkips(w, i, n - 1); }
  }

  lemma ReadableAfterEntry(w: World, i: nat, defs: seq<Definition>)
    requires HasOperation(w) && i < |EntriesOf(w)| && Readable(w.journal.value, defs)
    ensures Readable(AfterEntry(w, i).journal.value, defs)
  {
    KeepMembers(w.journal.value.owned, {EntriesOf(w)[i].def});
    var op := AfterEntry(w, i).journal.value.operation.value;
    forall e | e in op.rules ensures e.def in defs {
      var k: nat :| k < |op.rules| && op.rules[k] == e;
      assert EntriesOf(w)[k] in EntriesOf(w);
    }
  }

  /** Neither the removal of an entry's rule nor the record of it changes where the rollback ends. */
  lemma EndAfterEntry(w: World, i: nat, deleted: World, defs: seq<Definition>)
    requires HasOperation(w) && i < |EntriesOf(w)| && Readable(w.journal.value, defs)
    requires Pending(EntriesOf(w)[i]) && !Differs(w.rules, EntriesOf(w)[i].def)
    requires forall k: nat :: i < k < |EntriesOf(w)| ==> !Pending(EntriesOf(w)[k])
    requires deleted == w || deleted == w.(rules := w.rules - {EntriesOf(w)[i].def.name})
    ensures RollbackEnd(deleted, defs) == RollbackEnd(AfterEntry(w, i), defs) == RollbackEnd(w, defs)
  {
    var n, name := |EntriesOf(w)|, EntriesOf(w)[i].def.name;
    assert w.rules - {name} - {name} == w.rules - {name};
    RolledSkips(w, i + 1, n);
    RolledSkips(deleted, i + 1, n);
    RolledSkips(AfterEntry(w, i), i, n);
    ReadableAfterEntry(w, i, defs);
  }

  /** Without an obstruction the rollback undoes everything. */
  lemma {:induction false} RolledIsUndone(w: World, i: nat)
    requires HasOperation(w) && i <= |EntriesOf(w)|
    requires forall k: nat :: k < |EntriesOf(w)| && Pending(EntriesOf(w)[k]) ==> k < i && !Differs(w.rules, EntriesOf(w)[k].def)
    ensures RolledFrom(w, i) == Undone(w)
    decreases i
  {
    var j, op := w.journal.value, w.journal.value.operation.value;
    if i == 0 {
      NothingPending(w, j, op);
    } else if Pending(op.rules[i - 1]) {
      var d, next := op.rules[i - 1].def, AfterEntry(w, i - 1);
      UndoneAfterDelete(w, j, op, i - 1, w.rules - {d.name});
      UndoneAfterResolve(w.(rules := w.rules - {d.name}), j, op, i - 1);
      forall k: nat | k < |op.rules| && Pending(EntriesOf(next)[k]) ensures k < i - 1 && !Differs(next.rules, EntriesOf(next)[k].def) {
        assert EntriesOf(next)[k] == op.rules[k];
      }
      RolledIsUndone(next, i - 1);
    } else {
      RolledIsUndone(w, i - 1);
    }
  }

  /** A changed rule stays as it is, and its entry pending. */
  lemma {:induction false} RolledIsStuck(w: World, i: nat, k: nat, defs: seq<Definition>)
    requires HasOperation(w) && k < i <= |EntriesOf(w)| && Readable(w.journal.value, defs) && DistinctNames(defs)
    requires Pending(EntriesOf(w)[k]) && Differs(w.rules, EntriesOf(w)[k].def)
    ensures var t := RolledFrom(w, i);
            && HasOperation(t) && |EntriesOf(t)| == |EntriesOf(w)| && EntriesOf(t)[k] == EntriesOf(w)[k]
            && Differs(t.rules, EntriesOf(t)[k].def) && t.journal.value.operation.value.phase == w.journal.value.operation.value.phase
    decreases i
  {
    var e := EntriesOf(w)[i - 1];
    if !Pending(e) {
      RolledIsStuck(w, i - 1, k, defs);
    } else if !Differs(w.rules, e.def) {
      var next, d := AfterEntry(w, i - 1), EntriesOf(w)[k].def;
      assert d in defs && e.def in defs by { assert EntriesOf(w)[k] in EntriesOf(w) && e in EntriesOf(w); }
      OneName(defs, d, e.def);
      ReadableAfterEntry(w, i - 1, defs);
      assert EntriesOf(next)[k] == EntriesOf(w)[k];
      RolledIsStuck(next, i - 1, k, defs);
    }
  }

  lemma OneName(defs: seq<Definition>, a: Definition, b: Definition)
    requires DistinctNames(defs) && a in defs && b in defs
    ensures a.name == b.name ==> a == b
  {
    var i: nat :| i < |defs| && defs[i] == a;
    var j: nat :| j < |defs| && defs[j] == b;
  }

  /** A rollback can come to its end if and only if nothing obstructs it. Otherwise it is as
      obstructed where it ends as before. */
  lemma RollbackCompletesIff(w: World, defs: seq<Definition>)
    requires DistinctNames(defs)
    ensures !Obstructed(w, defs) ==> RollbackEnd(w, defs) == Undone(w) && !HasOperation(RollbackEnd(w, defs))
    ensures Obstructed(w, defs) <==> Obstructed(RollbackEnd(w, defs), defs)
    ensures Obstructed(w, defs) && Readable(w.journal.value, defs) ==> HasOperation(RollbackEnd(w, defs))
    ensures RollbackEnd(RollbackEnd(w, defs), defs) == RollbackEnd(w, defs)
  {
    if HasOperation(w) && Readable(w.journal.value, defs) {
      RolledStays(w, |EntriesOf(w)|, defs);
      if Obstructed(w, defs) {
        var e :| e in EntriesOf(w) && CreatedNow(e) && !e.resolved && Differs(w.rules, e.def);
        var k: nat :| k < |EntriesOf(w)| && EntriesOf(w)[k] == e;
        RolledIsStuck(w, |EntriesOf(w)|, k, defs);
        assert EntriesOf(RollbackEnd(w, defs))[k] in EntriesOf(RollbackEnd(w, defs));
      } else {
        forall k: nat | k < |EntriesOf(w)| && Pending(EntriesOf(w)[k]) ensures !Differs(w.rules, EntriesOf(w)[k].def) {
          assert EntriesOf(w)[k] in EntriesOf(w);
        }
        RolledIsUndone(w, |EntriesOf(w)|);
        KeepMembers(w.journal.value.owned, PendingCreated(EntriesOf(w)));
      }
    }
  }

  /** Where it ends, another rollback changes nothing. */
  lemma {:induction false} RolledStays(w: World, i: nat, defs: seq<Definition>)
    requires HasOperation(w) && i <= |EntriesOf(w)| && Readable(w.journal.value, defs)
    requires forall k: nat :: i <= k < |EntriesOf(w)| ==> !Pending(EntriesOf(w)[k])
    ensures RollbackEnd(RolledFrom(w, i), defs) == RolledFrom(w, i)
    decreases i
  {
    if i > 0 {
      if !Pending(EntriesOf(w)[i - 1]) {
        RolledStays(w, i - 1, defs);
      } else if Differs(w.rules, EntriesOf(w)[i - 1].def) {
        RolledSkips(w, i, |EntriesOf(w)|);
      } else {
        ReadableAfterEntry(w, i - 1, defs);
        RolledStays(AfterEntry(w, i - 1), i - 1, defs);
      }
    }
  }

  // ---- Which rules a rollback removes ----

  function PendingIn(w: World): set<Definition> { if HasOperation(w) then PendingCreated(EntriesOf(w)) else {} }

  /** Every rule is kept as it is or was exactly that of a pending entry. */
  predicate OnlyExactGo(w: World, before: World) {
    && PendingIn(w) <= PendingIn(before)
    && w.rules.Items <= before.rules.Items
    && forall n :: n in before.rules && n !in w.rules ==> before.rules[n] in PendingIn(before)
  }

  lemma OnlyExactAgain(w: World, middle: World, before: World)
    requires OnlyExactGo(middle, before) && OnlyExactGo(w, middle)
    ensures OnlyExactGo(w, before)
  {
    forall n | n in before.rules && n !in w.rules ensures before.rules[n] in PendingIn(before) {
      if n in middle.rules { assert (n, middle.rules[n]) in middle.rules.Items; }
    }
  }

  lemma EntryGoesExactly(w: World, i: nat, deleted: World)
    requires HasOperation(w) && i < |EntriesOf(w)| && Pending(EntriesOf(w)[i]) && !Differs(w.rules, EntriesOf(w)[i].def)
    requires deleted == w || deleted == w.(rules := w.rules - {EntriesOf(w)[i].def.name})
    ensures OnlyExactGo(deleted, w) && OnlyExactGo(AfterEntry(w, i), w)
  {
    PendingWithout(EntriesOf(w), i);
    assert EntriesOf(w)[i].def in PendingIn(w);
  }

  /** A pending entry's own rule is there, and the rollback comes to it. */
  predicate LosesLeftover(w: World, defs: seq<Definition>) {
    HasOperation(w) && Readable(w.journal.value, defs)
    && ComesToAny(w, |EntriesOf(w)|)
  }

  predicate ComesToAny(w: World, n: nat)
    requires HasOperation(w) && n <= |EntriesOf(w)|
  {
    exists k: nat :: k < n && ComesTo(w, k, n)
  }

  predicate ComesTo(w: World, k: nat, n: nat)
    requires HasOperation(w) && k < n <= |EntriesOf(w)|
  {
    && Pending(EntriesOf(w)[k]) && EntriesOf(w)[k].def.name in w.rules
    && forall j: nat :: k <= j < n && Pending(EntriesOf(w)[j]) ==> !Differs(w.rules, EntriesOf(w)[j].def)
  }

  lemma {:induction false} RolledLosesIff(w: World, i: nat)
    requires HasOperation(w) && i <= |EntriesOf(w)|
    ensures RolledFrom(w, i).rules.Items <= w.rules.Items
    ensures RolledFrom(w, i).rules == w.rules <==> !ComesToAny(w, i)
    decreases i
  {
    if i == 0 { return; }
    var e := EntriesOf(w)[i - 1];
    if !Pending(e) {
      RolledLosesIff(w, i - 1);
      SameComing(w, w, i);
    } else if !Differs(w.rules, e.def) {
      var next := AfterEntry(w, i - 1);
      RolledLosesIff(next, i - 1);
      if e.def.name in w.rules {
        assert ComesTo(w, i - 1, i);
        LessItems(RolledFrom(next, i - 1).rules, next.rules, e.def.name);
      } else {
        assert next.rules == w.rules;
        SameComing(w, next, i);
      }
    }
  }

  lemma SameComing(w: World, next: World, i: nat)
    requires HasOperation(w) && HasOperation(next) && 0 < i <= |EntriesOf(w)| == |EntriesOf(next)|
    requires next.rules == w.rules && forall j: nat :: j < i - 1 ==> EntriesOf(next)[j] == EntriesOf(w)[j]
    requires Pending(EntriesOf(w)[i - 1]) ==> EntriesOf(w)[i - 1].def.name !in w.rules
    ensures ComesToAny(w, i) <==> ComesToAny(next, i - 1)
  {
    if ComesToAny(w, i) {
      var k: nat :| k < i && ComesTo(w, k, i);
      assert k < i - 1 && ComesTo(next, k, i - 1);
    }
    if ComesToAny(next, i - 1) {
      var k: nat :| k < i - 1 && ComesTo(next, k, i - 1);
      assert ComesTo(w, k, i);
    }
  }

  lemma LessItems(a: map<string, Definition>, b: map<string, Definition>, n: string)
    requires a.Items <= b.Items
    ensures n in a ==> n in b && b[n] == a[n]
  {
    if n in a { assert (n, a[n]) in a.Items; }
  }

  /** A rollback without faults removes a rule if and only if it comes to one. */
  lemma RollbackLosesIff(w: World, defs: seq<Definition>)
    ensures RollbackEnd(w, defs).rules == w.rules <==> !LosesLeftover(w, defs)
  {
    if HasOperation(w) && Readable(w.journal.value, defs) { RolledLosesIff(w, |EntriesOf(w)|); }
  }

  // ---- How far an installation has come ----

  /** The journal of an unfinished installation. */
  function Draft(owned: seq<Definition>, es: seq<Entry>): Journal { Journal(owned, Some(Operation(Applying, es))) }

  /** How far an installation that began in `before` has come: apart from what its entries may
      have created, rules and ownership are as before. */
  predicate Consistent(w: World, before: World, missed: set<string>) {
    && w.journal.Some? && w.journal.value.operation.Some?
    && (var es := w.journal.value.operation.value.rules;
        && (forall e :: e in es ==> !e.resolved)
        && w.rules - NamesOf(CreatedBy(es)) == before.rules - NamesOf(CreatedBy(es))
        && Keep(w.journal.value.owned, CreatedBy(es)) == Keep(OwnedIn(before), CreatedBy(es))
        && forall d :: d in CreatedBy(es) && d.name in before.rules ==> d.name in missed)
  }

  function CreatedIn(w: World): set<Definition> {
    if w.journal.Some? && w.journal.value.operation.Some? then CreatedBy(w.journal.value.operation.value.rules) else {}
  }

  /** From any such point, a rollback leads back to the world before, less the rules that the
      installation took for absent. */
  lemma ConsistentLeadsBack(w: World, before: World, missed: set<string>)
    requires Consistent(w, before, missed)
    ensures Undone(w) == Reverted(before, CreatedIn(w))
    ensures missed * before.rules.Keys == {} ==> Undone(w).rules == before.rules
  {
    var es := w.journal.value.operation.value.rules;
    assert PendingCreated(es) == CreatedBy(es) by {
      forall d | d in CreatedBy(es) ensures d in PendingCreated(es) {
        var i :| 0 <= i < |es| && CreatedNow(es[i]) && es[i].def == d;
        assert es[i] in es;
      }
    }
    if missed * before.rules.Keys == {} {
      forall n | n in NamesOf(CreatedBy(es)) ensures n in before.rules ==> n in missed {
        var d :| d in CreatedBy(es) && d.name == n;
        assert d.name in before.rules ==> d.name in missed;
      }
      forall n | n in before.rules ensures n !in missed {
        assert n in missed ==> n in missed * before.rules.Keys;
      }
      assert before.rules - NamesOf(CreatedBy(es)) == before.rules;
    }
  }

  /** In general they come back if and only if nothing that was there was taken for created. */
  lemma RulesReturnIfUnclaimed(w: World, before: World, missed: set<string>)
    requires Consistent(w, before, missed)
    ensures Undone(w).rules == before.rules <==> forall d :: d in CreatedIn(w) ==> d.name !in before.rules
  {
    ConsistentLeadsBack(w, before, missed);
    var gone := NamesOf(CreatedIn(w));
    if forall d :: d in CreatedIn(w) ==> d.name !in before.rules {
      forall n | n in gone ensures n !in before.rules {}
      assert before.rules - gone == before.rules;
    } else {
      var d :| d in CreatedIn(w) && d.name in before.rules;
      assert d.name in gone;
      assert d.name !in before.rules - gone;
    }
  }

  /** After the rollback no rule the operation may have created is owned, and every other one is
      owned as it was. */
  lemma OwnershipIsReturned(w: World, before: World, missed: set<string>)
    requires Consistent(w, before, missed)
    ensures forall d :: d in OwnedIn(Undone(w)) <==> d in OwnedIn(before) && d !in CreatedIn(w)
  {
    ConsistentLeadsBack(w, before, missed);
    KeepMembers(OwnedIn(before), CreatedIn(w));
  }

  lemma CreatedByAppend(es: seq<Entry>, e: Entry)
    ensures CreatedBy(es + [e]) == CreatedBy(es) + if CreatedNow(e) then {e.def} else {}
  {
    var all := es + [e];
    forall d | d in CreatedBy(es) ensures d in CreatedBy(all) {
      var i :| 0 <= i < |es| && CreatedNow(es[i]) && es[i].def == d;
      assert all[i] == es[i];
    }
    forall d | d in CreatedBy(all) ensures d in CreatedBy(es) || (CreatedNow(e) && d == e.def) {
      var i :| 0 <= i < |all| && CreatedNow(all[i]) && all[i].def == d;
      if i < |es| { assert all[i] == es[i]; }
    }
    if CreatedNow(e) { assert all[|es|] == e; assert e.def in CreatedBy(all); }
  }

  /** One more definition may have been created from now on. */
  lemma ConsistentIntent(rules: map<string, Definition>, owned: seq<Definition>, es: seq<Entry>, e: Entry, before: World, missed: set<string>)
    requires Consistent(World(rules, Some(Draft(owned, es))), before, missed) && !e.resolved
    requires CreatedNow(e) && e.def.name in before.rules ==> e.def.name in missed
    ensures Consistent(World(rules, Some(Draft(owned, es + [e]))), before, missed)
  {
    CreatedByAppend(es, e);
    var c, c' := CreatedBy(es), CreatedBy(es + [e]);
    if CreatedNow(e) {
      KeepKeep(owned, c, {e.def});
      KeepKeep(OwnedIn(before), c, {e.def});
      NamesOfMore(c, e.def);
      LessAgain(rules, before.rules, NamesOf(c), {e.def.name});
    } else {
      assert c' == c;
    }
  }

  lemma NamesOfMore(c: set<Definition>, d: Definition)
    ensures NamesOf(c + {d}) == NamesOf(c) + {d.name}
  {
    forall n | n in NamesOf(c) + {d.name} ensures n in NamesOf(c + {d}) {
      if n in NamesOf(c) { var x :| x in c && x.name == n; assert x in c + {d}; } else { assert d in c + {d}; }
    }
  }

  lemma LessAgain(a: map<string, Definition>, b: map<string, Definition>, names: set<string>, more: set<string>)
    requires a - names == b - names
    ensures a - (names + more) == b - (names + more)
  {
    assert a - (names + more) == (a - names) - more;
    assert b - (names + more) == (b - names) - more;
  }

  /** The rule of a created entry may appear and be owned, and the entry may be decided. */
  lemma ConsistentOutcome(rules: map<string, Definition>, later: map<string, Definition>, owned: seq<Definition>, es: seq<Entry>, e: Entry,
                          e': Entry, own: bool, before: World, missed: set<string>)
    requires Consistent(World(rules, Some(Draft(owned, es + [e]))), before, missed)
    requires CreatedNow(e) && CreatedNow(e') && e'.def == e.def && !e'.resolved
    requires later == rules || later == rules[e.def.name := e.def]
    ensures Consistent(World(later, Some(Draft(if own then owned + [e.def] else owned, es + [e']))), before, missed)
  {
    CreatedByAppend(es, e);
    CreatedByAppend(es, e');
    var c := CreatedBy(es + [e]);
    KeepAppend(owned, e.def, c);
    assert e.def in c;
    assert e.def.name in NamesOf(c);
    assert later - NamesOf(c) == rules - NamesOf(c);
    forall x | x in es + [e'] ensures !x.resolved {
      if x in es { assert x in es + [e]; }
    }
  }

  /** A rule that was there before is there until the loop comes to its definition. */
  lemma StillThere(rules: map<string, Definition>, owned: seq<Definition>, es: seq<Entry>, name: string, before: World, missed: set<string>)
    requires Consistent(World(rules, Some(Draft(owned, es))), before, missed)
    requires forall x :: x in es ==> x.def.name != name
    ensures name in before.rules <==> name in rules
    ensures name in rules ==> rules[name] == before.rules[name]
  {
    var gone := NamesOf(CreatedBy(es));
    forall n | n in gone ensures n != name {
      var d :| d in CreatedBy(es) && d.name == n;
      var i :| 0 <= i < |es| && CreatedNow(es[i]) && es[i].def == d;
      assert es[i] in es;
    }
    assert name in rules <==> name in rules - gone;
    assert name in before.rules <==> name in before.rules - gone;
    if name in rules { assert (rules - gone)[name] == (before.rules - gone)[name]; }
  }

  lemma StartIsConsistent(rules: map<string, Definition>, owned: seq<Definition>, before: World, missed: set<string>)
    requires rules == before.rules && owned == OwnedIn(before)
    ensures Consistent(World(rules, Some(Draft(owned, []))), before, missed)
  {
  }

  function CountOf(owned: seq<Definition>, d: Definition): nat {
    if owned == [] then 0 else (if owned[0] == d then 1 else 0) + CountOf(owned[1..], d)
  }

  lemma {:induction false} CountedIsOwned(owned: seq<Definition>, d: Definition)
    ensures CountOf(owned, d) > 0 <==> d in owned
  {
    if owned != [] { CountedIsOwned(owned[1..], d); }
  }

  lemma {:induction false} CountAppend(owned: seq<Definition>, x: Definition, d: Definition)
    ensures CountOf(owned + [x], d) == CountOf(owned, d) + if x == d then 1 else 0
  {
    if owned != [] {
      assert (owned + [x])[1..] == owned[1..] + [x];
      CountAppend(owned[1..], x, d);
    }
  }

  predicate SameCounts(owned: seq<Definition>, owned0: seq<Definition>, defs: seq<Definition>, i: nat) {
    forall j: nat :: i <= j < |defs| ==> CountOf(owned, defs[j]) == CountOf(owned0, defs[j])
  }

  lemma SameCountsAfter(owned: seq<Definition>, owned': seq<Definition>, owned0: seq<Definition>, defs: seq<Definition>, i: nat)
    requires i < |defs| && DistinctNames(defs) && SameCounts(owned, owned0, defs, i)
    requires owned' == owned || owned' == owned + [defs[i]]
    ensures SameCounts(owned', owned0, defs, i + 1)
  {
    forall j: nat | i < j < |defs| ensures CountOf(owned', defs[j]) == CountOf(owned0, defs[j]) {
      CountAppend(owned, defs[i], defs[j]);
    }
  }

  /** There is a rule of this name that is another one or not owned exactly once. */
  predicate NotOurs(rules: map<string, Definition>, owned: seq<Definition>, d: Definition) {
    d.name in rules && (rules[d.name] != d || CountOf(owned, d) != 1)
  }

  /** An operation is unfinished, the journal cannot be read, or a rule is not ours. */
  predicate Refused(w: World, defs: seq<Definition>) {
    || (w.journal.Some? && (!Readable(w.journal.value, defs)
          || (w.journal.value.operation.Some? && w.journal.value.operation.value.phase == Applying)))
    || exists d :: d in defs && NotOurs(w.rules, OwnedIn(w), d)
  }

  /** The definitions up to n are in force and owned; nothing else was touched. */
  ghost predicate InForce(rules: map<string, Definition>, owned: seq<Definition>, before: map<string, Definition>, owned0: seq<Definition>,
                          defs: seq<Definition>, n: nat)
    requires n <= |defs|
  {
    && (forall j: nat :: j < n ==> defs[j].name in rules && rules[defs[j].name] == defs[j] && defs[j] in owned)
    && (forall x :: x in before ==> x in rules && rules[x] == before[x])
    && (forall x :: x in rules && x !in before ==> exists j: nat :: j < n && defs[j].name == x)
    && (forall d :: d in owned0 ==> d in owned)
  }

  lemma NotOursBefore(rules: map<string, Definition>, owned: seq<Definition>, before: map<string, Definition>, owned0: seq<Definition>,
                      defs: seq<Definition>, i: nat)
    requires i < |defs| && DistinctNames(defs) && InForce(rules, owned, before, owned0, defs, i)
    requires CountOf(owned, defs[i]) == CountOf(owned0, defs[i])
    ensures NotOurs(rules, owned, defs[i]) ==> NotOurs(before, owned0, defs[i])
  {
  }

  lemma OneMoreInForce(rules: map<string, Definition>, owned: seq<Definition>, before: map<string, Definition>, owned0: seq<Definition>,
                       defs: seq<Definition>, i: nat, rules': map<string, Definition>, owned': seq<Definition>)
    requires i < |defs| && DistinctNames(defs) && InForce(rules, owned, before, owned0, defs, i)
    requires rules' == rules || (defs[i].name !in rules && rules' == rules[defs[i].name := defs[i]])
    requires owned' == owned || owned' == owned + [defs[i]]
    requires defs[i].name in rules' && rules'[defs[i].name] == defs[i] && defs[i] in owned'
    ensures InForce(rules', owned', before, owned0, defs, i + 1)
  {
    forall x | x in rules' && x !in before ensures exists j: nat :: j < i + 1 && defs[j].name == x {
      if x != defs[i].name {
        var j: nat :| j < i && defs[j].name == x;
      }
    }
  }
}
