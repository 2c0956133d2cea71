/** Publication of sensitive runtime files under a durable ownership ledger:
    `internal/runtimeowner/owner.go` with the file operations of `replace_stub.go`.

    Every file operation and ledger write may fail. `Disk` records its state after every single
    effect in `history`, so a property of the entries holds at every point where the process
    may crash. */
module RuntimeOwner {
  import opened Wrappers
  import opened LedgerState

  type Bytes = seq<bv8>

  datatype Entry = Regular(bytes: Bytes) | Irregular

  type Files = map<string, Entry>

  function Look(files: Files, path: string): Option<Entry> {
    if path in files then Some(files[path]) else None
  }

  predicate IsRegular(files: Files, path: string) {
    path in files && files[path].Regular?
  }

  // ---- What the environment decides ----

  /** A wipe of an existing file leaves it, leaves it overwritten with these bytes, or removes it. */
  datatype Wipe = Kept | Spoiled(bytes: Bytes) | Gone

  datatype Wipes = Wipes(temporary: Wipe, backup: Wipe, replaced: Wipe)

  /** The outcome of every call of one publication. It makes one group of wipes at most, and
      puts the ledger back at most once. */
  datatype Plan = Plan(
    locked: bool, loaded: bool, drawn: bool, intent: bool,
    part: Entry, partStored: Effect, regular: bool, written: Effect, inspected: bool, writtenPhase: bool, publishingPhase: bool,
    found: bool, copyPart: Bytes, copyBegun: Effect, copied: Effect, moved: bool,
    publishedPhase: bool, finalized: bool, concluded: bool,
    away: bool, back: bool, target: Wipe, wipes: Wipes, ledgerBack: bool)

  /** What a wipe leaves of the files. */
  function Wiped(files: Files, path: string, w: Wipe): Files {
    if path !in files || w.Kept? then files
    else if w.Gone? then files - {path}
    else if files[path].Regular? then files[path := Regular(w.bytes)]
    else files
  }

  function Moved(files: Files, source: string, destination: string, works: bool): Files {
    if works && source in files then (files - {source})[destination := files[source]] else files
  }

  /** The runtime directory and the ledger in it. */
  datatype World = World(files: Files, ledger: Option<Ledger>)

  class Disk {
    var files: Files
    var ledger: Option<Ledger>
    var history: seq<World>
    ghost var faults: nat

    function Now(): World
      reads this
    {
      World(files, ledger)
    }

    /** Any call that may fail but changes nothing: taking the lock, opening, reading, drawing. */
    method Access(works: bool) returns (ok: bool)
      modifies this`faults
      ensures ok == works && faults == old(faults) + if ok then 0 else 1
    {
      ok := works;
      if !ok { faults := faults + 1; }
    }

    /** The bytes go to a temporary file that replaces the ledger in one rename. */
    method ReplaceLedger(value: Ledger, works: bool) returns (ok: bool)
      modifies this`ledger, this`history, this`faults
      ensures ok == works && ledger == if ok then Some(value) else old(ledger)
      ensures faults == old(faults) + if ok then 0 else 1
      ensures history == old(history) + [Now()]
    {
      ok := works;
      if ok { ledger := Some(value); } else { faults := faults + 1; }
      history := history + [Now()];
    }

    method RemoveLedger(works: bool) returns (ok: bool)
      modifies this`ledger, this`history, this`faults
      ensures ok == works && ledger == if ok then None else old(ledger)
      ensures faults == old(faults) + if ok then 0 else 1
      ensures history == old(history) + [Now()]
    {
      ok := works;
      if ok { ledger := None; } else { faults := faults + 1; }
      history := history + [Now()];
    }

    method Store(path: string, e: Entry, o: Effect) returns (ok: bool)
      modifies this`files, this`history, this`faults
      ensures ok == o.Works? && files == if o.Fails? then old(files) else old(files)[path := e]
      ensures faults == old(faults) + if ok then 0 else 1
      ensures history == old(history) + [Now()]
    {
      ok := o.Works?;
      if !o.Fails? { files := files[path := e]; }
      if !ok { faults := faults + 1; }
      history := history + [Now()];
    }

    method Unlink(path: string, works: bool) returns (ok: bool)
      modifies this`files, this`history, this`faults
      ensures ok == works && files == if ok then old(files) - {path} else old(files)
      ensures faults == old(faults) + if ok then 0 else 1
      ensures history == old(history) + [Now()]
    {
      ok := works;
      if ok { files := files - {path}; } else { faults := faults + 1; }
      history := history + [Now()];
    }

    method Rename(source: string, destination: string, works: bool) returns (ok: bool)
      modifies this`files, this`history, this`faults
      ensures ok == (works && source in old(files)) && files == Moved(old(files), source, destination, works)
      ensures faults == old(faults) + if ok || source !in old(files) then 0 else 1
      ensures history == old(history) + [Now()]
    {
      ok := works && source in files;
      if ok {
        files := (files - {source})[destination := files[source]];
      } else if source in files {
        faults := faults + 1;
      }
      history := history + [Now()];
    }

    /** The process stopped right after the effect recorded at k. */
    method StopAt(k: nat)
      requires k < |history|
      modifies this`files, this`ledger
      ensures Now() == history[k]
    {
      files, ledger := history[k].files, history[k].ledger;
    }
  }

  // ---- What the effects of an operation are confined to ----

  ghost predicate SameExcept(files: Files, before: Files, paths: set<string>) {
    forall p {:trigger Look(files, p)} :: p !in paths ==> Look(files, p) == Look(before, p)
  }

  /** Every effect since `from` left the ledger alone and touched no path but these. */
  ghost predicate Confined(history: seq<World>, from: nat, w: World, paths: set<string>) {
    forall k: nat :: from <= k < |history| ==> history[k].ledger == w.ledger && SameExcept(history[k].files, w.files, paths)
  }

  lemma ConfinedThen(h: seq<World>, from: nat, w: World, paths: set<string>, later: seq<World>, w': World, paths': set<string>)
    requires Confined(h, from, w, paths) && from <= |h| && h <= later
    requires w'.ledger == w.ledger && SameExcept(w'.files, w.files, paths)
    requires Confined(later, |h|, w', paths') && paths' <= paths
    ensures Confined(later, from, w, paths)
  {
    forall k: nat | from <= k < |later|
      ensures later[k].ledger == w.ledger && SameExcept(later[k].files, w.files, paths)
    {
      if k < |h| {
        assert later[k] == h[k];
      } else {
        SameExceptThen(later[k].files, w'.files, w.files, paths);
      }
    }
  }

  lemma SameExceptThen(a: Files, b: Files, c: Files, paths: set<string>)
    requires SameExcept(a, b, paths) && SameExcept(b, c, paths)
    ensures SameExcept(a, c, paths)
  {
    forall p {:trigger Look(a, p)} | p !in paths ensures Look(a, p) == Look(c, p) {
      assert Look(a, p) == Look(b, p) == Look(c, p);
    }
  }

  lemma SameExceptNothing(a: Files, b: Files, paths: set<string>)
    requires SameExcept(a, b, paths) && forall p :: p in paths ==> Look(a, p) == Look(b, p)
    ensures a == b
  {
    forall p ensures p in a <==> p in b {
      assert Look(a, p) == Look(b, p);
    }
    forall p | p in a ensures a[p] == b[p] {
      assert Look(a, p) == Look(b, p);
    }
  }

  // ---- File operations ----

  /** secureRemove: the bytes are overwritten before the name goes. */
  method SecureRemove(disk: Disk, path: string, w: Wipe) returns (ok: bool)
    modifies disk`files, disk`history, disk`faults
    ensures disk.faults >= old(disk.faults)
    ensures disk.files == Wiped(old(disk.files), path, w) && ok == (path !in old(disk.files) || w.Gone?)
    ensures SameExcept(disk.files, old(disk.files), {path}) && old(disk.history) <= disk.history
    ensures Confined(disk.history, |old(disk.history)|, old(disk.Now()), {path})
    ensures ok ==> path !in disk.files
    ensures ok || disk.faults > old(disk.faults)
  {
    if path !in disk.files { return true; }
    ok := disk.Access(!w.Kept?);
    if !ok { return; }
    if disk.files[path].Regular? {
      var zeroed := if w.Spoiled? then w.bytes else seq(|disk.files[path].bytes|, i => 0 as bv8);
      ok := disk.Store(path, Regular(zeroed), Works);
    }
    ok := disk.Unlink(path, w.Gone?);
  }

  predicate CopyWorks(files: Files, source: string, destination: string, plan: Plan) {
    IsRegular(files, source) && destination !in files && plan.copyBegun.Works? && plan.copied.Works?
  }

  /** copyFile: the copy must not exist yet, and may be left incomplete. */
  method CopyFile(disk: Disk, source: string, destination: string, plan: Plan) returns (ok: bool)
    requires source != destination
    modifies disk`files, disk`history, disk`faults
    ensures disk.faults >= old(disk.faults)
    ensures SameExcept(disk.files, old(disk.files), {destination}) && old(disk.history) <= disk.history
    ensures Confined(disk.history, |old(disk.history)|, old(disk.Now()), {destination})
    ensures ok == CopyWorks(old(disk.files), source, destination, plan)
    ensures ok ==> Look(disk.files, destination) == Look(old(disk.files), source) != None
    ensures ok || disk.faults > old(disk.faults) || destination in old(disk.files) || !IsRegular(old(disk.files), source)
  {
    if source !in disk.files || destination in disk.files { return false; }
    ok := disk.Store(destination, Regular(plan.copyPart), plan.copyBegun);
    if !ok || disk.files[source].Irregular? { return false; }
    ok := disk.Store(destination, disk.files[source], plan.copied);
  }

  lemma RenameIsConfined(before: Files, after: Files, source: string, destination: string)
    requires after == before || (source in before && after == (before - {source})[destination := before[source]])
    ensures SameExcept(after, before, {source, destination})
  {
  }

  method PublishFile(disk: Disk, source: string, destination: string, backup: string, plan: Plan) returns (ok: bool, hadPrevious: bool)
    requires source != destination && source != backup && destination != backup
    modifies disk`files, disk`history, disk`faults
    ensures disk.faults >= old(disk.faults)
    ensures SameExcept(disk.files, old(disk.files), {source, destination, backup}) && old(disk.history) <= disk.history
    ensures Confined(disk.history, |old(disk.history)|, old(disk.Now()), {source, destination, backup})
    ensures forall k: nat :: |old(disk.history)| <= k < |disk.history| ==>
              Look(disk.history[k].files, destination) in {Look(old(disk.files), destination), Look(old(disk.files), source)}
    ensures !ok ==> Look(disk.files, destination) == Look(old(disk.files), destination)
    ensures ok ==> source in old(disk.files) && Look(disk.files, destination) == Look(old(disk.files), source) && source !in disk.files
    ensures ok ==> hadPrevious == (destination in old(disk.files))
    ensures ok || disk.faults > old(disk.faults) || source !in old(disk.files) || backup in old(disk.files)
              || Look(old(disk.files), destination) == Some(Irregular)
    ensures ok ==> Look(disk.files, backup) == Look(old(disk.files), if hadPrevious then destination else backup)
    ensures ok == (plan.found && plan.moved && source in old(disk.files)
                   && (destination in old(disk.files) ==> CopyWorks(old(disk.files), destination, backup, plan)))
  {
    ok := disk.Access(plan.found);
    if !ok { return false, false; }
    if destination !in disk.files {
      ok := disk.Rename(source, destination, plan.moved);
      return ok, false;
    }
    ok := CopyFile(disk, destination, backup, plan);
    if !ok { return false, true; }
    ghost var h, mid := disk.history, disk.Now();
    assert Look(mid.files, source) == Look(old(disk.files), source);
    assert Look(mid.files, destination) == Look(old(disk.files), destination);
    ok := disk.Rename(source, destination, plan.moved);
    hadPrevious := true;
    RenameIsConfined(mid.files, disk.files, source, destination);
    ConfinedThen(h, |old(disk.history)|, old(disk.Now()), {source, destination, backup}, disk.history, mid, {source, destination});
    SameExceptThen(disk.files, mid.files, old(disk.files), {source, destination, backup});
  }

  /** restoreFile: between its two renames the destination is missing. */
  method RestoreFile(disk: Disk, backup: string, destination: string, replaced: string, away: bool, back: bool) returns (ok: bool)
    requires backup != destination && backup != replaced && destination != replaced
    modifies disk`files, disk`history, disk`faults
    ensures disk.faults >= old(disk.faults)
    ensures SameExcept(disk.files, old(disk.files), {backup, destination, replaced}) && old(disk.history) <= disk.history
    ensures Confined(disk.history, |old(disk.history)|, old(disk.Now()), {backup, destination, replaced})
    ensures ok ==> backup in old(disk.files) && Look(disk.files, destination) == Look(old(disk.files), backup)
    ensures !ok ==> Look(disk.files, destination) in {None, Look(old(disk.files), destination)}
    ensures !ok ==> Look(disk.files, backup) == Look(old(disk.files), backup)
    ensures disk.files == PutBack(old(disk.files), backup, destination, replaced, away, back)
    ensures ok == (away && back && destination in old(disk.files) && backup in old(disk.files))
  {
    ok := disk.Rename(destination, replaced, away);
    if !ok { return; }
    ok := disk.Rename(backup, destination, back);
  }

  function PutBack(files: Files, backup: string, destination: string, replaced: string, away: bool, back: bool): Files {
    if away && destination in files then Moved(Moved(files, destination, replaced, true), backup, destination, back) else files
  }

  // ---- The ledger in memory ----

  /** A slice of intents: the first n elements of an array that other slices may share. */
  datatype Slice = Slice(a: array<Intent>, n: nat)

  datatype Memory = Memory(intents: Slice, finalized: seq<string>)

  predicate Sound(m: Memory) { m.intents.n <= m.intents.a.Length }

  function Value(m: Memory): Ledger
    requires Sound(m)
    reads m.intents.a
  {
    Ledger(m.intents.a[..m.intents.n], m.finalized)
  }

  method FromValue(l: Ledger) returns (m: Memory)
    ensures Sound(m) && fresh(m.intents.a) && Value(m) == l
  {
    var a := new Intent[|l.intents|](i requires 0 <= i < |l.intents| => l.intents[i]);
    assert a[..] == l.intents;
    m := Memory(Slice(a, |l.intents|), l.finalized);
  }

  /** cloneLedger: the clone shares no array with the original. */
  method Clone(m: Memory) returns (c: Memory)
    requires Sound(m)
    ensures Sound(c) && fresh(c.intents.a) && Value(c) == Value(m)
  {
    c := FromValue(Value(m));
  }

  /** append: in place when the array has room, else into a larger array. */
  method AppendIntent(m: Memory, x: Intent) returns (r: Memory)
    requires Sound(m)
    modifies m.intents.a
    ensures Sound(r) && (r.intents.a == m.intents.a || fresh(r.intents.a))
    ensures Value(r) == old(Value(m)).(intents := old(Value(m)).intents + [x])
  {
    var a, n := m.intents.a, m.intents.n;
    if n < a.Length {
      a[n] := x;
    } else {
      var room: int := *;
      if room <= n { room := n + 1; }
      var was := a[..n];
      a := new Intent[room](i => if 0 <= i < |was| then was[i] else x);
    }
    r := Memory(Slice(a, n + 1), m.finalized);
    assert a[..n] == old(m.intents.a[..n]);
    assert a[..n + 1] == a[..n] + [x];
  }

  /** normalizeLedger sorts the shared array in place. */
  method Normalize(m: Memory) returns (r: Memory)
    requires Sound(m)
    modifies m.intents.a
    ensures r.intents == m.intents && Value(r) == Normalized(old(Value(m)))
  {
    var a, n := m.intents.a, m.intents.n;
    var sorted := SortedIntents(a[..n]);
    for i := 0 to n
      invariant a[..i] == sorted[..i]
    {
      a[i] := sorted[i];
    }
    assert a[..n] == sorted;
    r := Memory(m.intents, SortedUnique(m.finalized));
  }

  /** setPhase stops at the first match; no two intents have the same target. */
  method SetPhase(m: Memory, target: string, phase: string)
    requires Sound(m) && UniqueTargets(Value(m).intents)
    modifies m.intents.a
    ensures Value(m) == old(Value(m)).(intents := WithPhase(old(Value(m)).intents, target, phase))
  {
    var a, n := m.intents.a, m.intents.n;
    ghost var was := a[..n];
    for i := 0 to n
      invariant a[..n] == was
      invariant forall j: nat :: j < i ==> was[j].target != target
    {
      if a[i].target == target {
        a[i] := a[i].(phase := phase);
        assert a[..n] == was[i := was[i].(phase := phase)];
        forall j: nat | j < n && j != i ensures was[j].target != target {
          assert j < i || was[i].target != was[j].target;
        }
        assert a[..n] == WithPhase(was, target, phase);
        return;
      }
    }
    assert a[..n] == WithPhase(was, target, phase);
  }

  /** removeIntent moves the kept intents down over the removed one, in the same array. */
  method RemoveIntent(m: Memory, target: string) returns (r: Memory)
    requires Sound(m)
    modifies m.intents.a
    ensures Sound(r) && r.intents.a == m.intents.a
    ensures Value(r) == old(Value(m)).(intents := Without(old(Value(m)).intents, target))
  {
    var a, n := m.intents.a, m.intents.n;
    ghost var was := a[..n];
    var kept := 0;
    for i := 0 to n
      invariant kept <= i
      invariant forall j: nat :: i <= j < n ==> a[j] == was[j]
      invariant a[..kept] == Without(was[..i], target)
    {
      ghost var done := a[..kept];
      assert was[..i + 1] == was[..i] + [was[i]];
      WithoutLast(was[..i], was[i], target);
      var x := a[i];
      if x.target != target {
        a[kept] := x;
        kept := kept + 1;
        assert a[..kept] == done + [x];
      }
    }
    assert was[..n] == was;
    r := Memory(Slice(a, kept), m.finalized);
  }

  lemma {:induction false} WithoutLast(s: seq<Intent>, x: Intent, target: string)
    ensures Without(s + [x], target) == Without(s, target) + (if x.target == target then [] else [x])
  {
    if s != [] {
      assert (s + [x])[1..] == s[1..] + [x];
      WithoutLast(s[1..], x, target);
    }
  }

  /** writeLedgerAtomic; a ledger in memory that is written comes out sorted. */
  method WriteLedger(disk: Disk, m: Memory, works: bool) returns (ok: bool)
    requires Sound(m)
    modifies disk`ledger, disk`history, disk`faults, m.intents.a
    ensures disk.faults == old(disk.faults) + if ok then 0 else 1
    ensures ok == works && disk.ledger == if ok then Some(Normalized(old(Value(m)))) else old(disk.ledger)
    ensures disk.history == old(disk.history) + [disk.Now()]
    ensures Value(m) == Normalized(old(Value(m))).(finalized := m.finalized)
  {
    var n := Normalize(m);
    ok := disk.ReplaceLedger(Value(n), works);
  }

  /** The ledger that a transaction starts from. */
  function Previous(w: World): Ledger {
    match w.ledger
    case Some(l) => Normalized(l)
    case None => EMPTY
  }

  /** loadLedger. */
  method LoadLedger(disk: Disk, works: bool) returns (ok: bool, m: Memory, existed: bool)
    modifies disk`faults
    ensures disk.faults >= old(disk.faults) && (ok || disk.faults > old(disk.faults) || !ValidOpt(disk.ledger))
    ensures Sound(m) && fresh(m.intents.a) && ok == (works && ValidOpt(disk.ledger))
    ensures ok ==> Value(m) == Previous(disk.Now()) && existed == disk.ledger.Some?
    ensures ok && existed ==> ValidLedger(disk.ledger.value)
  {
    m := FromValue(EMPTY);
    existed := false;
    ok := disk.Access(works);
    if !ok { return false, m, false; }
    if disk.ledger.Some? {
      existed := true;
      if !ValidLedger(disk.ledger.value) { return false, m, true; }
      m := FromValue(disk.ledger.value);
      m := Normalize(m);
    }
  }

  predicate HasIntent(intents: seq<Intent>, target: string) {
    exists x :: x in intents && x.target == target
  }

  // ---- One transaction ----

  /** The world a transaction found and the intent it made. */
  datatype Transaction = Transaction(before: World, it: Intent)

  function Transients(it: Intent): set<string> { {it.temporary, it.backup, it.replaced} }

  function Paths(it: Intent): set<string> { Transients(it) + {it.target} }

  predicate ValidOpt(l: Option<Ledger>) { l.Some? ==> ValidLedger(l.value) }

  predicate WellFormed(x: Transaction) {
    && ValidOpt(x.before.ledger) && !HasIntent(Previous(x.before).intents, x.it.target)
    && ValidIntent(x.it) && x.it.target !in Transients(x.it)
    && (forall p :: p in Transients(x.it) ==> p !in x.before.files)
  }

  predicate Names(x: Intent, path: string) {
    path == x.target || path in Transients(x)
  }

  ghost predicate Named(l: Option<Ledger>, path: string) {
    l.Some? && (path in l.value.finalized || exists x :: x in l.value.intents && Names(x, path))
  }

  /** The ledger names every path that differs from before, and every path it named before. */
  ghost predicate Covers(w: World, before: World) {
    && ValidOpt(w.ledger)
    && (forall p {:trigger Look(w.files, p)} :: Look(w.files, p) != Look(before.files, p) ==> Named(w.ledger, p))
    && (forall p :: Named(before.ledger, p) ==> Named(w.ledger, p))
  }

  ghost predicate CoversAll(history: seq<World>, from: nat, before: World) {
    forall k: nat :: from <= k < |history| ==> Covers(history[k], before)
  }

  /** The target held its old or its new contents throughout. */
  ghost predicate Atomic(history: seq<World>, from: nat, x: Transaction, contents: Bytes) {
    forall k: nat :: from <= k < |history| ==>
      Look(history[k].files, x.it.target) in {Look(x.before.files, x.it.target), Some(Regular(contents))}
  }

  /** The durable ledger still carries the intent, and all it held before. */
  ghost predicate Pending(l: Option<Ledger>, x: Transaction) {
    && l.Some? && ValidLedger(l.value)
    && (exists y :: y in l.value.intents && y.(phase := x.it.phase) == x.it)
    && (forall y :: y in Previous(x.before).intents ==> y in l.value.intents)
    && (forall n :: n in Previous(x.before).finalized ==> n in l.value.finalized)
  }

  function Intended(x: Transaction, phase: string): Ledger {
    var prev := Previous(x.before);
    Ledger(WithPhase(SortedIntents(prev.intents + [x.it]), x.it.target, phase), prev.finalized)
  }

  /** sortedAdd. */
  function SortedAdd(names: seq<string>, n: string): seq<string> {
    SortedUnique(if n in names then names else names + [n])
  }

  function WithFinalized(x: Transaction): Ledger {
    Intended(x, "published").(finalized := SortedAdd(Previous(x.before).finalized, x.it.target))
  }

  /** What a completed publication leaves in the ledger. */
  function Finished(x: Transaction): Ledger {
    Previous(x.before).(finalized := SortedAdd(Previous(x.before).finalized, x.it.target))
  }

  lemma PreviousIsNormal(w: World)
    requires ValidOpt(w.ledger)
    ensures ValidLedger(Previous(w)) && Normal(Previous(w)) && Normalized(Previous(w)) == Previous(w)
    ensures forall p :: Named(w.ledger, p) ==> Named(Some(Previous(w)), p)
  {
    if w.ledger.Some? { NormalizedIsNormal(w.ledger.value); }
    NormalIsStable(Previous(w));
  }

  lemma AddedTargetsAreUnique(s: seq<Intent>, x: Intent)
    requires UniqueTargets(s) && !HasIntent(s, x.target)
    ensures UniqueTargets(s + [x])
  {
    forall i: nat, j: nat | i < j < |s + [x]| ensures (s + [x])[i].target != (s + [x])[j].target {
      if j == |s| { assert s[i] in s; }
    }
  }

  /** Every ledger a transaction writes passes the reader's validation, is in normal form, and
      carries the intent. */
  lemma IntendedIsPending(x: Transaction, phase: string)
    requires WellFormed(x) && KnownPhase(phase)
    ensures ValidLedger(Intended(x, phase)) && Normal(Intended(x, phase)) && Normalized(Intended(x, phase)) == Intended(x, phase)
    ensures Pending(Some(Intended(x, phase)), x)
  {
    var prev := Previous(x.before);
    PreviousIsNormal(x.before);
    var all := prev.intents + [x.it];
    AddedTargetsAreUnique(prev.intents, x.it);
    SortedIntentsAscend(all);
    var l := Intended(x, phase);
    assert Targets(l.intents) == Targets(SortedIntents(all));
    AscendingTargetsAreUnique(l.intents);
    PhaseMembers(SortedIntents(all), x.it, phase, prev.intents);
    NormalIsStable(l);
  }

  lemma PhaseMembers(s: seq<Intent>, x: Intent, phase: string, others: seq<Intent>)
    requires forall y :: y in s <==> y in others || y == x
    requires !HasIntent(others, x.target) && KnownPhase(phase)
    requires ValidIntent(x) && forall y :: y in others ==> ValidIntent(y)
    ensures var r := WithPhase(s, x.target, phase);
            x.(phase := phase) in r && (forall y :: y in others ==> y in r) && (forall y :: y in r ==> ValidIntent(y))
  {
    var r := WithPhase(s, x.target, phase);
    assert x in s;
    var k: nat :| k < |s| && s[k] == x;
    assert r[k] == x.(phase := phase);
    forall y | y in others ensures y in r {
      assert y in s;
      var i: nat :| i < |s| && s[i] == y;
      assert r[i] == y;
    }
    forall y | y in r ensures ValidIntent(y) {
      var i: nat :| i < |r| && r[i] == y;
      assert s[i] in s;
    }
  }

  lemma SortedAddFacts(names: seq<string>, n: string)
    requires Supported(n) && forall x :: x in names ==> Supported(x)
    ensures var r := SortedAdd(names, n);
            Ascending(r) && UniqueNames(r) && (forall x :: x in r <==> x in names || x == n) && forall x :: x in r ==> Supported(x)
  {
    var all := if n in names then names else names + [n];
    SortedUniqueAscends(all);
    AscendingIsUnique(SortedUnique(all));
  }

  lemma WithFinalizedIsPending(x: Transaction)
    requires WellFormed(x)
    ensures var l := WithFinalized(x); Normalized(l) == l && Pending(Some(l), x)
  {
    PreviousIsNormal(x.before);
    IntendedIsPending(x, "published");
    SortedAddFacts(Previous(x.before).finalized, x.it.target);
    NormalIsStable(WithFinalized(x));
  }

  /** Taking the intent out again leaves exactly the intents there were before. */
  lemma FinishedIsValid(x: Transaction)
    requires WellFormed(x)
    ensures var l := Finished(x); Normalized(l) == l && ValidLedger(l)
    ensures Without(WithFinalized(x).intents, x.it.target) == Previous(x.before).intents
  {
    var prev := Previous(x.before);
    PreviousIsNormal(x.before);
    SortedAddFacts(prev.finalized, x.it.target);
    NormalIsStable(Finished(x));
    AddedTargetsAreUnique(prev.intents, x.it);
    AddThenRemove(prev.intents, x.it);
    WithoutPhase(SortedIntents(prev.intents + [x.it]), x.it.target, "published");
    SortedAlready(prev.intents);
  }

  /** As long as the intent is durable, the four paths it names may hold anything. */
  lemma PendingCovers(w: World, x: Transaction)
    requires WellFormed(x) && Pending(w.ledger, x) && SameExcept(w.files, x.before.files, Paths(x.it))
    ensures Covers(w, x.before)
  {
    PreviousIsNormal(x.before);
    var y :| y in w.ledger.value.intents && y.(phase := x.it.phase) == x.it;
    forall p {:trigger Look(w.files, p)} | Look(w.files, p) != Look(x.before.files, p) ensures Named(w.ledger, p) {
      assert p in Paths(x.it);
      assert Names(y, p);
    }
    forall p | Named(x.before.ledger, p) ensures Named(w.ledger, p) {
      NamedIn(Previous(x.before), w.ledger.value, p);
    }
  }

  lemma NamedIn(l: Ledger, larger: Ledger, p: string)
    requires Named(Some(l), p)
    requires (forall y :: y in l.intents ==> y in larger.intents) && (forall n :: n in l.finalized ==> n in larger.finalized)
    ensures Named(Some(larger), p)
  {
    if p !in l.finalized {
      var y :| y in l.intents && Names(y, p);
      assert y in larger.intents;
    }
  }

  lemma ConfinedCovers(h: seq<World>, from: nat, w: World, paths: set<string>, x: Transaction)
    requires WellFormed(x) && Pending(w.ledger, x) && SameExcept(w.files, x.before.files, Paths(x.it))
    requires Confined(h, from, w, paths) && paths <= Paths(x.it)
    ensures CoversAll(h, from, x.before)
  {
    forall k: nat | from <= k < |h| ensures Covers(h[k], x.before) {
      SameExceptThen(h[k].files, w.files, x.before.files, Paths(x.it));
      PendingCovers(h[k], x);
    }
  }

  lemma ConfinedIsAtomic(h: seq<World>, from: nat, w: World, paths: set<string>, x: Transaction, contents: Bytes)
    requires Confined(h, from, w, paths) && x.it.target !in paths
    requires Look(w.files, x.it.target) in {Look(x.before.files, x.it.target), Some(Regular(contents))}
    ensures Atomic(h, from, x, contents)
  {
    forall k: nat | from <= k < |h|
      ensures Look(h[k].files, x.it.target) in {Look(x.before.files, x.it.target), Some(Regular(contents))}
    {
      assert Look(h[k].files, x.it.target) == Look(w.files, x.it.target);
    }
  }

  lemma ThenCovers(h: seq<World>, from: nat, later: seq<World>, before: World)
    requires CoversAll(h, from, before) && h <= later && CoversAll(later, |h|, before)
    ensures CoversAll(later, from, before)
  {
    forall k: nat | from <= k < |later| ensures Covers(later[k], before) {
      if k < |h| { assert later[k] == h[k]; }
    }
  }

  lemma ThenAtomic(h: seq<World>, from: nat, later: seq<World>, x: Transaction, contents: Bytes)
    requires Atomic(h, from, x, contents) && h <= later && Atomic(later, |h|, x, contents)
    ensures Atomic(later, from, x, contents)
  {
    forall k: nat | from <= k < |later|
      ensures Look(later[k].files, x.it.target) in {Look(x.before.files, x.it.target), Some(Regular(contents))}
    {
      if k < |h| { assert later[k] == h[k]; }
    }
  }

  // ---- Compensation ----

  /** Everything is as the transaction found it; a ledger that existed is in normal form. */
  predicate RolledBack(w: World, x: Transaction) {
    && w.files == x.before.files
    && w.ledger == if x.before.ledger.Some? then Some(Previous(x.before)) else None
  }

  lemma RolledBackCovers(w: World, x: Transaction)
    requires WellFormed(x) && RolledBack(w, x)
    ensures Covers(w, x.before)
  {
    PreviousIsNormal(x.before);
  }

  /** What wipePaths leaves of the files. */
  function WipedPaths(files: Files, it: Intent, w: Wipes): Files {
    Wiped(Wiped(Wiped(files, it.temporary, w.temporary), it.backup, w.backup), it.replaced, w.replaced)
  }

  method WipePaths(disk: Disk, it: Intent, w: Wipes) returns (ok: bool)
    modifies disk`files, disk`history, disk`faults
    ensures disk.faults >= old(disk.faults)
    ensures disk.files == WipedPaths(old(disk.files), it, w)
    ensures it.temporary !in old(disk.files) && it.replaced !in old(disk.files) ==> ok == (it.backup !in old(disk.files) || w.backup.Gone?)
    ensures SameExcept(disk.files, old(disk.files), Transients(it)) && old(disk.history) <= disk.history
    ensures Confined(disk.history, |old(disk.history)|, old(disk.Now()), Transients(it))
    ensures ok ==> forall p :: p in Transients(it) ==> p !in disk.files
    ensures ok || disk.faults > old(disk.faults)
  {
    ghost var w0 := disk.Now();
    var a := SecureRemove(disk, it.temporary, w.temporary);
    ghost var h1, w1 := disk.history, disk.Now();
    var b := SecureRemove(disk, it.backup, w.backup);
    ConfinedThen(h1, |old(disk.history)|, w0, Transients(it), disk.history, w1, {it.backup});
    SameExceptThen(disk.files, w1.files, w0.files, Transients(it));
    ghost var h2, w2 := disk.history, disk.Now();
    var c := SecureRemove(disk, it.replaced, w.replaced);
    ConfinedThen(h2, |old(disk.history)|, w0, Transients(it), disk.history, w2, {it.replaced});
    SameExceptThen(disk.files, w2.files, w0.files, Transients(it));
    ok := a && b && c;
    if ok {
      assert Look(w1.files, it.temporary) == None;
      assert Look(w2.files, it.temporary) == None;
      assert Look(disk.files, it.temporary) == None;
      assert Look(w2.files, it.backup) == None;
      assert Look(disk.files, it.backup) == None;
    }
  }

  /** restoreLedger: one effect, after which the ledger is back or still carries the intent. */
  method RestoreLedger(disk: Disk, previous: Memory, existed: bool, works: bool, ghost x: Transaction) returns (ok: bool)
    requires WellFormed(x) && Sound(previous) && Value(previous) == Previous(x.before) && existed == x.before.ledger.Some?
    modifies disk`ledger, disk`history, disk`faults, previous.intents.a
    ensures disk.faults >= old(disk.faults)
    ensures disk.history == old(disk.history) + [disk.Now()]
    ensures !ok ==> disk.ledger == old(disk.ledger)
    ensures ok ==> disk.ledger == if existed then Some(Previous(x.before)) else None
  {
    PreviousIsNormal(x.before);
    if existed || previous.intents.n != 0 || |previous.finalized| != 0 {
      ok := WriteLedger(disk, previous, works);
    } else {
      ok := disk.RemoveLedger(works);
    }
  }

  /** compensateBeforePublish. */
  method CompensateBefore(disk: Disk, it: Intent, previous: Memory, existed: bool, plan: Plan, ghost x: Transaction) returns (ok: bool)
    requires WellFormed(x) && Sound(previous) && Value(previous) == Previous(x.before) && existed == x.before.ledger.Some?
    requires it == x.it && Pending(disk.ledger, x) && SameExcept(disk.files, x.before.files, Transients(x.it))
    modifies disk, previous.intents.a
    ensures disk.faults >= old(disk.faults)
    ensures old(disk.history) <= disk.history && CoversAll(disk.history, |old(disk.history)|, x.before)
    ensures Covers(disk.Now(), x.before)
    ensures if ok then RolledBack(disk.Now(), x) else Pending(disk.ledger, x)
    ensures SameExcept(disk.files, x.before.files, Transients(x.it))
  {
    ghost var w0 := disk.Now();
    ok := WipePaths(disk, it, plan.wipes);
    ConfinedCovers(disk.history, |old(disk.history)|, w0, Transients(x.it), x);
    SameExceptThen(disk.files, w0.files, x.before.files, Transients(x.it));
    PendingCovers(disk.Now(), x);
    if !ok { return; }
    ghost var h := disk.history;
    forall p | p in Transients(x.it) ensures Look(disk.files, p) == Look(x.before.files, p) {}
    SameExceptNothing(disk.files, x.before.files, Transients(x.it));
    ok := RestoreLedger(disk, previous, existed, plan.ledgerBack, x);
    if ok { RolledBackCovers(disk.Now(), x); } else { PendingCovers(disk.Now(), x); }
    ThenCovers(h, |old(disk.history)|, disk.history, x.before);
  }

  /** What the wipes after a publication leave; a replaced file exists only if something was
      replaced. */
  function WipedAfter(files: Files, it: Intent, hadPrevious: bool, w: Wipes): Files {
    Wiped(Wiped(if hadPrevious then Wiped(files, it.replaced, w.replaced) else files, it.temporary, w.temporary), it.backup, w.backup)
  }

  method WipeAfter(disk: Disk, it: Intent, hadPrevious: bool, w: Wipes) returns (ok: bool)
    modifies disk`files, disk`history, disk`faults
    ensures disk.faults >= old(disk.faults)
    ensures disk.files == WipedAfter(old(disk.files), it, hadPrevious, w)
    ensures SameExcept(disk.files, old(disk.files), Transients(it)) && old(disk.history) <= disk.history
    ensures Confined(disk.history, |old(disk.history)|, old(disk.Now()), Transients(it))
    ensures ok ==> it.temporary !in disk.files && it.backup !in disk.files
    ensures ok && (hadPrevious || it.replaced !in old(disk.files)) ==> it.replaced !in disk.files
  {
    ghost var w0 := disk.Now();
    var a := true;
    if hadPrevious { a := SecureRemove(disk, it.replaced, w.replaced); }
    ghost var h1, w1 := disk.history, disk.Now();
    var b := SecureRemove(disk, it.temporary, w.temporary);
    ConfinedThen(h1, |old(disk.history)|, w0, Transients(it), disk.history, w1, {it.temporary});
    SameExceptThen(disk.files, w1.files, w0.files, Transients(it));
    ghost var h2, w2 := disk.history, disk.Now();
    var c := SecureRemove(disk, it.backup, w.backup);
    ConfinedThen(h2, |old(disk.history)|, w0, Transients(it), disk.history, w2, {it.backup});
    SameExceptThen(disk.files, w2.files, w0.files, Transients(it));
    ok := a && b && c;
    if ok {
      assert Look(w2.files, it.temporary) == None;
      assert Look(disk.files, it.temporary) == None;
      assert it.replaced !in w1.files ==> Look(w2.files, it.replaced) == None;
      assert it.replaced !in w1.files ==> Look(disk.files, it.replaced) == None;
    }
  }

  /** What compensateAfterPublish leaves of the files. */
  function AfterCompensation(files: Files, it: Intent, hadPrevious: bool, plan: Plan): Files {
    WipedAfter(if hadPrevious then PutBack(files, it.backup, it.target, it.replaced, plan.away, plan.back)
               else Wiped(files, it.target, plan.target), it, hadPrevious, plan.wipes)
  }

  /** None of the transaction's paths holds these contents any more. */
  predicate IsLost(files: Files, it: Intent, contents: Bytes) {
    forall p :: p in Paths(it) ==> Look(files, p) != Some(Regular(contents))
  }

  /** No wipe happens to leave exactly these contents. */
  predicate NoCoincidence(plan: Plan, contents: Bytes) {
    plan.wipes.temporary != Spoiled(contents) && plan.wipes.backup != Spoiled(contents) && plan.wipes.replaced != Spoiled(contents)
  }

  /** The contents that were there before the publication are lost if and only if one of the two
      restoring renames failed and the backup was wiped, completely or not. */
  lemma PreviousIsLostIff(files: Files, it: Intent, plan: Plan, previous: Bytes, contents: Bytes)
    requires it.target !in Transients(it) && it.temporary != it.backup && it.temporary != it.replaced && it.backup != it.replaced
    requires Look(files, it.target) == Some(Regular(contents)) && Look(files, it.backup) == Some(Regular(previous))
    requires it.temporary !in files && it.replaced !in files
    requires contents != previous && NoCoincidence(plan, previous)
    ensures IsLost(AfterCompensation(files, it, true, plan), it, previous)
       <==> !(plan.away && plan.back) && plan.wipes.backup != Kept
  {
    var put := PutBack(files, it.backup, it.target, it.replaced, plan.away, plan.back);
    var after := AfterCompensation(files, it, true, plan);
    assert it.target in Paths(it) && it.backup in Paths(it);
    assert Look(after, it.target) == Look(put, it.target);
    assert Look(after, it.backup) == Look(Wiped(put, it.backup, plan.wipes.backup), it.backup);
    assert Look(after, it.replaced) == Look(Wiped(put, it.replaced, plan.wipes.replaced), it.replaced);
    assert it.temporary !in after;
  }

  /** Putting the previous contents back, or removing the target where there were none. */
  method TakeBack(disk: Disk, it: Intent, hadPrevious: bool, contents: Bytes, plan: Plan, ghost x: Transaction) returns (restored: bool)
    requires WellFormed(x) && it == x.it && Pending(disk.ledger, x) && SameExcept(disk.files, x.before.files, Paths(x.it))
    requires Look(disk.files, it.target) == Some(Regular(contents)) && it.temporary !in disk.files && it.replaced !in disk.files
    requires hadPrevious == (it.target in x.before.files)
    requires if hadPrevious then Look(disk.files, it.backup) == Look(x.before.files, it.target) else it.backup !in disk.files
    modifies disk`files, disk`history, disk`faults
    ensures disk.faults >= old(disk.faults)
    ensures old(disk.history) <= disk.history && CoversAll(disk.history, |old(disk.history)|, x.before)
    ensures disk.files == if hadPrevious then PutBack(old(disk.files), it.backup, it.target, it.replaced, plan.away, plan.back)
                          else Wiped(old(disk.files), it.target, plan.target)
    ensures SameExcept(disk.files, x.before.files, Paths(it))
    ensures restored ==> Look(disk.files, it.target) == Look(x.before.files, it.target)
    ensures hadPrevious && !restored ==> Look(disk.files, it.target) in {None, Some(Regular(contents))}
    ensures !hadPrevious ==> it.replaced !in disk.files
  {
    ghost var w, from := disk.Now(), |disk.history|;
    if hadPrevious {
      restored := RestoreFile(disk, it.backup, it.target, it.replaced, plan.away, plan.back);
    } else {
      restored := SecureRemove(disk, it.target, plan.target);
      assert Look(disk.files, it.replaced) == Look(old(disk.files), it.replaced) == None;
    }
    ConfinedCovers(disk.history, from, w, Paths(it), x);
    SameExceptThen(disk.files, w.files, x.before.files, Paths(it));
  }

  /** compensateAfterPublish. `restored` says whether the previous contents were put back, or,
      where there were none, whether the target was removed. The transients are wiped in either
      case. */
  method CompensateAfter(disk: Disk, it: Intent, previous: Memory, existed: bool, hadPrevious: bool, contents: Bytes, plan: Plan, ghost x: Transaction)
    returns (ok: bool, restored: bool, wiped: bool)
    requires WellFormed(x) && Sound(previous) && Value(previous) == Previous(x.before) && existed == x.before.ledger.Some?
    requires it == x.it && Pending(disk.ledger, x) && SameExcept(disk.files, x.before.files, Paths(x.it))
    requires Look(disk.files, x.it.target) == Some(Regular(contents)) && x.it.temporary !in disk.files && x.it.replaced !in disk.files
    requires hadPrevious == (x.it.target in x.before.files)
    requires if hadPrevious then Look(disk.files, x.it.backup) == Look(x.before.files, x.it.target) else x.it.backup !in disk.files
    modifies disk, previous.intents.a
    ensures disk.faults >= old(disk.faults)
    ensures old(disk.history) <= disk.history && CoversAll(disk.history, |old(disk.history)|, x.before)
    ensures Covers(disk.Now(), x.before)
    ensures if ok then RolledBack(disk.Now(), x) else Pending(disk.ledger, x)
    ensures ok ==> restored && wiped
    ensures restored ==> Look(disk.files, x.it.target) == Look(x.before.files, x.it.target)
    ensures hadPrevious && !restored ==> Look(disk.files, x.it.target) in {None, Some(Regular(contents))}
    ensures wiped ==> x.it.backup !in disk.files
    ensures disk.files == AfterCompensation(old(disk.files), it, hadPrevious, plan)
    ensures SameExcept(disk.files, x.before.files, Paths(x.it))
  {
    ghost var from := |disk.history|;
    restored := TakeBack(disk, it, hadPrevious, contents, plan, x);
    ghost var h1, w1 := disk.history, disk.Now();
    wiped := WipeAfter(disk, it, hadPrevious, plan.wipes);
    ghost var h2 := disk.history;
    ConfinedCovers(h2, |h1|, w1, Transients(x.it), x);
    SameExceptThen(disk.files, w1.files, x.before.files, Paths(x.it));
    ThenCovers(h1, from, h2, x.before);
    assert Look(disk.files, x.it.target) == Look(w1.files, x.it.target);
    ok := restored && wiped;
    PendingCovers(disk.Now(), x);
    if !ok { return; }
    forall p | p in Paths(x.it) ensures Look(disk.files, p) == Look(x.before.files, p) {}
    SameExceptNothing(disk.files, x.before.files, Paths(x.it));
    ok := RestoreLedger(disk, previous, existed, plan.ledgerBack, x);
    if ok { RolledBackCovers(disk.Now(), x); } else { PendingCovers(disk.Now(), x); }
    ThenCovers(h2, from, disk.history, x.before);
  }

  // ---- Publication ----

  /** Writing the temporary file, which may fail halfway or leave something irregular. */
  method WriteTemporary(disk: Disk, path: string, contents: Bytes, plan: Plan) returns (ok: bool)
    modifies disk`files, disk`history, disk`faults
    ensures disk.faults >= old(disk.faults)
    ensures SameExcept(disk.files, old(disk.files), {path}) && old(disk.history) <= disk.history
    ensures Confined(disk.history, |old(disk.history)|, old(disk.Now()), {path})
    ensures ok == (plan.partStored.Works? && plan.written.Works?)
    ensures ok ==> Look(disk.files, path) == Some(if plan.regular then Regular(contents) else Irregular)
    ensures (ok && plan.regular) || disk.faults > old(disk.faults)
  {
    ok := disk.Store(path, plan.part, plan.partStored);
    if !ok { return; }
    var regular := disk.Access(plan.regular);
    ok := disk.Store(path, if regular then Regular(contents) else Irregular, plan.written);
  }

  /** Recording the next phase of the intent. */
  method Advance(disk: Disk, intended: Memory, it: Intent, from: string, phase: string, contents: Bytes, works: bool, ghost x: Transaction) returns (ok: bool)
    requires WellFormed(x) && it == x.it && KnownPhase(from) && KnownPhase(phase)
    requires Sound(intended) && Value(intended) == Intended(x, from)
    requires Pending(disk.ledger, x) && SameExcept(disk.files, x.before.files, Paths(it))
    requires Look(disk.files, it.target) in {Look(x.before.files, it.target), Some(Regular(contents))}
    modifies disk`ledger, disk`history, disk`faults, intended.intents.a
    ensures ok == works && disk.faults == old(disk.faults) + if ok then 0 else 1
    ensures Value(intended) == Intended(x, phase) && Pending(disk.ledger, x)
    ensures disk.history == old(disk.history) + [disk.Now()]
    ensures CoversAll(disk.history, |old(disk.history)|, x.before) && Atomic(disk.history, |old(disk.history)|, x, contents)
  {
    IntendedIsPending(x, from);
    IntendedIsPending(x, phase);
    SetPhase(intended, it.target, phase);
    PhaseAgain(SortedIntents(Previous(x.before).intents + [it]), it.target, from, phase);
    ok := WriteLedger(disk, intended, works);
    PendingCovers(disk.Now(), x);
  }

  lemma PhaseAgain(s: seq<Intent>, target: string, from: string, phase: string)
    ensures WithPhase(WithPhase(s, target, from), target, phase) == WithPhase(s, target, phase)
  {
  }

  predicate StagingWorks(plan: Plan) {
    plan.partStored.Works? && plan.written.Works? && plan.regular && plan.inspected && plan.writtenPhase && plan.publishingPhase
  }

  /** From the intent to the temporary file and the phase "publishing". */
  method StageTemporary(disk: Disk, intended: Memory, it: Intent, contents: Bytes, plan: Plan, ghost x: Transaction) returns (ok: bool)
    requires WellFormed(x) && it == x.it && disk.files == x.before.files
    requires Sound(intended) && Value(intended) == Intended(x, "prepared") && disk.ledger == Some(Intended(x, "prepared"))
    modifies disk, intended.intents.a
    ensures old(disk.history) <= disk.history && Pending(disk.ledger, x) && SameExcept(disk.files, x.before.files, {it.temporary})
    ensures CoversAll(disk.history, |old(disk.history)|, x.before) && Atomic(disk.history, |old(disk.history)|, x, contents)
    ensures ok ==> Look(disk.files, it.temporary) == Some(Regular(contents)) && Value(intended) == Intended(x, "publishing")
    ensures disk.faults >= old(disk.faults)
    ensures ok == StagingWorks(plan) && (ok || disk.faults > old(disk.faults))
  {
    ghost var from := |disk.history|;
    IntendedIsPending(x, "prepared");
    ok := PrepareTemporary(disk, it, contents, plan, x);
    ghost var h1 := disk.history;
    if !ok { return; }
    ok := RecordPhases(disk, intended, it, contents, plan, x);
    ThenCovers(h1, from, disk.history, x.before);
    ThenAtomic(h1, from, disk.history, x, contents);
  }

  method RecordPhases(disk: Disk, intended: Memory, it: Intent, contents: Bytes, plan: Plan, ghost x: Transaction) returns (ok: bool)
    requires WellFormed(x) && it == x.it && Pending(disk.ledger, x) && SameExcept(disk.files, x.before.files, {it.temporary})
    requires Sound(intended) && Value(intended) == Intended(x, "prepared")
    requires Look(disk.files, it.target) == Look(x.before.files, it.target)
    modifies disk`ledger, disk`history, disk`faults, intended.intents.a
    ensures disk.faults >= old(disk.faults) && ok == (plan.writtenPhase && plan.publishingPhase) && (ok || disk.faults > old(disk.faults))
    ensures old(disk.history) <= disk.history && Pending(disk.ledger, x)
    ensures CoversAll(disk.history, |old(disk.history)|, x.before) && Atomic(disk.history, |old(disk.history)|, x, contents)
    ensures ok ==> Value(intended) == Intended(x, "publishing")
  {
    ok := Advance(disk, intended, it, "prepared", "temporary-written", contents, plan.writtenPhase, x);
    if !ok { return; }
    ghost var from, h := |old(disk.history)|, disk.history;
    ok := Advance(disk, intended, it, "temporary-written", "publishing", contents, plan.publishingPhase, x);
    ThenCovers(h, from, disk.history, x.before);
    ThenAtomic(h, from, disk.history, x, contents);
  }

  /** Writing the temporary file and looking at what was written. */
  method PrepareTemporary(disk: Disk, it: Intent, contents: Bytes, plan: Plan, ghost x: Transaction) returns (ok: bool)
    requires WellFormed(x) && it == x.it && disk.files == x.before.files && Pending(disk.ledger, x)
    modifies disk`files, disk`history, disk`faults
    ensures disk.faults >= old(disk.faults) && (ok || disk.faults > old(disk.faults))
    ensures old(disk.history) <= disk.history && SameExcept(disk.files, x.before.files, {it.temporary})
    ensures CoversAll(disk.history, |old(disk.history)|, x.before) && Atomic(disk.history, |old(disk.history)|, x, contents)
    ensures Look(disk.files, it.target) == Look(x.before.files, it.target)
    ensures ok == (plan.partStored.Works? && plan.written.Works? && plan.regular && plan.inspected)
    ensures ok ==> Look(disk.files, it.temporary) == Some(Regular(contents))
  {
    ghost var w0, from := disk.Now(), |disk.history|;
    ok := WriteTemporary(disk, it.temporary, contents, plan);
    ConfinedCovers(disk.history, from, w0, {it.temporary}, x);
    ConfinedIsAtomic(disk.history, from, w0, {it.temporary}, x, contents);
    assert Look(disk.files, it.target) == Look(x.before.files, it.target);
    if !ok { return; }
    ok := disk.Access(plan.inspected);
    if !ok || !IsRegular(disk.files, it.temporary) { return false; }
  }

  /** The target holds the new contents, nothing else changed, and the ledger differs only in
      that it has finalized the target. */
  ghost predicate Completed(w: World, x: Transaction, contents: Bytes) {
    && Look(w.files, x.it.target) == Some(Regular(contents)) && SameExcept(w.files, x.before.files, {x.it.target})
    && w.ledger == Some(Finished(x))
  }

  lemma CompletedCovers(w: World, x: Transaction, contents: Bytes)
    requires WellFormed(x) && Completed(w, x, contents)
    ensures Covers(w, x.before) && !HasIntent(w.ledger.value.intents, x.it.target)
  {
    PreviousIsNormal(x.before);
    FinishedIsValid(x);
    SortedAddFacts(Previous(x.before).finalized, x.it.target);
    assert x.it.target in Finished(x).finalized;
    forall p | Named(x.before.ledger, p) ensures Named(w.ledger, p) { NamedIn(Previous(x.before), Finished(x), p); }
    forall p {:trigger Look(w.files, p)} | Look(w.files, p) != Look(x.before.files, p) ensures Named(w.ledger, p) {
      assert p == x.it.target;
    }
  }

  /** The new contents have been moved to the target. */
  predicate Replaced(files: Files, it: Intent, contents: Bytes) {
    Look(files, it.target) == Some(Regular(contents)) && it.temporary !in files && it.replaced !in files
  }

  /** The name is finalized while the intent still owns the transients; then they are wiped,
      and only then the intent goes. */
  method Commit(disk: Disk, intended: Memory, it: Intent, contents: Bytes, plan: Plan, ghost x: Transaction) returns (finalized: bool, ok: bool)
    requires WellFormed(x) && it == x.it && Sound(intended) && Value(intended) == Intended(x, "published")
    requires Pending(disk.ledger, x) && SameExcept(disk.files, x.before.files, Paths(it))
    requires Replaced(disk.files, it, contents)
    modifies disk
    ensures disk.faults >= old(disk.faults)
    ensures old(disk.history) <= disk.history
    ensures CoversAll(disk.history, |old(disk.history)|, x.before) && Atomic(disk.history, |old(disk.history)|, x, contents)
    ensures ok || disk.faults > old(disk.faults)
    ensures finalized == plan.finalized && disk.files == if finalized then WipedPaths(old(disk.files), it, plan.wipes) else old(disk.files)
    ensures ok == (finalized && (it.backup !in old(disk.files) || plan.wipes.backup.Gone?) && plan.concluded)
    ensures SameExcept(disk.files, x.before.files, Paths(it))
    ensures Covers(disk.Now(), x.before)
    ensures if ok then Completed(disk.Now(), x, contents) else Pending(disk.ledger, x)
  {
    ghost var from := |disk.history|;
    var withFinalized := AddName(intended, it.target, x);
    finalized := FinalizeName(disk, withFinalized, it, contents, plan.finalized, x);
    ok := false;
    if !finalized { return; }
    ghost var h := disk.history;
    ok := FinishCommit(disk, withFinalized, it, contents, plan, x);
    ThenCovers(h, from, disk.history, x.before);
    ThenAtomic(h, from, disk.history, x, contents);
  }

  /** The ledger in memory that finalizes the target. */
  method AddName(intended: Memory, target: string, ghost x: Transaction) returns (m: Memory)
    requires target == x.it.target && Sound(intended) && Value(intended) == Intended(x, "published")
    ensures Sound(m) && fresh(m.intents.a) && Value(m) == WithFinalized(x)
  {
    var copy := Clone(intended);
    m := copy.(finalized := SortedAdd(copy.finalized, target));
  }

  method FinalizeName(disk: Disk, m: Memory, it: Intent, contents: Bytes, works: bool, ghost x: Transaction) returns (ok: bool)
    requires WellFormed(x) && it == x.it && Sound(m) && Value(m) == WithFinalized(x)
    requires Pending(disk.ledger, x) && SameExcept(disk.files, x.before.files, Paths(it))
    requires Look(disk.files, it.target) == Some(Regular(contents))
    modifies disk`ledger, disk`history, disk`faults, m.intents.a
    ensures disk.faults >= old(disk.faults) && (ok || disk.faults > old(disk.faults)) && ok == works
    ensures old(disk.history) <= disk.history && Covers(disk.Now(), x.before) && Pending(disk.ledger, x)
    ensures CoversAll(disk.history, |old(disk.history)|, x.before) && Atomic(disk.history, |old(disk.history)|, x, contents)
    ensures Value(m) == WithFinalized(x)
  {
    WithFinalizedIsPending(x);
    ok := WriteLedger(disk, m, works);
    PendingCovers(disk.Now(), x);
  }

  /** The transients go first, and only then the intent. */
  method FinishCommit(disk: Disk, withFinalized: Memory, it: Intent, contents: Bytes, plan: Plan, ghost x: Transaction) returns (ok: bool)
    requires WellFormed(x) && it == x.it && Sound(withFinalized) && Value(withFinalized) == WithFinalized(x)
    requires Pending(disk.ledger, x) && SameExcept(disk.files, x.before.files, Paths(it))
    requires Replaced(disk.files, it, contents)
    modifies disk
    ensures disk.faults >= old(disk.faults) && (ok || disk.faults > old(disk.faults))
    ensures old(disk.history) <= disk.history && Covers(disk.Now(), x.before) && SameExcept(disk.files, x.before.files, Paths(it))
    ensures CoversAll(disk.history, |old(disk.history)|, x.before) && Atomic(disk.history, |old(disk.history)|, x, contents)
    ensures disk.files == WipedPaths(old(disk.files), it, plan.wipes)
    ensures ok == ((it.backup !in old(disk.files) || plan.wipes.backup.Gone?) && plan.concluded)
    ensures if ok then Completed(disk.Now(), x, contents) else Pending(disk.ledger, x)
  {
    ok := WipeCommitted(disk, it, contents, plan.wipes, x);
    if !ok { return; }
    ghost var h, from := disk.history, |old(disk.history)|;
    ok := Conclude(disk, withFinalized, it, contents, plan.concluded, x);
    ThenCovers(h, from, disk.history, x.before);
    ThenAtomic(h, from, disk.history, x, contents);
  }

  method WipeCommitted(disk: Disk, it: Intent, contents: Bytes, w: Wipes, ghost x: Transaction) returns (ok: bool)
    requires WellFormed(x) && it == x.it
    requires Pending(disk.ledger, x) && SameExcept(disk.files, x.before.files, Paths(it))
    requires Replaced(disk.files, it, contents)
    modifies disk`files, disk`history, disk`faults
    ensures disk.faults >= old(disk.faults) && (ok || disk.faults > old(disk.faults))
    ensures old(disk.history) <= disk.history
    ensures CoversAll(disk.history, |old(disk.history)|, x.before) && Atomic(disk.history, |old(disk.history)|, x, contents)
    ensures Covers(disk.Now(), x.before) && Look(disk.files, it.target) == Some(Regular(contents))
    ensures SameExcept(disk.files, x.before.files, Paths(it))
    ensures disk.files == WipedPaths(old(disk.files), it, w) && ok == (it.backup !in old(disk.files) || w.backup.Gone?)
    ensures ok ==> forall p :: p in Transients(it) ==> p !in disk.files
  {
    ghost var from, was := |disk.history|, disk.Now();
    ok := WipePaths(disk, it, w);
    ConfinedCovers(disk.history, from, was, Transients(it), x);
    ConfinedIsAtomic(disk.history, from, was, Transients(it), x, contents);
    SameExceptThen(disk.files, was.files, x.before.files, Paths(it));
    assert Look(disk.files, it.target) == Look(was.files, it.target);
    PendingCovers(disk.Now(), x);
  }

  method Conclude(disk: Disk, withFinalized: Memory, it: Intent, contents: Bytes, works: bool, ghost x: Transaction) returns (ok: bool)
    requires WellFormed(x) && it == x.it && Sound(withFinalized) && Value(withFinalized) == WithFinalized(x)
    requires Pending(disk.ledger, x) && SameExcept(disk.files, x.before.files, Paths(it))
    requires Look(disk.files, it.target) == Some(Regular(contents)) && forall p :: p in Transients(it) ==> p !in disk.files
    modifies disk`ledger, disk`history, disk`faults
    ensures ok == works && disk.faults == old(disk.faults) + if ok then 0 else 1
    ensures disk.history == old(disk.history) + [disk.Now()]
    ensures Look(disk.files, it.target) == Some(Regular(contents)) && Covers(disk.Now(), x.before)
    ensures if ok then Completed(disk.Now(), x, contents) else Pending(disk.ledger, x)
  {
    forall p {:trigger Look(disk.files, p)} | p != it.target ensures Look(disk.files, p) == Look(x.before.files, p) {}
    FinishedIsValid(x);
    var m := Clone(withFinalized);
    m := RemoveIntent(m, it.target);
    ok := WriteLedger(disk, m, works);
    if ok { CompletedCovers(disk.Now(), x, contents); } else { PendingCovers(disk.Now(), x); }
  }

  /** Replacing a regular target. */
  predicate ReplacingWorks(plan: Plan) { plan.found && plan.copyBegun.Works? && plan.copied.Works? && plan.moved }

  method Replace(disk: Disk, it: Intent, contents: Bytes, plan: Plan, ghost x: Transaction) returns (ok: bool, hadPrevious: bool)
    requires WellFormed(x) && it == x.it && Pending(disk.ledger, x)
    requires SameExcept(disk.files, x.before.files, {it.temporary}) && Look(disk.files, it.temporary) == Some(Regular(contents))
    modifies disk`files, disk`history, disk`faults
    ensures disk.faults >= old(disk.faults)
    ensures old(disk.history) <= disk.history
    ensures CoversAll(disk.history, |old(disk.history)|, x.before) && Atomic(disk.history, |old(disk.history)|, x, contents)
    ensures SameExcept(disk.files, x.before.files, if ok then Paths(it) else Transients(it))
    ensures ok || disk.faults > old(disk.faults) || Look(x.before.files, it.target) == Some(Irregular)
    ensures ok ==> Look(disk.files, it.target) == Some(Regular(contents)) && it.temporary !in disk.files && it.replaced !in disk.files
    ensures ok ==> hadPrevious == (it.target in x.before.files)
    ensures ok ==> if hadPrevious then Look(disk.files, it.backup) == Look(x.before.files, it.target) else it.backup !in disk.files
    ensures IsRegular(x.before.files, it.target) ==> ok == ReplacingWorks(plan)
  {
    ghost var w, from := disk.Now(), |disk.history|;
    var paths := {it.temporary, it.target, it.backup};
    assert Look(w.files, it.target) == Look(x.before.files, it.target);
    assert Look(w.files, it.backup) == Look(w.files, it.replaced) == None;
    ok, hadPrevious := PublishFile(disk, it.temporary, it.target, it.backup, plan);
    ConfinedCovers(disk.history, from, w, paths, x);
    SameExceptThen(disk.files, w.files, x.before.files, Paths(it));
    if ok {
      assert Look(disk.files, it.replaced) == None;
    } else {
      forall p {:trigger Look(disk.files, p)} | p !in Transients(it) ensures Look(disk.files, p) == Look(x.before.files, p) {}
    }
  }

  /** Everything after the intent became durable. */
  method Transact(disk: Disk, previous: Memory, existed: bool, intended: Memory, it: Intent, contents: Bytes, plan: Plan, ghost x: Transaction)
    returns (ok: bool)
    requires WellFormed(x) && it == x.it && disk.files == x.before.files
    requires Sound(previous) && Value(previous) == Previous(x.before) && existed == x.before.ledger.Some?
    requires Sound(intended) && Value(intended) == Intended(x, "prepared") && disk.ledger == Some(Intended(x, "prepared"))
    requires previous.intents.a != intended.intents.a
    modifies disk, previous.intents.a, intended.intents.a
    ensures disk.faults >= old(disk.faults)
    ensures old(disk.history) <= disk.history && CoversAll(disk.history, |old(disk.history)|, x.before)
    ensures ok ==> Completed(disk.Now(), x, contents) && Atomic(disk.history, |old(disk.history)|, x, contents)
    ensures Covers(disk.Now(), x.before)
    ensures !ok ==> RolledBack(disk.Now(), x) || Pending(disk.ledger, x)
    ensures ok || disk.faults > old(disk.faults) || Look(x.before.files, it.target) == Some(Irregular)
    ensures SameExcept(disk.files, x.before.files, Paths(it))
    ensures LossIsExact(ok, disk.files, x, contents, plan)
    ensures ok ==> plan.publishedPhase && plan.finalized
  {
    ghost var from := |disk.history|;
    ok := StageTemporary(disk, intended, it, contents, plan, x);
    ghost var h1 := disk.history;
    if !ok {
      var undone := CompensateBefore(disk, it, previous, existed, plan, x);
      ThenCovers(h1, from, disk.history, x.before);
      UntouchedIsExact(disk.files, x, contents, plan);
      return;
    }
    ok := TransactStaged(disk, previous, existed, intended, it, contents, plan, x);
    ThenCovers(h1, from, disk.history, x.before);
    if ok { ThenAtomic(h1, from, disk.history, x, contents); }
  }

  /** The part after the temporary file is complete. */
  method TransactStaged(disk: Disk, previous: Memory, existed: bool, intended: Memory, it: Intent, contents: Bytes, plan: Plan, ghost x: Transaction)
    returns (ok: bool)
    requires WellFormed(x) && it == x.it && Pending(disk.ledger, x) && StagingWorks(plan)
    requires SameExcept(disk.files, x.before.files, {it.temporary}) && Look(disk.files, it.temporary) == Some(Regular(contents))
    requires Sound(previous) && Value(previous) == Previous(x.before) && existed == x.before.ledger.Some?
    requires Sound(intended) && Value(intended) == Intended(x, "publishing") && previous.intents.a != intended.intents.a
    modifies disk, previous.intents.a, intended.intents.a
    ensures disk.faults >= old(disk.faults)
    ensures old(disk.history) <= disk.history && CoversAll(disk.history, |old(disk.history)|, x.before)
    ensures ok ==> Completed(disk.Now(), x, contents) && Atomic(disk.history, |old(disk.history)|, x, contents)
    ensures Covers(disk.Now(), x.before)
    ensures !ok ==> RolledBack(disk.Now(), x) || Pending(disk.ledger, x)
    ensures ok || disk.faults > old(disk.faults) || Look(x.before.files, it.target) == Some(Irregular)
    ensures SameExcept(disk.files, x.before.files, Paths(it)) && LossIsExact(ok, disk.files, x, contents, plan)
    ensures ok ==> plan.publishedPhase && plan.finalized
  {
    ghost var from := |disk.history|;
    var hadPrevious: bool;
    ok, hadPrevious := Replace(disk, it, contents, plan, x);
    ghost var h2 := disk.history;
    if !ok {
      var undone := CompensateBefore(disk, it, previous, existed, plan, x);
      ThenCovers(h2, from, disk.history, x.before);
      UntouchedIsExact(disk.files, x, contents, plan);
      return;
    }
    ok := Settle(disk, previous, existed, hadPrevious, intended, it, contents, plan, x);
    ThenCovers(h2, from, disk.history, x.before);
    if ok { ThenAtomic(h2, from, disk.history, x, contents); }
  }

  /** The publication replaces a regular target. */
  predicate Replaces(plan: Plan) { StagingWorks(plan) && ReplacingWorks(plan) }

  /** The two ledger writes after that succeed: from here on nothing is taken back. */
  predicate Finalizes(plan: Plan) { plan.publishedPhase && plan.finalized }

  /** It also wipes the backup and completes the ledger, and so reports success. */
  predicate Succeeds(plan: Plan) { Replaces(plan) && Finalizes(plan) && plan.wipes.backup.Gone? && plan.concluded }

  /** The target was replaced and the backup wiped, completely or not, and nothing put the previous
      contents back: the name was finalized, or one of the two restoring renames failed. */
  predicate LosesPrevious(plan: Plan) {
    Replaces(plan) && plan.wipes.backup != Kept && (Finalizes(plan) || !(plan.away && plan.back))
  }

  /** For every outcome of the calls of a publication over a regular target: whether it succeeds,
      that it leaves the new contents once the name is finalized, and whether the previous contents
      are in none of its files afterwards. */
  predicate LossIsExact(ok: bool, files: Files, x: Transaction, contents: Bytes, plan: Plan) {
    IsRegular(x.before.files, x.it.target) ==>
      var previous := x.before.files[x.it.target].bytes;
      && (ok <==> Succeeds(plan))
      && (Replaces(plan) && Finalizes(plan) ==> Look(files, x.it.target) == Some(Regular(contents)))
      && (contents != previous && NoCoincidence(plan, previous) ==> (IsLost(files, x.it, previous) <==> LosesPrevious(plan)))
  }

  lemma UntouchedIsExact(files: Files, x: Transaction, contents: Bytes, plan: Plan)
    requires x.it.target !in Transients(x.it) && SameExcept(files, x.before.files, Transients(x.it))
    requires IsRegular(x.before.files, x.it.target) ==> !Replaces(plan)
    ensures LossIsExact(false, files, x, contents, plan)
  {
    assert x.it.target in Paths(x.it);
    assert Look(files, x.it.target) == Look(x.before.files, x.it.target);
  }

  lemma CompensationIsExact(files: Files, x: Transaction, contents: Bytes, plan: Plan)
    requires WellFormed(x) && Replaced(files, x.it, contents) && !Finalizes(plan)
    requires x.it.target in x.before.files ==> Look(files, x.it.backup) == Look(x.before.files, x.it.target)
    requires IsRegular(x.before.files, x.it.target) ==> Replaces(plan)
    ensures IsRegular(x.before.files, x.it.target) ==>
              LossIsExact(false, AfterCompensation(files, x.it, true, plan), x, contents, plan)
  {
    if IsRegular(x.before.files, x.it.target) {
      var previous := x.before.files[x.it.target].bytes;
      if contents != previous && NoCoincidence(plan, previous) { PreviousIsLostIff(files, x.it, plan, previous, contents); }
    }
  }

  /** After the name was finalized the wipe alone decides. */
  lemma CommitIsExact(ok: bool, files: Files, x: Transaction, contents: Bytes, plan: Plan)
    requires WellFormed(x) && Replaced(files, x.it, contents) && Finalizes(plan)
    requires x.it.target in x.before.files ==> Look(files, x.it.backup) == Look(x.before.files, x.it.target)
    requires IsRegular(x.before.files, x.it.target) ==> Replaces(plan)
    requires ok == ((x.it.backup !in files || plan.wipes.backup.Gone?) && plan.concluded)
    ensures LossIsExact(ok, WipedPaths(files, x.it, plan.wipes), x, contents, plan)
  {
    var after := WipedPaths(files, x.it, plan.wipes);
    assert after == Wiped(files, x.it.backup, plan.wipes.backup);
    assert x.it.backup in Paths(x.it);
    assert Look(after, x.it.target) == Look(files, x.it.target);
  }

  /** From the replaced target to the end. */
  method Settle(disk: Disk, previous: Memory, existed: bool, hadPrevious: bool, intended: Memory, it: Intent, contents: Bytes, plan: Plan, ghost x: Transaction)
    returns (ok: bool)
    requires WellFormed(x) && it == x.it && Pending(disk.ledger, x) && SameExcept(disk.files, x.before.files, Paths(it))
    requires Sound(previous) && Value(previous) == Previous(x.before) && existed == x.before.ledger.Some?
    requires Sound(intended) && Value(intended) == Intended(x, "publishing") && previous.intents.a != intended.intents.a
    requires Replaced(disk.files, it, contents)
    requires hadPrevious == (it.target in x.before.files)
    requires if hadPrevious then Look(disk.files, it.backup) == Look(x.before.files, it.target) else it.backup !in disk.files
    requires StagingWorks(plan) && (IsRegular(x.before.files, it.target) ==> ReplacingWorks(plan))
    modifies disk, previous.intents.a, intended.intents.a
    ensures disk.faults >= old(disk.faults)
    ensures old(disk.history) <= disk.history && CoversAll(disk.history, |old(disk.history)|, x.before)
    ensures ok ==> Completed(disk.Now(), x, contents) && Atomic(disk.history, |old(disk.history)|, x, contents)
    ensures Covers(disk.Now(), x.before)
    ensures !ok ==> RolledBack(disk.Now(), x) || Pending(disk.ledger, x)
    ensures ok || disk.faults > old(disk.faults)
    ensures SameExcept(disk.files, x.before.files, Paths(it))
    ensures LossIsExact(ok, disk.files, x, contents, plan)
    ensures ok ==> plan.publishedPhase && plan.finalized
  {
    ghost var from, files := |disk.history|, disk.files;
    var finalized := false;
    ok := Advance(disk, intended, it, "publishing", "published", contents, plan.publishedPhase, x);
    ghost var h1 := disk.history;
    if ok {
      finalized, ok := Commit(disk, intended, it, contents, plan, x);
      ThenCovers(h1, from, disk.history, x.before);
      ThenAtomic(h1, from, disk.history, x, contents);
      if finalized { CommitIsExact(ok, files, x, contents, plan); }
    }
    if !finalized {
      ghost var h2 := disk.history;
      var undone, restored, wiped := CompensateAfter(disk, it, previous, existed, hadPrevious, contents, plan, x);
      ThenCovers(h2, from, disk.history, x.before);
      CompensationIsExact(files, x, contents, plan);
    }
  }

  function TransactionOf(w: World, name: string, a: string, b: string, c: string): Transaction {
    Transaction(w, NewIntent(name, a, b, c))
  }

  /** publishAt. The tokens are the random parts of the transient names, drawn so that the
      names are unused; `sameDirectory` says whether the path lies beside the ledger. */
  method PublishAt(disk: Disk, name: string, sameDirectory: bool, contents: Bytes, a: string, b: string, c: string, plan: Plan) returns (ok: bool)
    requires Hex(a) && Hex(b) && Hex(c)
    requires forall p :: p in Transients(NewIntent(name, a, b, c)) ==> p !in disk.files
    modifies disk
    ensures disk.faults >= old(disk.faults)
    ensures old(disk.history) <= disk.history && CoversAll(disk.history, |old(disk.history)|, old(disk.Now()))
    ensures ok ==> Completed(disk.Now(), TransactionOf(old(disk.Now()), name, a, b, c), contents)
                   && Atomic(disk.history, |old(disk.history)|, TransactionOf(old(disk.Now()), name, a, b, c), contents)
    ensures ok ==> !HasIntent(disk.ledger.value.intents, name)
    ensures !ok ==> disk.Now() == old(disk.Now()) || Refuses(disk.ledger, name)
                    || RolledBack(disk.Now(), TransactionOf(old(disk.Now()), name, a, b, c))
    ensures disk.Now() == old(disk.Now()) || Covers(disk.Now(), old(disk.Now()))
    ensures ok || disk.faults > old(disk.faults) || !Supported(name) || !sameDirectory || !ValidOpt(old(disk.ledger))
              || old(Refuses(disk.ledger, name)) || Look(old(disk.files), name) == Some(Irregular)
    ensures old(Refuses(disk.ledger, name)) ==> !ok && disk.Now() == old(disk.Now()) && disk.history == old(disk.history)
    ensures SameExcept(disk.files, old(disk.files), Paths(NewIntent(name, a, b, c)))
    ensures Begins(old(disk.Now()), name, sameDirectory, plan) ==>
              LossIsExact(ok, disk.files, TransactionOf(old(disk.Now()), name, a, b, c), contents, plan)
    ensures !Begins(old(disk.Now()), name, sameDirectory, plan) ==> !ok && disk.Now() == old(disk.Now())
    ensures ok ==> plan.publishedPhase && plan.finalized
  {
    var previous: Memory, existed: bool;
    ok, previous, existed := Begin(disk, name, sameDirectory, plan);
    if !ok { return; }
    var it := NewIntent(name, a, b, c);
    NewIntentIsValid(name, a, b, c);
    ok := RecordAndTransact(disk, previous, existed, it, contents, plan, TransactionOf(disk.Now(), name, a, b, c));
  }

  /** Everything before the intent: nothing has changed yet. */
  method Begin(disk: Disk, name: string, sameDirectory: bool, plan: Plan) returns (ok: bool, previous: Memory, existed: bool)
    modifies disk`faults
    ensures disk.faults >= old(disk.faults)
    ensures ok == (plan.locked && plan.loaded && plan.drawn && Supported(name) && sameDirectory
                   && ValidOpt(disk.ledger) && !Refuses(disk.ledger, name))
    ensures ok || disk.faults > old(disk.faults) || !Supported(name) || !sameDirectory || !ValidOpt(disk.ledger) || Refuses(disk.ledger, name)
    ensures Sound(previous) && fresh(previous.intents.a)
    ensures ok ==> Value(previous) == Previous(disk.Now()) && existed == disk.ledger.Some? && !HasIntent(Previous(disk.Now()).intents, name)
  {
    previous := FromValue(EMPTY);
    existed := false;
    ok := disk.Access(plan.locked);
    if !ok { return; }
    if !Supported(name) || !sameDirectory { return false, previous, existed; }
    ok, previous, existed := LoadLedger(disk, plan.loaded);
    if !ok { return; }
    NotRefused(disk.Now(), name);
    if HasIntent(Value(previous).intents, name) { return false, previous, existed; }
    ok := disk.Access(plan.drawn);
  }

  method RecordAndTransact(disk: Disk, previous: Memory, existed: bool, it: Intent, contents: Bytes, plan: Plan, ghost x: Transaction) returns (ok: bool)
    requires WellFormed(x) && it == x.it && it.phase == "prepared" && disk.Now() == x.before
    requires Sound(previous) && Value(previous) == Previous(x.before) && existed == x.before.ledger.Some?
    modifies disk, previous.intents.a
    ensures disk.faults >= old(disk.faults)
    ensures old(disk.history) <= disk.history && CoversAll(disk.history, |old(disk.history)|, x.before) && Covers(disk.Now(), x.before)
    ensures ok ==> Completed(disk.Now(), x, contents) && Atomic(disk.history, |old(disk.history)|, x, contents)
    ensures ok ==> !HasIntent(disk.ledger.value.intents, it.target) && plan.publishedPhase && plan.finalized
    ensures !ok ==> disk.Now() == x.before || Refuses(disk.ledger, it.target) || RolledBack(disk.Now(), x)
    ensures ok || disk.faults > old(disk.faults) || Look(x.before.files, it.target) == Some(Irregular)
    ensures SameExcept(disk.files, x.before.files, Paths(it))
    ensures if plan.intent then LossIsExact(ok, disk.files, x, contents, plan) else !ok && disk.Now() == x.before
  {
    var intended: Memory;
    ok, intended := RecordIntent(disk, previous, it, plan.intent, x);
    if !ok { return; }
    ghost var h := disk.history;
    ok := Transact(disk, previous, existed, intended, it, contents, plan, x);
    ThenCovers(h, |old(disk.history)|, disk.history, x.before);
    if ok {
      ThenAtomic(h, |old(disk.history)|, disk.history, x, contents);
      CompletedCovers(disk.Now(), x, contents);
    } else if Pending(disk.ledger, x) {
      PendingRefuses(disk.ledger, x);
    }
  }

  /** The transaction comes as far as its durable intent. */
  predicate Begins(w: World, name: string, sameDirectory: bool, plan: Plan) {
    && plan.locked && plan.loaded && plan.drawn && plan.intent
    && Supported(name) && sameDirectory && ValidOpt(w.ledger) && !Refuses(w.ledger, name)
  }

  method RecordIntent(disk: Disk, previous: Memory, it: Intent, works: bool, ghost x: Transaction) returns (ok: bool, intended: Memory)
    requires WellFormed(x) && it == x.it && it.phase == "prepared" && disk.Now() == x.before
    requires Sound(previous) && Value(previous) == Previous(x.before)
    modifies disk`ledger, disk`history, disk`faults
    ensures ok == works && disk.faults == old(disk.faults) + if ok then 0 else 1
    ensures Sound(intended) && fresh(intended.intents.a) && Value(intended) == Intended(x, "prepared")
    ensures disk.ledger == if ok then Some(Intended(x, "prepared")) else old(disk.ledger)
    ensures disk.history == old(disk.history) + [disk.Now()] && Covers(disk.Now(), x.before)
  {
    intended := Clone(previous);
    intended := AppendIntent(intended, it);
    intended := Normalize(intended);
    IntentIsPrepared(x);
    ok := WriteLedger(disk, intended, works);
    if ok { PendingCovers(disk.Now(), x); } else { UnchangedCovers(disk.Now()); }
  }

  lemma PendingRefuses(l: Option<Ledger>, x: Transaction)
    requires Pending(l, x)
    ensures Refuses(l, x.it.target)
  {
  }

  /** A publication of this name is refused: its earlier intent was never resolved. */
  predicate Refuses(l: Option<Ledger>, name: string) {
    l.Some? && HasIntent(l.value.intents, name)
  }

  lemma UnchangedCovers(w: World)
    requires ValidOpt(w.ledger)
    ensures Covers(w, w)
  {
  }

  lemma NotRefused(w: World, name: string)
    ensures Refuses(w.ledger, name) <==> HasIntent(Previous(w).intents, name)
  {
    if w.ledger.Some? {
      assert forall y :: y in Previous(w).intents <==> y in w.ledger.value.intents;
    }
  }

  /** The ledger with the new intent in order is the one the phases are recorded in. */
  lemma IntentIsPrepared(x: Transaction)
    requires WellFormed(x) && x.it.phase == "prepared"
    ensures Normalized(Previous(x.before).(intents := Previous(x.before).intents + [x.it])) == Intended(x, "prepared")
    ensures Normalized(Intended(x, "prepared")) == Intended(x, "prepared") && Pending(Some(Intended(x, "prepared")), x)
  {
    PreviousIsNormal(x.before);
    IntendedIsPending(x, "prepared");
    var prev := Previous(x.before);
    var s := SortedIntents(prev.intents + [x.it]);
    forall i: nat | i < |s| ensures WithPhase(s, x.it.target, "prepared")[i] == s[i] {
      assert s[i] in s;
    }
    assert WithPhase(s, x.it.target, "prepared") == s;
  }

  // ---- Whole runs ----

  lemma CoversThen(w: World, middle: World, before: World)
    requires Covers(middle, before) && Covers(w, middle)
    ensures Covers(w, before)
  {
    forall p {:trigger Look(w.files, p)} | Look(w.files, p) != Look(before.files, p) ensures Named(w.ledger, p) {
      if Look(w.files, p) == Look(middle.files, p) {
        assert Named(middle.ledger, p);
      }
    }
  }

  lemma AllCoverThen(h: seq<World>, later: seq<World>, middle: World, before: World)
    requires CoversAll(h, 0, before) && h <= later
    requires Covers(middle, before) && CoversAll(later, |h|, middle)
    ensures CoversAll(later, 0, before)
  {
    forall k: nat | k < |later| ensures Covers(later[k], before) {
      if k < |h| { assert later[k] == h[k]; } else { CoversThen(later[k], middle, before); }
    }
  }

  /** Any run of publications, each of which may fail or be cut short by a crash: at every point
      the durable ledger is one the reader accepts and names every path that differs from the
      start of the run. */
  method AnyRun(disk: Disk, runs: nat)
    requires ValidOpt(disk.ledger) && disk.history == []
    modifies disk
    ensures CoversAll(disk.history, 0, old(disk.Now())) && Covers(disk.Now(), old(disk.Now()))
  {
    ghost var before := disk.Now();
    UnchangedCovers(before);
    for i := 0 to runs
      invariant CoversAll(disk.history, 0, before) && Covers(disk.Now(), before)
    {
      AnyPublication(disk, before);
    }
  }

  method AnyPublication(disk: Disk, ghost before: World)
    requires CoversAll(disk.history, 0, before) && Covers(disk.Now(), before)
    modifies disk
    ensures CoversAll(disk.history, 0, before) && Covers(disk.Now(), before)
  {
    var name: string, beside: bool, contents: Bytes, a: string, b: string, c: string, plan: Plan := *, *, *, *, *, *, *;
    if !Hex(a) || !Hex(b) || !Hex(c) { return; }
    if exists p :: p in Transients(NewIntent(name, a, b, c)) && p in disk.files { return; }
    ghost var h, middle := disk.history, disk.Now();
    var mark := |disk.history|;
    var ok := PublishAt(disk, name, beside, contents, a, b, c, plan);
    AllCoverThen(h, disk.history, middle, before);
    if disk.Now() != middle { CoversThen(disk.Now(), middle, before); }
    var k: int := *;
    if mark <= k < |disk.history| { disk.StopAt(k); }
  }

  // ---- The loss happens ----

  const ZEROS := seq(32, i => '0')

  /** Everything works until the phase "published" cannot be recorded; then the second restoring
      rename fails and the wipes succeed. */
  const LOSING := Plan(
    true, true, true, true, Regular([]), Works, true, Works, true, true, true,
    true, [], Works, Works, true, false, true, true, true, false, Gone, Wipes(Gone, Gone, Gone), true)

  /** Everything works until the last write of the ledger fails, after the backup was wiped. */
  const LOSING_LATE := LOSING.(publishedPhase := true, concluded := false)

  /** Two publications that report an error and after which the previous contents of the target are
      in no file at all; in the late one the target holds the new contents. */
  method PreviousContentsLost(disk: Disk, late: bool) returns (ok: bool)
    requires disk.files == map["credential.bin" := Regular([1])] && disk.ledger == None
    modifies disk
    ensures !ok && Refuses(disk.ledger, "credential.bin")
    ensures forall p :: p in disk.files ==> disk.files[p] != Regular([1])
    ensures late ==> Look(disk.files, "credential.bin") == Some(Regular([2]))
  {
    ghost var before := disk.Now();
    ghost var it := NewIntent("credential.bin", ZEROS, ZEROS, ZEROS);
    var plan := if late then LOSING_LATE else LOSING;
    NewIntentIsValid("credential.bin", ZEROS, ZEROS, ZEROS);
    assert Begins(before, "credential.bin", true, plan) && LosesPrevious(plan) && !Succeeds(plan) && NoCoincidence(plan, [1]);
    ok := PublishAt(disk, "credential.bin", true, [2], ZEROS, ZEROS, ZEROS, plan);
    assert IsLost(disk.files, it, [1]);
    forall p | p in disk.files ensures disk.files[p] != Regular([1]) {
      if p in Paths(it) { assert Look(disk.files, p) != Some(Regular([1])); }
      else { assert Look(disk.files, p) == Look(before.files, p); }
    }
  }
}
