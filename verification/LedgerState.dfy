/** The ownership ledger of `internal/runtimeowner/owner.go` as a value: what it means to be
    valid and normalized, and the order in which it keeps its entries. */
module LedgerState {
  import opened Wrappers

  datatype Intent = Intent(target: string, temporary: string, backup: string, replaced: string, phase: string)

  datatype Ledger = Ledger(intents: seq<Intent>, finalized: seq<string>)

  const EMPTY := Ledger([], [])

  predicate Supported(name: string) { name == "credential.bin" || name == "sing-box.json" }

  predicate KnownPhase(phase: string) {
    phase == "prepared" || phase == "temporary-written" || phase == "publishing" || phase == "published"
  }

  /** A transient name as uniqueSibling makes it. */
  function Sibling(target: string, kind: string, token: string): string {
    "." + target + "." + kind + "-" + token + ".tmp"
  }

  predicate NoSeparator(name: string) { forall i: nat :: i < |name| ==> name[i] != '/' && name[i] != '\\' }

  /** What validateIntents asks of a transient name. */
  predicate Transient(name: string, target: string, kind: string) {
    && "." + target + "." + kind + "-" <= name
    && |name| >= 4 && name[|name| - 4..] == ".tmp"
    && NoSeparator(name)
  }

  predicate ValidIntent(x: Intent) {
    && Supported(x.target) && KnownPhase(x.phase)
    && Transient(x.temporary, x.target, "publish") && Transient(x.backup, x.target, "backup")
    && Transient(x.replaced, x.target, "replaced")
    && x.temporary != x.backup && x.temporary != x.replaced && x.backup != x.replaced
  }

  predicate UniqueTargets(intents: seq<Intent>) {
    forall i: nat, j: nat :: i < j < |intents| ==> intents[i].target != intents[j].target
  }

  predicate UniqueNames(names: seq<string>) {
    forall i: nat, j: nat :: i < j < |names| ==> names[i] != names[j]
  }

  predicate ValidLedger(l: Ledger) {
    && (forall x :: x in l.intents ==> ValidIntent(x)) && UniqueTargets(l.intents)
    && (forall n :: n in l.finalized ==> Supported(n)) && UniqueNames(l.finalized)
  }

  predicate Hex(token: string) {
    |token| == 32 && forall c :: c in token ==> '0' <= c <= '9' || 'a' <= c <= 'f'
  }

  function NewIntent(target: string, a: string, b: string, c: string): Intent {
    Intent(target, Sibling(target, "publish", a), Sibling(target, "backup", b), Sibling(target, "replaced", c), "prepared")
  }

  /** A new intent passes the reader's validation whatever was drawn, and names four paths. */
  lemma NewIntentIsValid(target: string, a: string, b: string, c: string)
    requires Supported(target) && Hex(a) && Hex(b) && Hex(c)
    ensures var x := NewIntent(target, a, b, c);
            ValidIntent(x) && target !in {x.temporary, x.backup, x.replaced}
  {
    SiblingIsTransient(target, "publish", a);
    SiblingIsTransient(target, "backup", b);
    SiblingIsTransient(target, "replaced", c);
    var x := NewIntent(target, a, b, c);
    var n := |target| + 2;
    assert x.temporary[n] == 'p' && x.backup[n] == 'b' && x.replaced[n] == 'r';
    assert x.temporary[0] == '.' && x.backup[0] == '.' && x.replaced[0] == '.';
  }

  lemma SiblingIsTransient(target: string, kind: string, token: string)
    requires Supported(target) && Hex(token) && kind in {"publish", "backup", "replaced"}
    ensures Transient(Sibling(target, kind, token), target, kind)
  {
    TokenHasNoSeparator(token);
    SiblingForm(target, kind, token);
  }

  lemma TokenHasNoSeparator(token: string)
    requires Hex(token)
    ensures NoSeparator(token)
  {
    forall i: nat | i < |token| ensures token[i] != '/' && token[i] != '\\' { assert token[i] in token; }
  }

  lemma SiblingForm(target: string, kind: string, token: string)
    requires NoSeparator(target) && NoSeparator(kind) && NoSeparator(token)
    ensures Transient(Sibling(target, kind, token), target, kind)
  {
    var head := "." + target + "." + kind + "-";
    assert Sibling(target, kind, token) == head + token + ".tmp";
  }

  // ---- Order ----

  /** The lexicographic order of strings. */
  predicate Less(a: string, b: string) {
    |b| > 0 && (|a| == 0 || a[0] < b[0] || (a[0] == b[0] && Less(a[1..], b[1..])))
  }

  lemma {:induction false} LessIsTransitive(a: string, b: string, c: string)
    requires Less(a, b) && Less(b, c)
    ensures Less(a, c)
  {
    if |a| > 0 && a[0] == b[0] == c[0] { LessIsTransitive(a[1..], b[1..], c[1..]); }
  }

  lemma {:induction false} LessIsTotal(a: string, b: string)
    ensures Less(a, b) || Less(b, a) || a == b
    ensures !(Less(a, b) && Less(b, a)) && !Less(a, a)
  {
    if |a| > 0 && |b| > 0 { LessIsTotal(a[1..], b[1..]); }
    if |a| > 0 { LessIsTotal(a[1..], a[1..]); }
  }

  predicate Ascending(names: seq<string>) {
    forall i: nat, j: nat :: i < j < |names| ==> Less(names[i], names[j])
  }

  function Targets(intents: seq<Intent>): (r: seq<string>)
    ensures |r| == |intents| && forall i: nat :: i < |r| ==> r[i] == intents[i].target
  {
    seq(|intents|, i requires 0 <= i < |intents| => intents[i].target)
  }

  function InsertName(n: string, names: seq<string>): (r: seq<string>)
    ensures forall x :: x in r <==> x == n || x in names
  {
    if names == [] || Less(n, names[0]) then [n] + names
    else if n == names[0] then names
    else [names[0]] + InsertName(n, names[1..])
  }

  /** sortedUnique. */
  function SortedUnique(names: seq<string>): (r: seq<string>)
    ensures forall x :: x in r <==> x in names
  {
    if names == [] then [] else InsertName(names[0], SortedUnique(names[1..]))
  }

  lemma {:induction false} InsertNameAscends(n: string, names: seq<string>)
    requires Ascending(names)
    ensures Ascending(InsertName(n, names))
  {
    if names != [] && !Less(n, names[0]) && n != names[0] {
      LessIsTotal(n, names[0]);
      InsertNameAscends(n, names[1..]);
      var rest := InsertName(n, names[1..]);
      forall j: nat | j < |rest| ensures Less(names[0], rest[j]) {
        assert rest[j] in rest;
      }
    } else if names != [] && Less(n, names[0]) {
      forall j: nat | 0 < j < |names| ensures Less(n, names[j]) { LessIsTransitive(n, names[0], names[j]); }
    }
  }

  lemma {:induction false} SortedUniqueAscends(names: seq<string>)
    ensures Ascending(SortedUnique(names))
  {
    if names != [] {
      SortedUniqueAscends(names[1..]);
      InsertNameAscends(names[0], SortedUnique(names[1..]));
    }
  }

  lemma AscendingIsUnique(names: seq<string>)
    requires Ascending(names)
    ensures UniqueNames(names)
  {
    forall i: nat, j: nat | i < j < |names| ensures names[i] != names[j] { LessIsTotal(names[i], names[j]); }
  }

  /** Two ascending lists with the same members are the same list. */
  lemma {:induction false} AscendingIsDetermined(a: seq<string>, b: seq<string>)
    requires Ascending(a) && Ascending(b) && forall x :: x in a <==> x in b
    ensures a == b
  {
    assert |b| > 0 ==> b[0] in a;
    if a != [] {
      assert a[0] in b;
      HeadsAgree(a, b);
      forall x ensures x in a[1..] <==> x in b[1..] {
        TailMember(a, x);
        TailMember(b, x);
      }
      AscendingIsDetermined(a[1..], b[1..]);
    }
  }

  lemma HeadsAgree(a: seq<string>, b: seq<string>)
    requires Ascending(a) && Ascending(b) && a != [] && b != [] && a[0] in b && b[0] in a
    ensures a[0] == b[0]
  {
    LessIsTotal(a[0], b[0]);
  }

  lemma TailMember(a: seq<string>, x: string)
    requires Ascending(a) && a != []
    ensures x in a[1..] <==> x in a && x != a[0]
  {
    LessIsTotal(a[0], a[0]);
    if x in a[1..] { var i: nat :| i < |a[1..]| && a[1..][i] == x; assert a[i + 1] == x; }
  }

  function InsertIntent(x: Intent, s: seq<Intent>): (r: seq<Intent>)
    ensures |r| == |s| + 1 && forall y :: y in r <==> y == x || y in s
  {
    if s == [] || !Less(s[0].target, x.target) then [x] + s
    else [s[0]] + InsertIntent(x, s[1..])
  }

  /** The order sort.Slice establishes; the targets of a ledger's intents are distinct. */
  function SortedIntents(s: seq<Intent>): (r: seq<Intent>)
    ensures |r| == |s| && forall y :: y in r <==> y in s
  {
    if s == [] then [] else InsertIntent(s[0], SortedIntents(s[1..]))
  }

  lemma {:induction false} SortedIntentsAscend(s: seq<Intent>)
    requires UniqueTargets(s)
    ensures Ascending(Targets(SortedIntents(s)))
  {
    if s != [] {
      var rest := SortedIntents(s[1..]);
      SortedIntentsAscend(s[1..]);
      forall y | y in rest ensures y.target != s[0].target {
        var k: nat :| k < |s[1..]| && s[1..][k] == y;
        assert s[k + 1] == y;
      }
      InsertIntentAscends(s[0], rest);
    }
  }

  lemma {:induction false} InsertIntentAscends(x: Intent, s: seq<Intent>)
    requires Ascending(Targets(s)) && forall y :: y in s ==> y.target != x.target
    ensures Ascending(Targets(InsertIntent(x, s)))
  {
    if s == [] {
    } else if !Less(s[0].target, x.target) {
      LessIsTotal(s[0].target, x.target);
      assert s[0] in s;
      forall j: nat | j < |s| ensures Less(x.target, s[j].target) {
        if j > 0 {
          assert Less(Targets(s)[0], Targets(s)[j]);
          LessIsTransitive(x.target, s[0].target, s[j].target);
        }
      }
    } else {
      var rest := InsertIntent(x, s[1..]);
      AscendingTail(s);
      InsertIntentAscends(x, s[1..]);
      forall j: nat | j < |rest| ensures Less(s[0].target, rest[j].target) {
        assert rest[j] in rest;
        if rest[j] != x {
          var k: nat :| k < |s[1..]| && s[1..][k] == rest[j];
          assert Less(Targets(s)[0], Targets(s)[k + 1]);
        }
      }
      AscendingCons(s[0], rest);
    }
  }

  lemma AscendingTail(s: seq<Intent>)
    requires Ascending(Targets(s)) && s != []
    ensures Ascending(Targets(s[1..]))
  {
    var t := Targets(s[1..]);
    forall i: nat, j: nat | i < j < |t| ensures Less(t[i], t[j]) {
      assert Less(Targets(s)[i + 1], Targets(s)[j + 1]);
    }
  }

  lemma AscendingCons(x: Intent, s: seq<Intent>)
    requires Ascending(Targets(s)) && forall j: nat :: j < |s| ==> Less(x.target, s[j].target)
    ensures Ascending(Targets([x] + s))
  {
    var t := Targets([x] + s);
    forall i: nat, j: nat | i < j < |t| ensures Less(t[i], t[j]) {
      if i > 0 { assert Less(Targets(s)[i - 1], Targets(s)[j - 1]); }
    }
  }

  lemma AscendingTargetsAreUnique(s: seq<Intent>)
    requires Ascending(Targets(s))
    ensures UniqueTargets(s)
  {
    AscendingIsUnique(Targets(s));
    forall i: nat, j: nat | i < j < |s| ensures s[i].target != s[j].target {
      assert Targets(s)[i] != Targets(s)[j];
    }
  }

  /** Sorting changes nothing in a list that is in order. */
  lemma {:induction false} SortedAlready(s: seq<Intent>)
    requires Ascending(Targets(s))
    ensures SortedIntents(s) == s
  {
    if s != [] {
      AscendingTail(s);
      SortedAlready(s[1..]);
      if |s| > 1 {
        assert Less(Targets(s)[0], Targets(s)[1]);
        LessIsTotal(s[0].target, s[1].target);
      }
    }
  }

  // ---- Normal form ----

  predicate Normal(l: Ledger) { Ascending(Targets(l.intents)) && Ascending(l.finalized) }

  /** normalizeLedger. */
  function Normalized(l: Ledger): Ledger { Ledger(SortedIntents(l.intents), SortedUnique(l.finalized)) }

  lemma NormalizedIsNormal(l: Ledger)
    requires ValidLedger(l)
    ensures Normal(Normalized(l)) && ValidLedger(Normalized(l))
    ensures forall x :: x in Normalized(l).intents <==> x in l.intents
    ensures forall n :: n in Normalized(l).finalized <==> n in l.finalized
  {
    SortedIntentsAscend(l.intents);
    AscendingTargetsAreUnique(SortedIntents(l.intents));
    SortedUniqueAscends(l.finalized);
    AscendingIsUnique(SortedUnique(l.finalized));
  }

  /** Writing a normal ledger back changes nothing. */
  lemma NormalIsStable(l: Ledger)
    requires Normal(l)
    ensures Normalized(l) == l
  {
    SortedAlready(l.intents);
    SortedUniqueAscends(l.finalized);
    AscendingIsDetermined(SortedUnique(l.finalized), l.finalized);
  }

  function WithPhase(s: seq<Intent>, target: string, phase: string): (r: seq<Intent>)
    ensures |r| == |s| && Targets(r) == Targets(s)
  {
    seq(|s|, i requires 0 <= i < |s| => if s[i].target == target then s[i].(phase := phase) else s[i])
  }

  function Without(s: seq<Intent>, target: string): (r: seq<Intent>)
    ensures |r| <= |s|
  {
    if s == [] then []
    else (if s[0].target == target then [] else [s[0]]) + Without(s[1..], target)
  }

  lemma {:induction false} WithoutMembers(s: seq<Intent>, target: string)
    ensures forall x :: x in Without(s, target) <==> x in s && x.target != target
  {
    if s != [] { WithoutMembers(s[1..], target); }
  }

  // ---- One transaction's intent comes and goes ----

  lemma {:induction false} WithoutAbsent(s: seq<Intent>, target: string)
    requires forall x :: x in s ==> x.target != target
    ensures Without(s, target) == s
  {
    if s != [] { assert s[0] in s; WithoutAbsent(s[1..], target); }
  }

  lemma {:induction false} WithoutPhase(s: seq<Intent>, target: string, phase: string)
    ensures Without(WithPhase(s, target, phase), target) == Without(s, target)
  {
    if s != [] {
      assert WithPhase(s, target, phase)[1..] == WithPhase(s[1..], target, phase);
      WithoutPhase(s[1..], target, phase);
    }
  }

  lemma {:induction false} WithoutInserted(x: Intent, s: seq<Intent>, target: string)
    requires Ascending(Targets(s)) && x.target != target
    ensures Without(InsertIntent(x, s), target) == InsertIntent(x, Without(s, target))
  {
    if s != [] && Less(s[0].target, x.target) {
      AscendingTail(s);
      WithoutInserted(x, s[1..], target);
      InsertPast(x, s, target);
    } else if s != [] {
      WithoutCons(x, s, target);
      InsertInFront(x, s, target);
    }
  }

  lemma InsertPast(x: Intent, s: seq<Intent>, target: string)
    requires s != [] && Less(s[0].target, x.target)
    requires Without(InsertIntent(x, s[1..]), target) == InsertIntent(x, Without(s[1..], target))
    ensures Without(InsertIntent(x, s), target) == InsertIntent(x, Without(s, target))
  {
    var rest, kept := InsertIntent(x, s[1..]), Without(s[1..], target);
    assert InsertIntent(x, s) == [s[0]] + rest;
    WithoutCons(s[0], rest, target);
    if s[0].target == target {
      assert Without(s, target) == kept;
    } else {
      assert Without(s, target) == [s[0]] + kept;
      assert ([s[0]] + kept)[1..] == kept;
      assert InsertIntent(x, [s[0]] + kept) == [s[0]] + InsertIntent(x, kept);
    }
  }

  lemma InsertInFront(x: Intent, s: seq<Intent>, target: string)
    requires Ascending(Targets(s)) && s != [] && !Less(s[0].target, x.target)
    ensures InsertIntent(x, Without(s, target)) == [x] + Without(s, target)
  {
    var rest := Without(s, target);
    if rest != [] {
      WithoutMembers(s, target);
      assert rest[0] in s;
      NoneBelow(x, s, rest[0]);
    }
  }

  lemma WithoutCons(y: Intent, s: seq<Intent>, target: string)
    ensures Without([y] + s, target) == (if y.target == target then [] else [y]) + Without(s, target)
  {
    assert ([y] + s)[1..] == s;
  }

  lemma NoneBelow(x: Intent, s: seq<Intent>, y: Intent)
    requires Ascending(Targets(s)) && s != [] && !Less(s[0].target, x.target) && y in s
    ensures !Less(y.target, x.target)
  {
    var k: nat :| k < |s| && s[k] == y;
    if k > 0 && Less(y.target, x.target) {
      assert Less(Targets(s)[0], Targets(s)[k]);
      LessIsTransitive(s[0].target, y.target, x.target);
    }
  }

  /** Adding an intent for a new target, sorting, and removing it again. */
  lemma {:induction false} AddThenRemove(s: seq<Intent>, x: Intent)
    requires UniqueTargets(s + [x])
    ensures Without(SortedIntents(s + [x]), x.target) == SortedIntents(s)
  {
    if s != [] {
      assert (s + [x])[1..] == s[1..] + [x];
      forall i: nat, j: nat | i < j < |s[1..] + [x]| ensures (s[1..] + [x])[i].target != (s[1..] + [x])[j].target {
        assert (s + [x])[i + 1].target != (s + [x])[j + 1].target;
      }
      AddThenRemove(s[1..], x);
      SortedIntentsAscend(s[1..] + [x]);
      assert (s + [x])[0].target != (s + [x])[|s|].target;
      WithoutInserted(s[0], SortedIntents(s[1..] + [x]), x.target);
    }
  }
}
