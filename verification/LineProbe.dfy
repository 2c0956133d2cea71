/** Line quality: the rounds of `internal/lineprobe` (scheduler.go, aggregate.go). */
module LineProbe {
  import opened Wrappers
  import ControllerState

  const TARGETS: seq<string> := ["google", "pinterest", "gemini", "chatgpt", "claude", "tiktok", "amazon", "facebook"]

  const ROUND_BUDGET := 5000

  datatype ErrorCode = Absent | Timeout | Canceled | TlsError | NetworkError | HttpServerError | InvalidTarget | Other(text: string)

  /** `checkedAt` 0 is the zero time; `failures` is absent until the round is aggregated. */
  datatype Result = Result(id: string, latency: int, reachable: bool, httpStatus: int, error: ErrorCode, checkedAt: int, failures: Option<int>)

  predicate Successful(r: Result) { r.reachable && 200 <= r.httpStatus < 500 }

  /** The ranges a probe keeps, for servers that stay within the status codes up to 599. */
  predicate InRange(r: Result) {
    0 <= r.latency <= ROUND_BUDGET && 0 <= r.httpStatus <= 599 && !r.error.Other? && r.checkedAt != 0
  }

  predicate Distinct(ids: seq<string>) {
    forall i: nat, j: nat :: i < j < |ids| ==> ids[i] != ids[j]
  }

  // ---- Aggregation ----

  type Round = seq<Result>

  predicate RoundOf(round: Round, ids: seq<string>) {
    |round| == |ids| && forall i: nat :: i < |ids| ==> round[i].id == ids[i]
  }

  predicate RoundsOf(rounds: seq<Round>, ids: seq<string>) {
    forall k: nat :: k < |rounds| ==> RoundOf(rounds[k], ids)
  }

  /** How many of the latest rounds in a row target i failed. */
  function Trailing(rounds: seq<Round>, i: nat): nat
    requires forall k: nat :: k < |rounds| ==> i < |rounds[k]|
  {
    if rounds == [] || Successful(rounds[|rounds| - 1][i]) then 0 else 1 + Trailing(rounds[..|rounds| - 1], i)
  }

  function AtMost3(n: nat): nat { if n < 3 then n else 3 }

  /** How many of the first k targets failed three times in a row. */
  function Sustained(rounds: seq<Round>, k: nat): nat
    requires forall j: nat :: j < |rounds| ==> k <= |rounds[j]|
  {
    if k == 0 then 0 else Sustained(rounds, k - 1) + if Trailing(rounds, k - 1) >= 3 then 1 else 0
  }

  function Latencies(round: Round): seq<int> {
    if round == [] then [] else
      Latencies(round[..|round| - 1]) + if Successful(round[|round| - 1]) then [round[|round| - 1].latency] else []
  }

  function Below(latencies: seq<int>, bound: int): nat {
    if latencies == [] then 0 else (if latencies[0] < bound then 1 else 0) + Below(latencies[1..], bound)
  }

  /** The upper median is at least a second. */
  predicate MostlySlow(latencies: seq<int>) { Below(latencies, 1000) <= |latencies| / 2 }

  /** What the rounds of a session say: too many targets failing for three rounds; else nothing
      new when too few answered; else whether those that answered were mostly slow. */
  function Quality(rounds: seq<Round>, n: nat): string
    requires forall k: nat :: k < |rounds| ==> |rounds[k]| == n
  {
    if rounds == [] then "" else
      var latencies := Latencies(rounds[|rounds| - 1]);
      if Sustained(rounds, n) > n / 2 then ControllerState.FAILED
      else if |latencies| <= n / 2 then Quality(rounds[..|rounds| - 1], n)
      else if MostlySlow(latencies) then ControllerState.SLOW
      else ControllerState.GOOD
  }

  function InsertInt(x: int, s: seq<int>): seq<int> {
    if s == [] || x <= s[0] then [x] + s else [s[0]] + InsertInt(x, s[1..])
  }

  function SortedInts(s: seq<int>): seq<int> { if s == [] then [] else InsertInt(s[0], SortedInts(s[1..])) }

  predicate AscendingInts(s: seq<int>) { forall i: nat, j: nat :: i < j < |s| ==> s[i] <= s[j] }

  lemma {:induction false} InsertIntFacts(x: int, s: seq<int>, bound: int)
    requires AscendingInts(s)
    ensures |InsertInt(x, s)| == |s| + 1 && AscendingInts(InsertInt(x, s))
    ensures forall y :: y in InsertInt(x, s) <==> y == x || y in s
    ensures Below(InsertInt(x, s), bound) == Below(s, bound) + if x < bound then 1 else 0
  {
    if s == [] || x <= s[0] {
      assert ([x] + s)[1..] == s;
    } else {
      InsertIntFacts(x, s[1..], bound);
      var rest := InsertInt(x, s[1..]);
      assert ([s[0]] + rest)[1..] == rest;
      forall j: nat | j < |rest| ensures s[0] <= rest[j] {
        assert rest[j] in rest;
      }
    }
  }

  lemma {:induction false} SortedIntsFacts(s: seq<int>, bound: int)
    ensures |SortedInts(s)| == |s| && AscendingInts(SortedInts(s)) && Below(SortedInts(s), bound) == Below(s, bound)
  {
    if s != [] {
      SortedIntsFacts(s[1..], bound);
      InsertIntFacts(s[0], SortedInts(s[1..]), bound);
    }
  }

  /** In an ascending list the elements below a bound are a prefix. */
  lemma {:induction false} BelowIsPrefix(s: seq<int>, bound: int, m: nat)
    requires AscendingInts(s) && m < |s|
    ensures s[m] >= bound <==> Below(s, bound) <= m
  {
    if s[0] >= bound {
      NoneBelow(s, bound);
      assert s[0] <= s[m];
    } else if m > 0 {
      BelowIsPrefix(s[1..], bound, m - 1);
    }
  }

  lemma {:induction false} NoneBelow(s: seq<int>, bound: int)
    requires AscendingInts(s) && s != [] && s[0] >= bound
    ensures Below(s, bound) == 0
  {
    if |s| > 1 { assert s[0] <= s[1]; NoneBelow(s[1..], bound); }
  }

  /** The sorted middle element decides what the count of fast answers decides. */
  lemma MedianDecides(latencies: seq<int>)
    requires latencies != []
    ensures |SortedInts(latencies)| == |latencies|
    ensures SortedInts(latencies)[|latencies| / 2] >= 1000 <==> MostlySlow(latencies)
  {
    SortedIntsFacts(latencies, 1000);
    BelowIsPrefix(SortedInts(latencies), 1000, |latencies| / 2);
  }

  function CountIn(failures: map<string, int>, id: string): int { if id in failures then failures[id] else 0 }

  class Aggregate {
    const ids: seq<string>
    var failures: map<string, int>
    var quality: string
    /** The rounds aggregated so far. */
    ghost var rounds: seq<Round>

    ghost predicate Valid()
      reads this
    {
      && Distinct(ids) && RoundsOf(rounds, ids) && quality == Quality(rounds, |ids|)
      && CountsAre(rounds, 0, |ids|)
    }

    ghost predicate CountsAre(all: seq<Round>, from: nat, end: nat)
      requires RoundsOf(all, ids) && end <= |ids|
      reads this`failures
    {
      forall i: nat :: from <= i < end ==> CountIn(failures, ids[i]) == AtMost3(Trailing(all, i))
    }

    constructor (ids: seq<string>)
      requires Distinct(ids)
      ensures Valid() && rounds == [] && this.ids == ids
    {
      this.ids := ids;
      failures, quality, rounds := map[], "", [];
    }

    method Note(r: Result) returns (count: int)
      requires CountIn(failures, r.id) <= 3
      modifies this`failures
      ensures count == CountIn(failures, r.id) == if Successful(r) then 0 else if old(CountIn(failures, r.id)) < 3 then old(CountIn(failures, r.id)) + 1 else 3
      ensures forall id :: id != r.id ==> CountIn(failures, id) == old(CountIn(failures, id))
    {
      if Successful(r) {
        failures := failures[r.id := 0];
      } else if CountIn(failures, r.id) < 3 {
        failures := failures[r.id := CountIn(failures, r.id) + 1];
      }
      count := CountIn(failures, r.id);
    }

    method NoteOne(r: Result, i: nat, ghost all: seq<Round>) returns (count: int)
      requires i < |ids| && r.id == ids[i] && Distinct(ids) && RoundsOf(rounds, ids) && RoundsOf(all, ids)
      requires CountsAre(all, 0, i) && CountsAre(rounds, i, |ids|)
      requires Trailing(all, i) == if Successful(r) then 0 else 1 + Trailing(rounds, i)
      modifies this`failures
      ensures CountsAre(all, 0, i + 1) && CountsAre(rounds, i + 1, |ids|) && count == AtMost3(Trailing(all, i))
    {
      assert CountIn(failures, ids[i]) == AtMost3(Trailing(rounds, i));
      OthersDiffer(ids, i);
      count := Note(r);
    }

    /** One completed round. Each result is annotated in place with the number of rounds in a row,
        at most 3, that its target has failed. */
    method Update(results: array<Result>) returns (q: string)
      requires Valid() && RoundOf(results[..], ids)
      modifies this, results
      ensures Valid() && rounds == old(rounds) + [old(results[..])]
      ensures q == if Quality(rounds, |ids|) == "" then ControllerState.UNKNOWN else Quality(rounds, |ids|)
      ensures forall i: nat :: i < |ids| ==> results[i] == old(results[i]).(failures := Some(AtMost3(Trailing(rounds, i))))
    {
      ghost var round, before := results[..], rounds;
      CountsBefore(before, round, ids);
      var sustained, latencies := CountRound(results, before + [round]);
      rounds := before + [round];
      assert rounds[..|rounds| - 1] == before;
      if sustained > results.Length / 2 {
        quality := ControllerState.FAILED;
        return quality;
      }
      if |latencies| <= results.Length / 2 {
        q := if quality == "" then ControllerState.UNKNOWN else quality;
        return;
      }
      MedianDecides(latencies);
      quality := if SortedInts(latencies)[|latencies| / 2] >= 1000 then ControllerState.SLOW else ControllerState.GOOD;
      q := quality;
    }

    method Annotate(results: array<Result>, i: nat, ghost all: seq<Round>) returns (count: int)
      requires i < |ids| && results.Length == |ids| && results[i].id == ids[i] && Distinct(ids) && RoundsOf(rounds, ids) && RoundsOf(all, ids)
      requires CountsAre(all, 0, i) && CountsAre(rounds, i, |ids|)
      requires Trailing(all, i) == if Successful(results[i]) then 0 else 1 + Trailing(rounds, i)
      modifies this`failures, results
      ensures CountsAre(all, 0, i + 1) && CountsAre(rounds, i + 1, |ids|) && count == AtMost3(Trailing(all, i))
      ensures results[..] == old(results[..])[i := old(results[i]).(failures := Some(count))]
    {
      var r := results[i];
      count := NoteOne(r, i, all);
      results[i] := r.(failures := Some(count));
    }

    /** The loop of Update. */
    method CountRound(results: array<Result>, ghost all: seq<Round>) returns (sustained: nat, latencies: seq<int>)
      requires Distinct(ids) && RoundOf(results[..], ids) && RoundsOf(all, ids) && all == rounds + [results[..]]
      requires RoundsOf(rounds, ids) && CountsAre(rounds, 0, |ids|)
      modifies this`failures, results
      ensures CountsAre(all, 0, |ids|)
      ensures sustained == Sustained(all, |ids|) && latencies == Latencies(old(results[..]))
      ensures Done(results[..], old(results[..]), all, |ids|)
    {
      ghost var round := results[..];
      sustained, latencies := 0, [];
      for i := 0 to results.Length
        invariant Counting(results, round, all, i) && sustained == Sustained(all, i) && latencies == Latencies(round[..i])
      {
        sustained, latencies := CountNext(results, i, round, all, sustained, latencies);
      }
      assert round[..results.Length] == round;
    }

    method CountNext(results: array<Result>, i: nat, ghost round: Round, ghost all: seq<Round>, sustained: nat, latencies: seq<int>)
      returns (sustained': nat, latencies': seq<int>)
      requires Distinct(ids) && RoundOf(round, ids) && RoundsOf(rounds, ids) && RoundsOf(all, ids) && all == rounds + [round]
      requires i < |ids| && Counting(results, round, all, i) && sustained == Sustained(all, i) && latencies == Latencies(round[..i])
      modifies this`failures, results
      ensures Counting(results, round, all, i + 1)
      ensures sustained' == Sustained(all, i + 1) && latencies' == Latencies(round[..i + 1])
    {
      latencies' := AddLatency(latencies, results, i, round, all);
      var count := CountOne(results, i, round, all);
      sustained' := if count >= 3 then sustained + 1 else sustained;
    }

    method AddLatency(latencies: seq<int>, results: array<Result>, i: nat, ghost round: Round, ghost all: seq<Round>) returns (more: seq<int>)
      requires RoundOf(round, ids) && RoundsOf(rounds, ids) && RoundsOf(all, ids)
      requires i < |ids| && Counting(results, round, all, i) && latencies == Latencies(round[..i])
      ensures more == Latencies(round[..i + 1])
    {
      var r := results[i];
      assert r == results[..][i] == round[i];
      LatenciesMore(round, i);
      more := latencies;
      if Successful(r) { more := more + [r.latency]; }
    }

    ghost predicate Counting(results: array<Result>, round: Round, all: seq<Round>, i: nat)
      requires i <= |ids| == |round| && RoundsOf(rounds, ids) && RoundsOf(all, ids)
      reads this`failures, this`rounds, results
    {
      Done(results[..], round, all, i) && CountsAre(all, 0, i) && CountsAre(rounds, i, |ids|)
    }

    method CountOne(results: array<Result>, i: nat, ghost round: Round, ghost all: seq<Round>) returns (count: int)
      requires Distinct(ids) && RoundOf(round, ids) && RoundsOf(rounds, ids) && RoundsOf(all, ids) && all == rounds + [round]
      requires i < |ids| && Counting(results, round, all, i)
      modifies this`failures, results
      ensures old(results[i]) == round[i] && count == AtMost3(Trailing(all, i)) && Counting(results, round, all, i + 1)
    {
      assert results[i] == results[..][i] == round[i];
      TrailingMore(rounds, round, i);
      DoneMore(results[..], round, all, i);
      count := Annotate(results, i, all);
    }
  }

  /** The first i results of the round are annotated, the others as they came. */
  ghost predicate Done(now: seq<Result>, round: Round, all: seq<Round>, i: nat)
    requires i <= |round| && forall k: nat :: k < |all| ==> |round| <= |all[k]|
  {
    && |now| == |round| && (forall j: nat :: j < i ==> now[j] == round[j].(failures := Some(AtMost3(Trailing(all, j)))))
    && (forall j: nat :: i <= j < |round| ==> now[j] == round[j])
  }

  lemma DoneMore(now: seq<Result>, round: Round, all: seq<Round>, i: nat)
    requires i < |round| && (forall k: nat :: k < |all| ==> |round| <= |all[k]|) && Done(now, round, all, i)
    ensures Done(now[i := now[i].(failures := Some(AtMost3(Trailing(all, i))))], round, all, i + 1)
  {
  }

  lemma OthersDiffer(ids: seq<string>, i: nat)
    requires Distinct(ids) && i < |ids|
    ensures forall j: nat :: j < |ids| && j != i ==> ids[j] != ids[i]
  {
  }

  lemma LatenciesMore(round: Round, i: nat)
    requires i < |round|
    ensures Latencies(round[..i + 1]) == Latencies(round[..i]) + if Successful(round[i]) then [round[i].latency] else []
  {
    assert round[..i + 1][..i] == round[..i];
  }

  lemma TrailingMore(rounds: seq<Round>, round: Round, i: nat)
    requires (forall k: nat :: k < |rounds| ==> i < |rounds[k]|) && i < |round|
    ensures Trailing(rounds + [round], i) == if Successful(round[i]) then 0 else 1 + Trailing(rounds, i)
  {
    assert (rounds + [round])[..|rounds|] == rounds;
  }

  lemma CountsBefore(rounds: seq<Round>, round: Round, ids: seq<string>)
    requires RoundsOf(rounds, ids) && RoundOf(round, ids)
    ensures RoundsOf(rounds + [round], ids)
  {
  }

  // ---- Scheduling ----

  /** What the scheduler shows: the last accepted round of a generation. */
  datatype Snapshot = Snapshot(generation: nat, results: seq<Result>)

  /** The annotated k-th round of a session. */
  predicate IsRound(results: seq<Result>, rounds: seq<Round>, k: nat, n: nat)
    requires k < |rounds| && forall j: nat :: j < |rounds| ==> |rounds[j]| == n
  {
    && |results| == n
    && forall i: nat :: i < n ==> results[i] == rounds[k][i].(failures := Some(AtMost3(Trailing(rounds[..k + 1], i))))
  }

  /** Every round of these was answered in range. */
  predicate AllInRange(rounds: seq<Round>) {
    forall k: nat, i: nat :: k < |rounds| && i < |rounds[k]| ==> InRange(rounds[k][i])
  }

  /** A running round; `aggregated` once its results are counted but not yet published. */
  class RunningRound {
    const results: array<Result>
    var aggregated: bool
    var quality: string
    var published: Option<bool>   // whether the controller accepted the quality

    constructor (ids: seq<string>, now: int)
      requires now != 0
      ensures fresh(results) && !aggregated
      ensures RoundOf(results[..], ids) && forall i: nat :: i < |ids| ==> InRange(results[i])
    {
      results := new Result[|ids|](i requires 0 <= i < |ids| => Result(ids[i], ROUND_BUDGET, false, 0, Timeout, now, None));
      aggregated, quality, published := false, "", None;
    }

    /** The collecting loop of runRound: any answers, in any order, until the budget is spent. */
    method Collect(ids: seq<string>) returns (canceled: bool)
      requires RoundOf(results[..], ids) && forall i: nat :: i < |ids| ==> InRange(results[i])
      modifies results
      ensures RoundOf(results[..], ids) && forall i: nat :: i < |ids| ==> InRange(results[i])
    {
      var received := seq(|ids|, i => false);
      var waiting := |ids|;
      while waiting > 0
        invariant |received| == |ids|
        invariant RoundOf(results[..], ids) && forall i: nat :: i < |ids| ==> InRange(results[i])
      {
        if * { return true; }
        var i: int, r: Result := *, *;
        if !(0 <= i < |ids|) || received[i] || !InRange(r) {
          waiting := 0;
        } else {
          results[i] := r.(id := ids[i]);
          received := received[i := true];
          waiting := waiting - 1;
        }
      }
      canceled := false;
    }
  }

  class Session {
    const generation: nat
    const aggregate: Aggregate
    var canceled: bool
    var active: RunningRound?
    ghost var own: set<object>

    constructor (generation: nat, ids: seq<string>, now: int)
      requires Distinct(ids) && now != 0
      ensures this.generation == generation && !canceled && active != null && fresh(own) && Valid(ids)
      ensures aggregate.rounds == []
    {
      this.generation := generation;
      var a := new Aggregate(ids);
      var r := new RunningRound(ids, now);
      aggregate, canceled, active, own := a, false, r, {a, r, r.results};
    }

    ghost predicate Valid(ids: seq<string>)
      reads this, own
    {
      && this !in own
      && aggregate in own && aggregate.ids == ids && aggregate.Valid() && AllInRange(aggregate.rounds)
      && (active != null ==> active in own && active.results in own && RoundAgrees(ids))
    }

    /** A round that is counted is the latest one; any other holds one result in range per target. */
    ghost predicate RoundAgrees(ids: seq<string>)
      requires active != null && RoundsOf(aggregate.rounds, ids)
      reads this`active, active, active.results, aggregate`rounds
    {
      && active.results.Length == |ids|
      && (if active.aggregated
          then |aggregate.rounds| > 0 && IsRound(active.results[..], aggregate.rounds, |aggregate.rounds| - 1, |ids|)
          else RoundOf(active.results[..], ids) && forall i: nat :: i < |ids| ==> InRange(active.results[i]))
    }

    /** Counting the collected round. */
    method Count(ids: seq<string>) returns (q: string)
      requires Valid(ids) && active != null && !active.aggregated
      modifies own
      ensures Valid(ids) && active.aggregated
      ensures aggregate.rounds == old(aggregate.rounds) + [old(active.results[..])]
    {
      q := aggregate.Update(active.results);
      active.aggregated := true;
      active.quality := q;
      LatestIsRound(active.results[..], aggregate.rounds, |ids|);
    }

    method Publish(ids: seq<string>, controller: ControllerState.Controller)
      requires Valid(ids) && active != null && controller != this as object && controller !in own
      modifies active`published, controller
      ensures Valid(ids) && active.published.Some?
    {
      var accepted := controller.UpdateLineQuality(generation, active.quality);
      active.published := Some(accepted);
    }

    method StartRound(ids: seq<string>, now: int)
      requires Valid(ids) && now != 0
      modifies this`active, this`own
      ensures Valid(ids) && active != null && old(own) <= own && fresh(own - old(own))
      ensures old(active) != null ==> active == old(active)
    {
      if active != null { return; }
      var r := new RunningRound(ids, now);
      active := r;
      own := own + {r, r.results};
    }
  }

  class Scheduler {
    const ids: seq<string>
    var current: Session?
    var last: Snapshot
    /** Every session ever started; the goroutines of the earlier ones may still run. */
    var sessions: set<Session>
    ghost var repr: set<object>

    /** The sessions share nothing. */
    ghost predicate Apart()
      reads this, repr
    {
      && this !in repr
      && (forall s :: s in sessions ==> s in repr && s.own <= repr)
      && (forall s, t :: s in sessions && t in sessions ==> s !in t.own)
      && (forall s, t :: s in sessions && t in sessions && s != t ==> s.own !! t.own)
    }

    /** The results shown are a round of the current session, which it counted itself. */
    ghost predicate Valid()
      reads this, repr
    {
      && Distinct(ids) && Apart() && (forall s :: s in sessions ==> s.Valid(ids))
      && (current == null ==> last.results == [])
      && (current != null ==> current in sessions && ShowsItsOwn(last))
    }

    ghost predicate ShowsItsOwn(shown: Snapshot)
      requires current != null
      reads this, current, current.aggregate
    {
      && current.aggregate.Valid() && current.aggregate.ids == ids
      && shown.generation == current.generation && ShowsARound(shown.results, current.aggregate.rounds, |ids|)
    }

    constructor (ids: seq<string>)
      requires Distinct(ids)
      ensures Valid() && this.ids == ids && current == null && sessions == {}
    {
      this.ids, current, last, sessions, repr := ids, null, Snapshot(0, []), {}, {};
    }

    method Start(generation: nat, ended: bool, now: int)
      requires Valid() && now != 0
      modifies this`current, this`last, this`sessions, this`repr, if current == null then {} else {current}
      ensures Valid() && fresh(repr - old(repr)) && old(sessions) <= sessions
      ensures ended || (old(current) != null && old(current).generation >= generation) ==> current == old(current) && last == old(last)
      ensures !ended && (old(current) == null || old(current).generation < generation) ==>
                fresh(current) && current.generation == generation && last == Snapshot(generation, []) && current.active != null
    {
      if ended || (current != null && current.generation >= generation) { return; }
      if current != null { Cancel(current); }
      var s := new Session(generation, ids, now);
      Adopt(s);
    }

    /** The part of Start that makes a new session the current one. */
    method Adopt(s: Session)
      requires Valid() && s.Valid(ids) && this !in s.own && s !in repr && s.own !! repr
      modifies this`current, this`last, this`sessions, this`repr
      ensures Valid() && repr == old(repr) + {s} + s.own && sessions == old(sessions) + {s}
      ensures current == s && last == Snapshot(s.generation, [])
    {
      current := s;
      last := Snapshot(s.generation, []);
      sessions := sessions + {s};
      repr := repr + {s} + s.own;
    }

    /** A step that keeps to one session and the round shown leaves the scheduler valid. */
    twostate lemma OneSession(session: Session)
      requires old(Valid()) && session in old(sessions) && session.Valid(ids) && session.own == old(session.own)
      requires current == old(current) && sessions == old(sessions) && repr == old(repr)
      requires last == old(last) || (session == current && ShowsItsOwn(last))
      requires forall o :: o in repr && o != session && o !in session.own ==> unchanged(o)
      requires old(session.aggregate.rounds) <= session.aggregate.rounds
      ensures Valid()
    {
      forall s | s in sessions ensures s.Valid(ids) && s.own == old(s.own) {
        if s != session { assert old(s.Valid(ids)); }
      }
      if current == session && last == old(last) {
        ShownStays(last.results, old(session.aggregate.rounds), session.aggregate.rounds, |ids|);
      }
    }

    /** beginLocked: a running round is joined. */
    method Begin(session: Session, now: int)
      requires Valid() && session in sessions && now != 0
      modifies this`repr, session`active, session`own
      ensures Valid() && session.active != null && last == old(last) && fresh(repr - old(repr))
      ensures old(session.active) != null ==> session.active == old(session.active)
      ensures session.aggregate.rounds == old(session.aggregate.rounds)
    {
      session.StartRound(ids, now);
      repr := repr + session.own;
    }

    /** The timer of a session, also of an earlier one, starts a round only while its session is the
        current one. */
    method Tick(session: Session, now: int)
      requires Valid() && session in sessions && now != 0
      modifies this`repr, session`active, session`own
      ensures Valid() && last == old(last) && fresh(repr - old(repr))
      ensures session != current || session.canceled ==> session.active == old(session.active)
    {
      if current == session && !session.canceled { Begin(session, now); }
    }

    method Collect(session: Session)
      requires Valid() && session in sessions && session.active != null && !session.active.aggregated
      modifies session.active.results
      ensures Valid() && last == old(last)
    {
      var canceled := session.active.Collect(ids);
      OneSession(session);
    }

    /** The first section after collecting: the round counts only if its session is still current. */
    method AggregateRound(session: Session) returns (quality: Option<string>)
      requires Valid() && session in sessions && session.active != null && !session.active.aggregated
      modifies session.own
      ensures Valid() && last == old(last)
      ensures quality.Some? <==> session == current && !session.canceled
      ensures session.active == old(session.active)
      ensures quality.Some? ==> session.active.aggregated
      ensures quality.Some? ==> session.aggregate.rounds == old(session.aggregate.rounds) + [old(session.active.results[..])]
      ensures quality.None? ==> session.aggregate.rounds == old(session.aggregate.rounds)
    {
      if current != session || session.canceled { return None; }
      var q := session.Count(ids);
      OneSession(session);
      quality := Some(q);
    }

    /** The call that publishes the round's quality, outside the mutex. */
    method Publish(session: Session, controller: ControllerState.Controller)
      requires Valid() && session in sessions && session.active != null && session.active.aggregated
      requires controller !in repr
      modifies session.active`published, controller
      ensures Valid() && last == old(last) && session.active.published.Some?
    {
      session.Publish(ids, controller);
      OneSession(session);
    }

    /** The section after publishing: what the controller refused is not shown. */
    method Store(session: Session, accepted: bool)
      requires Valid() && session in sessions && session.active != null && session.active.aggregated
      modifies this`last, session`active
      ensures Valid()
      ensures session.active == if session == current && !session.canceled then null else old(session.active)
      ensures session == current && !session.canceled && accepted ==>
                last == Snapshot(session.generation, old(session.active.results[..]))
                && IsRound(last.results, session.aggregate.rounds, |session.aggregate.rounds| - 1, |ids|)
      ensures session != current || session.canceled || !accepted ==> last == old(last)
    {
      if current == session && !session.canceled {
        if accepted { last := Snapshot(session.generation, session.active.results[..]); }
        session.active := null;
        OneSession(session);
      }
    }

    /** The context of a connection ends. */
    method Cancel(session: Session)
      requires Valid() && session in sessions
      modifies session`canceled
      ensures Valid() && session.canceled && last == old(last)
    {
      session.canceled := true;
      OneSession(session);
    }

    /** snapshotLocked returns a copy. What is shown stays within the documented ranges. */
    method Show() returns (s: Snapshot)
      requires Valid()
      ensures s == last && Shown(s.results, ids)
    {
      s := last;
      if current != null { RoundIsShown(s.results, current.aggregate.rounds, ids); }
    }
  }

  /** What a snapshot may hold: nothing, or one result in range for each target. */
  predicate Shown(results: seq<Result>, ids: seq<string>) {
    results == [] || (RoundOf(results, ids) && forall i: nat :: i < |results| ==>
                        InRange(results[i]) && results[i].failures.Some? && 0 <= results[i].failures.value <= 3)
  }

  ghost predicate ShowsARound(results: seq<Result>, rounds: seq<Round>, n: nat)
    requires forall j: nat :: j < |rounds| ==> |rounds[j]| == n
  {
    results == [] || exists k: nat :: k < |rounds| && IsRound(results, rounds, k, n)
  }

  lemma RoundIsShown(results: seq<Result>, rounds: seq<Round>, ids: seq<string>)
    requires RoundsOf(rounds, ids) && AllInRange(rounds) && ShowsARound(results, rounds, |ids|)
    ensures Shown(results, ids)
  {
    if results != [] {
      var k: nat :| k < |rounds| && IsRound(results, rounds, k, |ids|);
      forall i: nat | i < |ids| ensures results[i].id == ids[i] && InRange(results[i]) {
        assert InRange(rounds[k][i]);
      }
    }
  }

  lemma ShownStays(results: seq<Result>, before: seq<Round>, after: seq<Round>, n: nat)
    requires before <= after && forall j: nat :: j < |after| ==> |after[j]| == n
    requires (forall j: nat :: j < |before| ==> |before[j]| == n) && ShowsARound(results, before, n)
    ensures ShowsARound(results, after, n)
  {
    if results != [] {
      var k: nat :| k < |before| && IsRound(results, before, k, n);
      assert after[..k + 1] == before[..k + 1];
      assert IsRound(results, after, k, n);
    }
  }

  lemma LatestIsRound(results: seq<Result>, rounds: seq<Round>, n: nat)
    requires rounds != [] && (forall j: nat :: j < |rounds| ==> |rounds[j]| == n) && |results| == n
    requires forall i: nat :: i < n ==> results[i] == rounds[|rounds| - 1][i].(failures := Some(AtMost3(Trailing(rounds, i))))
    ensures IsRound(results, rounds, |rounds| - 1, n)
  {
    assert rounds[..|rounds|] == rounds;
  }

  /** Any run of one scheduler and the controller that judges its rounds: sessions start and end,
      goroutines of any session ever started act at any time, and the controller takes steps of
      its own in between. What is shown in the end is of the current session's generation, a round
      that session counted. */
  method AnyRun(s: Scheduler, controller: ControllerState.Controller, steps: nat) returns (shown: Snapshot)
    requires s.Valid() && controller !in s.repr
    modifies s, s.repr, controller
    ensures s.Valid() && Shown(shown.results, s.ids) && shown == s.last
    ensures shown.results != [] ==> s.current != null && s.ShowsItsOwn(shown)
  {
    for i := 0 to steps
      invariant s.Valid() && fresh(s.repr - old(s.repr))
    {
      if * { AnyStep(s, controller); } else { AnyControllerStep(controller); }
    }
    shown := s.Show();
  }

  /** A step of the scheduler, or of the goroutine of any session. */
  method AnyStep(s: Scheduler, controller: ControllerState.Controller)
    requires s.Valid() && controller !in s.repr
    modifies s, s.repr, controller
    ensures s.Valid() && fresh(s.repr - old(s.repr))
  {
    var generation: nat, now: int, ended: bool := *, *, *;
    if now == 0 { now := 1; }
    var known := s.sessions;
    if known == {} || ended {
      s.Start(generation, ended, now);
      return;
    }
    var session :| session in known;
    if * {
      s.Start(generation, false, now);
    } else if * {
      s.Tick(session, now);
    } else if * {
      s.Cancel(session);
    } else {
      AnyRoundStep(s, session, controller);
    }
  }

  method AnyRoundStep(s: Scheduler, session: Session, controller: ControllerState.Controller)
    requires s.Valid() && session in s.sessions && controller !in s.repr
    modifies s, s.repr, controller
    ensures s.Valid() && s.repr == old(s.repr)
  {
    if session.active == null { return; }
    if !session.active.aggregated {
      if * { s.Collect(session); } else { var q := s.AggregateRound(session); }
    } else if session.active.published.None? {
      s.Publish(session, controller);
    } else {
      s.Store(session, session.active.published.value);
    }
  }

  /** The controller's own sections, by whatever goroutine. */
  method AnyControllerStep(controller: ControllerState.Controller)
    modifies controller
  {
    var me: nat, recovery: bool, outcome: ControllerState.Outcome, now: int := *, *, *, *;
    if * {
      var entry := controller.EnterConnect(me);
    } else if * {
      var entry := controller.EnterDisconnect(me, recovery);
    } else if * {
      controller.CommitConnect(me, outcome, now);
    } else if * {
      controller.CommitDisconnect(me, outcome);
    } else if * {
      var taken, cancel := controller.EnterAutomaticRestore(me, me);
    } else if * {
      controller.KeepSnapshot(me);
    } else {
      var cancel, done := controller.StopLifecycleMonitor();
    }
  }
}
