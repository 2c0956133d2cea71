/** The diagnostic stream from the recorder to its reader: `internal/traceevent/recorder.go` and
    `event.go`, the server's side in `internal/agent/pipe_windows.go` and the client's in
    `internal/clientapi/client.go`. */
module TraceRecorder {
  import opened Wrappers
  import opened TraceFrames
  import opened TraceSecrets

  predicate Ascending(events: seq<Event>) {
    forall i: nat, j: nat :: i < j < |events| ==> events[i].sequence < events[j].sequence
  }

  // ---- Batches ----

  /** The retained events after a cursor. */
  function Newer(ring: seq<Event>, after: nat): seq<Event> {
    if ring == [] then [] else if ring[0].sequence > after then ring else Newer(ring[1..], after)
  }

  function Min(a: nat, b: nat): nat { if a < b then a else b }

  /** What a reader at `after` is to get: the next `limit` events it has not seen. */
  function BatchOf(ring: seq<Event>, after: nat, limit: int): Batch {
    if ring == [] || limit <= 0 then Batch([], after, false, 0)
    else
      var newer := Newer(ring, after);
      var events := newer[..Min(limit, |newer|)];
      Batch(events, if events == [] then after else events[|events| - 1].sequence, |newer| > limit, ring[0].sequence)
  }

  lemma {:induction false} NewerFacts(ring: seq<Event>, after: nat)
    requires Ascending(ring)
    ensures |Newer(ring, after)| <= |ring| && Newer(ring, after) == ring[|ring| - |Newer(ring, after)|..]
    ensures forall e :: e in Newer(ring, after) <==> e in ring && e.sequence > after
    ensures Ascending(Newer(ring, after))
  {
    if ring != [] {
      if ring[0].sequence > after {
        forall e | e in ring ensures e.sequence > after {
          var i: nat :| i < |ring| && ring[i] == e;
        }
      } else {
        NewerFacts(ring[1..], after);
        assert ring == [ring[0]] + ring[1..];
      }
    }
  }

  /** Exactly one suffix of an ascending ring holds what is newer. */
  lemma {:induction false} NewerIsSuffix(ring: seq<Event>, after: nat, i: nat)
    requires Ascending(ring) && i <= |ring|
    requires i > 0 ==> ring[i - 1].sequence <= after
    requires i < |ring| ==> ring[i].sequence > after
    ensures Newer(ring, after) == ring[i..]
  {
    if i > 0 {
      assert ring[0].sequence <= ring[i - 1].sequence;
      NewerIsSuffix(ring[1..], after, i - 1);
    }
  }

  // ---- The two validators ----

  /** The server's check: events in order, none before the oldest one it claims to have. */
  predicate ServerAccepts(b: Batch, after: nat, limit: int) {
    && |b.events| <= limit
    && Fine(b.events, after, b.oldest) && (b.events != [] ==> b.oldest != 0)
    && (if b.events == [] then b.next == after && !b.hasMore else b.next == b.events[|b.events| - 1].sequence)
  }

  predicate ClientAccepts(b: Batch, after: nat) {
    && Fine(b.events, after, b.oldest)
    && (if b.events == [] then b.next == after && !b.hasMore else b.next == b.events[|b.events| - 1].sequence)
  }

  predicate NoneBefore(events: seq<Event>, oldest: nat) {
    forall i: nat :: i < |events| ==> events[i].sequence >= oldest
  }

  predicate InOrder(events: seq<Event>, after: nat) {
    && (forall e :: e in events ==> ValidEvent(e) && e.sequence > after)
    && Ascending(events)
  }

  predicate Fine(events: seq<Event>, after: nat, oldest: nat) { InOrder(events, after) && NoneBefore(events, oldest) }

  lemma InOrderMore(events: seq<Event>, e: Event, after: nat)
    ensures InOrder(events + [e], after)
       <==> InOrder(events, after) && ValidEvent(e) && e.sequence > (if events == [] then after else events[|events| - 1].sequence)
  {
    var all := events + [e];
    if InOrder(all, after) {
      assert all[|events|] == e;
      forall i: nat, j: nat | i < j < |events| ensures events[i].sequence < events[j].sequence { assert all[i].sequence < all[j].sequence; }
      if events != [] { assert all[|events| - 1].sequence < all[|events|].sequence; }
      forall x | x in events ensures x in all {}
    }
    if InOrder(events, after) && ValidEvent(e) && e.sequence > (if events == [] then after else events[|events| - 1].sequence) {
      if events != [] { assert events[|events| - 1] in events; }
    }
  }

  lemma FinePrefix(events: seq<Event>, n: nat, after: nat, oldest: nat)
    requires n <= |events|
    ensures Fine(events, after, oldest) ==> Fine(events[..n], after, oldest)
  {
  }

  function Previous(events: seq<Event>, i: nat, after: nat): nat
    requires i <= |events|
  {
    if i == 0 then after else events[i - 1].sequence
  }

  /** What one iteration of either loop decides. */
  lemma FineMore(events: seq<Event>, i: nat, after: nat, oldest: nat)
    requires i < |events|
    ensures Fine(events[..i + 1], after, oldest) <==>
      Fine(events[..i], after, oldest) && ValidEvent(events[i]) && events[i].sequence > Previous(events, i, after) && events[i].sequence >= oldest
  {
    assert events[..i + 1] == events[..i] + [events[i]];
    InOrderMore(events[..i], events[i], after);
    if Fine(events[..i + 1], after, oldest) {
      assert events[..i + 1][i].sequence >= oldest;
      forall j: nat | j < i ensures events[..i][j].sequence >= oldest { assert events[..i + 1][j].sequence >= oldest; }
    }
  }

  /** validTraceBatch. */
  method ValidTraceBatch(b: Batch, after: nat, limit: int) returns (ok: bool)
    ensures ok <==> ServerAccepts(b, after, limit)
  {
    if |b.events| > limit { return false; }
    var previous := after;
    for i := 0 to |b.events|
      invariant previous == Previous(b.events, i, after) && Fine(b.events[..i], after, b.oldest) && (i > 0 ==> b.oldest != 0)
    {
      FinePrefix(b.events, i + 1, after, b.oldest);
      FineMore(b.events, i, after, b.oldest);
      if !ValidEvent(b.events[i]) || b.events[i].sequence <= previous { return false; }
      if b.oldest == 0 || b.events[i].sequence < b.oldest { return false; }
      previous := b.events[i].sequence;
    }
    assert b.events[..|b.events|] == b.events;
    if |b.events| == 0 { return b.next == after && !b.hasMore; }
    ok := b.next == b.events[|b.events| - 1].sequence;
  }

  /** The checks of decodeTraceMessage on a decoded batch. */
  method CheckTraceMessage(b: Batch, after: nat) returns (ok: bool)
    ensures ok <==> ClientAccepts(b, after)
  {
    var previous := after;
    for i := 0 to |b.events|
      invariant previous == Previous(b.events, i, after) && Fine(b.events[..i], after, b.oldest)
    {
      FinePrefix(b.events, i + 1, after, b.oldest);
      FineMore(b.events, i, after, b.oldest);
      if !ValidEvent(b.events[i]) || b.events[i].sequence <= previous { return false; }
      if b.oldest != 0 && b.events[i].sequence < b.oldest { return false; }
      previous := b.events[i].sequence;
    }
    assert b.events[..|b.events|] == b.events;
    if |b.events| == 0 {
      if b.next != after || b.hasMore { return false; }
    } else if b.next != b.events[|b.events| - 1].sequence { return false; }
    ok := true;
  }

  lemma InOrderPrefix(events: seq<Event>, n: nat, after: nat)
    requires n <= |events|
    ensures InOrder(events, after) ==> InOrder(events[..n], after)
  {
  }

  // ---- From the ring to the reader ----

  /** What the recorder keeps true of its ring. */
  predicate Sound(ring: seq<Event>) {
    Ascending(ring) && forall e :: e in ring ==> Recorded(e)
  }

  lemma NewerIsInOrder(ring: seq<Event>, after: nat)
    requires Sound(ring)
    ensures InOrder(Newer(ring, after), after)
    ensures ring != [] ==> NoneBefore(Newer(ring, after), ring[0].sequence) && ring[0].sequence != 0
  {
    NewerFacts(ring, after);
    if ring != [] {
      assert Recorded(ring[0]);
      var newer := Newer(ring, after);
      forall i: nat | i < |newer| ensures newer[i].sequence >= ring[0].sequence {
        var k := |ring| - |newer| + i;
        assert newer[i] == ring[k];
        if k > 0 { assert ring[0].sequence < ring[k].sequence; }
      }
    }
  }

  /** Every batch of a sound ring passes both validators. */
  lemma BatchIsAccepted(ring: seq<Event>, after: nat, limit: nat)
    requires Sound(ring)
    ensures ServerAccepts(BatchOf(ring, after, limit), after, limit) && ClientAccepts(BatchOf(ring, after, limit), after)
  {
    NewerIsInOrder(ring, after);
    var newer := Newer(ring, after);
    InOrderPrefix(newer, Min(limit, |newer|), after);
  }

  /** The first `count` events of a batch, as fitTraceResponse puts them into a frame. */
  function Prefix(b: Batch, count: nat, after: nat): Batch
    requires count <= |b.events|
  {
    Batch(b.events[..count], if count == 0 then after else b.events[count - 1].sequence, b.hasMore || count < |b.events|, b.oldest)
  }

  /** A fitted batch is accepted if and only if it has an event or there was none to send. */
  lemma PrefixIsAcceptedIff(b: Batch, count: nat, after: nat, limit: nat)
    requires ServerAccepts(b, after, limit) && count <= |b.events|
    ensures count > 0 || b.events == [] <==> ServerAccepts(Prefix(b, count, after), after, limit)
    ensures count > 0 || b.events == [] <==> ClientAccepts(Prefix(b, count, after), after)
  {
    InOrderPrefix(b.events, count, after);
  }

  /** `count` is the most events of the batch whose frame is short enough. */
  ghost predicate IsBestFit(b: Batch, after: nat, fits: Batch -> bool, count: nat) {
    count <= |b.events| && fits(Prefix(b, count, after)) && forall n: nat :: count < n <= |b.events| ==> !fits(Prefix(b, n, after))
  }

  /** fitTraceResponse; `fits` decides whether the frame of a candidate is short enough. */
  method FitTraceResponse(b: Batch, after: nat, fits: Batch -> bool) returns (r: Option<Batch>)
    ensures r.Some? ==> exists count: nat :: IsBestFit(b, after, fits, count) && r.value == Prefix(b, count, after)
    ensures r.None? <==> forall n: nat :: n <= |b.events| ==> !fits(Prefix(b, n, after))
  {
    var count := |b.events|;
    while count >= 0
      invariant -1 <= count <= |b.events|
      invariant forall n: nat :: count < n <= |b.events| ==> !fits(Prefix(b, n, after))
    {
      var next := if count == 0 then after else b.events[count - 1].sequence;
      var candidate := Batch(b.events[..count], next, b.hasMore, b.oldest);
      if count < |b.events| { candidate := candidate.(hasMore := true); }
      assert candidate == Prefix(b, count, after);
      if fits(candidate) {
        assert IsBestFit(b, after, fits, count);
        return Some(candidate);
      }
      count := count - 1;
    }
    r := None;
  }

  /** The size check of fitTraceResponse. */
  function Fitting(reply: Reply): Batch -> bool
    requires NoEmpty(reply.secrets)
  {
    (b: Batch) => Fits(reply, b)
  }

  function PageOf(ring: seq<Event>, after: nat, limit: nat, count: nat): Batch
    requires count <= |BatchOf(ring, after, limit).events|
  {
    Prefix(BatchOf(ring, after, limit), count, after)
  }

  /** No sequence number is out of its width and no residue has a long phase. */
  predicate AllSmall(ring: seq<Event>) { forall e :: e in ring ==> Small(e) }

  /** A page can always hold its first event, and an empty one if there is none. */
  lemma FirstFits(ring: seq<Event>, after: Uint64, limit: nat, reply: Reply)
    requires Sound(ring) && AllSmall(ring) && ValidReply(reply) && AsLongAsMark(reply.secrets)
    ensures var b := BatchOf(ring, after, limit); Fitting(reply)(Prefix(b, Min(1, |b.events|), after))
  {
    var b := BatchOf(ring, after, limit);
    NewerFacts(ring, after);
    if ring != [] { assert ring[0] in ring; }
    if b.events == [] {
      NoEventFits(reply, Prefix(b, 0, after));
    } else {
      assert b.events[0] in Newer(ring, after);
      OneEventFits(reply, Prefix(b, 1, after));
    }
  }

  /** What a reader gets from the server's two steps, by whatever check of the size. */
  method ServeWith(ring: seq<Event>, after: Uint64, limit: nat, fits: Batch -> bool) returns (r: Option<Batch>)
    requires Sound(ring)
    ensures r.Some? ==> exists count: nat ::
      IsBestFit(BatchOf(ring, after, limit), after, fits, count) && r.value == PageOf(ring, after, limit, count)
    ensures r.Some? ==> (ClientAccepts(r.value, after) <==> r.value.events != [] || BatchOf(ring, after, limit).events == [])
    ensures (r.Some? && r.value.events != []) <==> !NoneFits(BatchOf(ring, after, limit), after, fits)
    ensures r.None? ==> !fits(PageOf(ring, after, limit, 0))
  {
    var b := BatchOf(ring, after, limit);
    BatchIsAccepted(ring, after, limit);
    var ok := ValidTraceBatch(b, after, limit);
    r := FitTraceResponse(b, after, fits);
    if r.Some? {
      ghost var count: nat :| IsBestFit(b, after, fits, count) && r.value == Prefix(b, count, after);
      PrefixIsAcceptedIff(b, count, after, limit);
    }
  }

  /** Without secrets, or with secrets that are not shorter than the mark, there is an event on the
      page whenever there is one to be read. */
  method ServeTrace(ring: seq<Event>, after: Uint64, limit: nat, reply: Reply) returns (r: Option<Batch>)
    requires Sound(ring) && ValidReply(reply)
    ensures r.Some? ==> exists count: nat ::
      IsBestFit(BatchOf(ring, after, limit), after, Fitting(reply), count) && r.value == PageOf(ring, after, limit, count)
    ensures r.Some? ==> (ClientAccepts(r.value, after) <==> r.value.events != [] || BatchOf(ring, after, limit).events == [])
    ensures (r.Some? && r.value.events != []) <==> !NoneFits(BatchOf(ring, after, limit), after, Fitting(reply))
    ensures AllSmall(ring) && AsLongAsMark(reply.secrets) ==>
      r.Some? && (r.value.events != [] <==> BatchOf(ring, after, limit).events != [])
  {
    if AllSmall(ring) && AsLongAsMark(reply.secrets) { FirstFits(ring, after, limit, reply); }
    r := ServeWith(ring, after, limit, Fitting(reply));
  }

  /** No frame with an event of the batch is short enough. */
  ghost predicate NoneFits(b: Batch, after: nat, fits: Batch -> bool) {
    forall n: nat :: 0 < n <= |b.events| ==> !fits(Prefix(b, n, after))
  }

  // ---- Paging ----

  /** The cursor after the first n newer events leads to exactly the rest. */
  lemma NewerAfter(ring: seq<Event>, after: nat, n: nat)
    requires Ascending(ring) && 0 < n <= |Newer(ring, after)|
    ensures Newer(ring, Newer(ring, after)[n - 1].sequence) == Newer(ring, after)[n..]
  {
    NewerFacts(ring, after);
    var newer := Newer(ring, after);
    var i := |ring| - |newer| + n;
    assert newer[n - 1] == ring[i - 1];
    if i < |ring| { assert ring[i - 1].sequence < ring[i].sequence; }
    NewerIsSuffix(ring, ring[i - 1].sequence, i);
    assert newer[n..] == ring[i..];
  }

  /** One page takes the next events, and its cursor leads to exactly the rest. */
  lemma OnePage(ring: seq<Event>, after: nat, limit: nat, count: nat)
    requires Ascending(ring) && limit > 0 && count <= |BatchOf(ring, after, limit).events|
    requires count > 0 || BatchOf(ring, after, limit).events == []
    ensures var page := PageOf(ring, after, limit, count);
            && Newer(ring, after) == page.events + Newer(ring, page.next) && |page.events| == count
            && (page.hasMore <==> Newer(ring, page.next) != [])
  {
    var newer, b := Newer(ring, after), BatchOf(ring, after, limit);
    if count > 0 {
      assert b.events == newer[..Min(limit, |newer|)];
      assert b.events[..count] == newer[..count];
      NewerAfter(ring, after, count);
      assert newer == newer[..count] + newer[count..];
    } else {
      assert newer == [];
    }
  }

  const TRACE_DEFAULT_LIMIT := 32
  const TRACE_MAX_LIMIT := 64

  /** One request of the client and the answer of a server without redactions; `None` if it is
      refused by either. The client knows neither the state "disconnected" nor "failed". */
  method ReadPage(ring: seq<Event>, cursor: Uint64, limit: nat, reply: Reply) returns (page: Option<Batch>)
    requires Sound(ring) && ValidReply(reply) && reply.secrets == []
    ensures AllSmall(ring) ==> (page.Some? <==> limit <= TRACE_MAX_LIMIT && reply.state in CLIENT_STATES)
    ensures page.Some? ==> Newer(ring, cursor) == page.value.events + Newer(ring, page.value.next)
    ensures page.Some? ==> (page.value.hasMore <==> Newer(ring, page.value.next) != [])
    ensures page.Some? && page.value.hasMore ==> |Newer(ring, page.value.next)| < |Newer(ring, cursor)|
    ensures page.Some? && AllSmall(ring) ==> page.value.next < TWO_64
  {
    if limit > TRACE_MAX_LIMIT { return None; }
    var asked := if limit == 0 then TRACE_DEFAULT_LIMIT else limit;
    page := ServeTrace(ring, cursor, asked, reply);
    if page.None? || reply.state !in CLIENT_STATES { return None; }
    ghost var b := BatchOf(ring, cursor, asked);
    ghost var count: nat :| IsBestFit(b, cursor, Fitting(reply), count) && page.value == PageOf(ring, cursor, asked, count);
    var ok := CheckTraceMessage(page.value, cursor);
    if !ok { return None; }
    OnePage(ring, cursor, asked, count);
    NothingMeansNothing(ring, cursor, asked);
    NewerFacts(ring, cursor);
    if count > 0 { assert b.events[count - 1] in Newer(ring, cursor); }
  }

  lemma NothingMeansNothing(ring: seq<Event>, after: nat, limit: nat)
    requires limit > 0
    ensures BatchOf(ring, after, limit).events == [] ==> Newer(ring, after) == [] && !BatchOf(ring, after, limit).hasMore
  {
  }

  /** A reader that follows the cursor over an unchanged ring comes to an end and has then got
      every retained event after its start, once and in order, however the pages were cut to the
      size of a frame. `replies` are the identifiers of the requests and the statuses of the
      controller at the time. */
  method ReadAll(ring: seq<Event>, start: Uint64, limit: nat, replies: nat -> Reply) returns (events: Option<seq<Event>>)
    requires Sound(ring) && AllSmall(ring) && forall k: nat :: ValidReply(replies(k)) && replies(k).secrets == []
    ensures limit <= TRACE_MAX_LIMIT && (forall k: nat :: replies(k).state in CLIENT_STATES) ==> events == Some(Newer(ring, start))
  {
    var cursor: Uint64, more, k: nat, got := start, true, 0, [];
    while more
      invariant Newer(ring, start) == got + Newer(ring, cursor)
      invariant !more ==> Newer(ring, cursor) == []
      decreases |Newer(ring, cursor)|, more
    {
      var page := ReadPage(ring, cursor, limit, replies(k));
      if page.None? { return None; }
      got := got + page.value.events;
      cursor, more, k := page.value.next, page.value.hasMore, k + 1;
    }
    assert got + [] == got;
    events := Some(got);
  }

  // ---- The recorder ----

  function LastOf(s: seq<Event>, n: nat): seq<Event> { if |s| <= n then s else s[|s| - n..] }

  const INVALID_DROPPED := "invalid event dropped"
  const DISK_UNAVAILABLE := "trace file unavailable"
  const NOT_ENCODED := "event not encoded"
  const FILE_FULL := "trace file full"

  /** What the recorder relies on of SanitizeDetail: it bounds every text, and leaves something
      of the recorder's own messages. */
  ghost predicate Sanitizes(f: Text -> (Text, bool)) {
    && (forall text :: |f(text).0| <= MAX_DETAIL_BYTES)
    && !Blank(f(INVALID_DROPPED).0) && !Blank(f(DISK_UNAVAILABLE).0) && !Blank(f(NOT_ENCODED).0) && !Blank(f(FILE_FULL).0)
  }

  predicate OwnMessage(m: string) { m in {INVALID_DROPPED, DISK_UNAVAILABLE, NOT_ENCODED, FILE_FULL} }

  function LoggingEvent(generation: Uint64, level: Level, message: Text, detail: Text): Event {
    Event(0, 0, "", generation, level, Logging, LoggingDegraded, Failed, None, message, detail, false, None)
  }

  /** prepareLocked, at the time `now`. */
  function Prepared(e: Event, sequence: nat, now: Stamp, f: Text -> (Text, bool)): Event {
    e.(schema := SCHEMA_VERSION, sequence := sequence, time := now, message := f(e.message).0, detail := f(e.detail).0,
       truncated := f(e.detail).1)
  }

  lemma OwnIsValid(generation: Uint64, level: Level, message: Text, detail: Text, sequence: nat, now: Stamp, f: Text -> (Text, bool))
    requires Sanitizes(f) && OwnMessage(message) && !level.OtherLevel? && sequence > 0
    ensures Recorded(Prepared(LoggingEvent(generation, level, message, detail), sequence, now, f))
  {
  }

  predicate IsLogging(e: Event) { e.component == Logging && e.stage == LoggingDegraded && e.kind == Failed }

  class Recorder {
    const capacity: nat
    const maxFileBytes: nat
    const sanitize: Text -> (Text, bool)
    const size: Event -> nat   // of one line of the file
    var sequence: nat
    var events: array<Event>   // the ring: its first count elements, oldest first
    var count: nat
    var fileOpen: bool
    var fileGeneration: Uint64
    var fileBytes: nat
    var fileTruncated: bool
    var diskDegraded: bool
    var closed: bool
    /** Every event that was ever put into the ring. */
    ghost var appended: seq<Event>

    ghost predicate Valid()
      reads this, events
    {
      Ring() && fileBytes <= maxFileBytes && Sanitizes(sanitize)
    }

    /** The ring holds the last events that were put into it. */
    ghost predicate Ring()
      reads this`events, this`count, this`closed, this`sequence, this`appended, events
    {
      && events.Length == capacity > 0 && count <= capacity
      && (if closed then count == 0 else events[..count] == LastOf(appended, capacity))
      && Sound(appended) && (forall e :: e in appended ==> e.sequence <= sequence)
    }

    constructor (capacity: nat, maxFileBytes: nat, sanitize: Text -> (Text, bool))
      requires capacity > 0 && Sanitizes(sanitize)
      ensures Valid() && fresh(events) && appended == [] && !closed && sequence == 0
      ensures this.capacity == capacity && this.sanitize == sanitize
    {
      this.capacity, this.maxFileBytes, this.sanitize := capacity, maxFileBytes, sanitize;
      size := (e: Event) => |EncodeEvent(e)| + 1;
      sequence, count, appended := 0, 0, [];
      events := new Event[capacity](i => LoggingEvent(0, Error, "", ""));
      fileOpen, fileGeneration, fileBytes, fileTruncated, diskDegraded, closed := false, 0, 0, false, false, false;
    }

    /** A full ring is moved down by one in place. */
    method Push(e: Event)
      requires events.Length == capacity > 0 && count <= capacity
      modifies this`count, events
      ensures count == Min(old(count) + 1, capacity)
      ensures events[..count] == (if old(count) < capacity then old(events[..count]) else old(events[..count])[1..]) + [e]
    {
      ghost var was := events[..count];
      if count == capacity {
        for i := 0 to capacity - 1
          invariant count == capacity && forall j: nat :: j < i ==> events[j] == was[j + 1]
          invariant forall j: nat :: i <= j < capacity ==> events[j] == was[j]
        {
          events[i] := events[i + 1];
        }
        events[capacity - 1] := e;
        assert events[..count] == was[1..] + [e];
      } else {
        events[count] := e;
        count := count + 1;
        assert events[..count] == was + [e];
      }
    }

    /** appendMemoryLocked. */
    method AppendMemory(e: Event)
      requires Ring() && !closed && Recorded(e) && e.sequence == sequence
      requires forall x :: x in appended ==> x.sequence < e.sequence
      modifies this`count, this`appended, events
      ensures Ring() && appended == old(appended) + [e]
    {
      Push(e);
      LastOfMore(appended, e, capacity);
      SoundMore(appended, e);
      appended := appended + [e];
    }

    method AppendOwn(generation: Uint64, level: Level, message: Text, detail: Text) returns (e: Event)
      requires Valid() && !closed && !level.OtherLevel? && OwnMessage(message)
      modifies this`sequence, this`count, this`appended, events
      ensures Valid() && sequence == old(sequence) + 1 && appended == old(appended) + [e] && IsLogging(e)
    {
      sequence := sequence + 1;
      var now: Stamp := *;
      e := Prepared(LoggingEvent(generation, level, message, detail), sequence, now, sanitize);
      OwnIsValid(generation, level, message, detail, sequence, now, sanitize);
      AppendMemory(e);
    }

    /** appendLoggingFailureLocked: once, until the next file. */
    method LoggingFailure(generation: Uint64, message: Text, detail: Text)
      requires Valid() && !closed && OwnMessage(message)
      modifies this`sequence, this`count, this`appended, this`diskDegraded, events
      ensures Valid() && diskDegraded && sequence >= old(sequence)
      ensures OneLogging(old(appended), appended) && (old(diskDegraded) <==> appended == old(appended))
    {
      if diskDegraded { return; }
      diskDegraded := true;
      var e := AppendOwn(generation, Error, message, detail);
    }

    /** openGenerationLocked: closing, opening and pruning may each fail. */
    method OpenGeneration(generation: Uint64) returns (ok: bool)
      requires fileBytes <= maxFileBytes
      modifies this`fileOpen, this`fileGeneration, this`fileBytes, this`fileTruncated, this`diskDegraded
      ensures fileBytes <= maxFileBytes
      ensures ok ==> fileOpen && fileGeneration == generation && fileBytes == 0 && !fileTruncated && !diskDegraded
    {
      ok := true;
      if fileOpen {
        fileOpen := false;
        if * { ok := false; }
        if !ok { return; }
      }
      fileGeneration, fileBytes, fileTruncated, diskDegraded := generation, 0, false, false;
      if * { ok := false; }
      if !ok { return; }
      fileOpen := true;
      if * { ok := false; }
    }

    /** persistLocked. */
    method Persist(e: Event)
      requires Valid() && !closed
      modifies this`sequence, this`count, this`appended, this`fileOpen, this`fileGeneration, this`fileBytes, this`fileTruncated,
               this`diskDegraded, events
      ensures Valid() && sequence >= old(sequence) && OneLogging(old(appended), appended)
    {
      var ok := true;
      if !fileOpen || fileGeneration != e.generation {
        ok := OpenGeneration(e.generation);
        if !ok { LoggingFailure(e.generation, DISK_UNAVAILABLE, ""); return; }
      }
      if diskDegraded || fileTruncated { return; }
      if * { ok := false; }
      if !ok { LoggingFailure(e.generation, NOT_ENCODED, ""); return; }
      if fileBytes + size(e) > maxFileBytes {
        fileTruncated := true;
        var t := AppendOwn(e.generation, Warning, FILE_FULL, "");
        if fileBytes + size(t) <= maxFileBytes {
          if * { fileBytes := fileBytes + size(t); }
        }
        return;
      }
      if * { ok := false; }
      if !ok { LoggingFailure(e.generation, DISK_UNAVAILABLE, ""); return; }
      fileBytes := fileBytes + size(e);
      if e.kind != Started {
        if * { LoggingFailure(e.generation, DISK_UNAVAILABLE, ""); }
      }
    }

    /** A valid event enters the ring first; at most one event about the logging follows it. An
        invalid one leaves at most such an event. */
    method Record(event: Event, now: Stamp)
      requires Valid()
      modifies this`sequence, this`count, this`appended, this`fileOpen, this`fileGeneration, this`fileBytes, this`fileTruncated,
               this`diskDegraded, events
      ensures Valid()
      ensures closed ==> appended == old(appended)
      ensures !closed ==> sequence > old(sequence)
      ensures !closed ==> var e := Prepared(event, old(sequence) + 1, now, sanitize);
                OneLogging(if ValidEvent(e) then old(appended) + [e] else old(appended), appended)
    {
      if closed { return; }
      sequence := sequence + 1;
      var e := Prepared(event, sequence, now, sanitize);
      if !ValidEvent(e) {
        var why: Text := *;
        LoggingFailure(e.generation, INVALID_DROPPED, why);
        return;
      }
      RecordValid(e);
    }

    method RecordValid(e: Event)
      requires Valid() && !closed && Recorded(e) && e.sequence == sequence
      requires forall x :: x in appended ==> x.sequence < e.sequence
      modifies this`sequence, this`count, this`appended, this`fileOpen, this`fileGeneration, this`fileBytes, this`fileTruncated,
               this`diskDegraded, events
      ensures Valid() && sequence >= old(sequence) && OneLogging(old(appended) + [e], appended)
    {
      AppendMemory(e);
      Persist(e);
    }

    /** The next events for a reader at `after`. */
    method BatchAfter(after: nat, limit: int) returns (b: Batch)
      requires Valid()
      ensures b == BatchOf(if closed then [] else LastOf(appended, capacity), after, limit)
      ensures limit >= 0 ==> ServerAccepts(b, after, limit) && ClientAccepts(b, after)
    {
      if count == 0 || limit <= 0 { return Batch([], after, false, 0); }
      SoundLast(appended, capacity);
      BatchIsAccepted(events[..count], after, limit);
      b := Collect(events, count, after, limit);
    }

    method Close()
      requires Valid()
      modifies this`closed, this`count, this`fileOpen
      ensures Valid() && closed && !fileOpen
    {
      closed, count, fileOpen := true, 0, false;
    }
  }

  lemma NothingYet(ring: seq<Event>, after: nat, skipped: nat, i: nat)
    requires Ascending(ring) && skipped <= i < |ring| && ring[i].sequence <= after
    requires skipped < i ==> ring[skipped].sequence > after
    ensures skipped == i
  {
  }

  /** The loop of Batch. */
  method Collect(a: array<Event>, n: nat, after: nat, limit: nat) returns (b: Batch)
    requires 0 < n <= a.Length && limit > 0 && Ascending(a[..n])
    ensures b == BatchOf(a[..n], after, limit)
  {
    ghost var ring, skipped := a[..n], 0;
    b := Batch([], after, false, a[0].sequence);
    var i := 0;
    while i < n
      invariant skipped <= i <= n && !b.hasMore && b.oldest == ring[0].sequence && |b.events| <= limit
      invariant b.events == ring[skipped..i] && b.next == if skipped < i then ring[i - 1].sequence else after
      invariant skipped > 0 ==> ring[skipped - 1].sequence <= after
      invariant skipped < i ==> ring[skipped].sequence > after
    {
      var e := a[i];
      assert e == ring[i];
      if e.sequence <= after {
        NothingYet(ring, after, skipped, i);
        skipped := i + 1;
      } else {
        if |b.events| == limit {
          b := b.(hasMore := true);
          break;
        }
        b := b.(events := b.events + [e], next := e.sequence);
      }
      i := i + 1;
    }
    CollectedAll(ring, after, limit, skipped, i);
  }

  lemma CollectedAll(ring: seq<Event>, after: nat, limit: nat, skipped: nat, i: nat)
    requires ring != [] && limit > 0 && Ascending(ring) && skipped <= i <= |ring| && i - skipped <= limit
    requires skipped > 0 ==> ring[skipped - 1].sequence <= after
    requires skipped < i ==> ring[skipped].sequence > after
    requires i < |ring| ==> i - skipped == limit
    ensures BatchOf(ring, after, limit)
         == Batch(ring[skipped..i], if skipped < i then ring[i - 1].sequence else after, i < |ring|, ring[0].sequence)
  {
    NewerIsSuffix(ring, after, skipped);
    assert ring[skipped..i] == ring[skipped..][..i - skipped];
  }

  /** `later` is `before`, or one event about the logging longer. */
  predicate OneLogging(before: seq<Event>, later: seq<Event>) {
    later == before || (|later| == |before| + 1 && before <= later && IsLogging(later[|before|]))
  }

  lemma LastOfMore(s: seq<Event>, e: Event, n: nat)
    requires n > 0
    ensures LastOf(s + [e], n) == (if |s| < n then s else LastOf(s, n)[1..]) + [e]
  {
  }

  lemma SoundMore(s: seq<Event>, e: Event)
    requires Sound(s) && Recorded(e) && forall x :: x in s ==> x.sequence < e.sequence
    ensures Sound(s + [e])
  {
  }

  /** The ring is the end of an ascending sequence of valid events, hence one itself. */
  lemma SoundLast(s: seq<Event>, n: nat)
    requires Sound(s)
    ensures Sound(LastOf(s, n))
  {
  }

  // ---- A page without an event ----

  /** The first event of the ring fills its texts with the letter "z". */
  predicate BeginsFilled(ring: seq<Event>) {
    Sound(ring) && ring != [] && ring[0].sequence < TWO_64 && ring[0].message == Filled('z') == ring[0].detail
  }

  lemma FilledLeavesNothing(ring: seq<Event>, limit: nat, reply: Reply)
    requires BeginsFilled(ring) && limit > 0 && ValidReply(reply) && reply.secrets == ["z"]
    ensures var b := BatchOf(ring, 0, limit);
            b.events != [] && NoneFits(b, 0, Fitting(reply)) && Fitting(reply)(Prefix(b, 0, 0))
  {
    var b := BatchOf(ring, 0, limit);
    assert Recorded(ring[0]) && Newer(ring, 0) == ring && b.events[0] == ring[0];
    forall n: nat | 0 < n <= |b.events| ensures !Fitting(reply)(Prefix(b, n, 0)) {
      ShortSecretNeverFits(reply, Prefix(b, n, 0), 'z');
    }
    EmptyIsUntouched(reply, Prefix(b, 0, 0));
  }

  /** Recording a first event, whatever becomes of the file. */
  method RecordFirst(capacity: nat, maxFileBytes: nat, f: Text -> (Text, bool), event: Event, now: Stamp) returns (ring: seq<Event>)
    requires capacity > 1 && Sanitizes(f) && ValidEvent(Prepared(event, 1, now, f))
    ensures Sound(ring) && ring != [] && ring[0] == Prepared(event, 1, now, f)
  {
    var r := new Recorder(capacity, maxFileBytes, f);
    ghost var e := Prepared(event, 1, now, f);
    r.Record(event, now);
    assert [] + [e] == [e];
    BeginsWith(e, r.appended, capacity);
    ring := r.events[..r.count];
    assert ring[0] == ring[..1][0];
  }

  method RecordFilled(capacity: nat, maxFileBytes: nat, f: Text -> (Text, bool), now: Stamp) returns (ring: seq<Event>)
    requires capacity > 1 && Sanitizes(f) && f(Filled('z')) == (Filled('z'), false)
    ensures BeginsFilled(ring)
  {
    var event := Event(0, 0, now, 1, Info, Controller, RequestReceived, State, None, Filled('z'), Filled('z'), false, None);
    FilledIsValid(Prepared(event, 1, now, f));
    ring := RecordFirst(capacity, maxFileBytes, f, event, now);
  }

  lemma FilledIsValid(e: Event)
    requires e.schema == SCHEMA_VERSION && e.sequence > 0 && e.level == Info && e.component == Controller
    requires e.stage == RequestReceived && e.kind == State && e.elapsed.None? && e.residue.None?
    requires e.message == Filled('z') == e.detail
    ensures ValidEvent(e)
  {
    assert e.message[0] in e.message;
  }

  lemma BeginsWith(e: Event, appended: seq<Event>, capacity: nat)
    requires capacity > 1 && OneLogging([e], appended) && Sound(appended)
    ensures Sound(LastOf(appended, capacity)) && LastOf(appended, capacity)[..1] == [e]
  {
    SoundLast(appended, capacity);
  }

  /** An accepted event, recorded in an empty ring, and a server that redacts the letter "z": the
      page that is sent has no event though there is one to read, and the client refuses it. By
      EmptyIsUntouched nothing in that page is redacted. */
  method ShortSecretEmptiesThePage(capacity: nat, maxFileBytes: nat, f: Text -> (Text, bool), now: Stamp, reply: Reply)
    returns (ring: seq<Event>, page: Option<Batch>)
    requires capacity > 1 && Sanitizes(f) && f(Filled('z')) == (Filled('z'), false)
    requires ValidReply(reply) && reply.secrets == ["z"]
    ensures Sound(ring) && Newer(ring, 0) != []
    ensures page.Some? && page.value.events == [] && !ClientAccepts(page.value, 0)
  {
    ring := RecordFilled(capacity, maxFileBytes, f, now);
    page := ServeFilled(ring, reply);
  }

  method ServeFilled(ring: seq<Event>, reply: Reply) returns (page: Option<Batch>)
    requires BeginsFilled(ring) && ValidReply(reply) && reply.secrets == ["z"]
    ensures Newer(ring, 0) == ring && page.Some? && page.value.events == [] && !ClientAccepts(page.value, 0)
  {
    assert Recorded(ring[0]);
    FilledLeavesNothing(ring, TRACE_DEFAULT_LIMIT, reply);
    page := ServeWith(ring, 0, TRACE_DEFAULT_LIMIT, Fitting(reply));
  }
}
