/** The opt-in diagnostic recorder's gate: `internal/diagnosticmode/gate.go`.

    A line of child output reaches the recorder only if all of its bytes were written while one
    and the same recorder was open. Times are whatever the clock says; sanitizing comes later. */
module DiagnosticGate {
  import opened Wrappers

  type Byte = bv8

  const NEWLINE: Byte := 10
  const MAX_DETAIL_BYTES := 4096

  /** A byte written to a stream, with the number of the recording window it was written in. */
  datatype Tagged = Tagged(b: Byte, window: Option<nat>)

  function Tag(data: seq<Byte>, window: Option<nat>): (r: seq<Tagged>)
    ensures |r| == |data| && forall i :: 0 <= i < |data| ==> r[i] == Tagged(data[i], window)
  {
    seq(|data|, i requires 0 <= i < |data| => Tagged(data[i], window))
  }

  function Bytes(s: seq<Tagged>): (r: seq<Byte>)
    ensures |r| == |s| && forall i :: 0 <= i < |s| ==> r[i] == s[i].b
  {
    seq(|s|, i requires 0 <= i < |s| => s[i].b)
  }

  // ---- Which lines are to be recorded ----

  function Front(h: seq<Tagged>): seq<Tagged>
    requires h != []
  {
    h[..|h| - 1]
  }

  /** The number of bytes since the last newline. */
  function Since(h: seq<Tagged>): (n: nat)
    ensures n <= |h|
  {
    if h == [] || h[|h| - 1].b == NEWLINE then 0 else 1 + Since(Front(h))
  }

  function Tail(h: seq<Tagged>): seq<Tagged> { h[|h| - Since(h)..] }

  /** The bytes since the last newline, and the window they were all written in unless mixed. */
  datatype Partial = Partial(bytes: seq<Byte>, window: Option<nat>, mixed: bool)

  const NOTHING := Partial([], None, false)

  function Extend(p: Partial, t: Tagged): Partial {
    if t.b == NEWLINE then NOTHING
    else if p.bytes == [] then Partial([t.b], t.window, false)
    else Partial(p.bytes + [t.b], p.window, p.mixed || t.window != p.window)
  }

  function Unfinished(h: seq<Tagged>): Partial {
    if h == [] then NOTHING else Extend(Unfinished(Front(h)), h[|h| - 1])
  }

  /** Nothing speaks against recording these bytes in this window. */
  predicate Kept(p: Partial, window: Option<nat>) {
    window.Some? && (p.bytes == [] || (!p.mixed && p.window == window && |p.bytes| <= MAX_DETAIL_BYTES))
  }

  /** The lines to be recorded of a stream's whole output, in order. */
  function Lines(h: seq<Tagged>): seq<seq<Byte>> {
    if h == [] then [] else Lines(Front(h)) + if Completes(h) then [Unfinished(Front(h)).bytes] else []
  }

  /** The last byte completes a line that is to be recorded. */
  predicate Completes(h: seq<Tagged>) {
    h != [] && h[|h| - 1].b == NEWLINE && Unfinished(Front(h)).bytes != [] && Kept(Unfinished(Front(h)), h[|h| - 1].window)
  }

  /** h[i..j] is a complete line, ended by the newline at j, written within one window. */
  predicate IsLine(h: seq<Tagged>, i: nat, j: nat) {
    && i < j < |h| && j - i <= MAX_DETAIL_BYTES
    && h[j].b == NEWLINE && (i == 0 || h[i - 1].b == NEWLINE)
    && (forall k: nat :: i <= k < j ==> h[k].b != NEWLINE)
    && h[j].window.Some? && (forall k: nat :: i <= k < j ==> h[k].window == h[j].window)
  }

  datatype Span = Span(from: nat, end: nat)

  function Spans(h: seq<Tagged>): seq<Span> {
    if h == [] then [] else
      Spans(Front(h)) + if Completes(h) then [Span(|h| - 1 - Since(Front(h)), |h| - 1)] else []
  }

  lemma {:induction false} SinceNewline(h: seq<Tagged>)
    ensures forall k: nat :: |h| - Since(h) <= k < |h| ==> h[k].b != NEWLINE
    ensures Since(h) < |h| ==> h[|h| - Since(h) - 1].b == NEWLINE
  {
    if h != [] && h[|h| - 1].b != NEWLINE {
      SinceNewline(Front(h));
      forall k: nat | |h| - Since(h) <= k < |h| - 1 ensures h[k].b != NEWLINE { assert Front(h)[k] == h[k]; }
    }
  }

  lemma NoEarlierStart(h: seq<Tagged>, a: nat, b: nat, j: nat)
    requires a <= j < |h| && b <= j && (b == 0 || h[b - 1].b == NEWLINE) && forall k: nat :: a <= k < j ==> h[k].b != NEWLINE
    ensures b <= a
  {
  }

  /** The unfinished line is the tail, and mixed if its bytes were written in several windows. */
  lemma {:induction false} UnfinishedIsTail(h: seq<Tagged>)
    ensures var p := Unfinished(h);
            && p.bytes == Bytes(Tail(h))
            && (|Tail(h)| > 0 ==> p.window == Tail(h)[0].window)
            && (p.mixed <==> exists k: nat :: k < |Tail(h)| && Tail(h)[k].window != p.window)
  {
    if h != [] && h[|h| - 1].b != NEWLINE {
      UnfinishedIsTail(Front(h));
      var tail, last := Tail(Front(h)), h[|h| - 1];
      assert Tail(h) == tail + [last];
      MixedMore(tail, last, Unfinished(Front(h)).window);
    }
  }

  lemma MixedMore(tail: seq<Tagged>, last: Tagged, window: Option<nat>)
    ensures (exists k: nat :: k < |tail + [last]| && (tail + [last])[k].window != window)
       <==> (exists k: nat :: k < |tail| && tail[k].window != window) || last.window != window
  {
    if k: nat :| k < |tail| && tail[k].window != window { assert (tail + [last])[k].window != window; }
    assert (tail + [last])[|tail|] == last;
  }

  /** A byte completes a line to be recorded if and only if a line ends with it. */
  lemma CompletesIffLine(h: seq<Tagged>, i: nat)
    requires h != []
    ensures IsLine(h, i, |h| - 1) <==> Completes(h) && i == |h| - 1 - Since(Front(h))
  {
    var front, j := Front(h), |h| - 1;
    var t := |front| - Since(front);
    SinceNewline(front);
    forall k: nat | t <= k < j ensures Tail(front)[k - t] == h[k] && h[k].b != NEWLINE { assert front[k] == h[k]; }
    forall k: nat | k < |Tail(front)| ensures Tail(front)[k] == h[t + k] {}
    if t > 0 { assert front[t - 1] == h[t - 1]; }
    if IsLine(h, i, j) {
      NoEarlierStart(h, t, i, j);
      NoEarlierStart(h, i, t, j);
    }
    UnfinishedIsTail(front);
    if i == t {
      forall k: nat | i <= k < j ensures h[k].window == Tail(front)[k - t].window {}
    }
  }

  /** The lines are those of exactly the spans that are lines: each once, in order. */
  lemma LinesAreTheSpans(h: seq<Tagged>)
    ensures |Lines(h)| == |Spans(h)|
    ensures forall n: nat :: n < |Spans(h)| ==> IsLineOf(h, Spans(h)[n], Lines(h)[n])
    ensures forall m: nat, n: nat :: m < n < |Spans(h)| ==> Spans(h)[m].end < Spans(h)[n].from
    ensures forall i: nat, j: nat :: IsLine(h, i, j) ==> Span(i, j) in Spans(h)
  {
    SpansAreLines(h);
    SpansAscend(h);
    LinesAreSpans(h);
  }

  lemma {:induction false} SpansAreLines(h: seq<Tagged>)
    ensures |Lines(h)| == |Spans(h)|
    ensures forall n: nat :: n < |Spans(h)| ==> IsLineOf(h, Spans(h)[n], Lines(h)[n])
  {
    if h != [] {
      var front, last := Front(h), h[|h| - 1];
      SpansAreLines(front);
      assert front + [last] == h;
      forall n: nat | n < |Spans(front)| ensures IsLineOf(h, Spans(front)[n], Lines(front)[n]) {
        StillALine(front, last, Spans(front)[n], Lines(front)[n]);
      }
      CompletesIffLine(h, |h| - 1 - Since(front));
      assert Tail(front) == h[|front| - Since(front)..|front|];
      UnfinishedIsTail(front);
    }
  }

  lemma {:induction false} SpansAscend(h: seq<Tagged>)
    ensures forall m: nat, n: nat :: m < n < |Spans(h)| ==> Spans(h)[m].end < Spans(h)[n].from
  {
    if h != [] {
      SpansAscend(Front(h));
      SpansAreLines(Front(h));
      forall m: nat | m < |Spans(Front(h))| ensures Spans(Front(h))[m].end < |h| - 1 - Since(Front(h)) {
        EarlierLineEndsBefore(h, Spans(Front(h))[m], Lines(Front(h))[m]);
      }
    }
  }

  lemma {:induction false} LinesAreSpans(h: seq<Tagged>)
    ensures forall i: nat, j: nat :: IsLine(h, i, j) ==> Span(i, j) in Spans(h)
  {
    if h != [] {
      LinesAreSpans(Front(h));
      forall i: nat, j: nat | IsLine(h, i, j) ensures Span(i, j) in Spans(h) {
        if j < |h| - 1 { LineInFront(h, i, j); } else { CompletesIffLine(h, i); }
      }
    }
  }

  lemma LineInFront(h: seq<Tagged>, i: nat, j: nat)
    requires IsLine(h, i, j) && j < |h| - 1
    ensures IsLine(Front(h), i, j)
  {
  }

  predicate IsLineOf(h: seq<Tagged>, s: Span, text: seq<Byte>) {
    IsLine(h, s.from, s.end) && text == Bytes(h[s.from..s.end])
  }

  lemma StillALine(h: seq<Tagged>, t: Tagged, s: Span, text: seq<Byte>)
    requires IsLineOf(h, s, text)
    ensures IsLineOf(h + [t], s, text)
  {
    assert (h + [t])[s.from..s.end] == h[s.from..s.end];
  }

  lemma EarlierLineEndsBefore(h: seq<Tagged>, s: Span, text: seq<Byte>)
    requires h != [] && IsLineOf(Front(h), s, text)
    ensures s.end < |h| - 1 - Since(Front(h))
  {
    SinceNewline(Front(h));
  }

  // ---- Framing one stream ----

  /** What a stream holds back: the unfinished line if it may still be recorded, else nothing but
      whether a line is unfinished. */
  predicate Framed(pending: seq<Byte>, dropping: bool, p: Partial, window: Option<nat>) {
    if Kept(p, window) then pending == p.bytes && !dropping else pending == [] && dropping == (p.bytes != [])
  }

  lemma OneByteMore(h: seq<Tagged>, t: Tagged)
    ensures Unfinished(h + [t]) == Extend(Unfinished(h), t)
    ensures Lines(h + [t]) == Lines(h) + if t.b == NEWLINE && Unfinished(h).bytes != [] && Kept(Unfinished(h), t.window)
                                         then [Unfinished(h).bytes] else []
  {
    assert Front(h + [t]) == h;
  }

  /** Bytes that arrive while nothing is recorded leave only the line-boundary bit. */
  lemma {:induction false} Unrecorded(dropping: bool, h: seq<Tagged>, data: seq<Byte>)
    requires Framed([], dropping, Unfinished(h), None)
    ensures Framed([], if |data| > 0 then data[|data| - 1] != NEWLINE else dropping, Unfinished(h + Tag(data, None)), None)
    ensures Lines(h + Tag(data, None)) == Lines(h)
    ensures Newest(Unfinished(h + Tag(data, None))) <= Newest(Unfinished(h))
  {
    if data == [] {
      assert h + Tag(data, None) == h;
    } else {
      var front, last := data[..|data| - 1], data[|data| - 1];
      Unrecorded(dropping, h, front);
      assert h + Tag(data, None) == (h + Tag(front, None)) + [Tagged(last, None)];
      OneByteMore(h + Tag(front, None), Tagged(last, None));
    }
  }

  lemma TagMore(h: seq<Tagged>, data: seq<Byte>, i: nat, window: Option<nat>)
    requires i < |data|
    ensures h + Tag(data[..i + 1], window) == (h + Tag(data[..i], window)) + [Tagged(data[i], window)]
  {
  }

  function Newest(p: Partial): nat { if p.window.Some? then p.window.value else 0 }

  /** One output stream. What was written and what was handed to a recorder is ghost. */
  class OutputState {
    var pending: seq<Byte>
    var dropping: bool
    ghost var written: seq<Tagged>
    ghost var recorded: seq<seq<Byte>>
    ghost var newest: nat      // its unfinished line began in no later window

    ghost predicate Valid(window: Option<nat>)
      reads this
    {
      Framed(pending, dropping, Unfinished(written), window) && recorded == Lines(written) && Newest(Unfinished(written)) <= newest
    }

    constructor (ghost window: Option<nat>)
      ensures written == [] && recorded == [] && newest == 0 && Valid(window)
    {
      pending, dropping, written, recorded, newest := [], false, [], [], 0;
    }

    method Clear(ghost window: Option<nat>)
      requires Valid(window)
      modifies this`pending, this`dropping
      ensures Valid(None)
    {
      dropping := dropping || |pending| > 0;
      pending := [];
    }

    method Put(b: Byte, ghost window: nat)
      requires Valid(Some(window)) && newest <= window
      modifies this
      ensures Valid(Some(window)) && newest == window && written == old(written) + [Tagged(b, Some(window))]
    {
      ghost var t := Tagged(b, Some(window));
      OneByteMore(written, t);
      if b == NEWLINE {
        if !dropping && |pending| > 0 { recorded := recorded + [pending]; }
        pending := [];
        dropping := false;
      } else if !dropping {
        if |pending| >= MAX_DETAIL_BYTES {
          pending := [];
          dropping := true;
        } else {
          pending := pending + [b];
        }
      }
      written := written + [t];
      newest := window;
    }

    /** Write while no recorder is open. */
    method Skip(data: seq<Byte>)
      requires Valid(None)
      modifies this`dropping, this`written
      ensures Valid(None) && written == old(written) + Tag(data, None)
    {
      Unrecorded(dropping, written, data);
      if |data| > 0 { dropping := data[|data| - 1] != NEWLINE; }
      written := written + Tag(data, None);
    }

    method PutAll(data: seq<Byte>, ghost window: nat)
      requires Valid(Some(window)) && newest <= window
      modifies this
      ensures Valid(Some(window)) && newest <= window && written == old(written) + Tag(data, Some(window))
    {
      for i := 0 to |data|
        invariant Valid(Some(window)) && newest <= window && written == old(written) + Tag(data[..i], Some(window))
      {
        TagMore(old(written), data, i, Some(window));
        Put(data[i], window);
      }
      assert data[..|data|] == data;
    }
  }

  // ---- The gate ----

  class Gate {
    var open: bool             // a recorder exists
    var deadline: int
    var armed: bool            // a timer is running
    var epoch: nat
    var closed: bool
    const output: OutputState
    var streams: seq<OutputState>
    ghost var states: set<OutputState>
    /** The number of recorders opened so far, and for which of them each timer was started. */
    ghost var windows: nat
    ghost var timers: map<nat, nat>

    ghost function Window(): Option<nat>
      reads this
    {
      if open then Some(windows) else None
    }

    ghost predicate Members()
      reads this
    {
      && output in states && (forall s :: s in streams ==> s in states)
      && forall s :: s in states ==> s == output || s in streams
    }

    /** What every stream recorded so far is exactly the lines of its output that are to be
        recorded, and the running timer belongs to the open recorder. */
    ghost predicate Valid()
      reads this, states
    {
      && Members() && TimerAgrees()
      && (forall s :: s in states ==> s.Valid(Window()) && s.newest <= windows)
    }

    ghost predicate TimerAgrees()
      reads this
    {
      && (forall e :: e in timers ==> e <= epoch && timers[e] <= windows)
      && (open ==> armed && !closed && epoch in timers && timers[epoch] == windows)
    }

    constructor ()
      ensures Valid() && !open && !closed && streams == [] && fresh(output) && states == {output}
    {
      open, deadline, armed, epoch, closed := false, 0, false, 0, false;
      var first := new OutputState(None);
      output := first;
      streams, windows, timers, states := [], 0, map[], {first};
    }

    method NewOutputStream() returns (s: OutputState)
      requires Valid()
      modifies this`streams, this`states
      ensures Valid() && fresh(s) && streams == old(streams) + [s] && s.written == []
    {
      s := new OutputState(Window());
      streams := streams + [s];
      states := states + {s};
    }

    /** offLocked. */
    method Off()
      requires Valid()
      modifies this`open, this`armed, this`epoch, states
      ensures Valid() && !open && !armed && epoch == old(epoch) + 1
      ensures forall s :: s in states ==> s.written == old(s.written) && s.recorded == old(s.recorded)
    {
      epoch := epoch + 1;
      armed := false;
      ClearAll();
      open := false;
    }

    method ClearAll()
      requires Members() && forall s :: s in states ==> s.Valid(Window()) && s.newest <= windows
      modifies states
      ensures forall s :: s in states ==> s.Valid(None) && s.newest <= windows
      ensures forall s :: s in states ==> s.written == old(s.written) && s.recorded == old(s.recorded)
    {
      ghost var w := Window();
      output.Clear(w);
      ghost var done := {output};
      for i := 0 to |streams|
        invariant done <= states && output in done && (forall j: nat :: j < i ==> streams[j] in done)
        invariant forall s :: s in states ==> s.Valid(if s in done then None else w) && s.newest <= windows
        invariant forall s :: s in states ==> s.written == old(s.written) && s.recorded == old(s.recorded)
      {
        var s := streams[i];
        s.Clear(if s in done then None else w);
        done := done + {s};
      }
    }

    /** enabledLocked: a recorder past its deadline is closed on the way. */
    method EnabledAt(now: int) returns (on: bool)
      requires Valid()
      modifies this`open, this`armed, this`epoch, states
      ensures Valid() && on == open
      ensures open == (old(open) && now < deadline)
      ensures open ==> epoch == old(epoch) && armed == old(armed)
      ensures epoch >= old(epoch)
      ensures forall s :: s in states ==> s.written == old(s.written) && s.recorded == old(s.recorded)
    {
      if open && now >= deadline { Off(); }
      on := !closed && open;
    }

    /** Enabling again while a recorder is open renews its deadline and keeps the window. */
    method Enable(now: int, minutes: int, recorderOpens: bool) returns (ok: bool, timer: nat)
      requires Valid()
      modifies this`open, this`armed, this`epoch, this`deadline, this`windows, this`timers, states
      ensures Valid() && epoch >= old(epoch)
      ensures ok ==> minutes in {15, 30, 60} && open && deadline == now + minutes * 60 && epoch > old(epoch)
      ensures ok ==> timer == epoch && timer !in old(timers) && timers == old(timers)[timer := windows]
      ensures ok ==> windows == old(windows) + if old(open) && now < old(deadline) then 0 else 1
      ensures !ok ==> windows == old(windows) && timers == old(timers) && deadline == old(deadline)
      ensures minutes in {15, 30, 60} && !closed && recorderOpens ==> ok
      ensures forall s :: s in states ==> s.written == old(s.written) && s.recorded == old(s.recorded)
    {
      timer := 0;
      if minutes != 15 && minutes != 30 && minutes != 60 { return false, timer; }
      if closed { return false, timer; }
      var on := EnabledAt(now);
      if !open {
        if !recorderOpens { return false, timer; }
        OpenRecorder();
      }
      StartTimer(now + minutes * 60);
      ok, timer := true, epoch;
    }

    method OpenRecorder()
      requires Valid() && !open
      modifies this`open, this`windows
      ensures open && windows == old(windows) + 1 && Members()
      ensures forall s :: s in states ==> s.Valid(Window()) && s.newest <= windows
      ensures forall e :: e in timers ==> e <= epoch && timers[e] <= windows
    {
      forall s | s in states ensures s.Valid(Some(windows + 1)) {
        assert s.newest < windows + 1;
      }
      open := true;
      windows := windows + 1;
    }

    method StartTimer(until: int)
      requires open && !closed && Members()
      requires forall s :: s in states ==> s.Valid(Window()) && s.newest <= windows
      requires forall e :: e in timers ==> e <= epoch && timers[e] <= windows
      modifies this`armed, this`epoch, this`deadline, this`timers
      ensures Valid() && deadline == until && epoch == old(epoch) + 1
      ensures epoch !in old(timers) && timers == old(timers)[epoch := windows]
    {
      deadline := until;
      epoch := epoch + 1;
      armed := true;
      timers := timers[epoch := windows];
    }

    /** The callback of the timer that the Enable call with this epoch started. It closes nothing
        but the window it was started for, and only if that was not renewed since. */
    method TimerFires(timer: nat)
      requires Valid() && timer in timers
      modifies this`open, this`armed, this`epoch, states
      ensures Valid()
      ensures old(open) && !open ==> timer == old(epoch) && timers[timer] == windows
      ensures timer < old(epoch) ==> open == old(open) && epoch == old(epoch) && armed == old(armed)
      ensures timer == old(epoch) ==> !open
      ensures forall s :: s in states ==> s.written == old(s.written) && s.recorded == old(s.recorded)
    {
      if epoch == timer { Off(); }
    }

    /** writeLocked, for the gate's own output or one of its streams. */
    method Write(state: OutputState, data: seq<Byte>, now: int)
      requires Valid() && state in states
      modifies this`open, this`armed, this`epoch, states
      ensures Valid()
      ensures open == (old(open) && now < deadline)
      ensures state.written == old(state.written) + Tag(data, Window())
      ensures forall s :: s in states && s != state ==> s.written == old(s.written) && s.recorded == old(s.recorded)
    {
      var on := EnabledAt(now);
      if !on {
        state.Skip(data);
      } else {
        state.PutAll(data, windows);
      }
    }

    method Close()
      requires Valid()
      modifies this`open, this`armed, this`epoch, this`closed, states
      ensures Valid() && closed && !open
      ensures forall s :: s in states ==> s.written == old(s.written) && s.recorded == old(s.recorded)
    {
      Off();
      closed := true;
    }
  }
}
