/** What redaction by secrets that are shorter than the mark does to the frames of the diagnostic
    stream (`internal/agent/pipe_windows.go`). */
module TraceSecrets {
  import opened Wrappers
  import opened TraceFrames

  // ---- Counting occurrences ----

  /** At how many positions of the text the secret stands. */
  function Matches(s: Text, secret: Text): nat
    requires secret != ""
  {
    if s == "" then 0 else (if secret <= s then 1 else 0) + Matches(s[1..], secret)
  }

  lemma {:induction false} MatchesAdd(a: Text, b: Text, secret: Text)
    requires secret != ""
    ensures Matches(a + b, secret) >= Matches(a, secret) + Matches(b, secret)
  {
    if a == "" {
      assert a + b == b;
    } else {
      assert (a + b)[1..] == a[1..] + b;
      MatchesAdd(a[1..], b, secret);
    }
  }

  lemma InTheMiddle(before: Text, s: Text, after: Text, secret: Text)
    requires secret != ""
    ensures Matches(before + s + after, secret) >= Matches(s, secret)
  {
    MatchesAdd(before, s, secret);
    MatchesAdd(before + s, after, secret);
  }

  /** The first byte of the secret does not come again in it, so its occurrences stand apart. */
  predicate StandsApart(secret: Text) { secret != "" && forall i: nat :: 0 < i < |secret| ==> secret[i] != secret[0] }

  lemma {:induction false} NoneWithin(s: Text, secret: Text, j: nat)
    requires StandsApart(secret) && secret <= s && 0 < j <= |secret|
    ensures Matches(s[j..], secret) == Matches(s[|secret|..], secret)
    decreases |secret| - j
  {
    if j < |secret| {
      assert s[j..][0] == secret[j] && s[j..][1..] == s[j + 1..];
      NoneWithin(s, secret, j + 1);
    }
  }

  /** m times g. */
  function Gains(m: nat, g: int): int { if m == 0 then 0 else g + Gains(m - 1, g) }

  lemma {:induction false} GainsFacts(m: nat, all: nat, g: nat)
    requires m <= all
    ensures Gains(m, g) <= Gains(all, g) && Gains(all, g) == all * g
  {
    if all > 0 {
      GainsFacts(if m == 0 then 0 else m - 1, all - 1, g);
      assert all * g == (all - 1) * g + g;
    }
  }

  /** Each occurrence is replaced by the ten bytes of the mark. */
  lemma {:induction false} ReplacedLength(s: Text, secret: Text)
    requires StandsApart(secret)
    ensures |Replaced(s, secret)| == |s| + Gains(Matches(s, secret), 10 - |secret|)
    ensures Matches(s, secret) == 0 ==> Replaced(s, secret) == s
    decreases |s|
  {
    if s != "" {
      if secret <= s {
        NoneWithin(s, secret, 1);
        ReplacedLength(s[|secret|..], secret);
      } else {
        ReplacedLength(s[1..], secret);
      }
    }
  }

  // ---- From the texts of an event to the frame ----

  lemma EventMatches(e: Event, secret: Text)
    requires secret != ""
    ensures Matches(EncodeEvent(e), secret) >= Matches(Quoted(e.message), secret) + Matches(Quoted(e.detail), secret)
  {
    var a := Head(e) + Quoted(e.message);
    MatchesAdd(Head(e), Quoted(e.message), secret);
    MatchesAdd(a, BeforeDetail(e), secret);
    MatchesAdd(a + BeforeDetail(e), Quoted(e.detail), secret);
    MatchesAdd(a + BeforeDetail(e) + Quoted(e.detail), AfterDetail(e), secret);
  }

  lemma EventsMatch(events: seq<Event>, secret: Text)
    requires events != [] && secret != ""
    ensures Matches(EncodeEvents(events), secret) >= Matches(EncodeEvent(events[0]), secret)
    ensures |EncodeEvents(events)| >= |EncodeEvent(events[0])|
  {
    var e, joined := EncodeEvent(events[0]), Joined(events);
    if |events| > 1 {
      MatchesAdd(e, ",", secret);
      MatchesAdd(e + ",", Joined(events[1..]), secret);
    }
    MatchesAdd("[", joined, secret);
    MatchesAdd("[" + joined, "]", secret);
  }

  lemma BatchMatches(b: Batch, secret: Text)
    requires b.events != [] && secret != ""
    ensures var e := b.events[0];
            && Matches(EncodeBatch(b), secret) >= Matches(Quoted(e.message), secret) + Matches(Quoted(e.detail), secret)
            && |EncodeBatch(b)| >= |Quoted(e.message)| + |Quoted(e.detail)|
  {
    EventMatches(b.events[0], secret);
    EventsMatch(b.events, secret);
    InTheMiddle(BEFORE_EVENTS, EncodeEvents(b.events), AfterEvents(b), secret);
    EventIsLonger(b.events[0]);
  }

  lemma EventIsLonger(e: Event)
    ensures |EncodeEvent(e)| >= |Quoted(e.message)| + |Quoted(e.detail)|
  {
  }

  /** The frame is at least as long as the redacted batch. */
  lemma FrameIsLonger(reply: Reply, b: Batch)
    requires NoEmpty(reply.secrets)
    ensures |Frame(reply, b)| >= |Redacted(EncodeBatch(b), reply.secrets)|
  {
    QuotedWithin(Redacted(EncodeBatch(b), reply.secrets));
  }

  // ---- One secret ----

  lemma OneSecret(s: Text, secret: Text)
    requires secret != ""
    ensures Redacted(s, [secret]) == Replaced(s, secret)
  {
    assert [secret][1..] == [];
  }

  lemma TextGrows(s: Text, secret: Text, m: nat)
    requires StandsApart(secret) && |secret| <= 10 && m <= Matches(s, secret)
    ensures |Redacted(s, [secret])| >= |s| + Gains(m, 10 - |secret|)
  {
    ReplacedLength(s, secret);
    OneSecret(s, secret);
    GainsFacts(m, Matches(s, secret), 10 - |secret|);
  }

  /** A text that grows beyond the size of a frame does not fit. */
  lemma TooLong(reply: Reply, b: Batch, secret: Text, m: nat, n: nat)
    requires StandsApart(secret) && |secret| <= 10 && reply.secrets == [secret]
    requires m <= Matches(EncodeBatch(b), secret) && n <= |EncodeBatch(b)| && n + Gains(m, 10 - |secret|) >= MAX_FRAME_BYTES
    ensures !Fits(reply, b)
  {
    TextGrows(EncodeBatch(b), secret, m);
    FrameIsLonger(reply, b);
  }

  /** What a single secret makes of the frame, by the occurrences in the first event's texts. */
  lemma NeverFits(reply: Reply, b: Batch, secret: Text, m: nat, n: nat)
    requires StandsApart(secret) && |secret| <= 10 && reply.secrets == [secret] && b.events != []
    requires m <= Matches(Quoted(b.events[0].message), secret) + Matches(Quoted(b.events[0].detail), secret)
    requires n <= |Quoted(b.events[0].message)| + |Quoted(b.events[0].detail)|
    requires n + m * (10 - |secret|) >= MAX_FRAME_BYTES
    ensures !Fits(reply, b)
  {
    BatchMatches(b, secret);
    GainsFacts(m, m, 10 - |secret|);
    TooLong(reply, b, secret, m, n);
  }

  lemma {:induction false} PlainIsQuoted(s: Text)
    requires forall i: nat :: i < |s| ==> Cost(s[i]) == 1
    ensures Quoted(s) == s
  {
    if s != "" {
      assert RuneLength(s) == 1 && FirstQuoted(s) == [s[0]];
      PlainIsQuoted(s[1..]);
    }
  }

  function Filled(c: char): Text { seq(MAX_DETAIL_BYTES, i => c) }

  lemma {:induction false} AllMatch(s: Text, c: char)
    requires forall i: nat :: i < |s| ==> s[i] == c
    ensures Matches(s, [c]) == |s|
  {
    if s != "" { AllMatch(s[1..], c); }
  }

  /** With a secret of a single plain byte, no page fits that begins with an event whose texts are as
      long as they may be and hold nothing but that byte. */
  lemma ShortSecretNeverFits(reply: Reply, b: Batch, c: char)
    requires reply.secrets == [[c]] && Cost(c) == 1 && b.events != []
    requires b.events[0].message == b.events[0].detail == Filled(c)
    ensures !Fits(reply, b)
  {
    PlainIsQuoted(Filled(c));
    AllMatch(Filled(c), c);
    NeverFits(reply, b, [c], 2 * MAX_DETAIL_BYTES, 2 * MAX_DETAIL_BYTES);
  }

  const ESCAPED_LESS := "\\u003c"

  lemma {:induction false} LessIsQuoted(s: Text, secret: Text)
    requires (forall i: nat :: i < |s| ==> s[i] == '<') && secret != "" && secret <= ESCAPED_LESS
    ensures |Quoted(s)| == 6 * |s| && Matches(Quoted(s), secret) >= |s|
  {
    if s != "" {
      assert RuneLength(s) == 1 && FirstQuoted(s) == ESCAPED_LESS;
      LessIsQuoted(s[1..], secret);
      MatchesAdd(ESCAPED_LESS, Quoted(s[1..]), secret);
    }
  }

  lemma LessStandsApart(length: nat)
    requires 0 < length <= 6
    ensures StandsApart(ESCAPED_LESS[..length])
  {
  }

  /** Nor with a secret of one to six bytes that an escape sequence begins with, and an event whose
      texts hold nothing but bytes that are escaped like that. */
  lemma EscapeSecretNeverFits(reply: Reply, b: Batch, length: nat)
    requires 0 < length <= 6 && reply.secrets == [ESCAPED_LESS[..length]] && b.events != []
    requires b.events[0].message == b.events[0].detail == Filled('<')
    ensures !Fits(reply, b)
  {
    var secret := ESCAPED_LESS[..length];
    LessStandsApart(length);
    LessIsQuoted(Filled('<'), secret);
    NeverFits(reply, b, secret, 2 * MAX_DETAIL_BYTES, 12 * MAX_DETAIL_BYTES);
  }

  // ---- Which lengths are safe ----

  /** A page with a single recorded event. */
  predicate OneRecorded(b: Batch) {
    |b.events| == 1 && Recorded(b.events[0]) && Small(b.events[0]) && b.next < TWO_64 && b.oldest < TWO_64
  }

  /** With these secrets the frame of any single recorded event is short enough. */
  ghost predicate AlwaysFits(secrets: seq<Text>)
    requires NoEmpty(secrets)
  {
    forall reply, b :: ValidReply(reply) && reply.secrets == secrets && OneRecorded(b) ==> Fits(reply, b)
  }

  /** The mark without its last byte: redacting it leaves it in place and adds a byte. */
  const CROPPED := "[REDACTED"

  function Copies(n: nat): seq<Text> { seq(n, i => CROPPED) }

  function Repeated(n: nat): Text { if n == 0 then "" else CROPPED + Repeated(n - 1) }

  lemma {:induction false} RepeatedFacts(n: nat)
    ensures |Repeated(n)| == 9 * n && Matches(Repeated(n), CROPPED) >= n
    ensures forall i: nat :: i < |Repeated(n)| ==> Cost(Repeated(n)[i]) == 1
  {
    if n > 0 {
      RepeatedFacts(n - 1);
      MatchesAdd(CROPPED, Repeated(n - 1), CROPPED);
    }
  }

  lemma CroppedStandsApart()
    ensures StandsApart(CROPPED) && CROPPED <= MARK && |CROPPED| == 9 && |MARK| == 10
  {
  }

  /** A round of redaction keeps every occurrence. */
  lemma {:induction false} OccurrencesStay(s: Text)
    ensures Matches(Replaced(s, CROPPED), CROPPED) >= Matches(s, CROPPED)
    decreases |s|
  {
    if s != "" {
      CroppedStandsApart();
      if CROPPED <= s {
        NoneWithin(s, CROPPED, 1);
        OccurrencesStay(s[|CROPPED|..]);
        MatchesAdd(MARK, Replaced(s[|CROPPED|..], CROPPED), CROPPED);
      } else {
        OccurrencesStay(s[1..]);
        MatchesAdd([s[0]], Replaced(s[1..], CROPPED), CROPPED);
      }
    }
  }

  lemma CroppedAdds(s: Text)
    ensures |Replaced(s, CROPPED)| == |s| + Matches(s, CROPPED)
  {
    CroppedStandsApart();
    ReplacedLength(s, CROPPED);
    GainsFacts(0, Matches(s, CROPPED), 1);
  }

  lemma {:induction false} RoundsGrow(s: Text, n: nat, m: nat)
    requires m <= Matches(s, CROPPED)
    ensures NoEmpty(Copies(n)) && |Redacted(s, Copies(n))| >= |s| + Gains(n, m)
    decreases n
  {
    if n > 0 {
      CroppedStandsApart();
      CroppedAdds(s);
      OccurrencesStay(s);
      assert Copies(n)[0] == CROPPED && Copies(n)[1..] == Copies(n - 1);
      RoundsGrow(Replaced(s, CROPPED), n - 1, m);
    }
  }

  function Unlucky(n: nat): Event {
    Event(1, 1, "", 1, Info, Controller, RequestReceived, State, None, Repeated(n), "", false, None)
  }

  lemma UnluckyIsRecorded(n: nat)
    requires 0 < n <= 455
    ensures OneRecorded(Batch([Unlucky(n)], 1, false, 1))
  {
    RepeatedFacts(n);
    RepeatedIsNotBlank(n);
  }

  lemma RepeatedIsNotBlank(n: nat)
    requires n > 0
    ensures !Blank(Repeated(n))
  {
    assert Repeated(n) == CROPPED + Repeated(n - 1);
    assert Repeated(n)[0] == '[' && Repeated(n)[0] in Repeated(n);
  }

  /** Secrets shorter than the mark can undo themselves: each of k copies adds a byte to every mark
      that the one before has left. */
  lemma CopiesOverflow(n: nat, k: nat)
    requires 0 < n <= 455 && k * n > MAX_FRAME_BYTES
    ensures NoEmpty(Copies(k)) && !AlwaysFits(Copies(k))
  {
    var b, reply := Batch([Unlucky(n)], 1, false, 1), Reply("", "connected", "", Copies(k));
    UnluckyIsRecorded(n);
    ConnectedIsValid(reply);
    UnluckyMatches(n);
    GainsFacts(0, k, n);
    CopiesAreTooLong(reply, b, n, k);
    NotAlways(reply, b);
  }

  lemma NotAlways(reply: Reply, b: Batch)
    requires ValidReply(reply) && OneRecorded(b) && !Fits(reply, b)
    ensures !AlwaysFits(reply.secrets)
  {
  }

  lemma CopiesAreTooLong(reply: Reply, b: Batch, n: nat, k: nat)
    requires reply.secrets == Copies(k) && n <= Matches(EncodeBatch(b), CROPPED) && Gains(k, n) > MAX_FRAME_BYTES
    ensures NoEmpty(Copies(k)) && !Fits(reply, b)
  {
    RoundsGrow(EncodeBatch(b), k, n);
    FrameIsLonger(reply, b);
  }

  lemma UnluckyMatches(n: nat)
    ensures Matches(EncodeBatch(Batch([Unlucky(n)], 1, false, 1)), CROPPED) >= n
  {
    RepeatedFacts(n);
    PlainIsQuoted(Repeated(n));
    BatchMatches(Batch([Unlucky(n)], 1, false, 1), CROPPED);
  }

  lemma ConnectedIsValid(reply: Reply)
    requires reply.id == "" && reply.state == "connected" && reply.code == "" && NoEmpty(reply.secrets)
    ensures ValidReply(reply)
  {
    assert STATES[4] == "connected" && CODES[0] == "";
  }

  /** Lists of secrets of at least n bytes are all safe if and only if n is the length of the mark or more. */
  lemma LengthDecides(n: nat)
    requires n > 0
    ensures (forall secrets {:trigger AtLeast(secrets, n)} :: AtLeast(secrets, n) ==> NoEmpty(secrets) && AlwaysFits(secrets)) <==> n >= |MARK|
  {
    if n >= |MARK| {
      forall secrets {:trigger AtLeast(secrets, n)} | AtLeast(secrets, n) ensures NoEmpty(secrets) && AlwaysFits(secrets) {
        forall reply, b | ValidReply(reply) && reply.secrets == secrets && OneRecorded(b) ensures Fits(reply, b) {
          OneEventFits(reply, b);
        }
      }
    } else {
      CopiesOverflow(455, 145);
      assert AtLeast(Copies(145), n);
    }
  }

  // ---- The empty page ----

  lemma {:induction false} DigitsOnly(n: nat, c: char)
    requires c < '0' || c > '9'
    ensures c !in Decimal(n)
  {
    if n >= 10 { DigitsOnly(n / 10, c); }
  }

  lemma EmptyHasNoZ(b: Batch)
    requires b.events == []
    ensures 'z' !in EncodeBatch(b)
  {
    DigitsOnly(b.next, 'z');
    DigitsOnly(b.oldest, 'z');
    assert 'z' !in ",\"next_sequence\":" && 'z' !in ",\"has_more\":" && 'z' !in ",\"oldest_sequence\":";
    assert 'z' !in Truth(b.hasMore);
    assert 'z' !in AfterEvents(b);
    assert 'z' !in BEFORE_EVENTS && 'z' !in "null";
  }

  lemma {:induction false} AbsentMeansNoMatch(s: Text, c: char)
    requires c !in s
    ensures Matches(s, [c]) == 0
  {
    if s != "" {
      assert [c] <= s <==> c == s[0];
      AbsentMeansNoMatch(s[1..], c);
    }
  }

  /** An empty page has no letter "z", so redacting that letter leaves it as it is. */
  lemma EmptyIsUntouched(reply: Reply, b: Batch)
    requires ValidReply(reply) && reply.secrets == ["z"] && b.events == [] && b.next < TWO_64 && b.oldest < TWO_64
    ensures Fits(reply, b) && Redacted(EncodeBatch(b), reply.secrets) == EncodeBatch(b)
  {
    EmptyHasNoZ(b);
    AbsentMeansNoMatch(EncodeBatch(b), 'z');
    assert "z" == ['z'] && reply.secrets == [['z']];
    ReplacedLength(EncodeBatch(b), ['z']);
    OneSecret(EncodeBatch(b), ['z']);
    var plain := reply.(secrets := []);
    NoEventFits(plain, b);
    SameFrame(reply, plain, b);
  }

  lemma SameFrame(reply: Reply, plain: Reply, b: Batch)
    requires NoEmpty(reply.secrets) && plain == reply.(secrets := []) && Redacted(EncodeBatch(b), reply.secrets) == EncodeBatch(b)
    ensures Frame(reply, b) == Frame(plain, b)
  {
    assert Redacted(EncodeBatch(b), plain.secrets) == EncodeBatch(b);
  }
}
