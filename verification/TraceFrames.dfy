/** The events of the diagnostic stream and the size of the frames that carry them:
    `internal/traceevent/event.go`, and the encoding and redaction in
    `internal/agent/pipe_windows.go`. */
module TraceFrames {
  import opened Wrappers

  /** Texts are sequences of bytes. */
  type Text = string

  const TWO_64 := 0x1_0000_0000_0000_0000

  type Uint64 = n: int | 0 <= n < TWO_64
  type Int64 = n: int | -0x8000_0000_0000_0000 <= n < 0x8000_0000_0000_0000

  /** The RFC 3339 text of a UTC time of a year with four digits. */
  type Stamp = t: Text | |t| <= 30 witness ""

  // ---- Events ----

  const SCHEMA_VERSION := 1
  const MAX_DETAIL_BYTES := 4096

  /** The approved words; `Other…` holds any text that is not one of them. */
  datatype Level = Info | Warning | Error | OtherLevel(text: Text)

  datatype Kind = Started | Succeeded | Failed | State | OtherKind(text: Text)

  datatype Component = Controller | Network | PowerShell | Core | Recovery | Service | Logging | OtherComponent(text: Text)

  datatype Stage =
    | RequestReceived | PolicyValidation | BinaryVerification | CredentialLoad | NetworkPrepare | NetworkFingerprint
    | NetworkCapture | AdapterScan | FirewallPrepare | FirewallEnable | FirewallVerify | FirewallPublish | ActiveStoreVerify
    | EmergencyProtection | ConfigRender | CoreStart | CoreReady | TunReady | RouteActivation | Connected | MonitorStart
    | CoreStop | AutomaticRestore | NetworkRestore | ResidueVerify | ServiceRecovery | LoggingDegraded
    | OtherStage(text: Text)

  function LevelText(level: Level): Text {
    match level
    case Info => "info"
    case Warning => "warning"
    case Error => "error"
    case OtherLevel(text) => text
  }

  function KindText(kind: Kind): Text {
    match kind
    case Started => "started"
    case Succeeded => "succeeded"
    case Failed => "failed"
    case State => "state"
    case OtherKind(text) => text
  }

  function ComponentText(component: Component): Text {
    match component
    case Controller => "controller"
    case Network => "network"
    case PowerShell => "powershell"
    case Core => "core"
    case Recovery => "recovery"
    case Service => "service"
    case Logging => "logging"
    case OtherComponent(text) => text
  }

  function StageText(stage: Stage): Text {
    match stage
    case RequestReceived => "request_received"
    case PolicyValidation => "policy_validation"
    case BinaryVerification => "binary_verification"
    case CredentialLoad => "credential_load"
    case NetworkPrepare => "network_prepare"
    case NetworkFingerprint => "network_fingerprint"
    case NetworkCapture => "network_capture"
    case AdapterScan => "adapter_scan"
    case FirewallPrepare => "firewall_prepare"
    case FirewallEnable => "firewall_enable"
    case FirewallVerify => "firewall_verify"
    case FirewallPublish => "firewall_publish"
    case ActiveStoreVerify => "active_store_verify"
    case EmergencyProtection => "emergency_protection"
    case ConfigRender => "config_render"
    case CoreStart => "core_start"
    case CoreReady => "core_ready"
    case TunReady => "tun_ready"
    case RouteActivation => "route_activation"
    case Connected => "connected"
    case MonitorStart => "monitor_start"
    case CoreStop => "core_stop"
    case AutomaticRestore => "automatic_restore"
    case NetworkRestore => "network_restore"
    case ResidueVerify => "residue_verify"
    case ServiceRecovery => "service_recovery"
    case LoggingDegraded => "logging_degraded"
    case OtherStage(text) => text
  }

  datatype Residue = Residue(managedRules: Int64, disabledPreparedRules: Int64, productRoutes: Int64, productTuns: Int64,
                             coreProcesses: Int64, snapshot: bool, phase: Text)

  datatype Event = Event(schema: Int64, sequence: nat, time: Stamp, generation: Uint64, level: Level, component: Component, stage: Stage,
                         kind: Kind, elapsed: Option<Int64>, message: Text, detail: Text, truncated: bool, residue: Option<Residue>)

  predicate Blank(s: Text) { forall c :: c in s ==> c == ' ' || '\t' <= c <= '\r' }

  predicate ValidResidue(r: Residue) {
    r.managedRules >= 0 && r.disabledPreparedRules >= 0 && r.productRoutes >= 0 && r.productTuns >= 0 && r.coreProcesses >= 0
  }

  /** Validate. */
  predicate ValidEvent(e: Event) {
    && e.schema == SCHEMA_VERSION && e.sequence != 0
    && !e.level.OtherLevel? && !e.component.OtherComponent? && !e.stage.OtherStage? && !e.kind.OtherKind?
    && !Blank(e.message) && |e.detail| <= MAX_DETAIL_BYTES
    && (e.elapsed.Some? ==> e.elapsed.value >= 0)
    && (e.kind == Started ==> e.elapsed.None? && e.residue.None?)
    && (e.residue.Some? ==> ValidResidue(e.residue.value))
  }

  datatype Batch = Batch(events: seq<Event>, next: nat, hasMore: bool, oldest: nat)

  // ---- JSON strings ----

  function At(s: Text, i: nat): int { if i < |s| then s[i] as int else -1 }

  predicate Continues(b: int) { 0x80 <= b <= 0xBF }

  /** The length of the valid UTF-8 encoding that a text starts with, 0 if there is none. */
  function RuneLength(s: Text): (n: nat)
    requires s != ""
    ensures n <= |s|
  {
    var b0, b1, b2, b3 := At(s, 0), At(s, 1), At(s, 2), At(s, 3);
    if b0 < 0x80 then 1
    else if 0xC2 <= b0 <= 0xDF && Continues(b1) then 2
    else if 0xE0 <= b0 <= 0xEF && (if b0 == 0xE0 then 0xA0 else 0x80) <= b1 <= (if b0 == 0xED then 0x9F else 0xBF)
              && Continues(b2) then 3
    else if 0xF0 <= b0 <= 0xF4 && (if b0 == 0xF0 then 0x90 else 0x80) <= b1 <= (if b0 == 0xF4 then 0x8F else 0xBF)
              && Continues(b2) && Continues(b3) then 4
    else 0
  }

  function Hex(n: nat): char
    requires n < 16
  {
    "0123456789abcdef"[n]
  }

  function EscapeByte(c: char): Text {
    if c == '"' || c == '\\' then ['\\', c]
    else if c as int == 8 then "\\b"
    else if c as int == 12 then "\\f"
    else if c == '\n' then "\\n"
    else if c == '\r' then "\\r"
    else if c == '\t' then "\\t"
    else if c < ' ' || c == '<' || c == '>' || c == '&' then "\\u00" + [Hex(c as int / 16 % 16), Hex(c as int % 16)]
    else [c]
  }

  /** The first rune, or the first byte where there is none. */
  function Length(s: Text): (n: nat)
    requires s != ""
    ensures 0 < n <= |s|
  {
    if RuneLength(s) == 0 then 1 else RuneLength(s)
  }

  function FirstQuoted(s: Text): Text
    requires s != ""
  {
    var n := RuneLength(s);
    if n == 0 then "\\ufffd"
    else if n == 1 then EscapeByte(s[0])
    else if At(s, 0) == 0xE2 && At(s, 1) == 0x80 && At(s, 2) == 0xA8 then "\\u2028"
    else if At(s, 0) == 0xE2 && At(s, 1) == 0x80 && At(s, 2) == 0xA9 then "\\u2029"
    else s[..n]
  }

  /** What the encoder puts between the quotes. */
  function Quoted(s: Text): Text {
    if s == "" then "" else FirstQuoted(s) + Quoted(s[Length(s)..])
  }

  /** The most that quoting makes of one byte, wherever the text is cut. */
  function Cost(c: char): nat {
    if c == '"' || c == '\\' then 2
    else if ' ' <= c && (c as int) < 0x80 && c != '<' && c != '>' && c != '&' then 1
    else 6
  }

  function Weight(s: Text): nat { if s == "" then 0 else Cost(s[0]) + Weight(s[1..]) }

  lemma {:induction false} WeightAdds(a: Text, b: Text)
    ensures Weight(a + b) == Weight(a) + Weight(b)
  {
    if a == "" {
      assert a + b == b;
    } else {
      assert (a + b)[1..] == a[1..] + b;
      WeightAdds(a[1..], b);
    }
  }

  lemma {:induction false} WeightRange(s: Text)
    ensures |s| <= Weight(s) <= 6 * |s|
  {
    if s != "" { WeightRange(s[1..]); }
  }

  lemma QuotedWithin(s: Text)
    ensures |s| <= |Quoted(s)| <= Weight(s)
    decreases |s|
  {
    if s != "" {
      var n := Length(s);
      assert s == s[..n] + s[n..];
      WeightAdds(s[..n], s[n..]);
      FirstWithin(s);
      QuotedWithin(s[n..]);
    }
  }

  lemma FirstWithin(s: Text)
    requires s != ""
    ensures Length(s) <= |FirstQuoted(s)| <= Weight(s[..Length(s)])
  {
    if RuneLength(s) > 1 {
      HighBytesWeigh(s, RuneLength(s));
    } else {
      assert s[..1] == [s[0]] && At(s, 0) == s[0] as int;
      assert Weight([s[0]]) == Cost(s[0]) + Weight([]);
    }
  }

  lemma HighBytesWeigh(s: Text, n: nat)
    requires s != "" && n == RuneLength(s) > 1
    ensures Weight(s[..n]) == 6 * n
  {
    var t := s[..n];
    forall i: nat | i < n ensures Cost(t[i]) == 6 {
      assert t[i] as int == At(s, i) >= 0x80;
    }
    AllHigh(t);
  }

  lemma {:induction false} AllHigh(t: Text)
    requires forall i: nat :: i < |t| ==> Cost(t[i]) == 6
    ensures Weight(t) == 6 * |t|
  {
    if t != "" { AllHigh(t[1..]); }
  }

  lemma {:induction false} AllPlain(t: Text)
    requires forall i: nat :: i < |t| ==> Cost(t[i]) == 1
    ensures Weight(t) == |t|
  {
    if t != "" { AllPlain(t[1..]); }
  }

  /** A text that is quoted twice, as one in an event of a batch inside a message, grows at most
      seven times. */
  lemma QuotedTwice(s: Text)
    ensures Weight(Quoted(s)) <= 7 * |s|
    decreases |s|
  {
    if s != "" {
      var n, first := Length(s), FirstQuoted(s);
      FirstWeighs(s);
      WeightAdds(first, Quoted(s[n..]));
      QuotedTwice(s[n..]);
    }
  }

  lemma FirstWeighs(s: Text)
    requires s != ""
    ensures Weight(FirstQuoted(s)) <= 7 * Length(s)
  {
    var n := RuneLength(s);
    if n > 1 {
      HighBytesWeigh(s, n);
      if FirstQuoted(s) != s[..n] { SixWeigh(FirstQuoted(s)); }
    } else if n == 1 {
      assert FirstQuoted(s) == EscapeByte(s[0]);
      EscapeWeighs(s[0]);
    } else {
      SixWeigh("\\ufffd");
    }
  }

  lemma EscapeWeighs(c: char)
    ensures Weight(EscapeByte(c)) <= 7
  {
    var t := EscapeByte(c);
    if |t| == 6 {
      SixWeigh(t);
    } else if |t| == 2 {
      assert t[1..][1..] == "" && Weight(t[1..]) == Cost(t[1]);
    }
  }

  lemma SixWeigh(t: Text)
    requires |t| == 6 && t[0] == '\\' && forall i: nat :: 0 < i < 6 ==> Cost(t[i]) == 1
    ensures Weight(t) == 7
  {
    AllPlain(t[1..]);
  }

  // ---- Encoding ----

  function Decimal(n: nat): Text { (if n < 10 then "" else Decimal(n / 10)) + ["0123456789"[n % 10]] }

  function Number(n: int): Text { if n < 0 then "-" + Decimal(-n) else Decimal(n) }

  function Truth(b: bool): Text { if b then "true" else "false" }

  function Power(n: nat): nat { if n == 0 then 1 else 10 * Power(n - 1) }

  lemma {:induction false} DecimalWithin(n: nat, digits: nat)
    requires digits > 0 && n < Power(digits)
    ensures |Decimal(n)| <= digits
  {
    if n >= 10 {
      assert digits > 1;
      DecimalWithin(n / 10, digits - 1);
    }
  }

  lemma Numbers(n: nat)
    requires n < TWO_64
    ensures |Decimal(n)| <= 20
  {
    assert Power(5) == 100000;
    assert Power(10) == 100000 * Power(5);
    assert Power(15) == 100000 * Power(10);
    assert Power(20) == 100000 * Power(15);
    DecimalWithin(n, 20);
  }

  function Head(e: Event): Text {
    "{\"schema_version\":" + Number(e.schema) + ",\"sequence\":" + Decimal(e.sequence) + ",\"timestamp_utc\":\"" + e.time +
    "\",\"generation\":" + Decimal(e.generation) + Words(e) +
    (if e.elapsed.None? then "" else ",\"elapsed_ms\":" + Number(e.elapsed.value)) + ",\"message\":\""
  }

  function Words(e: Event): Text {
    ",\"level\":\"" + Quoted(LevelText(e.level)) + "\",\"component\":\"" + Quoted(ComponentText(e.component)) + "\",\"stage\":\"" + Quoted(StageText(e.stage)) +
    "\",\"event\":\"" + Quoted(KindText(e.kind)) + "\""
  }

  function BeforeDetail(e: Event): Text { if e.detail == "" then "\"" else "\",\"detail\":\"" }

  function AfterDetail(e: Event): Text {
    (if e.detail == "" then "" else "\"") + (if e.truncated then ",\"detail_truncated\":true" else "") +
    (if e.residue.None? then "" else EncodeResidue(e.residue.value)) + "}"
  }

  function EncodeResidue(r: Residue): Text {
    ",\"residue\":{\"managed_rules\":" + Number(r.managedRules) + ",\"disabled_prepared_rules\":" + Number(r.disabledPreparedRules) +
    ",\"product_routes\":" + Number(r.productRoutes) + ",\"product_tuns\":" + Number(r.productTuns) +
    ",\"core_processes\":" + Number(r.coreProcesses) + ",\"snapshot\":" + Truth(r.snapshot) +
    (if r.phase == "" then "" else ",\"snapshot_phase\":\"" + Quoted(r.phase) + "\"") + "}"
  }

  function EncodeEvent(e: Event): Text {
    Head(e) + Quoted(e.message) + BeforeDetail(e) + Quoted(e.detail) + AfterDetail(e)
  }

  function Joined(events: seq<Event>): Text
    requires events != []
  {
    if |events| == 1 then EncodeEvent(events[0]) else EncodeEvent(events[0]) + "," + Joined(events[1..])
  }

  function EncodeEvents(events: seq<Event>): Text { if events == [] then "null" else "[" + Joined(events) + "]" }

  function AfterEvents(b: Batch): Text {
    ",\"next_sequence\":" + Decimal(b.next) + ",\"has_more\":" + Truth(b.hasMore) + ",\"oldest_sequence\":" + Decimal(b.oldest) + "}"
  }

  const BEFORE_EVENTS := "{\"events\":"

  function EncodeBatch(b: Batch): Text { BEFORE_EVENTS + EncodeEvents(b.events) + AfterEvents(b) }

  // ---- Redaction and frames ----

  const MARK: Text := "[REDACTED]"

  /** bytes.ReplaceAll by the mark. */
  function Replaced(s: Text, secret: Text): Text
    requires secret != ""
    decreases |s|
  {
    if s == "" then ""
    else if secret <= s then MARK + Replaced(s[|secret|..], secret)
    else [s[0]] + Replaced(s[1..], secret)
  }

  predicate NoEmpty(secrets: seq<Text>) { forall i: nat :: i < |secrets| ==> secrets[i] != "" }

  /** Each secret in turn. */
  function Redacted(s: Text, secrets: seq<Text>): Text
    requires NoEmpty(secrets)
    decreases |secrets|
  {
    if secrets == [] then s else Redacted(Replaced(s, secrets[0]), secrets[1..])
  }

  const MAX_FRAME_BYTES := 64 * 1024
  const MAX_ID_BYTES := 128
  const MAX_PHASE_BYTES := 32

  const STATES := ["preparing", "prepared", "disconnected", "connecting", "connected", "restoring", "failed_safe", "failed"]
  const CLIENT_STATES := ["preparing", "prepared", "connecting", "connected", "restoring", "failed_safe"]
  const CODES := [
    "", "invalid_policy", "invalid_binary", "credential_unavailable", "credential_expired", "prepared_state_unavailable",
    "vpn_conflict", "network_changed", "network_capture_failed", "firewall_enable_failed", "firewall_verify_failed",
    "public_tcp_block_failed", "config_render_failed", "core_start_failed", "core_not_ready", "tun_not_found",
    "tun_identity_mismatch", "route_activation_failed", "readiness_lost", "restore_failed", "automatic_restore_failed", "canceled"]

  /** What all candidates for the answer to one request have in common. */
  datatype Reply = Reply(id: Text, state: Text, code: Text, secrets: seq<Text>)

  /** An accepted request's identifier, a status of the controller, and secrets as configured. */
  predicate ValidReply(reply: Reply) {
    |reply.id| <= MAX_ID_BYTES && reply.state in STATES && reply.code in CODES && NoEmpty(reply.secrets)
  }

  function BeforeMessage(reply: Reply): Text {
    "{\"id\":\"" + Quoted(reply.id) + "\",\"state\":\"" + Quoted(reply.state) + "\"" +
    (if reply.code == "" then "" else ",\"error_code\":\"" + Quoted(reply.code) + "\"") + ",\"message\":\""
  }

  function Frame(reply: Reply, b: Batch): Text
    requires NoEmpty(reply.secrets)
  {
    BeforeMessage(reply) + Quoted(Redacted(EncodeBatch(b), reply.secrets)) + "\"}"
  }

  predicate Fits(reply: Reply, b: Batch)
    requires NoEmpty(reply.secrets)
  {
    |Frame(reply, b)| + 1 <= MAX_FRAME_BYTES
  }

  // ---- One event always fits ----

  /** A valid event as the recorder leaves it. */
  predicate Recorded(e: Event) { ValidEvent(e) && |e.message| <= MAX_DETAIL_BYTES }

  /** The counter has not gone around, and a residue's phase has the length of a snapshot's. */
  predicate Small(e: Event) {
    e.sequence < TWO_64 && (e.residue.Some? ==> |e.residue.value.phase| <= MAX_PHASE_BYTES)
  }

  predicate AtLeast(secrets: seq<Text>, n: nat) { forall i: nat :: i < |secrets| ==> |secrets[i]| >= n }

  predicate AsLongAsMark(secrets: seq<Text>) { AtLeast(secrets, |MARK|) }

  lemma {:induction false} ReplacedWeighs(s: Text, secret: Text)
    requires |secret| >= |MARK|
    ensures Weight(Replaced(s, secret)) <= Weight(s)
    decreases |s|
  {
    if s != "" {
      if secret <= s {
        assert s == secret + s[|secret|..];
        WeightAdds(secret, s[|secret|..]);
        WeightRange(secret);
        AllPlain(MARK);
        WeightAdds(MARK, Replaced(s[|secret|..], secret));
        ReplacedWeighs(s[|secret|..], secret);
      } else {
        WeightAdds([s[0]], Replaced(s[1..], secret));
        ReplacedWeighs(s[1..], secret);
      }
    }
  }

  /** Secrets that are not shorter than the mark make nothing heavier. */
  lemma {:induction false} RedactedWeighs(s: Text, secrets: seq<Text>)
    requires NoEmpty(secrets) && AsLongAsMark(secrets)
    ensures Weight(Redacted(s, secrets)) <= Weight(s)
    decreases |secrets|
  {
    if secrets != [] {
      ReplacedWeighs(s, secrets[0]);
      RedactedWeighs(Replaced(s, secrets[0]), secrets[1..]);
    }
  }

  lemma StateIsShort(w: Text)
    requires w in STATES
    ensures |w| <= 12
  {
  }

  lemma StageIsShort(stage: Stage)
    requires !stage.OtherStage?
    ensures |StageText(stage)| <= 20
  {
  }

  lemma CodeIsShort(w: Text)
    requires w in CODES
    ensures |w| <= 26
  {
  }

  lemma QuotedIsShort(w: Text, n: nat)
    requires |w| <= n
    ensures |Quoted(w)| <= 6 * n
  {
    QuotedWithin(w);
    WeightRange(w);
  }

  lemma WordsWithin(e: Event)
    requires ValidEvent(e)
    ensures |Words(e)| <= 324
  {
    StageIsShort(e.stage);
    QuotedIsShort(LevelText(e.level), 7);
    QuotedIsShort(ComponentText(e.component), 10);
    QuotedIsShort(StageText(e.stage), 20);
    QuotedIsShort(KindText(e.kind), 9);
  }

  lemma HeadWithin(e: Event)
    requires Recorded(e) && Small(e)
    ensures |Head(e)| <= 504
  {
    WordsWithin(e);
    Numbers(e.sequence);
    Numbers(e.generation);
    if e.elapsed.Some? { Numbers(e.elapsed.value); }
  }

  lemma ResidueWithin(r: Residue)
    requires ValidResidue(r) && |r.phase| <= MAX_PHASE_BYTES
    ensures |EncodeResidue(r)| <= 440
  {
    Numbers(r.managedRules);
    Numbers(r.disabledPreparedRules);
    Numbers(r.productRoutes);
    Numbers(r.productTuns);
    Numbers(r.coreProcesses);
    QuotedIsShort(r.phase, MAX_PHASE_BYTES);
  }

  lemma AfterDetailWithin(e: Event)
    requires Recorded(e) && Small(e)
    ensures |AfterDetail(e)| <= 466
  {
    if e.residue.Some? { ResidueWithin(e.residue.value); }
  }

  lemma WeightAdds5(a: Text, b: Text, c: Text, d: Text, e: Text)
    ensures Weight(a + b + c + d + e) == Weight(a) + Weight(b) + Weight(c) + Weight(d) + Weight(e)
  {
    WeightAdds(a, b);
    WeightAdds(a + b, c);
    WeightAdds(a + b + c, d);
    WeightAdds(a + b + c + d, e);
  }

  lemma EventWeighs(e: Event)
    requires Recorded(e) && Small(e)
    ensures Weight(EncodeEvent(e)) <= 7 * (|e.message| + |e.detail|) + 6 * 990
  {
    HeadWithin(e);
    AfterDetailWithin(e);
    QuotedTwice(e.message);
    QuotedTwice(e.detail);
    WeightRange(Head(e));
    WeightRange(BeforeDetail(e));
    WeightRange(AfterDetail(e));
    WeightAdds5(Head(e), Quoted(e.message), BeforeDetail(e), Quoted(e.detail), AfterDetail(e));
  }

  lemma BatchWeighs(b: Batch)
    requires |b.events| == 1 && Recorded(b.events[0]) && Small(b.events[0]) && b.next < TWO_64 && b.oldest < TWO_64
    ensures Weight(EncodeBatch(b)) <= 7 * (|b.events[0].message| + |b.events[0].detail|) + 6 * 1096
  {
    var e, tail := EncodeEvent(b.events[0]), AfterEvents(b);
    EventWeighs(b.events[0]);
    AfterEventsWithin(b);
    WeightRange(BEFORE_EVENTS);
    WeightRange("[");
    WeightRange("]");
    WeightRange(tail);
    WeightAdds("[", e);
    WeightAdds("[" + e, "]");
    WeightAdds(BEFORE_EVENTS, "[" + e + "]");
    WeightAdds(BEFORE_EVENTS + ("[" + e + "]"), tail);
  }

  lemma AfterEventsWithin(b: Batch)
    requires b.next < TWO_64 && b.oldest < TWO_64
    ensures |AfterEvents(b)| <= 94
  {
    Numbers(b.next);
    Numbers(b.oldest);
  }

  lemma BeforeMessageWithin(reply: Reply)
    requires ValidReply(reply)
    ensures |BeforeMessage(reply)| <= 1043
  {
    QuotedIsShort(reply.id, MAX_ID_BYTES);
    StateIsShort(reply.state);
    CodeIsShort(reply.code);
    QuotedIsShort(reply.state, 12);
    QuotedIsShort(reply.code, 26);
  }

  /** The frame with a single recorded event is never too long, whatever the event, the request
      and the status, and whatever is redacted by secrets not shorter than the mark. */
  lemma OneEventFits(reply: Reply, b: Batch)
    requires ValidReply(reply) && AsLongAsMark(reply.secrets)
    requires |b.events| == 1 && Recorded(b.events[0]) && Small(b.events[0]) && b.next < TWO_64 && b.oldest < TWO_64
    ensures Fits(reply, b)
  {
    BatchWeighs(b);
    RedactedWeighs(EncodeBatch(b), reply.secrets);
    QuotedWithin(Redacted(EncodeBatch(b), reply.secrets));
    BeforeMessageWithin(reply);
  }

  lemma NoEventFits(reply: Reply, b: Batch)
    requires ValidReply(reply) && AsLongAsMark(reply.secrets)
    requires b.events == [] && b.next < TWO_64 && b.oldest < TWO_64
    ensures Fits(reply, b)
  {
    AfterEventsWithin(b);
    WeightRange(EncodeBatch(b));
    RedactedWeighs(EncodeBatch(b), reply.secrets);
    QuotedWithin(Redacted(EncodeBatch(b), reply.secrets));
    BeforeMessageWithin(reply);
  }
}
