/** The infrared frame sniffer (`SamsungAcSniffer`): resolution of the capture
    parameters at setup, the rate-limited polling step, and the rendering of a
    decoded frame into log lines.

    The receiver library is seen through what the component reads from it:
    whether decoding produced a frame (and that frame's protocol name, bit
    count, state bytes, description and replay source text, all supplied as
    inputs), and which build-time constants it defines. */
module Sniffer {
  import opened Common
  import opened Text

  // ---------------------------------------------------------------------------
  // Configuration

  /** What the linked receiver library defines: `kCaptureBufferSize`,
      `kRawBuf` and `kTimeoutDefault` when they are preprocessor macros (None
      when they are not), and the state array width `kStateSizeMax`. */
  datatype LibraryBuild = LibraryBuild(
    captureBufferSize: Option<uint16>,
    rawBuf: Option<uint16>,
    timeoutDefault: Option<uint16>,
    stateSizeMax: nat)

  const FallbackBufferSize: uint16 := 1024
  const FallbackTimeoutMs: uint16 := 50

  /** The receiver takes its idle timeout as one byte. */
  const MaxTimeoutMs: uint8 := 255

  /** The component's settings; an override of 0 means "library default". */
  datatype Config = Config(
    rxPin: uint8,
    dumpRaw: bool,
    dumpState: bool,
    dumpDesc: bool,
    rateLimitMs: uint32,
    bufferSizeOverride: uint16,
    timeoutOverrideMs: uint16,
    toleranceOverride: uint8,
    minUnknownSizeOverride: uint16)

  /** The settings a component starts with before any setter is called. */
  const DefaultConfig := Config(21, true, true, true, 500, 0, 0, 0, 0)

  /** The receiver as set up: its constructor arguments, the tolerance and
      unknown-threshold setters if they were called, and whether input was enabled. */
  datatype Receiver = Receiver(
    pin: uint8,
    bufferSize: uint16,
    timeoutMs: uint8,
    saveBuffer: bool,
    tolerance: Option<uint8>,
    unknownThreshold: Option<uint16>,
    enabled: bool)

  /** The component: settings, the receiver (None before setup) and the time
      of the last report. */
  datatype Sniffer = Sniffer(config: Config, receiver: Option<Receiver>, lastLogMs: uint32)

  /** A component as constructed: no receiver, no report yet. */
  function Init(config: Config): (s: Sniffer)
    ensures s.config == config && s.receiver.None? && s.lastLogMs == 0
  {
    Sniffer(config, None, 0)
  }

  /** The library's buffer size: the first defined of `kCaptureBufferSize`
      and `kRawBuf`, otherwise 1024. */
  function LibraryBufferSize(lib: LibraryBuild): uint16 {
    if lib.captureBufferSize.Some? then lib.captureBufferSize.value
    else lib.rawBuf.GetOr(FallbackBufferSize)
  }

  /** The library's idle timeout: `kTimeoutDefault` if defined, otherwise 50. */
  function LibraryTimeout(lib: LibraryBuild): uint16 {
    lib.timeoutDefault.GetOr(FallbackTimeoutMs)
  }

  /** The capture buffer size: a positive override wins over the library. */
  function ResolveBufferSize(lib: LibraryBuild, override: uint16): (n: uint16)
    ensures override > 0 ==> n == override
    ensures override == 0 ==> n == LibraryBufferSize(lib)
  {
    if override > 0 then override else LibraryBufferSize(lib)
  }

  /** The idle timeout: a positive override wins over the library, and the
      choice is then clamped into one byte. */
  function ResolveTimeout(lib: LibraryBuild, override: uint16): (t: uint8)
    ensures var chosen := if override > 0 then override else LibraryTimeout(lib);
            (chosen <= MaxTimeoutMs ==> t == chosen) && (chosen > MaxTimeoutMs ==> t == MaxTimeoutMs)
  {
    var timeout: uint16 := if override > 0 then override else LibraryTimeout(lib);
    if timeout > MaxTimeoutMs then MaxTimeoutMs else timeout
  }

  /** `setup()`: builds and enables the receiver from the resolved settings,
      applies tolerance and unknown threshold only when overridden, and logs
      the pin it listens on. */
  function Setup(lib: LibraryBuild, s: Sniffer): (r: (Sniffer, seq<string>))
    ensures r.0.config == s.config && r.0.lastLogMs == s.lastLogMs
    ensures r.0.receiver.Some?
    ensures var rx := r.0.receiver.value;
      && rx.pin == s.config.rxPin && rx.saveBuffer && rx.enabled
      && rx.bufferSize == ResolveBufferSize(lib, s.config.bufferSizeOverride)
      && rx.timeoutMs == ResolveTimeout(lib, s.config.timeoutOverrideMs)
      && (rx.tolerance.Some? <==> s.config.toleranceOverride > 0)
      && (rx.tolerance.Some? ==> rx.tolerance.value == s.config.toleranceOverride)
      && (rx.unknownThreshold.Some? <==> s.config.minUnknownSizeOverride > 0)
      && (rx.unknownThreshold.Some? ==> rx.unknownThreshold.value == s.config.minUnknownSizeOverride)
    ensures r.1 == ["IR sniffer listening on GPIO" + NatToString(s.config.rxPin)]
  {
    var c := s.config;
    var tolerance := if c.toleranceOverride > 0 then Some(c.toleranceOverride) else None;
    var threshold := if c.minUnknownSizeOverride > 0 then Some(c.minUnknownSizeOverride) else None;
    var rx := Receiver(c.rxPin, ResolveBufferSize(lib, c.bufferSizeOverride),
                       ResolveTimeout(lib, c.timeoutOverrideMs), true, tolerance, threshold, true);
    (s.(receiver := Some(rx)), ["IR sniffer listening on GPIO" + NatToString(c.rxPin)])
  }

  /** Every timeout the configuration schema accepts (1..255) reaches the
      receiver unchanged, whatever the library. */
  lemma SchemaTimeoutsPassThrough(lib: LibraryBuild, override: uint16)
    requires 1 <= override <= 255
    ensures ResolveTimeout(lib, override) == override
  {
  }

  /** With every override set, the receiver does not depend on the library build. */
  lemma OverridesIgnoreLibrary(lib1: LibraryBuild, lib2: LibraryBuild, s: Sniffer)
    requires s.config.bufferSizeOverride > 0 && s.config.timeoutOverrideMs > 0
    ensures Setup(lib1, s) == Setup(lib2, s)
  {
  }

  /** Without overrides the receiver gets the library's own values, the
      timeout clamped into one byte, and no tolerance or threshold call. */
  lemma DefaultsComeFromLibrary(lib: LibraryBuild)
    ensures var rx := Setup(lib, Init(DefaultConfig)).0.receiver.value;
      && rx.bufferSize == LibraryBufferSize(lib)
      && rx.timeoutMs <= MaxTimeoutMs
      && (LibraryTimeout(lib) <= MaxTimeoutMs ==> rx.timeoutMs == LibraryTimeout(lib))
      && rx.tolerance.None? && rx.unknownThreshold.None?
  {
  }

  // ---------------------------------------------------------------------------
  // Report rendering

  /** One decoded frame, as the receiver library hands it over: the protocol
      name (with its repeat marker), the bit count, the state array, and the
      library's description and replay source text for it. */
  datatype Capture = Capture(
    protocol: string,
    bits: uint16,
    state: seq<uint8>,
    description: string,
    sourceCode: string)

  /** The state array is always `kStateSizeMax` bytes wide. */
  predicate WellFormed(lib: LibraryBuild, cap: Capture) {
    |cap.state| == lib.stateSizeMax
  }

  /** The number of state bytes shown: enough whole bytes for `bits`, but no
      more than `max`. */
  function ByteCount(bits: uint16, max: nat): (n: nat)
    ensures n <= max
    ensures bits <= 8 * n || n == max
    ensures n == 0 || 8 * (n - 1) < bits
  {
    var n := (bits + 7) / 8;
    if n > max then max else n
  }

  /** Worked values with a 21-byte state array. */
  lemma ByteCountExamples()
    ensures ByteCount(128, 21) == 16
    ensures ByteCount(21 * 8 + 1, 21) == 21
    ensures ByteCount(0, 21) == 0
    ensures ByteCount(1, 21) == 1
  {
  }

  /** `format_state_hex_(n)`: the first `n` state bytes in uppercase hex, or
      nothing when `n` is 0 or wider than the state array. */
  function FormatStateHex(lib: LibraryBuild, state: seq<uint8>, n: nat): (hex: string)
    requires |state| == lib.stateSizeMax
    ensures n == 0 || n > lib.stateSizeMax ==> hex == ""
    ensures 0 < n <= lib.stateSizeMax ==>
      |hex| == 2 * n && IsUpperHex(hex) && DecodeHex(hex) == Some(state[..n])
  {
    if n == 0 || n > lib.stateSizeMax then ""
    else
      HexStringRoundTrip(state[..n]);
      HexString(state[..n])
  }

  const ArrayPrefix := "uint8_t state["
  const ArrayOpen := "] = {"
  const ArrayClose := "};"

  /** `log_state_array_(n)`: a C declaration of the first `n` state bytes, or
      no line when `n` is 0 or wider than the state array. */
  function StateArrayLine(lib: LibraryBuild, state: seq<uint8>, n: nat): (line: Option<string>)
    requires |state| == lib.stateSizeMax
    ensures line.Some? <==> 0 < n <= lib.stateSizeMax
    ensures line.Some? ==> exists count, entries ::
      && line.value == ArrayPrefix + count + ArrayOpen + entries + ArrayClose
      && ParseDecimal(count) == Some(n)
      && ParseArrayEntries(entries) == Some(state[..n])
  {
    if n == 0 || n > lib.stateSizeMax then None
    else
      var count := NatToString(n);
      var entries := ArrayEntries(state[..n]);
      NatToStringRoundTrip(n);
      ArrayEntriesRoundTrip(state[..n]);
      Some(ArrayPrefix + count + ArrayOpen + entries + ArrayClose)
  }

  const ProtocolLabel := "Protocol  : "
  const CodeLabel := "Code      : 0x"
  const DescLabel := "Mesg Desc.: "

  /** The protocol line. */
  function ProtocolLine(cap: Capture): string {
    ProtocolLabel + cap.protocol
  }

  /** The code line: the shown bytes in hex and the full, untruncated bit count. */
  function CodeLine(hex: string, bits: uint16): string {
    CodeLabel + hex + " (" + NatToString(bits) + " Bits)"
  }

  /** The lines present only when enabled and non-empty. */
  function OptionalLine(enabled: bool, text: string, prefix: string): (lines: seq<string>)
    ensures |lines| <= 1
    ensures |lines| == 1 <==> enabled && |text| > 0
  {
    if enabled && |text| > 0 then [prefix + text] else []
  }

  /** `log_result_()`: the protocol line; then, when any bytes are shown, the
      code line and (if enabled) the array line; then the description and the
      replay source, each only if enabled and non-empty. */
  function LogResult(lib: LibraryBuild, config: Config, cap: Capture): (lines: seq<string>)
    requires WellFormed(lib, cap)
    ensures var n := ByteCount(cap.bits, lib.stateSizeMax);
            var shown := if n > 0 then 1 + (if config.dumpState then 1 else 0) else 0;
            var desc := if config.dumpDesc && |cap.description| > 0 then 1 else 0;
            var raw := if config.dumpRaw && |cap.sourceCode| > 0 then 1 else 0;
      && |lines| == 1 + shown + desc + raw
      && lines[0] == ProtocolLine(cap)
      && (n > 0 ==> lines[1] == CodeLine(FormatStateHex(lib, cap.state, n), cap.bits)
                    && DecodeHex(FormatStateHex(lib, cap.state, n)) == Some(cap.state[..n]))
      && (n > 0 && config.dumpState ==> lines[2] == StateArrayLine(lib, cap.state, n).value)
      && (desc == 1 ==> lines[1 + shown] == DescLabel + cap.description)
      && (raw == 1 ==> lines[|lines| - 1] == cap.sourceCode)
  {
    var n := ByteCount(cap.bits, lib.stateSizeMax);
    var bytesLines :=
      if n > 0 && n <= lib.stateSizeMax then
        var hex := FormatStateHex(lib, cap.state, n);
        var codeLines := if |hex| > 0 then [CodeLine(hex, cap.bits)] else [];
        var arrayLines := if config.dumpState then [StateArrayLine(lib, cap.state, n).value] else [];
        codeLines + arrayLines
      else [];
    [ProtocolLine(cap)] + bytesLines
      + OptionalLine(config.dumpDesc, cap.description, DescLabel)
      + OptionalLine(config.dumpRaw, cap.sourceCode, "")
  }

  // ---------------------------------------------------------------------------
  // Polling

  /** What one poll does that can be seen: a log line, or the release of the
      capture buffer to the receiver (`resume()`). */
  datatype LoopEvent = Logged(line: string) | Resumed

  /** Log lines as events. */
  function AsLogged(lines: seq<string>): (events: seq<LoopEvent>)
    ensures |events| == |lines|
    ensures forall i :: 0 <= i < |lines| ==> events[i] == Logged(lines[i])
  {
    if |lines| == 0 then [] else [Logged(lines[0])] + AsLogged(lines[1..])
  }

  /** The number of buffer releases in a sequence of events. */
  function Resumes(events: seq<LoopEvent>): nat {
    if |events| == 0 then 0
    else (if events[0].Resumed? then 1 else 0) + Resumes(events[1..])
  }

  lemma {:induction false} ResumesAppend(a: seq<LoopEvent>, b: seq<LoopEvent>)
    ensures Resumes(a + b) == Resumes(a) + Resumes(b)
    decreases |a|
  {
    if |a| == 0 {
      assert a + b == b;
    } else {
      assert (a + b)[1..] == a[1..] + b;
      ResumesAppend(a[1..], b);
    }
  }

  lemma {:induction false} LoggedHasNoResumes(lines: seq<string>)
    ensures Resumes(AsLogged(lines)) == 0
    decreases |lines|
  {
    if |lines| > 0 {
      assert AsLogged(lines)[1..] == AsLogged(lines[1..]);
      LoggedHasNoResumes(lines[1..]);
    }
  }

  /** Whether a capture at `now` clears the rate limit: the time since the last
      report, in wrapping 32-bit milliseconds, is at least the limit. */
  predicate ClearsRateLimit(s: Sniffer, now: uint32) {
    Sub32(now, s.lastLogMs) >= s.config.rateLimitMs
  }

  /** `loop()`: before setup, or when nothing was decoded, nothing happens.
      Otherwise a capture that clears the rate limit is reported and stamps
      the report time, and the buffer is released exactly once either way. */
  function Loop(lib: LibraryBuild, s: Sniffer, decoded: Option<Capture>, now: uint32)
    : (r: (Sniffer, seq<LoopEvent>))
    requires decoded.Some? ==> WellFormed(lib, decoded.value)
    ensures r.0.config == s.config && r.0.receiver == s.receiver
    ensures s.receiver.None? || decoded.None? ==> r == (s, [])
    ensures s.receiver.Some? && decoded.Some? ==>
      && Resumes(r.1) == 1 && r.1[|r.1| - 1] == Resumed
      && (ClearsRateLimit(s, now) ==>
            r.0.lastLogMs == now && r.1 == AsLogged(LogResult(lib, s.config, decoded.value)) + [Resumed])
      && (!ClearsRateLimit(s, now) ==> r.0.lastLogMs == s.lastLogMs && r.1 == [Resumed])
  {
    if s.receiver.None? || decoded.None? then (s, [])
    else if ClearsRateLimit(s, now) then
      var report := AsLogged(LogResult(lib, s.config, decoded.value));
      LoggedHasNoResumes(LogResult(lib, s.config, decoded.value));
      ResumesAppend(report, [Resumed]);
      (s.(lastLogMs := now), report + [Resumed])
    else (s, [Resumed])
  }

  /** One poll: whether a frame was decoded, and the clock reading. */
  datatype Tick = Tick(decoded: Option<Capture>, now: uint32)

  predicate TicksWellFormed(lib: LibraryBuild, ticks: seq<Tick>) {
    forall i :: 0 <= i < |ticks| && ticks[i].decoded.Some? ==> WellFormed(lib, ticks[i].decoded.value)
  }

  /** Successive polls, threading the component through. */
  function Run(lib: LibraryBuild, s: Sniffer, ticks: seq<Tick>): (r: (Sniffer, seq<LoopEvent>))
    requires TicksWellFormed(lib, ticks)
    ensures r.0.config == s.config && r.0.receiver == s.receiver
    decreases |ticks|
  {
    if |ticks| == 0 then (s, [])
    else
      var (s1, e1) := Loop(lib, s, ticks[0].decoded, ticks[0].now);
      assert TicksWellFormed(lib, ticks[1..]) by {
        forall i | 0 <= i < |ticks[1..]| && ticks[1..][i].decoded.Some?
          ensures WellFormed(lib, ticks[1..][i].decoded.value)
        {
          assert ticks[1..][i] == ticks[i + 1];
        }
      }
      var (s2, e2) := Run(lib, s1, ticks[1..]);
      (s2, e1 + e2)
  }

  /** The number of polls that decoded a frame. */
  function Captures(ticks: seq<Tick>): nat {
    if |ticks| == 0 then 0
    else (if ticks[0].decoded.Some? then 1 else 0) + Captures(ticks[1..])
  }

  /** Once set up, every decoded frame releases the capture buffer exactly
      once, reported or not: the receiver can never run out of buffers. */
  lemma {:induction false} EveryCaptureReleased(lib: LibraryBuild, s: Sniffer, ticks: seq<Tick>)
    requires s.receiver.Some? && TicksWellFormed(lib, ticks)
    ensures Resumes(Run(lib, s, ticks).1) == Captures(ticks)
    decreases |ticks|
  {
    if |ticks| > 0 {
      var (s1, e1) := Loop(lib, s, ticks[0].decoded, ticks[0].now);
      assert TicksWellFormed(lib, ticks[1..]) by {
        forall i | 0 <= i < |ticks[1..]| && ticks[1..][i].decoded.Some?
          ensures WellFormed(lib, ticks[1..][i].decoded.value)
        {
          assert ticks[1..][i] == ticks[i + 1];
        }
      }
      var (s2, e2) := Run(lib, s1, ticks[1..]);
      EveryCaptureReleased(lib, s1, ticks[1..]);
      ResumesAppend(e1, e2);
    }
  }

  /** Before setup, polling never reports and never touches the receiver. */
  lemma {:induction false} NothingBeforeSetup(lib: LibraryBuild, s: Sniffer, ticks: seq<Tick>)
    requires s.receiver.None? && TicksWellFormed(lib, ticks)
    ensures Run(lib, s, ticks) == (s, [])
    decreases |ticks|
  {
    if |ticks| > 0 {
      assert TicksWellFormed(lib, ticks[1..]) by {
        forall i | 0 <= i < |ticks[1..]| && ticks[1..][i].decoded.Some?
          ensures WellFormed(lib, ticks[1..][i].decoded.value)
        {
          assert ticks[1..][i] == ticks[i + 1];
        }
      }
      NothingBeforeSetup(lib, s, ticks[1..]);
      var e: seq<LoopEvent> := [];
      assert Loop(lib, s, ticks[0].decoded, ticks[0].now) == (s, e);
      assert e + e == e;
    }
  }

  /** Since the report time starts at 0, a frame caught before the rate limit
      has first elapsed is not reported. */
  lemma EarlyCaptureSuppressed(lib: LibraryBuild, config: Config, cap: Capture, now: uint32)
    requires WellFormed(lib, cap) && now < config.rateLimitMs
    ensures var s := Setup(lib, Init(config)).0;
            Loop(lib, s, Some(cap), now) == (s, [Resumed])
  {
  }

  /** With the default 500 ms limit: a report at `t0`, a second frame 10 ms
      later is suppressed, a third 600 ms after the first is reported. */
  lemma RateLimitScenario(lib: LibraryBuild, s: Sniffer, cap: Capture, t0: uint32)
    requires s.receiver.Some? && s.config.rateLimitMs == 500 && WellFormed(lib, cap)
    requires ClearsRateLimit(s, t0) && t0 + 600 < UINT32_LIMIT
    ensures var r1 := Loop(lib, s, Some(cap), t0);
            var r2 := Loop(lib, r1.0, Some(cap), t0 + 10);
            var r3 := Loop(lib, r2.0, Some(cap), t0 + 600);
            && r1.0.lastLogMs == t0 && |r1.1| > 1
            && r2.0.lastLogMs == t0 && r2.1 == [Resumed]
            && r3.0.lastLogMs == t0 + 600 && |r3.1| > 1
  {
  }

  /** The elapsed time is measured modulo 2^32, so a report is due again across
      a wrap of the millisecond clock. */
  lemma RateLimitAcrossClockWrap(lib: LibraryBuild, s: Sniffer, cap: Capture)
    requires s.receiver.Some? && s.config.rateLimitMs == 500 && WellFormed(lib, cap)
    requires s.lastLogMs == UINT32_LIMIT - 100
    ensures Loop(lib, s, Some(cap), 400).0.lastLogMs == 400
    ensures Loop(lib, s, Some(cap), 399).1 == [Resumed]
  {
  }

  /** The hex code line and the array line show the same bytes: the array
      entries parse back to exactly what the hex decodes to. */
  lemma ReportViewsAgree(lib: LibraryBuild, cap: Capture, n: nat)
    requires WellFormed(lib, cap) && 0 < n <= lib.stateSizeMax
    ensures DecodeHex(FormatStateHex(lib, cap.state, n)) == Some(cap.state[..n])
    ensures StateArrayLine(lib, cap.state, n).Some?
    ensures exists count, entries ::
      && StateArrayLine(lib, cap.state, n).value == ArrayPrefix + count + ArrayOpen + entries + ArrayClose
      && ParseDecimal(count) == Some(n)
      && ParseArrayEntries(entries) == DecodeHex(FormatStateHex(lib, cap.state, n))
  {
    var count := NatToString(n);
    var entries := ArrayEntries(cap.state[..n]);
    NatToStringRoundTrip(n);
    ArrayEntriesRoundTrip(cap.state[..n]);
    assert StateArrayLine(lib, cap.state, n).value == ArrayPrefix + count + ArrayOpen + entries + ArrayClose;
  }
}
